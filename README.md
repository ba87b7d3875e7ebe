# Pulse connection engine in Dafny

Pulse is a small social backend. People sign up and ask each other to join their "circle". They send "moments" (a text, an emoji and an optional image) to the people they are connected with, and they reply to moments. Each person also has up to four numbered profile photos.

This project models the part of the backend that makes decisions. That part is the connection lifecycle and the authorization rules built on it.

- **Data** (`models.dfy`, module `Models`): the record shapes of users, connections, moments with their recipient rows, replies and profile photos.
  - Each table is a sequence, and a record's id is its position in it.
  - `created_at` is a store-wide clock that only moves forward, so id order is creation order.
  - Email and push notices are kept as an appended log of delivery attempts.
  - `WellFormed` states the database invariants:
    - every foreign key points at an existing row;
    - statuses are among the declared choices. This holds because the model's response view checks the answer; the source as written can store any text (see "## Findings");
    - creation times increase;
    - there is one recipient row per moment;
    - there is at most one connection record per unordered pair of users;
    - there is at most one photo per (user, slot).
- **Writes** (`views.dfy`, module `Views`): the views that change data are methods of the class `Store`. They are sign-up, connection request, response, sending a moment, replying and photo upload.
  - Every method keeps `Valid()` (the invariants above) and states its whole new state.
- **Table changes** (`transitions.dfy`, module `Transitions`): the table-level effect of a connection request, a response and a photo upload, each a function from the old table to the new one (`ConnectionsAfterRequest`, `Responded`, `PhotosAfterUpload`).
  - The methods of `Store` are proved to produce exactly these tables.
  - What the changes keep and what they touch is proved about the functions.
- **Reads** (`queries.dfy`, module `Queries`): the connection lists, the inbox, the capped activity feed and the conversation history. These are pure functions over a database value.
- **Profiles** (`serializers.dfy`, module `Serializers`): the per-viewer `connection_status` and the photos of a public profile.
- **Helpers**:
  - `base.dfy` (module `Base`) holds the option and result types and ordered filters over ids.
  - `numerals.dfy` (module `Numerals`) holds the part of Python's `int()` that reads a photo slot number.

Failures are decided before any write. A failure answers `NotFound`, `Forbidden`, `BadRequest` or `Conflict` and leaves the store unchanged.

Two behaviours of the code are worth knowing:
- The conversation history checks that the other user exists before it checks the connection. An unknown user is therefore `NotFound`, even for someone with no connections.
- Email addresses are not unique among users; usernames and invite ids are.

## Model

| member | source | states |
|---|---|---|
| Numerals.ParseInt | backend/api/views.py:296-301 | a slot text is read as an integer exactly when it is an optional sign followed by at least one and at most 4300 digits (Python's default limit on integer text); the value is that of the digits, negated after a minus sign |
| Numerals.ParseShowInt | backend/api/views.py:297 | reading back the decimal text of any integer that `str()` renders (at most 4300 digits) gives that integer |
| Models.StatusFromText | backend/core/models.py:15-22 | the status stored for a text has that text as its name; it is one of the three choices exactly when the text is PENDING, ACCEPTED or REJECTED |
| Models.StatusNameRoundTrip | backend/core/models.py:15-22 | each of the three choices is recovered from its stored text |
| Models.SavedInviteId | backend/core/models.py:9-12 | after saving, a user's invite id is never empty; one already set is kept; an empty one becomes 8 characters, each the upper-cased character of the generated UUID text |
| Models.SavedInviteIdStable | backend/core/models.py:9-12 | saving a user again never changes the invite id chosen the first time |
| Models.FirstBetween | backend/api/views.py:87-90 | the pair lookup finds a record joining the two users in either direction, with no lower id joining them, and finds nothing exactly when no record joins them |
| Models.FirstBetweenSymmetric | backend/api/views.py:87-90 | the lookup gives the same record whichever of the two users asks |
| Models.Connected | backend/api/views.py:167-171 | the connection guard (an ACCEPTED record between the two users, in either direction) holds only for a pair the request view's lookup finds a record for |
| Models.ConnectedSymmetric | backend/api/views.py:167-171 | the connection guard holds for (a, b) exactly when it holds for (b, a) |
| Models.OnlyRecordOfPair | backend/core/models.py:25-26 | with one record per unordered pair, two records joining the same users are the same record |
| Models.ConnectedIffRecordAccepted | backend/api/views.py:167-171 | with one record per pair, the guard holds exactly when the pair's record is ACCEPTED |
| Models.UniquePairsKeepOrderedPairsUnique | backend/core/models.py:25-26 | one record per unordered pair implies the stored (requester, receiver) uniqueness constraint |
| Serializers.ConnectionStatusLabel | backend/api/serializers.py:33-45 | the label is NONE without a viewer and when no record joins the pair; otherwise it is the stored status of the pair's record; while statuses are among the choices it is one of NONE, PENDING, ACCEPTED, REJECTED |
| Serializers.StatusLabelSymmetric | backend/api/serializers.py:38-41 | both users of a pair see the same label on each other's profile |
| Serializers.StatusLabelAcceptedIffConnected | backend/api/serializers.py:38-45 | a profile shows ACCEPTED exactly when the viewer and the owner pass the connection guard |
| Serializers.PhotoInSlot | backend/api/views.py:303-306 | the (user, slot) lookup finds a photo of that user in that slot with no lower id in it, and finds nothing exactly when the slot is empty |
| Serializers.ProfilePhotos | backend/core/models.py:53-54 | a profile lists only the owner's photos, in strictly ascending slot order, and all of them under the slot constraints |
| Serializers.ShowProfile | backend/api/serializers.py:25-45 | an unknown user is NotFound; otherwise the profile carries the user's id, name and avatar, the viewer's connection label, and exactly the owner's photos in ascending slot order |
| Queries.ReceivedByOwnRow | backend/core/models.py:35-38 | a moment is received by a user exactly when its own recipient row names that user, so the join never lists a moment twice |
| Queries.ConnectionList | backend/api/views.py:147-152 | with status PENDING the list holds exactly the pending requests sent to the caller; with any other value or none, exactly the accepted records on either side |
| Queries.AcceptedListMatchesGuard | backend/api/views.py:152 | the caller's accepted list holds a record with another user exactly when the two pass the connection guard |
| Queries.Inbox | backend/api/views.py:206-208 | the inbox holds exactly the moments the caller received, newest first |
| Queries.ActivityFeed | backend/api/views.py:250-265 | the feed is the three independently capped lists: received moments, replies to the caller's moments and pending requests to the caller |
| Queries.RecentMoments | backend/api/views.py:257 | the feed's moments are at most 10 moments the caller received, newest first; one received is left out only when the list is full and it is older than every one shown; under the table invariant, newest first is also by creation time |
| Queries.RecentReplies | backend/api/views.py:258 | the feed's replies are at most 10 replies written by others to the caller's moments, newest first; one is left out only when the list is full and it is older than every one shown; under the table invariant, newest first is also by creation time |
| Queries.RecentRequests | backend/api/views.py:259 | the feed's requests are at most 5 pending requests to the caller, newest first; one is left out only when the list is full and it is older than every one shown; under the table invariant, newest first is also by creation time |
| Queries.Conversation | backend/api/views.py:268-286 | an unknown user is NotFound, checked first; an unconnected one is Forbidden; otherwise the result is exactly the moments sent between the two users, each once, oldest first |
| Queries.ConversationSymmetric | backend/api/views.py:280-284 | either user of the pair gets the same history in the same order |
| Transitions.RequestTransition | backend/api/views.py:92-105 | a REJECTED record is reopened as PENDING from the caller to the target; a request pending towards the caller is accepted and keeps its direction; the caller's own pending request and an accepted record are unchanged; a record whose status is outside the choices is unchanged; a request never leaves a pair REJECTED |
| Transitions.ConnectionsAfterRequest | backend/api/views.py:86-110 | a pair with no record gets one new PENDING record from caller to target appended; a pair with a record has that record, and no other, replaced by its transition |
| Transitions.RequestTouchesOnlyThePair | backend/api/views.py:86-110 | a request leaves the records of every other pair unchanged, and every record keeps its pair and creation time |
| Transitions.RequestKeepsPairsUnique | backend/core/models.py:25-26 | requests processed one at a time keep at most one record per unordered pair |
| Transitions.RequestLeavesPendingOrAccepted | backend/api/views.py:92-110 | after a request the pair has a record, and it is ACCEPTED or a PENDING request from the caller to the target |
| Transitions.RequestNotices | backend/api/views.py:112-127 | a new request sends the receiver exactly two notices about it: an email, then a push |
| Transitions.MutualRequestsConnect | backend/api/views.py:100-104 | a request answered by a request back from the other user leaves a single ACCEPTED record and the pair connected, also when both are the same user |
| Transitions.RequestKeepsConnectionTable | backend/api/views.py:86-110 | a request between existing users keeps the connection table's invariants (users exist, statuses are choices, creation order, one record per pair); the clock moves only when a record is created |
| Transitions.MomentNotices | backend/api/views.py:184-199 | a new moment sends the receiver exactly two notices about it: an email, then a push |
| Transitions.SentMomentHeadsInbox | backend/api/views.py:174-182 | a moment just sent is the first entry of its receiver's inbox |
| Transitions.Decision | backend/api/views.py:134 | only ACCEPTED and REJECTED are accepted as answers, and an accepted answer is stored under its own name |
| Transitions.RespondAsWritten | backend/api/views.py:133-142 | as written, only the record's receiver can answer, anyone else gets NotFound; otherwise only the record's status changes, to the status stored for the text sent: one of the choices for PENDING, ACCEPTED or REJECTED, otherwise the text itself |
| Transitions.RespondAsWrittenAcceptedConnects | backend/api/views.py:140-141 | as written, an ACCEPTED answer by the receiver stores the ACCEPTED choice, so the pair then passes the connection guard |
| Transitions.RespondAsWrittenShowsUnknownStatus | backend/api/views.py:140 | as written, the answer "MAYBE" is stored, and profiles then show a status outside the four labels |
| Transitions.Responded | backend/api/views.py:133-142 | only the receiver can answer, anyone else gets NotFound; an answer other than ACCEPTED or REJECTED is BadRequest; the receiver's ACCEPTED or REJECTED always succeeds, and only that record's status changes, and statuses stay among the choices |
| Transitions.RespondedTouchesOnlyTheRecord | backend/api/views.py:140-141 | a checked response changes no other record, and statuses that were among the choices stay so |
| Transitions.RespondedKeepsConnectionTable | backend/api/views.py:133-142 | a checked response keeps the connection table's invariants |
| Transitions.RespondedShowsOnlyLabels | backend/api/serializers.py:45 | after a checked response every profile label is one of NONE, PENDING, ACCEPTED, REJECTED |
| Transitions.PhotoSlot | backend/api/views.py:291-301 | a missing slot means slot 1; a present one must read as an integer from 1 to 4, and that integer is the slot; anything else is BadRequest |
| Transitions.PhotoSlotRefusesLongText | backend/api/views.py:296-301 | a slot written with more than 4300 digits, leading zeros included and with or without a plus sign, is BadRequest |
| Transitions.PhotoSlotRefusesMalformed | backend/api/views.py:296-301 | "1x", "+", the empty text, "5" and "-1" are BadRequest; "+3" is slot 3 |
| Transitions.PhotoSlotReadsWrittenSlot | backend/api/views.py:296-298 | each slot from 1 to 4, written in decimal, is accepted as that slot |
| Transitions.PhotosAfterUpload | backend/api/views.py:303-308 | an empty slot gets a new photo appended; in an occupied slot that photo, and no other, has its image replaced |
| Transitions.UploadTouchesOnlyTheSlot | backend/api/views.py:303-308 | photos of other slots and users are untouched, and every photo keeps its owner, slot and creation time |
| Transitions.UploadFillsTheSlot | backend/api/views.py:303-308 | after an upload the user's slot holds a photo with the new image |
| Transitions.UploadKeepsOnePhotoPerSlot | backend/core/models.py:55 | uploads keep at most one photo per (user, slot) |
| Transitions.UploadKeepsPhotoTable | backend/core/models.py:47-55 | an upload by an existing user to a slot from 1 to 4 keeps the photo table's invariants; the clock moves only when a photo is created |
| Views.Store.Signup | backend/api/serializers.py:11-18 | a taken username is BadRequest; otherwise the user is added with the given avatar or the default one and an 8-character invite id; a clashing invite id is Conflict; a welcome email is logged |
| Views.Store.RequestConnection | backend/api/views.py:78-129 | an unknown receiver is NotFound with nothing changed; otherwise the connection table becomes ConnectionsAfterRequest; the answer says created exactly when the pair had no record; notices are logged only then |
| Views.Store.Respond | backend/api/views.py:131-142 | the outcome and the new connection table are those of Responded; a failure changes nothing |
| Views.Store.SendMoment | backend/api/views.py:154-201 | an unknown receiver is NotFound and an unconnected one is Forbidden, both changing nothing; otherwise exactly one moment from the caller and one recipient row for the receiver are added, and an email and a push notice are logged |
| Views.Store.ReplyToMoment | backend/api/views.py:210-248 | an unknown moment is NotFound; a caller who is neither the sender nor connected to them is Forbidden; otherwise one reply is added, and the sender gets a push notice only when someone else replied |
| Views.Store.UploadPhoto | backend/api/views.py:288-310 | no image or a bad slot is BadRequest with nothing changed; otherwise the photo table becomes PhotosAfterUpload, and the answer says created exactly when the slot was empty |
| Views.Store.SaveToSlot | backend/api/views.py:303-308 | `update_or_create` on (user, slot): the photo table becomes PhotosAfterUpload, the answer names the slot's photo, created exactly when the slot was empty, and the invariants hold |

## Left out

- Email and push delivery. The model logs each attempt as a notice (recipient, topic, channel). Delivery, message text, the push-token check before sending and swallowed delivery failures are not modelled.
- Login, token issuance and password hashing: these are library authentication code. The caller of every view is an existing user id.
- Image storage: moment images are present or absent, and photo images are opaque text.
- User search, the own-profile view, device token registration, URL routing, the health check and the ASGI entry point are not part of this model.
- Photo delete: the view refers to a variable it never defines, so it has no behaviour to state.
- Deletes in general, and so cascading deletes: no modelled view deletes anything. The foreign keys are stated as invariants instead.
- Races between concurrent requests: the model processes one request at a time. One record per unordered pair is proved for that order only.
- Serializer output beyond `connection_status` and the profile photos: this is output formatting.
- Invite-id randomness: the generated UUID text is a parameter.
- Missing text, emoji or response `status` values reach the database as NULL and fail there. That failure is not modelled, and the model takes those fields as given.
- A missing `receiver_id`, `connection_id` or `parent_moment_id` finds no record and is answered NotFound (backend/api/views.py:81-84, 135-138, 216-219). The model's NotFound for an id outside the table stands for that case. A missing image is the `None` image, answered BadRequest.
- A non-numeric parent moment id in a reply is an unhandled error in the source (backend/api/views.py:218-220 catch only the missing moment), so the model takes that id as an integer.
- A non-numeric receiver id in a connection request or a moment is answered NotFound by the source (backend/api/views.py:81-84, 157-160); the model's NotFound for an id outside the user table stands for that case too. Ids in URLs are integers by routing.
- Numerals.ParseInt: does not accept surrounding whitespace, underscores between digits or non-ASCII digits, which Python's `int()` also accepts. The 4300-digit limit is Python's default; a limit changed at run time is not modelled.
- Field lengths (`max_length`) are not modelled.
- Queries.ConnectionList: the source sets no order for this list, and the model lists by id.
- Views.Store.Signup: the serializer's own field validation is not modelled. A username with characters outside Django's username validator, a malformed email and a client-supplied `invite_id` that is already taken (the field is writable, backend/api/serializers.py:8) are all answered 400 by the source; the model adds the user in those cases. `create_user` also normalises the stored username and email, which the model stores as given.
- Views.Store.Signup: a sign-up without an email passes validation and then fails with a KeyError in `UserSerializer.create` (backend/api/serializers.py:14). That is a server error that creates no user; the model takes the email as given.
- Views.Store.Signup: the database error raised when a generated invite id clashes with an existing one is modelled as the `Conflict` result.

## Findings

| source | as written | input that shows it | evidently intended | confidence | as-written member | corrected member |
|---|---|---|---|---|---|---|
| backend/api/views.py:140 | the response stores whatever `status` text the request carries, unchecked | the receiver of a PENDING record answers with status "MAYBE" | only ACCEPTED or REJECTED are accepted (the comment at line 134), and anything else is refused | not executed | Transitions.RespondAsWritten, Transitions.RespondAsWrittenShowsUnknownStatus | Transitions.Responded, Transitions.RespondedShowsOnlyLabels |
