/** The state-changing views of backend/api/views.py as methods of a
    store: sign-up, connection request and response, sending a moment,
    replying to one and uploading a profile photo. Each reads the store,
    decides, writes and answers; every failure is decided before any
    write and changes nothing. */
module Views {
  import opened Base
  import opened Models
  import opened Serializers
  import opened Transitions

  /** What a successful write answers: the record's id and whether it was
      created (201) rather than updated (200). */
  datatype Saved = Saved(id: nat, created: bool)

  predicate UsernameTaken(users: seq<User>, username: string) {
    exists i :: 0 <= i < |users| && users[i].username == username
  }

  predicate InviteIdTaken(users: seq<User>, inviteId: string) {
    exists i :: 0 <= i < |users| && users[i].inviteId == inviteId
  }

  /** The backend's database and the views that change it. */
  class Store {
    var users: seq<User>
    var connections: seq<Connection>
    var moments: seq<Moment>
    var recipients: seq<MomentRecipient>
    var replies: seq<Reply>
    var photos: seq<ProfilePhoto>
    var outbox: seq<Notification>
    var clock: nat

    function State(): Db
      reads this
    {
      Db(users, connections, moments, recipients, replies, photos, outbox, clock)
    }

    ghost predicate Valid()
      reads this
    {
      WellFormed(State())
    }

    constructor ()
      ensures Valid()
      ensures State() == Db([], [], [], [], [], [], [], 0)
    {
      users, connections, moments, recipients := [], [], [], [];
      replies, photos, outbox, clock := [], [], [], 0;
    }

    /** SignupView with UserSerializer.create and User.save: a taken
        username is refused; the new user gets the default avatar when none
        is given and a generated invite id; a welcome email is sent. */
    method Signup(username: string, email: string, avatar: Option<string>, uuidText: string) returns (r: Result<UserId>)
      requires Valid()
      requires |uuidText| >= InviteIdLength
      modifies this
      ensures Valid()
      ensures UsernameTaken(old(users), username) ==> r == Err(BadRequest) && State() == old(State())
      ensures !UsernameTaken(old(users), username) && InviteIdTaken(old(users), SavedInviteId("", uuidText)) ==>
        r == Err(Conflict) && State() == old(State())
      ensures !UsernameTaken(old(users), username) && !InviteIdTaken(old(users), SavedInviteId("", uuidText)) ==>
        var id := |old(users)|;
        && r == Ok(id)
        && State() == old(State()).(
             users := old(users) + [User(username, email, SavedInviteId("", uuidText),
                                         if avatar.Some? then avatar.value else DefaultAvatar)],
             outbox := old(outbox) + [Notification(id, Welcome, Email)])
    {
      ghost var before := State();
      if UsernameTaken(users, username) {
        return Err(BadRequest);
      }
      var user := User(username, email, "", if avatar.Some? then avatar.value else DefaultAvatar);
      // User.save fills in an empty invite id before the row is written
      user := user.(inviteId := SavedInviteId(user.inviteId, uuidText));
      if InviteIdTaken(users, user.inviteId) {
        return Err(Conflict);
      }
      var id := |users|;
      ghost var after := before.(
        users := users + [user],
        outbox := outbox + [Notification(id, Welcome, Email)]);
      ConnectionTableGrows(connections, |users|, clock, |after.users|, clock);
      MomentsGrow(before, after);
      RepliesGrow(before, after);
      PhotoTableGrows(photos, |users|, clock, |after.users|, clock);
      assert WellFormed(after);
      users := users + [user];
      outbox := outbox + [Notification(id, Welcome, Email)];
      r := Ok(id);
      assert State() == after;
    }

    /** ConnectionRequestView.post. An unknown receiver is NotFound; a pair
        without a record gets a new PENDING one and the only notices this
        view sends; a pair with a record goes through RequestTransition. */
    method RequestConnection(caller: UserId, receiverId: int) returns (r: Result<Saved>)
      requires Valid() && caller < |users|
      modifies this
      ensures Valid()
      ensures !(0 <= receiverId < |old(users)|) ==> r == Err(NotFound) && State() == old(State())
      ensures 0 <= receiverId < |old(users)| ==>
        var found := FirstBetween(old(connections), caller, receiverId);
        && r == Ok(Saved(if found.Some? then found.value else |old(connections)|, found.None?))
        && State() == old(State()).(
             connections := ConnectionsAfterRequest(old(connections), caller, receiverId, old(clock)),
             outbox := old(outbox) + (if found.None? then RequestNotices(receiverId) else []),
             clock := old(clock) + (if found.None? then 1 else 0))
    {
      if !(0 <= receiverId < |users|) {
        return Err(NotFound);
      }
      var receiver: UserId := receiverId;
      ghost var before := State();
      var existing := FirstBetween(connections, caller, receiver);
      ghost var after := before.(
        connections := ConnectionsAfterRequest(connections, caller, receiver, clock),
        outbox := outbox + (if existing.None? then RequestNotices(receiver) else []),
        clock := if existing.None? then clock + 1 else clock);
      RequestKeepsConnectionTable(connections, |users|, clock, caller, receiver);
      MomentsGrow(before, after);
      RepliesGrow(before, after);
      PhotoTableGrows(photos, |users|, clock, |users|, after.clock);
      assert WellFormed(after);
      if existing.Some? {
        // the pair's record is changed in place
        var i := existing.value;
        connections := connections[i := RequestTransition(connections[i], caller, receiver)];
        r := Ok(Saved(i, false));
      } else {
        var id := |connections|;
        connections := connections + [Connection(caller, receiver, DefaultStatus, clock)];
        clock := clock + 1;
        outbox := outbox + RequestNotices(receiver);
        r := Ok(Saved(id, true));
      }
      assert State() == after;
    }

    /** ConnectionRespondView.post, with the decision checked: only the
        record's receiver may answer (anyone else gets NotFound), the
        answer must be ACCEPTED or REJECTED, and only that record's status
        changes. */
    method Respond(caller: UserId, connectionId: int, decision: string) returns (r: Result<ConnectionId>)
      requires Valid() && caller < |users|
      modifies this
      ensures Valid()
      ensures var outcome := Responded(old(connections), caller, connectionId, decision);
        if outcome.Err? then r == Err(outcome.error) && State() == old(State())
        else r == Ok(connectionId) && State() == old(State()).(connections := outcome.value)
    {
      if !(0 <= connectionId < |connections| && connections[connectionId].receiver == caller) {
        return Err(NotFound);
      }
      var d := Decision(decision);
      if d.None? {
        return Err(BadRequest);
      }
      RespondedKeepsConnectionTable(connections, |users|, clock, caller, connectionId, decision);
      connections := connections[connectionId := connections[connectionId].(status := d.value)];
      r := Ok(connectionId);
    }

    /** MomentSendView.post: an unknown receiver is NotFound; without an
        ACCEPTED connection it is Forbidden; otherwise one moment and its
        one recipient row are added and the receiver is notified. */
    method SendMoment(caller: UserId, receiverId: int, text: string, emoji: string, image: Option<string>)
      returns (r: Result<MomentId>)
      requires Valid() && caller < |users|
      modifies this
      ensures Valid()
      ensures !(0 <= receiverId < |old(users)|) ==> r == Err(NotFound) && State() == old(State())
      ensures 0 <= receiverId < |old(users)| && !Connected(old(connections), caller, receiverId) ==>
        r == Err(Forbidden) && State() == old(State())
      ensures 0 <= receiverId < |old(users)| && Connected(old(connections), caller, receiverId) ==>
        var id := |old(moments)|;
        && r == Ok(id)
        && State() == old(State()).(
             moments := old(moments) + [Moment(caller, text, emoji, image, old(clock))],
             recipients := old(recipients) + [MomentRecipient(id, receiverId, None)],
             outbox := old(outbox) + MomentNotices(receiverId),
             clock := old(clock) + 1)
    {
      if !(0 <= receiverId < |users|) {
        return Err(NotFound);
      }
      var receiver: UserId := receiverId;
      if !Connected(connections, caller, receiver) {
        return Err(Forbidden);
      }
      ghost var before := State();
      var id := |moments|;
      ghost var after := before.(
        moments := moments + [Moment(caller, text, emoji, image, clock)],
        recipients := recipients + [MomentRecipient(id, receiver, None)],
        outbox := outbox + MomentNotices(receiver),
        clock := clock + 1);
      ConnectionTableGrows(connections, |users|, clock, |users|, after.clock);
      RepliesGrow(before, after);
      PhotoTableGrows(photos, |users|, clock, |users|, after.clock);
      assert WellFormed(after);
      moments := moments + [Moment(caller, text, emoji, image, clock)];
      recipients := recipients + [MomentRecipient(id, receiver, None)];
      clock := clock + 1;
      outbox := outbox + MomentNotices(receiver);
      r := Ok(id);
      assert State() == after;
    }

    /** MomentReplyView.post: an unknown moment is NotFound; only its sender
        or someone connected to the sender may reply; the sender gets a push
        notice unless they reply to themselves. */
    method ReplyToMoment(caller: UserId, parentId: int, text: string, emoji: string) returns (r: Result<nat>)
      requires Valid() && caller < |users|
      modifies this
      ensures Valid()
      ensures !(0 <= parentId < |old(moments)|) ==> r == Err(NotFound) && State() == old(State())
      ensures 0 <= parentId < |old(moments)| ==>
        var author := old(moments)[parentId].sender;
        if !(author == caller || Connected(old(connections), caller, author)) then
          r == Err(Forbidden) && State() == old(State())
        else
          && r == Ok(|old(replies)|)
          && State() == old(State()).(
               replies := old(replies) + [Reply(parentId, caller, text, emoji, old(clock))],
               outbox := old(outbox) + (if author != caller then [Notification(author, NewReply, Push)] else []),
               clock := old(clock) + 1)
    {
      if !(0 <= parentId < |moments|) {
        return Err(NotFound);
      }
      var author := moments[parentId].sender;
      if !(author == caller || Connected(connections, caller, author)) {
        return Err(Forbidden);
      }
      ghost var before := State();
      var id := |replies|;
      ghost var after := before.(
        replies := replies + [Reply(parentId, caller, text, emoji, clock)],
        outbox := outbox + (if author != caller then [Notification(author, NewReply, Push)] else []),
        clock := clock + 1);
      ConnectionTableGrows(connections, |users|, clock, |users|, after.clock);
      MomentsGrow(before, after);
      PhotoTableGrows(photos, |users|, clock, |users|, after.clock);
      assert WellFormed(after);
      replies := replies + [Reply(parentId, caller, text, emoji, clock)];
      clock := clock + 1;
      if author != caller {
        outbox := outbox + [Notification(author, NewReply, Push)];
      }
      r := Ok(id);
      assert State() == after;
    }

    /** ProfilePhotoUploadView.post: no image, or an order that is not an
        integer from 1 to 4, is BadRequest; otherwise the caller's photo in
        that slot is replaced, or created when the slot was empty. */
    method UploadPhoto(caller: UserId, image: Option<string>, order: Option<string>) returns (r: Result<Saved>)
      requires Valid() && caller < |users|
      modifies this
      ensures Valid()
      ensures image.None? || PhotoSlot(order).Err? ==> r == Err(BadRequest) && State() == old(State())
      ensures image.Some? && PhotoSlot(order).Ok? ==>
        var slot := PhotoSlot(order).value;
        var here := PhotoInSlot(old(photos), caller, slot);
        && r == Ok(if here.None? then Saved(|old(photos)|, true) else Saved(here.value, false))
        && State() == old(State()).(
             photos := PhotosAfterUpload(old(photos), caller, image.value, slot, old(clock)),
             clock := old(clock) + (if here.None? then 1 else 0))
    {
      if image.None? {
        return Err(BadRequest);
      }
      var slot := PhotoSlot(order);
      if slot.Err? {
        return Err(BadRequest);
      }
      var saved := SaveToSlot(caller, image.value, slot.value);
      r := Ok(saved);
    }

    /** `update_or_create` on (user, slot): the caller's photo in the slot
        gets the new image, or a photo is created when the slot is empty. */
    method SaveToSlot(caller: UserId, image: string, slot: nat) returns (saved: Saved)
      requires Valid() && caller < |users| && FirstPhotoSlot <= slot <= LastPhotoSlot
      modifies this
      ensures Valid()
      ensures var here := PhotoInSlot(old(photos), caller, slot);
        && saved == (if here.None? then Saved(|old(photos)|, true) else Saved(here.value, false))
        && State() == old(State()).(
             photos := PhotosAfterUpload(old(photos), caller, image, slot, old(clock)),
             clock := old(clock) + (if here.None? then 1 else 0))
    {
      ghost var before := State();
      var here := PhotoInSlot(photos, caller, slot);
      ghost var after := before.(
        photos := PhotosAfterUpload(photos, caller, image, slot, clock),
        clock := if here.None? then clock + 1 else clock);
      UploadKeepsPhotoTable(photos, |users|, clock, caller, image, slot);
      ConnectionTableGrows(connections, |users|, clock, |users|, after.clock);
      MomentsGrow(before, after);
      RepliesGrow(before, after);
      assert WellFormed(after);
      if here.Some? {
        var i := here.value;
        photos := photos[i := photos[i].(image := image)];
        assert photos == after.photos && clock == after.clock;
        saved := Saved(i, false);
      } else {
        var id := |photos|;
        photos := photos + [ProfilePhoto(caller, image, slot, clock)];
        clock := clock + 1;
        assert photos == after.photos && clock == after.clock;
        saved := Saved(id, true);
      }
      assert users == before.users && connections == before.connections && outbox == before.outbox;
      assert State() == after;
    }
  }
}
