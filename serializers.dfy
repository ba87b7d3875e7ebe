/** What the API shows of another user (backend/api/serializers.py): the
    per-viewer `connection_status` and the profile photos in slot order. */
module Serializers {
  import opened Base
  import opened Models

  /** The status shown when viewer and owner share no record. */
  const NoneLabel: string := "NONE"

  /** Every label a profile can show while statuses stay among the choices. */
  const Labels: set<string> := {NoneLabel, "PENDING", "ACCEPTED", "REJECTED"}

  /** `connection_status` of the profile of `owner` as `viewer` sees it;
      viewer None stands for a serializer without a request in its context
      or an anonymous viewer. */
  function ConnectionStatusLabel(conns: seq<Connection>, viewer: Option<UserId>, owner: UserId): (r: string)
    ensures viewer.None? ==> r == NoneLabel
    ensures viewer.Some? && (forall j :: 0 <= j < |conns| ==> !Links(conns[j], viewer.value, owner)) ==>
      r == NoneLabel
    ensures viewer.Some? && UniquePairs(conns) ==>
      forall k :: 0 <= k < |conns| && Links(conns[k], viewer.value, owner) ==> r == StatusName(conns[k].status)
    ensures (forall j :: 0 <= j < |conns| ==> IsChoice(conns[j].status)) ==> r in Labels
  {
    if viewer.None? then NoneLabel
    else
      match FirstBetween(conns, viewer.value, owner)
      case None => NoneLabel
      case Some(i) =>
        assert forall k :: 0 <= k < |conns| && Links(conns[k], viewer.value, owner) && UniquePairs(conns) ==> k == i by {
          forall k | 0 <= k < |conns| && Links(conns[k], viewer.value, owner) && UniquePairs(conns)
            ensures k == i
          {
            OnlyRecordOfPair(conns, viewer.value, owner, k, i);
          }
        }
        StatusName(conns[i].status)
  }

  /** Both parties of a pair see the same status on each other's profile. */
  lemma StatusLabelSymmetric(conns: seq<Connection>, a: UserId, b: UserId)
    ensures ConnectionStatusLabel(conns, Some(a), b) == ConnectionStatusLabel(conns, Some(b), a)
  {
    FirstBetweenSymmetric(conns, a, b);
  }

  /** With one record per pair and statuses among the choices, a profile
      shows ACCEPTED exactly when the two users pass the connection guard. */
  lemma StatusLabelAcceptedIffConnected(conns: seq<Connection>, a: UserId, b: UserId)
    requires UniquePairs(conns)
    requires forall j :: 0 <= j < |conns| ==> IsChoice(conns[j].status)
    ensures ConnectionStatusLabel(conns, Some(a), b) == "ACCEPTED" <==> Connected(conns, a, b)
  {
    ConnectedIffRecordAccepted(conns, a, b);
  }

  predicate InSlot(p: ProfilePhoto, owner: UserId, slot: nat) {
    p.user == owner && p.order == slot
  }

  /** The lowest-id photo of `owner` in `slot`, if any; with one photo per
      slot it is the only one. */
  function PhotoInSlot(photos: seq<ProfilePhoto>, owner: UserId, slot: nat): (r: Option<nat>)
    ensures r.Some? ==> r.value < |photos| && InSlot(photos[r.value], owner, slot)
    ensures r.Some? ==> forall j :: 0 <= j < r.value ==> !InSlot(photos[j], owner, slot)
    ensures r.None? <==> forall j :: 0 <= j < |photos| ==> !InSlot(photos[j], owner, slot)
  {
    if photos == [] then None
    else if InSlot(photos[0], owner, slot) then Some(0)
    else
      match PhotoInSlot(photos[1..], owner, slot)
      case None =>
        assert forall j :: 1 <= j < |photos| ==> photos[j] == photos[1..][j - 1];
        None
      case Some(i) =>
        assert forall j :: 1 <= j < i + 1 ==> photos[j] == photos[1..][j - 1];
        Some(i + 1)
  }

  /** The photos of `owner` in slots `slot` and above, in slot order. */
  function PhotosFromSlot(photos: seq<ProfilePhoto>, owner: UserId, slot: nat): (r: seq<nat>)
    ensures forall i :: 0 <= i < |r| ==>
      r[i] < |photos| && photos[r[i]].user == owner && slot <= photos[r[i]].order <= LastPhotoSlot
    ensures forall i, j :: 0 <= i < j < |r| ==> photos[r[i]].order < photos[r[j]].order
    ensures OnePhotoPerSlot(photos) ==>
      forall k :: 0 <= k < |photos| && photos[k].user == owner && slot <= photos[k].order <= LastPhotoSlot ==> k in r
    decreases LastPhotoSlot + 1 - slot
  {
    if slot > LastPhotoSlot then []
    else
      var rest := PhotosFromSlot(photos, owner, slot + 1);
      match PhotoInSlot(photos, owner, slot)
      case None => rest
      case Some(i) => [i] + rest
  }

  /** `profile_photos`: the owner's photos, ordered by slot as the photo
      table's default ordering gives them. */
  function ProfilePhotos(photos: seq<ProfilePhoto>, owner: UserId): (r: seq<nat>)
    ensures forall i :: 0 <= i < |r| ==> r[i] < |photos| && photos[r[i]].user == owner
    ensures forall i, j :: 0 <= i < j < |r| ==> photos[r[i]].order < photos[r[j]].order
    ensures OnePhotoPerSlot(photos) && (forall k :: 0 <= k < |photos| ==> FirstPhotoSlot <= photos[k].order <= LastPhotoSlot) ==>
      forall k :: 0 <= k < |photos| && photos[k].user == owner ==> k in r
  {
    PhotosFromSlot(photos, owner, FirstPhotoSlot)
  }

  datatype PublicProfile = PublicProfile(
    id: UserId,
    username: string,
    avatar: string,
    connectionStatus: string,
    photos: seq<nat>)

  /** The public profile of user `ownerId` as `viewer` sees it; an unknown
      id is NotFound. */
  function ShowProfile(db: Db, viewer: Option<UserId>, ownerId: int): (r: Result<PublicProfile>)
    ensures !(0 <= ownerId < |db.users|) <==> r == Err(NotFound)
    ensures 0 <= ownerId < |db.users| ==> r.Ok?
    ensures r.Ok? ==> r.value.avatar == db.users[ownerId].avatar
    // the photos are listed as the photo table's slot ordering gives them
    ensures r.Ok? ==> r.value.photos == ProfilePhotos(db.photos, ownerId)
    ensures r.Ok? ==> forall i, j :: 0 <= i < j < |r.value.photos| ==>
      db.photos[r.value.photos[i]].order < db.photos[r.value.photos[j]].order
    ensures r.Ok? ==> r.value.id == ownerId && r.value.username == db.users[ownerId].username
    ensures r.Ok? ==> r.value.connectionStatus == ConnectionStatusLabel(db.connections, viewer, ownerId)
    ensures r.Ok? && WellFormed(db) ==>
      && r.value.connectionStatus in Labels
      && forall k :: 0 <= k < |db.photos| ==> (k in r.value.photos <==> db.photos[k].user == ownerId)
  {
    if !(0 <= ownerId < |db.users|) then Err(NotFound)
    else
      var u := db.users[ownerId];
      Ok(PublicProfile(ownerId, u.username, u.avatar,
                       ConnectionStatusLabel(db.connections, viewer, ownerId),
                       ProfilePhotos(db.photos, ownerId)))
  }
}
