/** The record shapes of the backend's data model (backend/core/models.py):
    users, connection requests, moments with their recipients, replies and
    profile photos, plus the notification log. A table is a sequence and a
    record's id is its position in it; `created_at` is a store-wide clock
    that only moves forward. */
module Models {
  import opened Base

  type UserId = nat
  type ConnectionId = nat
  type MomentId = nat

  /** The account fields the modelled views read or write. The password,
      names and staff flags of the framework's user are left out. */
  datatype User = User(
    username: string,
    email: string,
    inviteId: string,
    avatar: string)

  /** The avatar a user gets when none is supplied. */
  const DefaultAvatar: string := "\U{1F60A}"

  /** Length of a generated invite id. */
  const InviteIdLength: nat := 8

  /** A connection's status. The declared choices are PENDING, ACCEPTED and
      REJECTED; `Other` stands for any other text the column can be made to
      hold, since the choices are not enforced when a record is saved. */
  datatype Status = Pending | Accepted | Rejected | Other(text: string)

  /** The status a newly created connection gets. */
  const DefaultStatus: Status := Pending

  predicate IsChoice(s: Status) {
    !s.Other?
  }

  /** The text stored in the status column. */
  function StatusName(s: Status): string {
    match s
    case Pending => "PENDING"
    case Accepted => "ACCEPTED"
    case Rejected => "REJECTED"
    case Other(t) => t
  }

  /** The status whose stored text is t. */
  function StatusFromText(t: string): (s: Status)
    ensures StatusName(s) == t
    ensures IsChoice(s) <==> t == "PENDING" || t == "ACCEPTED" || t == "REJECTED"
  {
    if t == "PENDING" then Pending
    else if t == "ACCEPTED" then Accepted
    else if t == "REJECTED" then Rejected
    else Other(t)
  }

  lemma StatusNameRoundTrip(s: Status)
    requires IsChoice(s)
    ensures StatusFromText(StatusName(s)) == s
  {
  }

  /** A directed request between two users; the pair, in either order,
      is one relationship. */
  datatype Connection = Connection(
    requester: UserId,
    receiver: UserId,
    status: Status,
    createdAt: nat)

  datatype Moment = Moment(
    sender: UserId,
    text: string,
    emoji: string,
    image: Option<string>,
    createdAt: nat)

  /** Fan-out row: who a moment was sent to. */
  datatype MomentRecipient = MomentRecipient(
    moment: MomentId,
    receiver: UserId,
    readAt: Option<nat>)

  datatype Reply = Reply(
    parentMoment: MomentId,
    sender: UserId,
    text: string,
    emoji: string,
    createdAt: nat)

  /** One of a user's numbered profile photo slots. */
  datatype ProfilePhoto = ProfilePhoto(
    user: UserId,
    image: string,
    order: nat,
    createdAt: nat)

  const FirstPhotoSlot: nat := 1
  const LastPhotoSlot: nat := 4

  datatype Channel = Email | Push
  datatype Topic = Welcome | ConnectionRequest | NewMoment | NewReply

  /** An attempted delivery; delivery itself is outside the model. */
  datatype Notification = Notification(to: UserId, topic: Topic, channel: Channel)

  /** The whole database, table by table, with the creation clock. */
  datatype Db = Db(
    users: seq<User>,
    connections: seq<Connection>,
    moments: seq<Moment>,
    recipients: seq<MomentRecipient>,
    replies: seq<Reply>,
    photos: seq<ProfilePhoto>,
    outbox: seq<Notification>,
    clock: nat)

  // ---------------------------------------------------------------------
  // Invite ids (User.save)

  predicate IsLowerAscii(c: char) {
    'a' <= c <= 'z'
  }

  function UpperAscii(c: char): (u: char)
    ensures !IsLowerAscii(u)
    ensures !IsLowerAscii(c) ==> u == c
  {
    if IsLowerAscii(c) then (c as int - 'a' as int + 'A' as int) as char else c
  }

  /** The invite id a user has after being saved: an empty one is replaced
      by the first eight characters of a freshly generated UUID text, upper
      cased; one already set is kept. */
  function SavedInviteId(current: string, uuidText: string): (r: string)
    requires current == "" ==> |uuidText| >= InviteIdLength
    ensures r != ""
    ensures current != "" ==> r == current
    ensures current == "" ==> |r| == InviteIdLength
    ensures current == "" ==> forall i :: 0 <= i < |r| ==> !IsLowerAscii(r[i]) && UpperAscii(uuidText[i]) == r[i]
  {
    if current != "" then current
    else seq(InviteIdLength, i requires 0 <= i < InviteIdLength => UpperAscii(uuidText[i]))
  }

  /** Saving twice never changes the invite id chosen the first time. */
  lemma SavedInviteIdStable(current: string, uuidText: string, laterUuidText: string)
    requires current == "" ==> |uuidText| >= InviteIdLength
    ensures SavedInviteId(SavedInviteId(current, uuidText), laterUuidText) == SavedInviteId(current, uuidText)
  {
  }

  // ---------------------------------------------------------------------
  // The connection table, looked up by unordered pair

  /** c joins a and b, in either direction. */
  predicate Links(c: Connection, a: UserId, b: UserId) {
    (c.requester == a && c.receiver == b) || (c.requester == b && c.receiver == a)
  }

  /** The lowest-id record between a and b in either direction, as the
      backend's `.filter(a->b | b->a).first()` finds it. */
  function FirstBetween(conns: seq<Connection>, a: UserId, b: UserId): (r: Option<ConnectionId>)
    ensures r.Some? ==> r.value < |conns| && Links(conns[r.value], a, b)
    ensures r.Some? ==> forall j :: 0 <= j < r.value ==> !Links(conns[j], a, b)
    ensures r.None? <==> forall j :: 0 <= j < |conns| ==> !Links(conns[j], a, b)
  {
    if conns == [] then None
    else if Links(conns[0], a, b) then Some(0)
    else
      match FirstBetween(conns[1..], a, b)
      case None =>
        assert forall j :: 1 <= j < |conns| ==> conns[j] == conns[1..][j - 1];
        None
      case Some(i) =>
        assert forall j :: 1 <= j < i + 1 ==> conns[j] == conns[1..][j - 1];
        Some(i + 1)
  }

  /** Some record between a and b, in either direction, is ACCEPTED: the
      authorization guard of moments, replies and conversation history. */
  predicate Connected(conns: seq<Connection>, a: UserId, b: UserId)
    // a connected pair always has a record the pair lookup finds
    ensures Connected(conns, a, b) ==> FirstBetween(conns, a, b).Some?
  {
    exists k :: 0 <= k < |conns| && conns[k].status == Accepted && Links(conns[k], a, b)
  }

  /** At most one record per unordered pair of users. */
  ghost predicate UniquePairs(conns: seq<Connection>) {
    forall i, j :: 0 <= i < j < |conns| ==> !Links(conns[j], conns[i].requester, conns[i].receiver)
  }

  lemma ConnectedSymmetric(conns: seq<Connection>, a: UserId, b: UserId)
    ensures Connected(conns, a, b) <==> Connected(conns, b, a)
  {
  }

  /** The lookup does not depend on which of the two users asks. */
  lemma FirstBetweenSymmetric(conns: seq<Connection>, a: UserId, b: UserId)
    ensures FirstBetween(conns, a, b) == FirstBetween(conns, b, a)
  {
    var x, y := FirstBetween(conns, a, b), FirstBetween(conns, b, a);
    if x.Some? && y.Some? {
      assert Links(conns[x.value], b, a);
      assert Links(conns[y.value], a, b);
    }
  }

  /** With unique pairs, the record two users share is the only one. */
  lemma OnlyRecordOfPair(conns: seq<Connection>, a: UserId, b: UserId, i: nat, j: nat)
    requires UniquePairs(conns)
    requires i < |conns| && j < |conns|
    requires Links(conns[i], a, b) && Links(conns[j], a, b)
    ensures i == j
  {
  }

  /** With unique pairs, "connected" is exactly "the pair's record is
      ACCEPTED". */
  lemma ConnectedIffRecordAccepted(conns: seq<Connection>, a: UserId, b: UserId)
    requires UniquePairs(conns)
    ensures Connected(conns, a, b) <==>
      FirstBetween(conns, a, b).Some? && conns[FirstBetween(conns, a, b).value].status == Accepted
  {
    var f := FirstBetween(conns, a, b);
    if Connected(conns, a, b) {
      var k :| 0 <= k < |conns| && conns[k].status == Accepted && Links(conns[k], a, b);
      OnlyRecordOfPair(conns, a, b, k, f.value);
    }
  }

  /** Unique unordered pairs imply the stored (requester, receiver)
      uniqueness constraint of the connection table. */
  lemma UniquePairsKeepOrderedPairsUnique(conns: seq<Connection>)
    requires UniquePairs(conns)
    ensures forall i, j :: 0 <= i < j < |conns| ==>
      (conns[i].requester, conns[i].receiver) != (conns[j].requester, conns[j].receiver)
  {
  }

  // ---------------------------------------------------------------------
  // Database invariants

  /** Usernames and invite ids are unique and every invite id is set. */
  ghost predicate UsersWellFormed(users: seq<User>) {
    && (forall i :: 0 <= i < |users| ==> users[i].inviteId != "")
    && (forall i, j :: 0 <= i < j < |users| ==>
          users[i].username != users[j].username && users[i].inviteId != users[j].inviteId)
  }

  /** Both users of every record exist, statuses are among the choices,
      and records were created in id order before `clock`. */
  ghost predicate ConnectionTableOk(conns: seq<Connection>, userCount: nat, clock: nat) {
    && (forall i :: 0 <= i < |conns| ==>
          && conns[i].requester < userCount
          && conns[i].receiver < userCount
          && IsChoice(conns[i].status)
          && conns[i].createdAt < clock)
    && (forall i, j :: 0 <= i < j < |conns| ==> conns[i].createdAt < conns[j].createdAt)
    && UniquePairs(conns)
  }

  ghost predicate ConnectionsWellFormed(db: Db) {
    ConnectionTableOk(db.connections, |db.users|, db.clock)
  }

  /** Every moment has exactly one recipient row, at its own position. */
  ghost predicate MomentsWellFormed(db: Db) {
    && (forall i :: 0 <= i < |db.moments| ==>
          db.moments[i].sender < |db.users| && db.moments[i].createdAt < db.clock)
    && (forall i, j :: 0 <= i < j < |db.moments| ==> db.moments[i].createdAt < db.moments[j].createdAt)
    && |db.recipients| == |db.moments|
    && (forall i :: 0 <= i < |db.recipients| ==>
          db.recipients[i].moment == i && db.recipients[i].receiver < |db.users|)
  }

  ghost predicate RepliesWellFormed(db: Db) {
    && (forall i :: 0 <= i < |db.replies| ==>
          && db.replies[i].parentMoment < |db.moments|
          && db.replies[i].sender < |db.users|
          && db.replies[i].createdAt < db.clock)
    && (forall i, j :: 0 <= i < j < |db.replies| ==> db.replies[i].createdAt < db.replies[j].createdAt)
  }

  /** Slots are 1..4 and a user has at most one photo per slot. */
  ghost predicate PhotoTableOk(photos: seq<ProfilePhoto>, userCount: nat, clock: nat) {
    && (forall i :: 0 <= i < |photos| ==>
          && photos[i].user < userCount
          && FirstPhotoSlot <= photos[i].order <= LastPhotoSlot
          && photos[i].createdAt < clock)
    && (forall i, j :: 0 <= i < j < |photos| ==> photos[i].createdAt < photos[j].createdAt)
    && OnePhotoPerSlot(photos)
  }

  ghost predicate PhotosWellFormed(db: Db) {
    PhotoTableOk(db.photos, |db.users|, db.clock)
  }

  /** The (user, order) uniqueness constraint of the photo table. */
  ghost predicate OnePhotoPerSlot(photos: seq<ProfilePhoto>) {
    forall i, j :: 0 <= i < j < |photos| ==>
      photos[i].user != photos[j].user || photos[i].order != photos[j].order
  }

  // More users and a later clock keep every table's invariant.

  lemma ConnectionTableGrows(conns: seq<Connection>, userCount: nat, clock: nat, userCount': nat, clock': nat)
    requires ConnectionTableOk(conns, userCount, clock) && userCount <= userCount' && clock <= clock'
    ensures ConnectionTableOk(conns, userCount', clock')
  {
  }

  lemma PhotoTableGrows(photos: seq<ProfilePhoto>, userCount: nat, clock: nat, userCount': nat, clock': nat)
    requires PhotoTableOk(photos, userCount, clock) && userCount <= userCount' && clock <= clock'
    ensures PhotoTableOk(photos, userCount', clock')
  {
  }

  lemma MomentsGrow(db: Db, db': Db)
    requires MomentsWellFormed(db)
    requires db'.moments == db.moments && db'.recipients == db.recipients
    requires |db.users| <= |db'.users| && db.clock <= db'.clock
    ensures MomentsWellFormed(db')
  {
  }

  lemma RepliesGrow(db: Db, db': Db)
    requires RepliesWellFormed(db)
    requires db'.replies == db.replies && |db.moments| <= |db'.moments|
    requires |db.users| <= |db'.users| && db.clock <= db'.clock
    ensures RepliesWellFormed(db')
  {
  }

  ghost predicate WellFormed(db: Db) {
    && UsersWellFormed(db.users)
    && ConnectionsWellFormed(db)
    && MomentsWellFormed(db)
    && RepliesWellFormed(db)
    && PhotosWellFormed(db)
  }
}
