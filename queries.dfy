/** The read-only views of backend/api/views.py: the connection lists, the
    inbox, the activity feed and the conversation history. Each is a filter
    over tables, ordered by creation and possibly sliced; ids are table
    positions, so "newest first" is "highest id first". */
module Queries {
  import opened Base
  import opened Models

  /** Moment k has a recipient row for user u: the `recipients__receiver`
      join. */
  predicate ReceivedBy(db: Db, k: MomentId, u: UserId) {
    exists i :: 0 <= i < |db.recipients| && db.recipients[i].moment == k && db.recipients[i].receiver == u
  }

  /** With one recipient row per moment, the join looks at the moment's own
      row only, so a moment is never listed twice for one receiver. */
  lemma ReceivedByOwnRow(db: Db, k: MomentId, u: UserId)
    requires MomentsWellFormed(db) && k < |db.moments|
    ensures ReceivedBy(db, k, u) <==> db.recipients[k].receiver == u
  {
  }

  predicate IsIncomingPending(c: Connection, me: UserId) {
    c.receiver == me && c.status == Pending
  }

  predicate IsAcceptedWith(c: Connection, me: UserId) {
    (c.requester == me || c.receiver == me) && c.status == Accepted
  }

  /** ConnectionListView: with `?status=PENDING`, the requests others sent
      to `me` that are still pending; with any other value or none, the
      accepted connections on either side. The source sets no order; the
      model lists them by id. */
  function ConnectionList(db: Db, me: UserId, statusParam: Option<string>): (r: seq<ConnectionId>)
    ensures forall i :: 0 <= i < |r| ==> r[i] < |db.connections|
    ensures statusParam == Some("PENDING") ==>
      forall k: nat :: k < |db.connections| ==> (k in r <==> IsIncomingPending(db.connections[k], me))
    ensures statusParam != Some("PENDING") ==>
      forall k: nat :: k < |db.connections| ==> (k in r <==> IsAcceptedWith(db.connections[k], me))
    ensures forall i, j :: 0 <= i < j < |r| ==> r[i] < r[j]
  {
    var conns := db.connections;
    if statusParam == Some("PENDING") then
      var r := Select(|conns|, (k: nat) => k < |conns| && IsIncomingPending(conns[k], me));
      assert forall i :: 0 <= i < |r| ==> r[i] in r;
      r
    else
      var r := Select(|conns|, (k: nat) => k < |conns| && IsAcceptedWith(conns[k], me));
      assert forall i :: 0 <= i < |r| ==> r[i] in r;
      r
  }

  /** The accepted list of `me` holds a record with `other` exactly when
      the two pass the connection guard. */
  lemma AcceptedListMatchesGuard(db: Db, me: UserId, other: UserId)
    ensures Connected(db.connections, me, other) <==>
      exists i :: 0 <= i < |ConnectionList(db, me, None)| &&
        Links(db.connections[ConnectionList(db, me, None)[i]], me, other)
  {
    var conns, r := db.connections, ConnectionList(db, me, None);
    if Connected(conns, me, other) {
      var k :| 0 <= k < |conns| && conns[k].status == Accepted && Links(conns[k], me, other);
      assert k in r;
      var i :| 0 <= i < |r| && r[i] == k;
    }
  }

  /** MomentListView: the moments `me` received, newest first. */
  function Inbox(db: Db, me: UserId): (r: seq<MomentId>)
    ensures forall i :: 0 <= i < |r| ==> r[i] < |db.moments| && ReceivedBy(db, r[i], me)
    ensures forall k: nat :: k < |db.moments| && ReceivedBy(db, k, me) ==> k in r
    ensures forall i, j :: 0 <= i < j < |r| ==> r[i] > r[j]
    ensures MomentsWellFormed(db) ==>
      forall i, j :: 0 <= i < j < |r| ==> db.moments[r[i]].createdAt > db.moments[r[j]].createdAt
  {
    var r := SelectNewest(|db.moments|, (k: nat) => k < |db.moments| && ReceivedBy(db, k, me));
    assert forall i :: 0 <= i < |r| ==> r[i] in r;
    r
  }

  /** A reply someone else wrote to one of `me`'s moments. */
  predicate ReplyToMine(db: Db, k: nat, me: UserId) {
    && k < |db.replies|
    && db.replies[k].parentMoment < |db.moments|
    && db.moments[db.replies[k].parentMoment].sender == me
    && db.replies[k].sender != me
  }

  const FeedMoments: nat := 10
  const FeedReplies: nat := 10
  const FeedRequests: nat := 5

  /** The three independently capped lists of the activity feed. */
  datatype Activity = Activity(
    moments: seq<MomentId>,
    replies: seq<nat>,
    pendingRequests: seq<ConnectionId>)

  /** The newest `FeedMoments` moments `me` received, newest first. */
  function RecentMoments(db: Db, me: UserId): (r: seq<MomentId>)
    ensures |r| <= FeedMoments
    ensures forall i :: 0 <= i < |r| ==> r[i] < |db.moments| && ReceivedBy(db, r[i], me)
    ensures forall i, j :: 0 <= i < j < |r| ==> r[i] > r[j]
    ensures forall k: nat, j :: k < |db.moments| && ReceivedBy(db, k, me) && k !in r && j in r ==> k < j
    ensures |r| < FeedMoments ==> forall k: nat :: k < |db.moments| && ReceivedBy(db, k, me) ==> k in r
    ensures MomentsWellFormed(db) ==>
      forall i, j :: 0 <= i < j < |r| ==> db.moments[r[i]].createdAt > db.moments[r[j]].createdAt
  {
    var r := Latest(|db.moments|, (k: nat) => k < |db.moments| && ReceivedBy(db, k, me), FeedMoments);
    assert forall i :: 0 <= i < |r| ==> r[i] in r;
    r
  }

  /** The newest `FeedReplies` replies by others to `me`'s moments, newest first. */
  function RecentReplies(db: Db, me: UserId): (r: seq<nat>)
    ensures |r| <= FeedReplies
    ensures forall i :: 0 <= i < |r| ==> r[i] < |db.replies| && ReplyToMine(db, r[i], me)
    ensures forall i, j :: 0 <= i < j < |r| ==> r[i] > r[j]
    ensures forall k: nat, j :: ReplyToMine(db, k, me) && k !in r && j in r ==> k < j
    ensures |r| < FeedReplies ==> forall k: nat :: ReplyToMine(db, k, me) ==> k in r
    ensures RepliesWellFormed(db) ==>
      forall i, j :: 0 <= i < j < |r| ==> db.replies[r[i]].createdAt > db.replies[r[j]].createdAt
  {
    var r := Latest(|db.replies|, (k: nat) => ReplyToMine(db, k, me), FeedReplies);
    assert forall i :: 0 <= i < |r| ==> r[i] in r;
    r
  }

  /** The newest `FeedRequests` pending requests to `me`, newest first. */
  function RecentRequests(db: Db, me: UserId): (r: seq<ConnectionId>)
    ensures |r| <= FeedRequests
    ensures forall i :: 0 <= i < |r| ==> r[i] < |db.connections| && IsIncomingPending(db.connections[r[i]], me)
    ensures forall i, j :: 0 <= i < j < |r| ==> r[i] > r[j]
    ensures forall k: nat, j ::
      (k < |db.connections| && IsIncomingPending(db.connections[k], me) && k !in r && j in r) ==> k < j
    ensures |r| < FeedRequests ==>
      forall k: nat :: k < |db.connections| && IsIncomingPending(db.connections[k], me) ==> k in r
    ensures ConnectionsWellFormed(db) ==>
      forall i, j :: 0 <= i < j < |r| ==> db.connections[r[i]].createdAt > db.connections[r[j]].createdAt
  {
    var r := Latest(|db.connections|, (k: nat) => k < |db.connections| && IsIncomingPending(db.connections[k], me), FeedRequests);
    assert forall i :: 0 <= i < |r| ==> r[i] in r;
    r
  }

  /** ActivityListView: the newest 10 moments received, the newest 10
      replies by others to `me`'s moments and the newest 5 pending requests
      to `me`, each list capped on its own. */
  function ActivityFeed(db: Db, me: UserId): (r: Activity)
    ensures r.moments == RecentMoments(db, me)
    ensures r.replies == RecentReplies(db, me)
    ensures r.pendingRequests == RecentRequests(db, me)
  {
    Activity(RecentMoments(db, me), RecentReplies(db, me), RecentRequests(db, me))
  }

  /** Moment k went from one of the two users to the other. */
  predicate Between(db: Db, k: nat, a: UserId, b: UserId) {
    && k < |db.moments|
    && ((db.moments[k].sender == a && ReceivedBy(db, k, b)) || (db.moments[k].sender == b && ReceivedBy(db, k, a)))
  }

  /** ConversationListView: an unknown user is NotFound, checked first; an
      unconnected one is Forbidden; otherwise every moment between the two,
      each once, oldest first. */
  function Conversation(db: Db, me: UserId, otherId: int): (r: Result<seq<MomentId>>)
    ensures !(0 <= otherId < |db.users|) ==> r == Err(NotFound)
    ensures 0 <= otherId < |db.users| ==> (r.Ok? <==> Connected(db.connections, me, otherId))
    ensures 0 <= otherId < |db.users| && !Connected(db.connections, me, otherId) ==> r == Err(Forbidden)
    ensures r.Ok? ==>
      && 0 <= otherId < |db.users|
      && (forall i :: 0 <= i < |r.value| ==> Between(db, r.value[i], me, otherId))
      && (forall k: nat :: Between(db, k, me, otherId) ==> k in r.value)
      && (forall i, j :: 0 <= i < j < |r.value| ==> r.value[i] < r.value[j])
    ensures r.Ok? && MomentsWellFormed(db) ==>
      forall i, j :: 0 <= i < j < |r.value| ==> db.moments[r.value[i]].createdAt < db.moments[r.value[j]].createdAt
  {
    if !(0 <= otherId < |db.users|) then Err(NotFound)
    else if !Connected(db.connections, me, otherId) then Err(Forbidden)
    else
      var r := Select(|db.moments|, (k: nat) => Between(db, k, me, otherId));
      assert forall i :: 0 <= i < |r| ==> r[i] in r;
      Ok(r)
  }

  /** Two strictly ascending sequences with the same elements are equal. */
  lemma {:induction false} AscendingByElements(s: seq<nat>, t: seq<nat>)
    requires forall i, j :: 0 <= i < j < |s| ==> s[i] < s[j]
    requires forall i, j :: 0 <= i < j < |t| ==> t[i] < t[j]
    requires forall x :: x in s <==> x in t
    ensures s == t
  {
    assert s == [] <==> t == [] by {
      if s != [] { assert s[0] in t; }
      if t != [] { assert t[0] in s; }
    }
    if s != [] {
      // the smallest element heads both
      assert s[0] in t && t[0] in s;
      assert s[0] == t[0];
      forall x
        ensures x in s[1..] <==> x in t[1..]
      {
        if x in s[1..] {
          var i :| 1 <= i < |s| && s[i] == x;
          assert x in t && x != t[0];
        }
        if x in t[1..] {
          var i :| 1 <= i < |t| && t[i] == x;
          assert x in s && x != s[0];
        }
      }
      AscendingByElements(s[1..], t[1..]);
    }
  }

  /** Either party asking sees the same history, in the same order. */
  lemma ConversationSymmetric(db: Db, a: UserId, b: UserId)
    requires a < |db.users| && b < |db.users|
    ensures Conversation(db, a, b) == Conversation(db, b, a)
  {
    ConnectedSymmetric(db.connections, a, b);
    var x, y := Conversation(db, a, b), Conversation(db, b, a);
    if x.Ok? {
      forall k: nat
        ensures k in x.value <==> k in y.value
      {
        assert Between(db, k, a, b) <==> Between(db, k, b, a);
      }
      forall k | k in x.value ensures k in y.value {
      }
      AscendingByElements(x.value, y.value);
    }
  }
}
