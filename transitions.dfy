/** What the state-changing views of backend/api/views.py do to a single
    table: a connection request, a response to one and a photo upload, each
    as a function from the old table to the new one, with the properties
    those changes keep. */
module Transitions {
  import opened Base
  import opened Numerals
  import opened Models
  import opened Serializers
  import opened Queries

  // ---------------------------------------------------------------------
  // Connection requests

  /** What a connection request does to the record the pair already has. */
  function RequestTransition(c: Connection, caller: UserId, target: UserId): (c': Connection)
    requires Links(c, caller, target)
    ensures Links(c', caller, target) && c'.createdAt == c.createdAt
    // a REJECTED pair is reopened by whichever party asks, who becomes the requester
    ensures c.status == Rejected ==> c' == Connection(caller, target, Pending, c.createdAt)
    // a request pending towards the caller is accepted in the direction it was made
    ensures c.status == Pending && c.receiver == caller ==>
      c'.status == Accepted && c'.requester == c.requester && c'.receiver == c.receiver
    // the caller's own pending request and an accepted pair are left alone
    ensures c.status == Accepted || (c.status == Pending && c.receiver != caller) ==> c' == c
    // a status outside the choices, which only an unchecked response stores, is left alone
    ensures !IsChoice(c.status) ==> c' == c
    // a request never leaves the pair REJECTED, and a pair left PENDING
    // is waiting for the target
    ensures IsChoice(c.status) ==> c'.status == Pending || c'.status == Accepted
    ensures c'.status == Pending ==> c'.requester == caller && c'.receiver == target
  {
    if c.status == Rejected then Connection(caller, target, Pending, c.createdAt)
    else if c.status == Pending && c.receiver == caller then c.(status := Accepted)
    else c
  }

  /** The connection table after `caller` asks to connect with `target`:
      a pair without a record gets a new PENDING one; otherwise the pair's
      record goes through RequestTransition. */
  function ConnectionsAfterRequest(conns: seq<Connection>, caller: UserId, target: UserId, stamp: nat): (r: seq<Connection>)
    ensures FirstBetween(conns, caller, target).None? ==>
      r == conns + [Connection(caller, target, DefaultStatus, stamp)]
    ensures FirstBetween(conns, caller, target).Some? ==>
      var i := FirstBetween(conns, caller, target).value;
      r == conns[i := RequestTransition(conns[i], caller, target)]
  {
    match FirstBetween(conns, caller, target)
    case None => conns + [Connection(caller, target, DefaultStatus, stamp)]
    case Some(i) => conns[i := RequestTransition(conns[i], caller, target)]
  }

  /** A request changes no record of another pair, and keeps the creation
      time of every record. */
  lemma RequestTouchesOnlyThePair(conns: seq<Connection>, caller: UserId, target: UserId, stamp: nat)
    ensures var r := ConnectionsAfterRequest(conns, caller, target, stamp);
      && (forall k :: 0 <= k < |conns| && !Links(conns[k], caller, target) ==> r[k] == conns[k])
      && (forall k :: 0 <= k < |conns| ==> Links(r[k], conns[k].requester, conns[k].receiver) && r[k].createdAt == conns[k].createdAt)
  {
    var r := ConnectionsAfterRequest(conns, caller, target, stamp);
    forall k | 0 <= k < |conns|
      ensures !Links(conns[k], caller, target) ==> r[k] == conns[k]
      ensures Links(r[k], conns[k].requester, conns[k].receiver) && r[k].createdAt == conns[k].createdAt
    {
      if FirstBetween(conns, caller, target).Some? && k == FirstBetween(conns, caller, target).value {
        assert r[k] == RequestTransition(conns[k], caller, target);
      } else {
        assert r[k] == conns[k];
      }
    }
  }

  /** Requests processed one at a time keep at most one record per
      unordered pair. */
  lemma RequestKeepsPairsUnique(conns: seq<Connection>, caller: UserId, target: UserId, stamp: nat)
    requires UniquePairs(conns)
    ensures UniquePairs(ConnectionsAfterRequest(conns, caller, target, stamp))
  {
    var r := ConnectionsAfterRequest(conns, caller, target, stamp);
    RequestTouchesOnlyThePair(conns, caller, target, stamp);
    forall i, j | 0 <= i < j < |r|
      ensures !Links(r[j], r[i].requester, r[i].receiver)
    {
      if j == |conns| {
        // the new record's pair had none before it
        assert !Links(conns[i], caller, target);
      } else {
        assert Links(r[i], conns[i].requester, conns[i].receiver) && Links(r[j], conns[j].requester, conns[j].receiver);
      }
    }
  }

  /** After a request between two users whose statuses are among the
      choices, the pair's record is ACCEPTED or is a PENDING request from
      the caller to the target. */
  lemma RequestLeavesPendingOrAccepted(conns: seq<Connection>, caller: UserId, target: UserId, stamp: nat)
    requires forall k :: 0 <= k < |conns| ==> IsChoice(conns[k].status)
    ensures var r := ConnectionsAfterRequest(conns, caller, target, stamp);
      var f := FirstBetween(r, caller, target);
      && f.Some?
      && (r[f.value].status == Accepted ||
          (r[f.value].status == Pending && r[f.value].requester == caller && r[f.value].receiver == target))
  {
    var r := ConnectionsAfterRequest(conns, caller, target, stamp);
    RequestTouchesOnlyThePair(conns, caller, target, stamp);
    match FirstBetween(conns, caller, target)
    case None =>
      assert Links(r[|conns|], caller, target);
      assert FirstBetween(r, caller, target) == Some(|conns|);
    case Some(i) =>
      assert Links(r[i], caller, target);
      assert FirstBetween(r, caller, target) == Some(i);
  }

  /** Requesting someone, and then being requested back while still
      pending, leaves one ACCEPTED record in the first direction. With
      a == b this is a user connecting with themselves by asking twice. */
  lemma MutualRequestsConnect(conns: seq<Connection>, a: UserId, b: UserId, stamp: nat, stamp2: nat)
    requires FirstBetween(conns, a, b).None?
    ensures var twice := ConnectionsAfterRequest(ConnectionsAfterRequest(conns, a, b, stamp), b, a, stamp2);
      && |twice| == |conns| + 1
      && twice[|conns|] == Connection(a, b, Accepted, stamp)
      && Connected(twice, a, b)
  {
    var once := ConnectionsAfterRequest(conns, a, b, stamp);
    assert once == conns + [Connection(a, b, Pending, stamp)];
    forall j | 0 <= j < |conns|
      ensures !Links(once[j], b, a)
    {
      assert once[j] == conns[j];
    }
    assert Links(once[|conns|], b, a);
    var f := FirstBetween(once, b, a);
    assert f.Some? && !(f.value < |conns|);
    var twice := ConnectionsAfterRequest(once, b, a, stamp2);
    assert twice[|conns|] == Connection(a, b, Accepted, stamp);
  }

  /** A connection request between two existing users keeps the table's
      invariant; the clock moves only when a record is created. */
  lemma RequestKeepsConnectionTable(conns: seq<Connection>, userCount: nat, clock: nat, caller: UserId, target: UserId)
    requires ConnectionTableOk(conns, userCount, clock) && caller < userCount && target < userCount
    ensures var created := FirstBetween(conns, caller, target).None?;
      ConnectionTableOk(ConnectionsAfterRequest(conns, caller, target, clock), userCount,
                        clock + (if created then 1 else 0))
  {
    var r := ConnectionsAfterRequest(conns, caller, target, clock);
    var clock' := clock + (if FirstBetween(conns, caller, target).None? then 1 else 0);
    RequestTouchesOnlyThePair(conns, caller, target, clock);
    RequestKeepsPairsUnique(conns, caller, target, clock);
    forall i | 0 <= i < |r|
      ensures r[i].requester < userCount && r[i].receiver < userCount
      ensures IsChoice(r[i].status) && r[i].createdAt < clock'
    {
      if i < |conns| {
        assert Links(r[i], conns[i].requester, conns[i].receiver);
      }
    }
    forall i, j | 0 <= i < j < |r|
      ensures r[i].createdAt < r[j].createdAt
    {
      assert r[i].createdAt == conns[i].createdAt;
    }
  }

  /** The two notices a new connection request sends. */
  function RequestNotices(to: UserId): (r: seq<Notification>)
    ensures |r| == 2 && r[0].channel == Email && r[1].channel == Push
    ensures forall i :: 0 <= i < |r| ==> r[i].to == to && r[i].topic == ConnectionRequest
  {
    [Notification(to, ConnectionRequest, Email), Notification(to, ConnectionRequest, Push)]
  }

  // ---------------------------------------------------------------------
  // Responses

  /** The decisions a receiver may give: ACCEPTED or REJECTED. */
  function Decision(text: string): (d: Option<Status>)
    ensures d.Some? <==> text == "ACCEPTED" || text == "REJECTED"
    ensures d.Some? ==> StatusName(d.value) == text && IsChoice(d.value)
  {
    if text == "ACCEPTED" then Some(Accepted)
    else if text == "REJECTED" then Some(Rejected)
    else None
  }

  /** The respond view as written: the receiver's record gets whatever
      status text the request carries. */
  function RespondAsWritten(conns: seq<Connection>, caller: UserId, connectionId: int, decision: string): (r: Result<seq<Connection>>)
    ensures r.Err? <==> !(0 <= connectionId < |conns| && conns[connectionId].receiver == caller)
    ensures r.Err? ==> r.error == NotFound
    ensures r.Ok? ==>
      && |r.value| == |conns|
      && r.value[connectionId] == conns[connectionId].(status := StatusFromText(decision))
      && StatusName(r.value[connectionId].status) == decision
      && forall k :: 0 <= k < |conns| && k != connectionId ==> r.value[k] == conns[k]
  {
    if !(0 <= connectionId < |conns| && conns[connectionId].receiver == caller) then Err(NotFound)
    else Ok(conns[connectionId := conns[connectionId].(status := StatusFromText(decision))])
  }

  /** As written, the receiver answering ACCEPTED stores the ACCEPTED
      choice itself, so the pair then passes the connection guard. */
  lemma RespondAsWrittenAcceptedConnects(conns: seq<Connection>, caller: UserId, connectionId: int)
    requires RespondAsWritten(conns, caller, connectionId, "ACCEPTED").Ok?
    ensures Connected(RespondAsWritten(conns, caller, connectionId, "ACCEPTED").value, conns[connectionId].requester, caller)
  {
    var after := RespondAsWritten(conns, caller, connectionId, "ACCEPTED").value;
    assert after[connectionId].status == Accepted && Links(after[connectionId], conns[connectionId].requester, caller);
  }

  /** As written, a receiver who answers "MAYBE" stores it, and both
      profiles then show a connection_status outside the four labels. */
  lemma RespondAsWrittenShowsUnknownStatus()
    ensures var conns := [Connection(0, 1, Pending, 0)];
      var after := RespondAsWritten(conns, 1, 0, "MAYBE");
      && after.Ok?
      && ConnectionStatusLabel(after.value, Some(0), 1) == "MAYBE"
      && "MAYBE" !in Labels
  {
    var conns := [Connection(0, 1, Pending, 0)];
    assert |"MAYBE"| == 5 && |"PENDING"| == 7 && |"ACCEPTED"| == 8 && |"REJECTED"| == 8 && |"NONE"| == 4;
    assert StatusFromText("MAYBE") == Other("MAYBE");
    var after := RespondAsWritten(conns, 1, 0, "MAYBE").value;
    assert after == [Connection(0, 1, Other("MAYBE"), 0)] by {
      assert |after| == 1 && after[0] == Connection(0, 1, Other("MAYBE"), 0);
    }
    assert FirstBetween(after, 0, 1) == Some(0);
  }

  /** The respond view with the decision checked: only the record's
      receiver may answer, anyone else gets NotFound; an answer other than
      ACCEPTED or REJECTED is BadRequest; otherwise only that record's
      status changes. */
  function Responded(conns: seq<Connection>, caller: UserId, connectionId: int, decision: string): (r: Result<seq<Connection>>)
    ensures !(0 <= connectionId < |conns| && conns[connectionId].receiver == caller) <==> r == Err(NotFound)
    ensures r == Err(BadRequest) <==>
      0 <= connectionId < |conns| && conns[connectionId].receiver == caller && Decision(decision).None?
    ensures r.Ok? <==>
      0 <= connectionId < |conns| && conns[connectionId].receiver == caller && Decision(decision).Some?
    ensures r.Ok? ==>
      && |r.value| == |conns|
      && r.value[connectionId] == conns[connectionId].(status := Decision(decision).value)
      && StatusName(r.value[connectionId].status) == decision
  {
    if !(0 <= connectionId < |conns| && conns[connectionId].receiver == caller) then Err(NotFound)
    else
      match Decision(decision)
      case None => Err(BadRequest)
      case Some(s) => Ok(conns[connectionId := conns[connectionId].(status := s)])
  }

  /** A checked response changes no other record, and leaves every status
      among the choices. */
  lemma RespondedTouchesOnlyTheRecord(conns: seq<Connection>, caller: UserId, connectionId: int, decision: string)
    requires Responded(conns, caller, connectionId, decision).Ok?
    ensures var after := Responded(conns, caller, connectionId, decision).value;
      && (forall k :: 0 <= k < |conns| && k != connectionId ==> after[k] == conns[k])
      && ((forall k :: 0 <= k < |conns| ==> IsChoice(conns[k].status)) ==>
            forall k :: 0 <= k < |after| ==> IsChoice(after[k].status))
  {
  }

  /** With the decision checked, every profile keeps showing one of the
      four labels after a response. */
  lemma RespondedShowsOnlyLabels(conns: seq<Connection>, caller: UserId, connectionId: int, decision: string,
                                 viewer: Option<UserId>, owner: UserId)
    requires forall k :: 0 <= k < |conns| ==> IsChoice(conns[k].status)
    requires Responded(conns, caller, connectionId, decision).Ok?
    ensures ConnectionStatusLabel(Responded(conns, caller, connectionId, decision).value, viewer, owner) in Labels
  {
    RespondedTouchesOnlyTheRecord(conns, caller, connectionId, decision);
  }

  /** A checked response keeps the connection table's invariant. */
  lemma RespondedKeepsConnectionTable(conns: seq<Connection>, userCount: nat, clock: nat,
                                      caller: UserId, connectionId: int, decision: string)
    requires ConnectionTableOk(conns, userCount, clock)
    requires Responded(conns, caller, connectionId, decision).Ok?
    ensures ConnectionTableOk(Responded(conns, caller, connectionId, decision).value, userCount, clock)
  {
    RespondedTouchesOnlyTheRecord(conns, caller, connectionId, decision);
    var after := Responded(conns, caller, connectionId, decision).value;
    assert forall k :: 0 <= k < |conns| ==>
      after[k].requester == conns[k].requester && after[k].receiver == conns[k].receiver &&
      after[k].createdAt == conns[k].createdAt;
  }

  // ---------------------------------------------------------------------
  // Moments

  function MomentNotices(to: UserId): (r: seq<Notification>)
    ensures |r| == 2 && r[0].channel == Email && r[1].channel == Push
    ensures forall i :: 0 <= i < |r| ==> r[i].to == to && r[i].topic == NewMoment
  {
    [Notification(to, NewMoment, Email), Notification(to, NewMoment, Push)]
  }

  /** A moment just sent heads its receiver's inbox. */
  lemma SentMomentHeadsInbox(db: Db, sender: UserId, receiver: UserId, text: string, emoji: string, image: Option<string>)
    requires MomentsWellFormed(db)
    ensures var id := |db.moments|;
      var db' := db.(moments := db.moments + [Moment(sender, text, emoji, image, db.clock)],
                     recipients := db.recipients + [MomentRecipient(id, receiver, None)],
                     clock := db.clock + 1);
      Inbox(db', receiver) != [] && Inbox(db', receiver)[0] == id
  {
    var id := |db.moments|;
    var db' := db.(moments := db.moments + [Moment(sender, text, emoji, image, db.clock)],
                   recipients := db.recipients + [MomentRecipient(id, receiver, None)],
                   clock := db.clock + 1);
    var r := Inbox(db', receiver);
    assert db'.recipients[id] == MomentRecipient(id, receiver, None);
    assert ReceivedBy(db', id, receiver);
    assert id in r;
    var k :| 0 <= k < |r| && r[k] == id;
    assert r[0] >= id;
  }

  // ---------------------------------------------------------------------
  // Photo slots

  /** The `order` field of a photo upload: absent means slot 1; otherwise
      it must read as an integer from 1 to 4. */
  function PhotoSlot(order: Option<string>): (r: Result<nat>)
    ensures r.Ok? ==> FirstPhotoSlot <= r.value <= LastPhotoSlot
    ensures r.Err? ==> r.error == BadRequest
    ensures order.None? ==> r == Ok(FirstPhotoSlot)
    ensures order.Some? ==>
      (r.Ok? <==> ParseInt(order.value).Some? && FirstPhotoSlot <= ParseInt(order.value).value <= LastPhotoSlot)
    ensures order.Some? && r.Ok? ==> ParseInt(order.value) == Some(r.value as int)
  {
    if order.None? then Ok(FirstPhotoSlot)
    else
      match ParseInt(order.value)
      case None => Err(BadRequest)
      case Some(n) =>
        if n < FirstPhotoSlot as int || n > LastPhotoSlot as int then Err(BadRequest) else Ok(n as nat)
  }

  /** A slot written the way str() writes it is accepted as that slot. */
  lemma PhotoSlotReadsWrittenSlot(n: nat)
    requires FirstPhotoSlot <= n <= LastPhotoSlot
    ensures PhotoSlot(Some(ShowInt(n))) == Ok(n)
  {
    assert |ShowNat(n)| == 1;
    ParseShowInt(n);
  }

  /** A slot written with more digits than int() converts, leading zeros
      included, is refused. */
  lemma PhotoSlotRefusesLongText(digits: string)
    requires AllDigits(digits) && |digits| > MaxStrDigits
    ensures PhotoSlot(Some(digits)) == Err(BadRequest)
    ensures PhotoSlot(Some("+" + digits)) == Err(BadRequest)
  {
    assert ("+" + digits)[0] == '+' && ("+" + digits)[1..] == digits;
  }

  /** Texts that are not a sign and digits, or that name no slot, are
      refused; a leading plus sign is read as int() reads it. */
  lemma PhotoSlotRefusesMalformed()
    ensures PhotoSlot(Some("1x")) == Err(BadRequest)
    ensures PhotoSlot(Some("+")) == Err(BadRequest)
    ensures PhotoSlot(Some("")) == Err(BadRequest)
    ensures PhotoSlot(Some("5")) == Err(BadRequest)
    ensures PhotoSlot(Some("-1")) == Err(BadRequest)
    ensures PhotoSlot(Some("+3")) == Ok(3)
  {
    assert "1x"[1] == 'x' && !IsDigit('x');
    assert "+"[1..] == [] && "-1"[1..] == "1" && "+3"[1..] == "3";
    assert DigitsValue("5") == 5 && DigitsValue("1") == 1 && DigitsValue("3") == 3;
  }

  /** The photo table after `owner` uploads `image` to `slot`: the photo
      already in that slot gets the new image, or a new photo is added. */
  function PhotosAfterUpload(photos: seq<ProfilePhoto>, owner: UserId, image: string, slot: nat, stamp: nat)
    : (r: seq<ProfilePhoto>)
    ensures PhotoInSlot(photos, owner, slot).None? ==>
      r == photos + [ProfilePhoto(owner, image, slot, stamp)]
    ensures PhotoInSlot(photos, owner, slot).Some? ==>
      var i := PhotoInSlot(photos, owner, slot).value;
      r == photos[i := photos[i].(image := image)]
  {
    match PhotoInSlot(photos, owner, slot)
    case None => photos + [ProfilePhoto(owner, image, slot, stamp)]
    case Some(i) => photos[i := photos[i].(image := image)]
  }

  /** An upload changes no photo of another slot or user, and keeps the
      owner, slot and creation time of every photo. */
  lemma UploadTouchesOnlyTheSlot(photos: seq<ProfilePhoto>, owner: UserId, image: string, slot: nat, stamp: nat)
    ensures var r := PhotosAfterUpload(photos, owner, image, slot, stamp);
      && (forall k :: 0 <= k < |photos| && !(photos[k].user == owner && photos[k].order == slot) ==> r[k] == photos[k])
      && (forall k :: 0 <= k < |photos| ==>
            r[k].user == photos[k].user && r[k].order == photos[k].order && r[k].createdAt == photos[k].createdAt)
  {
    var r := PhotosAfterUpload(photos, owner, image, slot, stamp);
    var here := PhotoInSlot(photos, owner, slot);
    forall k | 0 <= k < |photos|
      ensures !(photos[k].user == owner && photos[k].order == slot) ==> r[k] == photos[k]
      ensures r[k].user == photos[k].user && r[k].order == photos[k].order && r[k].createdAt == photos[k].createdAt
    {
      if here.Some? && k == here.value {
        assert r[k] == photos[k].(image := image);
      } else {
        assert r[k] == photos[k];
      }
    }
  }

  /** After an upload the slot holds the new image. */
  lemma UploadFillsTheSlot(photos: seq<ProfilePhoto>, owner: UserId, image: string, slot: nat, stamp: nat)
    ensures var r := PhotosAfterUpload(photos, owner, image, slot, stamp);
      exists k :: 0 <= k < |r| && r[k].user == owner && r[k].order == slot && r[k].image == image
  {
    var r := PhotosAfterUpload(photos, owner, image, slot, stamp);
    var here := PhotoInSlot(photos, owner, slot);
    var k := if here.None? then |photos| else here.value;
    assert r[k].user == owner && r[k].order == slot && r[k].image == image;
  }

  /** Uploads keep at most one photo per (user, slot). */
  lemma UploadKeepsOnePhotoPerSlot(photos: seq<ProfilePhoto>, owner: UserId, image: string, slot: nat, stamp: nat)
    requires OnePhotoPerSlot(photos)
    ensures OnePhotoPerSlot(PhotosAfterUpload(photos, owner, image, slot, stamp))
  {
    var r := PhotosAfterUpload(photos, owner, image, slot, stamp);
    UploadTouchesOnlyTheSlot(photos, owner, image, slot, stamp);
    forall i, j | 0 <= i < j < |r|
      ensures r[i].user != r[j].user || r[i].order != r[j].order
    {
      if j == |photos| {
        // a photo is added only to a slot the owner had left empty
        assert !(photos[i].user == owner && photos[i].order == slot);
      }
    }
  }

  /** An upload by an existing user to a valid slot keeps the photo
      table's invariant; the clock moves only when a photo is created. */
  lemma UploadKeepsPhotoTable(photos: seq<ProfilePhoto>, userCount: nat, clock: nat, owner: UserId, image: string, slot: nat)
    requires PhotoTableOk(photos, userCount, clock) && owner < userCount && FirstPhotoSlot <= slot <= LastPhotoSlot
    ensures var created := PhotoInSlot(photos, owner, slot).None?;
      PhotoTableOk(PhotosAfterUpload(photos, owner, image, slot, clock), userCount, clock + (if created then 1 else 0))
  {
    var r := PhotosAfterUpload(photos, owner, image, slot, clock);
    var clock' := clock + (if PhotoInSlot(photos, owner, slot).None? then 1 else 0);
    UploadTouchesOnlyTheSlot(photos, owner, image, slot, clock);
    UploadKeepsOnePhotoPerSlot(photos, owner, image, slot, clock);
    forall i | 0 <= i < |r|
      ensures r[i].user < userCount && FirstPhotoSlot <= r[i].order <= LastPhotoSlot && r[i].createdAt < clock'
    {
      if i < |photos| {
        assert r[i].user == photos[i].user && r[i].order == photos[i].order && r[i].createdAt == photos[i].createdAt;
      }
    }
    forall i, j | 0 <= i < j < |r|
      ensures r[i].createdAt < r[j].createdAt
    {
      assert r[i].createdAt == photos[i].createdAt;
    }
  }
}
