/** Small shared vocabulary: optional values, request outcomes and the
    "filter the table, order it, slice it" shape that every read query of
    the backend has. Record ids are table positions, so a query is a
    selection of positions. */
module Base {

  datatype Option<+T> = None | Some(value: T)

  /** The client errors the views answer with. Conflict stands for a write
      the database refuses because of a uniqueness constraint (an unhandled
      integrity error in the backend). */
  datatype Error = NotFound | Forbidden | BadRequest | Conflict

  datatype Result<+T> = Ok(value: T) | Err(error: Error)

  function Min(a: nat, b: nat): (m: nat)
    ensures m <= a && m <= b && (m == a || m == b)
  {
    if a <= b then a else b
  }

  /** The positions below n that satisfy p, oldest (lowest) first. */
  function Select(n: nat, p: nat -> bool): (r: seq<nat>)
    ensures forall k: nat :: k in r <==> k < n && p(k)
    ensures forall i, j :: 0 <= i < j < |r| ==> r[i] < r[j]
  {
    if n == 0 then []
    else
      var older := Select(n - 1, p);
      assert forall i :: 0 <= i < |older| ==> older[i] in older;
      older + (if p(n - 1) then [n - 1] else [])
  }

  /** The positions below n that satisfy p, newest (highest) first. */
  function SelectNewest(n: nat, p: nat -> bool): (r: seq<nat>)
    ensures forall k: nat :: k in r <==> k < n && p(k)
    ensures forall i, j :: 0 <= i < j < |r| ==> r[i] > r[j]
  {
    if n == 0 then []
    else
      var older := SelectNewest(n - 1, p);
      assert forall i :: 0 <= i < |older| ==> older[i] in older;
      (if p(n - 1) then [n - 1] else []) + older
  }

  /** The at most `cap` newest positions below n that satisfy p, newest
      first: a query ordered by descending creation and sliced `[:cap]`. */
  function Latest(n: nat, p: nat -> bool, cap: nat): (r: seq<nat>)
    ensures |r| <= cap
    ensures forall k: nat :: k in r ==> k < n && p(k)
    ensures forall i, j :: 0 <= i < j < |r| ==> r[i] > r[j]
    ensures |r| < cap ==> forall k: nat :: k < n && p(k) ==> k in r
    ensures forall k: nat, j :: k < n && p(k) && k !in r && j in r ==> k < j
  {
    var all := SelectNewest(n, p);
    var m := Min(cap, |all|);
    PrefixKeepsNewest(all, m);
    assert forall k :: k in all[..m] ==> k in all;
    all[..m]
  }

  /** In a strictly descending sequence, whatever is left out of a prefix is
      smaller than everything kept in it. */
  lemma PrefixKeepsNewest(s: seq<nat>, m: nat)
    requires m <= |s|
    requires forall i, j :: 0 <= i < j < |s| ==> s[i] > s[j]
    ensures forall k, j :: k in s && k !in s[..m] && j in s[..m] ==> k < j
  {
    forall k, j | k in s && k !in s[..m] && j in s[..m]
      ensures k < j
    {
      var a :| 0 <= a < |s| && s[a] == k;
      var b :| 0 <= b < m && s[..m][b] == j;
    }
  }
}
