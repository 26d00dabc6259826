/**
 Which transactions need no replay. The manager keeps an ordered set S of flushed ids that stands for
 every id up to its smallest one, and for its members.
 */
module FlushedIds {
  import opened Versions
  import opened IdLists

  /** The ids the ordered set s stands for. */
  predicate Represented(s: seq<Id>, x: Id) {
    s != [] && (x <= s[0] || x in s)
  }

  /** Drop the smallest id while the next one follows it directly. */
  function Compress(s: seq<Id>): seq<Id> {
    if |s| >= 2 && s[1] == s[0] + 1 then Compress(s[1..]) else s
  }

  /** Compressing changes neither what the set stands for nor its largest id, and leaves a gap at the front. */
  lemma {:induction false} CompressKeeps(s: seq<Id>)
    requires Ascending(s)
    ensures Ascending(Compress(s)) && (Compress(s) == [] <==> s == [])
    ensures forall x :: Represented(Compress(s), x) <==> Represented(s, x)
    ensures s != [] ==> Compress(s)[|Compress(s)| - 1] == s[|s| - 1]
    ensures |Compress(s)| >= 2 ==> Compress(s)[1] > Compress(s)[0] + 1
  {
    if |s| >= 2 && s[1] == s[0] + 1 {
      HeadAndTail(s);
      CompressKeeps(s[1..]);
    }
  }

  /** Two passes over the ordered set: skip the leading run of consecutive ids, then copy the rest. */
  method CompressSet(s: seq<Id>) returns (result: seq<Id>)
    requires Ascending(s)
    ensures result == Compress(s)
  {
    if s == [] {
      return [];
    }
    var last, i := s[0], 1;
    while i < |s|
      invariant 1 <= i <= |s| && last == s[i - 1]
      invariant Compress(s) == Compress(s[i - 1..])
    {
      assert s[i - 1..][1..] == s[i..];
      if s[i] == last + 1 {
        last := s[i];
      } else {
        break;
      }
      i := i + 1;
    }
    result := [last];
    ghost var from := i;
    while i < |s|
      invariant from <= i <= |s| && result == [last] + s[from..i]
    {
      result := result + [s[i]];
      i := i + 1;
    }
    assert s[from - 1..] == [last] + s[from..];
  }

  function Inserted(s: seq<Id>, x: Id): seq<Id> {
    if x in s then s else InsertId(x, s)
  }

  lemma InsertedIs(s: seq<Id>, x: Id)
    requires Ascending(s)
    ensures Ascending(Inserted(s, x)) && forall y :: y in Inserted(s, x) <==> y == x || y in s
  {
    if x !in s {
      InsertIdSorts(x, s);
    }
  }

  function InsertedAll(s: seq<Id>, xs: seq<Id>): seq<Id> {
    if xs == [] then s else Inserted(InsertedAll(s, xs[..|xs| - 1]), xs[|xs| - 1])
  }

  lemma {:induction false} InsertedAllIs(s: seq<Id>, xs: seq<Id>)
    requires Ascending(s)
    ensures Ascending(InsertedAll(s, xs)) && forall y :: y in InsertedAll(s, xs) <==> y in xs || y in s
  {
    if xs != [] {
      var n := |xs| - 1;
      InsertedAllIs(s, xs[..n]);
      InsertedIs(InsertedAll(s, xs[..n]), xs[n]);
      assert xs == xs[..n] + [xs[n]];
    }
  }

  // ---------- transactions waiting for their flush ----------

  datatype TransactionState = OpCommitted | Aborted

  /** An ordered map from transaction id to how it ended. */
  type Ready = seq<(Id, TransactionState)>

  ghost predicate ByRisingId(r: Ready) {
    forall i, j :: 0 <= i < j < |r| ==> r[i].0 < r[j].0
  }

  function Assigned(r: Ready, id: Id, st: TransactionState): Ready {
    if r == [] || id < r[0].0 then [(id, st)] + r
    else if id == r[0].0 then [(id, st)] + r[1..]
    else [r[0]] + Assigned(r[1..], id, st)
  }

  lemma {:induction false} AssignedIs(r: Ready, id: Id, st: TransactionState)
    requires ByRisingId(r)
    ensures ByRisingId(Assigned(r, id, st))
    ensures forall x :: x in Assigned(r, id, st) <==> x == (id, st) || (x in r && x.0 != id)
  {
    hide ByRisingId;
    if r == [] {
      ReadyCons((id, st), r);
    } else {
      ReadyTail(r);
      if id < r[0].0 {
        ReadyCons((id, st), r);
      } else if id == r[0].0 {
        ReadyCons((id, st), r[1..]);
      } else {
        AssignedIs(r[1..], id, st);
        ReadyCons(r[0], Assigned(r[1..], id, st));
      }
    }
  }

  lemma ReadyTail(r: Ready)
    requires ByRisingId(r) && r != []
    ensures ByRisingId(r[1..]) && (forall x :: x in r <==> x == r[0] || x in r[1..])
    ensures forall x :: x in r[1..] ==> r[0].0 < x.0
  {
    assert r == [r[0]] + r[1..];
    assert forall i :: 0 <= i < |r[1..]| ==> r[1..][i] == r[i + 1];
  }

  lemma ReadyCons(p: (Id, TransactionState), r: Ready)
    requires (r == [] || ByRisingId(r)) && forall x :: x in r ==> p.0 < x.0
    ensures ByRisingId([p] + r) && forall x :: x in [p] + r <==> x == p || x in r
  {
    assert forall i :: 0 <= i < |r| ==> r[i] in r;
  }

  predicate Waiting(r: Ready, id: Id) {
    (id, OpCommitted) in r || (id, Aborted) in r
  }

  /** The ids a flushed marker settles: itself, if it is waiting, and every earlier aborted one. */
  function Settles(r: Ready, id: Id): seq<Id> {
    if r == [] then []
    else if r[0].0 < id && r[0].1 == Aborted then [r[0].0] + Settles(r[1..], id)
    else if r[0].0 == id then [id]
    else Settles(r[1..], id)
  }

  lemma {:induction false} SettlesIs(r: Ready, id: Id)
    requires ByRisingId(r)
    ensures forall x :: x in Settles(r, id) <==> ((x, Aborted) in r && x < id) || (x == id && Waiting(r, x))
  {
    hide ByRisingId;
    if r != [] {
      ReadyTail(r);
      SettlesIs(r[1..], id);
      var p := r[0];
      assert p == (p.0, if p.1.Aborted? then Aborted else OpCommitted);
      assert forall x :: Waiting(r, x) <==> x == p.0 || Waiting(r[1..], x);
    }
  }

  function Without(r: Ready, ids: seq<Id>): Ready {
    if r == [] then []
    else if r[0].0 in ids then Without(r[1..], ids)
    else [r[0]] + Without(r[1..], ids)
  }

  lemma {:induction false} WithoutIs(r: Ready, ids: seq<Id>)
    requires ByRisingId(r)
    ensures ByRisingId(Without(r, ids)) && forall x :: x in Without(r, ids) <==> x in r && x.0 !in ids
  {
    hide ByRisingId;
    if r == [] {
      assert r == Without(r, ids);
    } else {
      ReadyTail(r);
      WithoutIs(r[1..], ids);
      if r[0].0 !in ids {
        ReadyCons(r[0], Without(r[1..], ids));
      }
    }
  }

  /** What the flushed set becomes when the marker of id has reached the disk. */
  function AfterMarker(flushed: seq<Id>, r: Ready, id: Id): seq<Id> {
    Compress(InsertedAll(flushed, Settles(r, id)))
  }

  /** Nothing but the settled ids can become represented. */
  lemma AfterMarkerIs(flushed: seq<Id>, r: Ready, id: Id)
    requires Ascending(flushed) && flushed != [] && ByRisingId(r)
    ensures var s := AfterMarker(flushed, r, id);
            && Ascending(s) && s != []
            && (forall x :: Represented(s, x) ==> Represented(flushed, x) || x in Settles(r, id))
            && (forall x :: x in Settles(r, id) || x in flushed ==> Represented(s, x))
  {
    hide Compress, InsertedAll, Settles;
    var ids := Settles(r, id);
    var s := InsertedAll(flushed, ids);
    InsertedAllIs(flushed, ids);
    assert flushed[0] in s;
    CompressKeeps(s);
    forall x | Represented(s, x)
      ensures Represented(flushed, x) || x in ids
    {
      var i :| 0 <= i < |s| && s[i] == flushed[0];
      assert s[0] <= flushed[0];
    }
  }

  // ---------- the manager ----------

  class TranManager {
    var nextTransactionId: Id
    var ready: Ready
    var flushed: seq<Id>

    ghost predicate Valid()
      reads this
    {
      ByRisingId(ready) && Ascending(flushed) && flushed != []
    }

    constructor ()
      ensures Valid() && flushed == [0] && ready == [] && nextTransactionId == 1
    {
      nextTransactionId, ready, flushed := 1, [], [0];
    }

    /** After replay the log starts afresh: everything handed out so far counts as flushed. */
    method InitNewWal()
      requires Valid() && nextTransactionId >= 1
      modifies this
      ensures nextTransactionId == old(nextTransactionId) && ready == old(ready)
      ensures Valid() && |flushed| == 1 && flushed[0] + 1 == nextTransactionId
      ensures forall x: Id :: Represented(flushed, x) <==> x < nextTransactionId
    {
      flushed := [nextTransactionId - 1];
    }

    method GetNextTransactionId() returns (id: Id)
      modifies this`nextTransactionId
      ensures id == old(nextTransactionId) && nextTransactionId == id + 1
    {
      id := nextTransactionId;
      nextTransactionId := nextTransactionId + 1;
    }

    method AddReadyToFlushTrancId(id: Id, st: TransactionState)
      requires Valid()
      modifies this`ready
      ensures Valid() && ready == Assigned(old(ready), id, st)
      ensures forall x :: x in ready <==> x == (id, st) || (x in old(ready) && x.0 != id)
    {
      AssignedIs(ready, id, st);
      ready := Assigned(ready, id, st);
    }

    /** A marker has reached the disk: walk the waiting ids up to it. */
    method AddFlushedTrancId(id: Id)
      requires Valid()
      modifies this`ready, this`flushed
      ensures Valid()
      ensures flushed == AfterMarker(old(flushed), old(ready), id)
      ensures ready == Without(old(ready), Settles(old(ready), id))
      ensures forall x :: x in ready <==> x in old(ready) && x.0 !in Settles(old(ready), id)
    {
      hide Compress, InsertedAll, Settles, Without, Inserted;
      ghost var was := flushed;
      var needRemove: seq<Id> := [];
      var i := 0;
      SettlesCons(ready[0..], id);
      assert ready[0..] == ready;
      InsertedAllStart(was);
      while i < |ready|
        invariant 0 <= i <= |ready|
        invariant needRemove + Settles(ready[i..], id) == Settles(ready, id)
        invariant flushed == InsertedAll(was, needRemove)
        invariant ready == old(ready)
      {
        SettlesCons(ready[i..], id);
        assert ready[i..][1..] == ready[i + 1..];
        var (readyId, state) := ready[i];
        if readyId < id && state == Aborted {
          InsertedAllLast(was, needRemove, readyId);
          flushed := Inserted(flushed, readyId);
          needRemove := needRemove + [readyId];
        } else if readyId == id {
          InsertedAllLast(was, needRemove, readyId);
          flushed := Inserted(flushed, readyId);
          needRemove := needRemove + [readyId];
          break;
        }
        i := i + 1;
      }
      if i == |ready| {
        SettlesCons(ready[i..], id);
      }
      assert needRemove == Settles(ready, id);
      InsertedAllIs(was, needRemove);
      WithoutIs(ready, needRemove);
      AfterMarkerIs(was, ready, id);
      ready := Without(ready, needRemove);
      flushed := CompressSet(flushed);
    }
  }

  lemma SettlesCons(r: Ready, id: Id)
    ensures r == [] ==> Settles(r, id) == []
    ensures r != [] && r[0].0 < id && r[0].1 == Aborted ==> Settles(r, id) == [r[0].0] + Settles(r[1..], id)
    ensures r != [] && r[0].0 == id ==> Settles(r, id) == [id]
    ensures r != [] && r[0].0 != id && !(r[0].0 < id && r[0].1 == Aborted) ==> Settles(r, id) == Settles(r[1..], id)
  {
  }

  lemma InsertedAllStart(s: seq<Id>)
    ensures InsertedAll(s, []) == s
  {
  }

  lemma InsertedAllLast(s: seq<Id>, xs: seq<Id>, x: Id)
    ensures InsertedAll(s, xs + [x]) == Inserted(InsertedAll(s, xs), x)
  {
    assert (xs + [x])[..|xs|] == xs;
  }
}
