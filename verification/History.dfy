/** The abstract store: the map of every version written, and what a snapshot read of it returns. */
module Histories {
  import opened Versions

  type History = map<(Key, Id), Value>

  /** s holds a commit marker of the transaction. */
  ghost predicate Marked(s: seq<Entry>, id: Id) {
    exists e :: e in s && e.key == [] && e.id == id
  }

  /** The layout s holds exactly the written versions, and the markers of exactly the marked transactions. */
  ghost predicate Represents(s: seq<Entry>, h: History) {
    && (forall e: Entry :: e.key != [] ==> (e in s <==> (e.key, e.id) in h && h[(e.key, e.id)] == e.value))
    && (forall id: Id :: ([], id) in h <==> Marked(s, id))
  }

  ghost predicate NewestIn(h: History, k: Key, t: Id, id: Id) {
    && (k, id) in h && Visible(id, t)
    && forall i :: (k, i) in h && Visible(i, t) ==> i <= id
  }

  /** The value of the newest visible version; nothing when there is none or it is a deletion. */
  ghost function Read(h: History, k: Key, t: Id): Option<Value> {
    if exists id :: NewestIn(h, k, t, id) && h[(k, id)] != [] then
      var id :| NewestIn(h, k, t, id) && h[(k, id)] != [];
      Some(h[(k, id)])
    else None
  }

  /** A scan result as a caller sees it: an empty value reads as absent. */
  function Answer(r: Option<Entry>): Option<Value> {
    if r.Some? && r.value.value != [] then Some(r.value.value) else None
  }

  /** Scanning an age-ordered layout answers exactly as the abstract store does. */
  lemma FirstAnswers(s: seq<Entry>, h: History, k: Key, t: Id)
    requires AgeOrdered(s) && Represents(s, h) && k != []
    ensures Answer(First(s, k, t)) == Read(h, k, t)
  {
    hide First, AgeOrdered;
    var r := First(s, k, t);
    forall id | NewestIn(h, k, t, id)
      ensures r == Some(Entry(k, h[(k, id)], id))
    {
      var e := Entry(k, h[(k, id)], id);
      assert e in s;
      FirstIsNewest(s, k, t, e);
    }
    if r.Some? {
      var e := r.value;
      FirstIsNewest(s, k, t, e);
      assert e in s;
      forall i | (k, i) in h && Visible(i, t)
        ensures i <= e.id
      {
        assert Entry(k, h[(k, i)], i) in s;
      }
      assert NewestIn(h, k, t, e.id);
    }
  }

  /** The new version is newer than every version of its key in older places, or one of them; a marker always passes. */
  ghost predicate Fresh(older: seq<Entry>, e: Entry) {
    e.key != [] ==> forall f :: f in older && f.key == e.key ==> Supersedes(e, f)
  }

  /** A write to the current table keeps age order exactly when it is newer than the older places. */
  lemma WriteKeepsAgeOrder(cur: seq<Entry>, older: seq<Entry>, e: Entry)
    requires Sorted(cur) && AgeOrdered(cur + older)
    ensures AgeOrdered(Upsert(cur, e) + older) <==> Fresh(older, e)
  {
    hide Less, Before, Sorted, Upsert, AgeOrdered;
    AgeOrderedParts(cur, older);
    UpsertMembers(cur, e);
    UpsertSorted(cur, e);
    SortedIsAgeOrdered(Upsert(cur, e));
    if Fresh(older, e) {
      AgeOrderedJoin(Upsert(cur, e), older);
    }
    if AgeOrdered(Upsert(cur, e) + older) {
      AgeOrderedParts(Upsert(cur, e), older);
      assert e in Upsert(cur, e);
    }
  }

  lemma WriteRepresents(cur: seq<Entry>, older: seq<Entry>, e: Entry, h: History)
    requires Sorted(cur) && Represents(cur + older, h) && Fresh(older, e)
    ensures Represents(Upsert(cur, e) + older, h[(e.key, e.id) := e.value])
  {
    hide Less, Before, Sorted, Upsert, Marked;
    UpsertMembers(cur, e);
    forall f: Entry | f.key != []
      ensures f in Upsert(cur, e) + older <==>
              (f.key, f.id) in h[(e.key, e.id) := e.value] && h[(e.key, e.id) := e.value][(f.key, f.id)] == f.value
    {
      assert f in cur + older <==> f in cur || f in older;
    }
    forall id: Id
      ensures Marked(Upsert(cur, e) + older, id) <==> Marked(cur + older, id) || (e.key == [] && e.id == id)
    {
      UpsertMarks(cur, older, e, id);
    }
  }

  lemma UpsertMarks(cur: seq<Entry>, older: seq<Entry>, e: Entry, id: Id)
    requires Sorted(cur)
    ensures Marked(Upsert(cur, e) + older, id) <==> Marked(cur + older, id) || (e.key == [] && e.id == id)
  {
    hide Less, Before, Sorted, Upsert;
    UpsertMembers(cur, e);
    assert e in Upsert(cur, e) + older;
    if Marked(cur + older, id) {
      var f :| f in cur + older && f.key == [] && f.id == id;
      var g := if f in cur && SameVersion(f, e) then e else f;
      assert g in Upsert(cur, e) + older;
    }
    if Marked(Upsert(cur, e) + older, id) {
      var f :| f in Upsert(cur, e) + older && f.key == [] && f.id == id;
      assert f == e || f in cur + older;
    }
  }

  lemma SameVersionsRepresent(a: seq<Entry>, b: seq<Entry>, h: History)
    requires SameVersions(a, b) && Represents(b, h)
    ensures Represents(a, h)
  {
    hide SameVersions;
    SameVersionsSameMembers(a, b);
    assert forall id: Id :: Marked(a, id) <==> Marked(b, id);
  }

  // ---------- runs ----------

  /** What a caller can do to a store. Compaction happens inside a flush. */
  datatype Op = Put(key: Key, value: Value, id: Id) | Remove(key: Key, id: Id) | Freeze | Flush

  predicate IsWrite(op: Op) {
    op.Put? || op.Remove?
  }

  function Written(op: Op): Value
    requires IsWrite(op)
  {
    if op.Put? then op.value else []
  }

  /** Every id written so far is below the bound. */
  ghost predicate Below(h: History, bound: Id) {
    forall k, i :: (k, i) in h ==> i < bound
  }

  /** The ids of successive writes strictly increase, from the bound up. */
  predicate Increasing(ops: seq<Op>, bound: Id) {
    ops == [] ||
    if IsWrite(ops[0]) then bound <= ops[0].id && Increasing(ops[1..], ops[0].id + 1)
    else Increasing(ops[1..], bound)
  }

  function Apply(h: History, op: Op): History {
    if IsWrite(op) then h[(op.key, op.id) := Written(op)] else h
  }

  function Replay(h: History, ops: seq<Op>): History
    decreases |ops|
  {
    if ops == [] then h else Replay(Apply(h, ops[0]), ops[1..])
  }

  /** The versions a run writes, in order. */
  function WrittenBy(ops: seq<Op>): seq<Entry> {
    if ops == [] then []
    else (if IsWrite(ops[0]) then [Entry(ops[0].key, Written(ops[0]), ops[0].id)] else []) + WrittenBy(ops[1..])
  }

  /** A table gains at most the version written into it. */
  lemma UpsertPart(cur: seq<Entry>, e: Entry)
    requires Sorted(cur)
    ensures multiset(Upsert(cur, e)) <= multiset(cur) + multiset{e}
  {
    hide Upsert, Sorted;
    var lo, mid, hi := UpsertSplit(cur, e);
    assert multiset(cur) == multiset(lo) + multiset(mid) + multiset(hi);
    assert multiset(Upsert(cur, e)) == multiset(lo) + multiset{e} + multiset(hi);
  }

  /** The last write of k that t may see, scanning the run backwards. */
  function LastWrite(ops: seq<Op>, k: Key, t: Id): Option<Value> {
    if ops == [] then None
    else
      var op := ops[|ops| - 1];
      if IsWrite(op) && op.key == k && Visible(op.id, t) then
        (if Written(op) != [] then Some(Written(op)) else None)
      else LastWrite(ops[..|ops| - 1], k, t)
  }

  /** After a run from the empty store, a snapshot read returns the last write it may see. */
  lemma {:induction false} RunReadsLastWrite(ops: seq<Op>, from: Id, k: Key, t: Id)
    requires Increasing(ops, from)
    ensures Read(Replay(map[], ops), k, t) == LastWrite(ops, k, t)
  {
    hide Read;
    if ops == [] {
      ReadEmpty(k, t);
    } else {
      var n := |ops| - 1;
      IncreasingLast(ops, from);
      ReplayLast(map[], ops);
      RunReadsLastWrite(ops[..n], from, k, t);
      if IsWrite(ops[n]) {
        ReadAfterWrite(Replay(map[], ops[..n]), Entry(ops[n].key, Written(ops[n]), ops[n].id), k, t);
      }
    }
  }

  lemma ReadEmpty(k: Key, t: Id)
    ensures Read(map[], k, t) == None
  {
  }

  /** A write above every stored id changes what its own key reads, where visible, and nothing else. */
  lemma ReadAfterWrite(h: History, e: Entry, k: Key, t: Id)
    requires Below(h, e.id)
    ensures Read(h[(e.key, e.id) := e.value], k, t) ==
            if k == e.key && Visible(e.id, t) then (if e.value != [] then Some(e.value) else None) else Read(h, k, t)
  {
    var h' := h[(e.key, e.id) := e.value];
    if k == e.key && Visible(e.id, t) {
      assert NewestIn(h', k, t, e.id);
      assert forall id :: NewestIn(h', k, t, id) ==> id == e.id;
    } else {
      assert forall id :: (k, id) in h' && Visible(id, t) <==> (k, id) in h && Visible(id, t);
      assert forall id :: NewestIn(h', k, t, id) <==> NewestIn(h, k, t, id);
    }
  }

  lemma {:induction false} ReplayLast(h: History, ops: seq<Op>)
    requires ops != []
    ensures Replay(h, ops) == Apply(Replay(h, ops[..|ops| - 1]), ops[|ops| - 1])
    decreases |ops|
  {
    if |ops| > 1 {
      ReplayLast(Apply(h, ops[0]), ops[1..]);
      assert ops[1..][..|ops| - 2] == ops[..|ops| - 1][1..];
    }
  }

  /** A prefix of an increasing run is increasing, and the last write is above everything before it. */
  lemma {:induction false} IncreasingLast(ops: seq<Op>, from: Id)
    requires Increasing(ops, from) && ops != []
    ensures Increasing(ops[..|ops| - 1], from)
    ensures IsWrite(ops[|ops| - 1]) ==> Below(Replay(map[], ops[..|ops| - 1]), ops[|ops| - 1].id)
  {
    IncreasingAbove(map[], ops, from);
  }

  lemma {:induction false} IncreasingAbove(h: History, ops: seq<Op>, from: Id)
    requires Increasing(ops, from) && ops != [] && Below(h, from)
    ensures Increasing(ops[..|ops| - 1], from)
    ensures IsWrite(ops[|ops| - 1]) ==> Below(Replay(h, ops[..|ops| - 1]), ops[|ops| - 1].id)
    decreases |ops|
  {
    if |ops| > 1 {
      IncreasingAbove(Apply(h, ops[0]), ops[1..], if IsWrite(ops[0]) then ops[0].id + 1 else from);
      assert ops[1..][..|ops| - 2] == ops[..|ops| - 1][1..];
    }
  }
}
