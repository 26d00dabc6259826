/**
 The iterators compaction reads through, in keep-all-versions mode with no snapshot: one table,
 several disjoint tables end to end, and the two-way merge of two such streams.
 */
module MergeIterators {
  import opened Versions
  import opened Ssts
  import opened BlockIterators
  import opened HeapIterators

  /** Walk every block of a table. */
  class SstIterator {
    const sst: Sst
    var blockIdx: nat
    var it: BlockIterator?

    /** Either at the end, or on an entry of the current block. */
    ghost predicate Valid()
      reads this, it
    {
      it != null ==>
        && blockIdx < |sst.blocks| && (forall i :: 0 <= i < |sst.blocks| ==> sst.blocks[i] != [])
        && it.block == sst.blocks[blockIdx] && it.idx < |it.block| && it.t == 0 && it.keepAll
    }

    ghost function Rest(): seq<Entry>
      requires Valid()
      reads this, it
    {
      if it == null then [] else it.block[it.idx..] + Flat(sst.blocks[blockIdx + 1..])
    }

    constructor (sst: Sst)
      requires WellFormed(sst)
      ensures Valid() && Rest() == Entries(sst) && fresh(it) && it != null && this.sst == sst
    {
      hide WellFormed, Flat;
      Ssts.Shape(sst);
      this.sst, blockIdx := sst, 0;
      it := new BlockIterator(sst.blocks[0], 0, 0, true);
      new;
      NonEmptyBlocks(sst);
      FlatCons(sst.blocks);
    }

    /** Step within the block; at its end move to the next block, or to the end of the table. */
    method Next()
      requires Valid()
      modifies this, it
      ensures Valid() && (it == old(it) || it == null || fresh(it))
      ensures old(it) == null ==> it == null
      ensures old(it) != null ==> old(Rest()) != [] && Rest() == old(Rest())[1..]
      ensures it == null ==> Rest() == []
    {
      hide Flat;
      if it == null {
        return;
      }
      ghost var tail, i := sst.blocks[blockIdx + 1..], it.idx;
      DropHead(it.block, i, Flat(tail));
      it.Next();
      if it.IsEnd() {
        blockIdx := blockIdx + 1;
        FlatCons(tail);
        if blockIdx < |sst.blocks| {
          assert tail[1..] == sst.blocks[blockIdx + 1..];
          it := new BlockIterator(sst.blocks[blockIdx], 0, 0, true);
        } else {
          it := null;
        }
      }
    }
  }

  lemma DropHead<T>(s: seq<T>, i: nat, tail: seq<T>)
    requires i < |s|
    ensures s[i..] + tail != [] && (s[i..] + tail)[1..] == s[i + 1..] + tail
    ensures i + 1 == |s| ==> (s[i..] + tail)[1..] == tail
  {
  }

  lemma NonEmptyBlocks(sst: Sst)
    requires WellFormed(sst)
    ensures forall i :: 0 <= i < |sst.blocks| ==> sst.blocks[i] != []
  {
  }

  function Runs(ssts: seq<Sst>): (r: seq<seq<Entry>>)
    ensures |r| == |ssts| && forall i :: 0 <= i < |r| ==> r[i] == Entries(ssts[i])
  {
    seq(|ssts|, i requires 0 <= i < |ssts| => Entries(ssts[i]))
  }

  /** The versions of several tables, one table after another. */
  function Chained(ssts: seq<Sst>): seq<Entry> {
    Flat(Runs(ssts))
  }

  lemma ChainedCons(ssts: seq<Sst>)
    ensures ssts == [] ==> Chained(ssts) == []
    ensures ssts != [] ==> Chained(ssts) == Entries(ssts[0]) + Chained(ssts[1..])
  {
    hide Flat, Entries;
    FlatCons(Runs(ssts));
    if ssts != [] {
      assert Runs(ssts)[1..] == Runs(ssts[1..]);
    }
  }

  function NegatedIds(ssts: seq<Sst>): (r: seq<int>)
    ensures |r| == |ssts| && forall i :: 0 <= i < |r| ==> r[i] == 0 - ssts[i].id
  {
    seq(|ssts|, i requires 0 <= i < |ssts| => 0 - ssts[i].id)
  }

  /** The versions of several tables as one queue, each tagged with its negated table id. */
  function TableQueue(ssts: seq<Sst>): seq<SearchItem> {
    Queue(Runs(ssts), NegatedIds(ssts))
  }

  /** What the queue of overlapping tables delivers: every version, in table order. */
  lemma TableQueueDelivers(ssts: seq<Sst>)
    requires AgeOrdered(Chained(ssts)) && forall i, j :: 0 <= i < j < |ssts| ==> ssts[i].id > ssts[j].id
    ensures QueueOk(TableQueue(ssts))
    ensures Ordered(Delivery(TableQueue(ssts))) && multiset(Delivery(TableQueue(ssts))) == multiset(Chained(ssts))
  {
    hide Flat, AgeOrdered, Queue, Entries, Delivery, QueueOk, Ordered;
    var runs, idx := Runs(ssts), NegatedIds(ssts);
    QueueEntries(runs, idx);
    QueueCompatible(runs, idx);
    DeliveryOrdered(TableQueue(ssts));
    DeliveryPermutes(TableQueue(ssts));
  }

  /** Drain every table into one queue. */
  method MergeSstIterator(ssts: seq<Sst>) returns (h: HeapIterator)
    requires forall i :: 0 <= i < |ssts| ==> WellFormed(ssts[i])
    requires forall i, j :: 0 <= i < j < |ssts| ==> ssts[i].id > ssts[j].id
    requires AgeOrdered(Chained(ssts))
    ensures fresh(h) && h.Valid() && h.keepAll && !h.skipDelete && h.maxId == 0
    ensures h.Rest() == Delivery(TableQueue(ssts))
    ensures Ordered(h.Rest()) && multiset(h.Rest()) == multiset(Chained(ssts))
  {
    hide WellFormed, Flat, Delivery, AgeOrdered, Queue, Entries, QueueOk, Ordered;
    var items: seq<SearchItem> := [];
    ghost var runs, idx := Runs(ssts), NegatedIds(ssts);
    QueueEmpty(runs, idx);
    for i := 0 to |ssts|
      invariant items == Queue(runs[..i], idx[..i])
    {
      QueueSnoc(runs, idx, i);
      var more := DrainTable(ssts[i]);
      items := items + more;
    }
    assert runs[..|ssts|] == runs && idx[..|ssts|] == idx;
    TableQueueDelivers(ssts);
    h := new HeapIterator(items, 0, false, true);
  }

  lemma QueueEmpty(runs: seq<seq<Entry>>, idx: seq<int>)
    requires |runs| == |idx|
    ensures Queue(runs[..0], idx[..0]) == []
  {
  }

  method DrainTable(sst: Sst) returns (items: seq<SearchItem>)
    requires WellFormed(sst)
    ensures items == QueueRun(Entries(sst), 0 - sst.id)
  {
    hide WellFormed, Flat, Entries, SstIterator.Rest, QueueRun;
    var iter := new SstIterator(sst);
    ghost var all := Entries(sst);
    items := [];
    QueueRunSteps(all, 0 - sst.id);
    while iter.it != null
      invariant iter.Valid() && iter.sst == sst && fresh(iter) && (iter.it != null ==> fresh(iter.it))
      invariant |items| <= |all| && iter.Rest() == all[|items|..]
      invariant items == QueueRun(all[..|items|], 0 - sst.id)
      invariant iter.it == null ==> iter.Rest() == []
      decreases |all| - |items|
    {
      ghost var n := |items|;
      RestHead(iter);
      var e := iter.it.block[iter.it.idx];
      items := items + [SearchItem(e.key, e.value, e.id, 0 - sst.id, 0)];
      assert all[n..][1..] == all[n + 1..];
      iter.Next();
    }
    assert all[..|items|] == all;
  }

  lemma QueueRunSteps(s: seq<Entry>, idx: int)
    ensures QueueRun(s[..0], idx) == []
    ensures forall n :: 0 <= n < |s| ==>
                          QueueRun(s[..n + 1], idx) ==
                          QueueRun(s[..n], idx) + [SearchItem(s[n].key, s[n].value, s[n].id, idx, 0)]
  {
  }

  lemma RestHead(s: SstIterator)
    requires s.Valid() && s.it != null
    ensures s.Rest() != [] && s.Rest()[0] == s.it.block[s.it.idx]
  {
  }

  /** Walk tables one after another. */
  class ConcactIterator {
    const ssts: seq<Sst>
    var curIdx: nat
    var cur: SstIterator?
    ghost var Repr: set<object>

    ghost predicate Valid()
      reads this, Repr
    {
      && this in Repr
      && (forall i :: 0 <= i < |ssts| ==> WellFormed(ssts[i]))
      && (cur != null ==>
            && cur in Repr && (cur.it != null ==> cur.it in Repr)
            && curIdx < |ssts| && cur.Valid() && cur.it != null)
    }

    ghost function Rest(): seq<Entry>
      requires Valid()
      reads this, Repr
    {
      if cur == null then [] else cur.Rest() + Chained(ssts[curIdx + 1..])
    }

    constructor (ssts: seq<Sst>)
      requires forall i :: 0 <= i < |ssts| ==> WellFormed(ssts[i])
      ensures Valid() && fresh(Repr) && Rest() == Chained(ssts)
    {
      hide WellFormed, Chained, Entries;
      ChainedCons(ssts);
      this.ssts, curIdx, cur := ssts, 0, null;
      if ssts != [] {
        cur := new SstIterator(ssts[0]);
      }
      new;
      Repr := {this} + (if cur == null then {} else {cur, cur.it});
    }

    method Next()
      requires Valid()
      modifies Repr
      ensures Valid() && fresh(Repr - old(Repr))
      ensures old(cur) == null ==> Rest() == []
      ensures old(cur) != null ==> Rest() == old(Rest())[1..]
    {
      hide WellFormed, SstIterator.Rest, SstIterator.Valid, Chained, Entries;
      if cur == null {
        return;
      }
      ghost var before, rest := cur.Rest(), ssts[curIdx + 1..];
      cur.Next();
      assert (before + Chained(rest))[1..] == before[1..] + Chained(rest);
      if cur.it == null {
        NextTable();
      }
      Repr := Repr + (if cur == null then {} else {cur, cur.it});
    }

    /** Open the next table, if there is one. */
    method NextTable()
      requires forall i :: 0 <= i < |ssts| ==> WellFormed(ssts[i])
      requires curIdx < |ssts|
      modifies this`curIdx, this`cur
      ensures cur != null ==>
                && fresh(cur) && cur.it != null && fresh(cur.it) && cur.Valid() && curIdx < |ssts|
                && cur.Rest() + Chained(ssts[curIdx + 1..]) == Chained(ssts[old(curIdx) + 1..])
      ensures cur == null ==> Chained(ssts[old(curIdx) + 1..]) == []
    {
      hide WellFormed, SstIterator.Rest, Chained, Entries;
      ghost var rest := ssts[curIdx + 1..];
      ChainedCons(rest);
      curIdx := curIdx + 1;
      if curIdx < |ssts| {
        assert rest[1..] == ssts[curIdx + 1..];
        cur := new SstIterator(ssts[curIdx]);
      } else {
        cur := null;
      }
    }
  }

  // ---------- the two-way merge ----------

  /** An iterator the merge can read from. */
  datatype Source = OfHeap(heap: HeapIterator) | OfTables(tables: ConcactIterator)

  ghost function Footprint(s: Source): set<object>
    reads if s.OfTables? then {s.tables} else {}
  {
    match s
    case OfHeap(h) => {h}
    case OfTables(c) => {c} + c.Repr
  }

  ghost predicate Ready(s: Source)
    reads if s.OfTables? then {s.tables} else {}, Footprint(s)
  {
    match s
    case OfHeap(h) => h.Valid() && h.keepAll && !h.skipDelete && h.maxId == 0
    case OfTables(c) => c.Valid()
  }

  ghost function Remaining(s: Source): seq<Entry>
    requires Ready(s)
    reads if s.OfTables? then {s.tables} else {}, Footprint(s)
  {
    match s
    case OfHeap(h) => h.Rest()
    case OfTables(c) => c.Rest()
  }

  /** The entry a source stands on, if it is not at its end. */
  method Peek(s: Source) returns (e: Option<Entry>)
    requires Ready(s)
    ensures Ready(s)
    ensures Remaining(s) == [] <==> e == None
    ensures e.Some? ==> Remaining(s)[0] == e.value
  {
    hide WellFormed, Delivery, QueueOk, Flat, Chained;
    match s
    case OfHeap(h) =>
      if h.items == [] {
        DeliveryUnfold(h.items);
        e := None;
      } else {
        var m := h.TopIndex();
        e := Some(h.items[m].ToEntry());
      }
    case OfTables(c) =>
      if c.cur == null {
        e := None;
      } else {
        e := Some(c.cur.it.block[c.cur.it.idx]);
      }
  }

  method Advance(s: Source)
    requires Ready(s) && Remaining(s) != []
    modifies Footprint(s)
    ensures Ready(s) && fresh(Footprint(s) - old(Footprint(s)))
    ensures Remaining(s) == old(Remaining(s))[1..]
  {
    hide WellFormed, Delivery, QueueOk, Flat, Chained;
    match s
    case OfHeap(h) =>
      DeliveryUnfold(h.items);
      h.Next();
    case OfTables(c) =>
      c.Next();
  }

  /** Advance one source; a disjoint one is not disturbed. */
  method AdvanceBeside(s: Source, other: Source)
    requires Ready(s) && Remaining(s) != [] && Ready(other) && Footprint(s) !! Footprint(other)
    modifies Footprint(s)
    ensures Ready(s) && fresh(Footprint(s) - old(Footprint(s))) && Remaining(s) == old(Remaining(s))[1..]
    ensures Ready(other) && Footprint(other) == old(Footprint(other)) && Remaining(other) == old(Remaining(other))
    ensures Footprint(s) !! Footprint(other)
  {
    hide Ready, Remaining;
    Advance(s);
  }

  /** Which stream goes next: the smaller key; on equal keys the larger id. */
  predicate ChooseA(a: Option<Entry>, b: Option<Entry>) {
    if a.None? then false
    else if b.None? then true
    else if a.value.key != b.value.key then Less(a.value.key, b.value.key)
    else a.value.id > b.value.id
  }

  function Head(s: seq<Entry>): Option<Entry> {
    if s == [] then None else Some(s[0])
  }

  /** What the merge of two streams delivers. */
  function Merge(x: seq<Entry>, y: seq<Entry>): seq<Entry>
    decreases |x| + |y|
  {
    if x == [] && y == [] then []
    else if ChooseA(Head(x), Head(y)) then [x[0]] + Merge(x[1..], y)
    else [y[0]] + Merge(x, y[1..])
  }

  lemma {:induction false} MergePermutes(x: seq<Entry>, y: seq<Entry>)
    ensures multiset(Merge(x, y)) == multiset(x) + multiset(y)
    ensures forall e :: e in Merge(x, y) <==> e in x || e in y
    decreases |x| + |y|
  {
    hide Less, Merge;
    MergeUnfold(x, y);
    if x == [] && y == [] {
    } else if ChooseA(Head(x), Head(y)) {
      MergePermutes(x[1..], y);
      HeadTail(x);
      assert multiset(Merge(x, y)) == multiset{x[0]} + multiset(Merge(x[1..], y));
    } else {
      MergePermutes(x, y[1..]);
      HeadTail(y);
      assert multiset(Merge(x, y)) == multiset{y[0]} + multiset(Merge(x, y[1..]));
    }
  }

  lemma HeadTail<T>(s: seq<T>)
    requires s != []
    ensures multiset(s) == multiset{s[0]} + multiset(s[1..])
    ensures forall e :: e in s <==> e == s[0] || e in s[1..]
  {
    assert s == [s[0]] + s[1..];
  }

  /** No version has two values in the two streams, markers apart. */
  ghost predicate Apart(x: seq<Entry>, y: seq<Entry>) {
    forall e, f :: e in x && f in y && e.key != [] ==> OneValue(e, f)
  }

  /** Streams that agree on the versions they share merge into one ordered stream. */
  lemma {:induction false} MergeOrdered(x: seq<Entry>, y: seq<Entry>)
    requires Ordered(x) && Ordered(y) && Apart(x, y)
    ensures Ordered(Merge(x, y))
    decreases |x| + |y|
  {
    hide Less, InOrder, Ordered, Merge;
    MergeUnfold(x, y);
    if x == [] && y == [] {
      OrderedNone();
    } else if ChooseA(Head(x), Head(y)) {
      TailOrdered(x);
      HeadTail(x);
      MergeOrdered(x[1..], y);
      MergePermutes(x[1..], y);
      HeadInOrder(x, y);
      OrderedCons(x[0], Merge(x[1..], y));
    } else {
      TailOrdered(y);
      HeadTail(y);
      MergeOrdered(x, y[1..]);
      MergePermutes(x, y[1..]);
      HeadInOrder(y, x);
      OrderedCons(y[0], Merge(x, y[1..]));
    }
  }

  lemma OrderedNone()
    ensures Ordered([])
  {
  }

  /** The chosen head is in order before the rest of its own stream and before all of the other one. */
  lemma HeadInOrder(x: seq<Entry>, y: seq<Entry>)
    requires Ordered(x) && Ordered(y) && x != [] && Apart(x, y)
    requires y != [] ==> ChooseA(Head(x), Head(y)) || !ChooseA(Head(y), Head(x))
    ensures forall f :: f in x[1..] || f in y ==> InOrder(x[0], f)
  {
    hide Less;
    if y != [] {
      assert x[0] in x && y[0] in y;
      LessTotal(x[0].key, y[0].key);
      assert InOrder(x[0], y[0]);
    }
    forall f | f in y
      ensures InOrder(x[0], f)
    {
      var j :| 0 <= j < |y| && y[j] == f;
      if j > 0 { InOrderTransitive(x[0], y[0], y[j]); }
    }
  }

  class TwoMergeIterator {
    const a: Source
    const b: Source
    var chooseA: bool

    ghost function Repr(): set<object>
      reads this, if a.OfTables? then {a.tables} else {}, if b.OfTables? then {b.tables} else {}
    {
      {this} + Footprint(a) + Footprint(b)
    }

    ghost predicate Valid()
      reads this, if a.OfTables? then {a.tables} else {}, if b.OfTables? then {b.tables} else {}
      reads Footprint(a), Footprint(b)
    {
      && Footprint(a) !! Footprint(b) && this !in Footprint(a) && this !in Footprint(b)
      && Ready(a) && Ready(b)
      && chooseA == ChooseA(Head(Remaining(a)), Head(Remaining(b)))
    }

    ghost function Rest(): seq<Entry>
      requires Valid()
      reads this, if a.OfTables? then {a.tables} else {}, if b.OfTables? then {b.tables} else {}
      reads Footprint(a), Footprint(b)
    {
      Merge(Remaining(a), Remaining(b))
    }

    constructor (a: Source, b: Source)
      requires Ready(a) && Ready(b) && Footprint(a) !! Footprint(b)
      ensures Valid() && this.a == a && this.b == b && Rest() == Merge(Remaining(a), Remaining(b))
    {
      hide Less, Merge, Ready, Remaining;
      this.a, this.b := a, b;
      var x := Peek(a);
      var y := Peek(b);
      chooseA := ChooseA(x, y);
    }

    /** The current version; none when both streams are exhausted. */
    method Current() returns (e: Option<Entry>)
      requires Valid()
      ensures Valid() && Rest() == old(Rest()) && Repr() == old(Repr())
      ensures Rest() == [] <==> e == None
      ensures e.Some? ==> Rest()[0] == e.value
    {
      hide Less, Ready, Remaining, Merge;
      ghost var x, y := Remaining(a), Remaining(b);
      MergeUnfold(x, y);
      e := Peek(if chooseA then a else b);
      assert Remaining(a) == x && Remaining(b) == y && Ready(a) && Ready(b);
    }

    method Next()
      requires Valid() && Rest() != []
      modifies Repr()
      ensures Valid() && fresh(Repr() - old(Repr()))
      ensures Rest() == old(Rest())[1..]
    {
      hide Less, Ready, Remaining, Merge;
      ghost var x0, y0 := Remaining(a), Remaining(b);
      MergeUnfold(x0, y0);
      if chooseA {
        AdvanceBeside(a, b);
      } else {
        AdvanceBeside(b, a);
      }
      var x := Peek(a);
      var y := Peek(b);
      SetChoice(ChooseA(x, y));
    }

    /** Record the decision; nothing the sources depend on changes. */
    method SetChoice(choice: bool)
      requires Footprint(a) !! Footprint(b) && this !in Footprint(a) && this !in Footprint(b) && Ready(a) && Ready(b)
      modifies this
      ensures chooseA == choice
      ensures Footprint(a) == old(Footprint(a)) && Footprint(b) == old(Footprint(b))
      ensures Ready(a) && Ready(b) && Remaining(a) == old(Remaining(a)) && Remaining(b) == old(Remaining(b))
    {
      hide Ready, Remaining;
      chooseA := choice;
    }
  }

  lemma MergeUnfold(x: seq<Entry>, y: seq<Entry>)
    ensures Merge(x, y) == [] <==> x == [] && y == []
    ensures x != [] || y != [] ==>
              if ChooseA(Head(x), Head(y)) then x != [] && Merge(x, y) == [x[0]] + Merge(x[1..], y)
              else y != [] && Merge(x, y) == [y[0]] + Merge(x, y[1..])
  {
    hide Less;
  }
}
