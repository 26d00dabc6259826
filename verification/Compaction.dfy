/**
 Compaction: merge two adjacent levels into one sorted stream and cut the stream into new
 tables, never between two versions of one key.
 */
module Compactions {
  import opened Versions
  import opened Ssts
  import opened HeapIterators
  import opened MergeIterators
  import opened Widths
  import Blooms
  import Blocks
  import BloomCodecs
  import SstFiles

  /** No key occurs in two tables, and tables are listed by rising keys. */
  ghost predicate Separated(files: seq<Sst>) {
    forall i, j, e, f :: 0 <= i < j < |files| && e in Entries(files[i]) && f in Entries(files[j]) ==> Less(e.key, f.key)
  }

  ghost predicate AllWellFormed(files: seq<Sst>) {
    forall i :: 0 <= i < |files| ==> WellFormed(files[i])
  }

  /** Tables numbered consecutively from an id. */
  ghost predicate Numbered(files: seq<Sst>, id: nat) {
    forall i :: 0 <= i < |files| ==> files[i].id == id + i
  }

  // ---------- cutting the stream ----------

  /** After adding the head of s the table is cut: its key ends here and the closed blocks reach the target. */
  predicate Cuts(b: Builder, s: seq<Entry>, target: nat)
    requires s != []
  {
    !(|s| > 1 && s[1].key == s[0].key) && b.dataSize >= target
  }

  /** The builder left over once the whole stream is consumed. */
  function LeftOver(b: Builder, s: seq<Entry>, target: nat, empty: Builder): (r: Builder)
    requires Blooms.Valid(b.bloom) && Blooms.Valid(empty.bloom)
    ensures Blooms.Valid(r.bloom)
    decreases |s|
  {
    if s == [] then b
    else
      var b1 := Add(b, s[0]);
      LeftOver(if Cuts(b1, s, target) then empty else b1, s[1..], target, empty)
  }

  /** In an ordered stream, where the key changes every earlier key is below every later one. */
  lemma KeyChange(s: seq<Entry>, n: nat)
    requires Ordered(s) && 0 < n <= |s|
    requires n < |s| ==> s[n].key != s[n - 1].key
    ensures forall i, j :: 0 <= i < n <= j < |s| ==> Less(s[i].key, s[j].key)
  {
    hide Less, Ordered;
    forall i, j | 0 <= i < n <= j < |s|
      ensures Less(s[i].key, s[j].key)
    {
      Blocks.SortedKeys(s, i, j);
      if s[i].key == s[j].key {
        Blocks.SameKeyBetween(s, i, j, n - 1);
        Blocks.SameKeyBetween(s, i, j, n);
      }
    }
  }

  /** How far the cut has come after n versions. */
  ghost predicate Progress(all: seq<Entry>, n: nat, files: seq<Sst>, b: Builder, id: nat) {
    && n <= |all| && Building(b) && AllWellFormed(files) && Separated(files) && Numbered(files, id)
    && Chained(files) + Added(b) == all[..n]
    && (forall e, j :: e in Chained(files) && 0 <= j < |all| && j >= |Chained(files)| ==> Less(e.key, all[j].key))
  }

  lemma ProgressAdd(all: seq<Entry>, n: nat, files: seq<Sst>, b: Builder, id: nat)
    requires Ordered(all) && n < |all| && Progress(all, n, files, b, id)
    ensures Progress(all, n + 1, files, Add(b, all[n]), id)
  {
    hide Less, Building, AllWellFormed, Separated, Chained;
    forall f | f in Added(b)
      ensures InOrder(f, all[n])
    {
      assert f in all[..n];
    }
    AddKeepsBuilding(b, all[n]);
    assert all[..n + 1] == all[..n] + [all[n]];
  }

  /** Closing the builder at a key change: the new table joins the list. */
  lemma ProgressCut(all: seq<Entry>, n: nat, files: seq<Sst>, b: Builder, id: nat, empty: Builder)
    requires Ordered(all) && 0 < n && Progress(all, n, files, b, id) && Added(b) != []
    requires n < |all| ==> all[n].key != all[n - 1].key
    requires Building(empty) && Added(empty) == []
    ensures Build(b, id + |files|).Some?
    ensures Progress(all, n, files + [Build(b, id + |files|).value], empty, id)
  {
    hide Less, Building, WellFormed, Ordered, Build, Added, Entries, Chained, Separated;
    BuildWellFormed(b, id + |files|);
    var t := Build(b, id + |files|).value;
    ChainedSnoc(files, t);
    KeyChange(all, n);
    var m := |Chained(files)|;
    forall e | e in Chained(files + [t])
      ensures forall j :: n <= j < |all| ==> Less(e.key, all[j].key)
    {
      assert e in all[..n];
    }
    forall e, f | e in Chained(files) && f in Entries(t)
      ensures Less(e.key, f.key)
    {
      var j :| 0 <= j < |Added(b)| && Added(b)[j] == f;
      assert (Chained(files) + Added(b))[m + j] == f;
      assert all[..n][m + j] == all[m + j];
    }
    SeparatedSnoc(files, t);
  }

  lemma SeparatedSnoc(files: seq<Sst>, t: Sst)
    requires Separated(files)
    requires forall e, f :: e in Chained(files) && f in Entries(t) ==> Less(e.key, f.key)
    ensures Separated(files + [t])
  {
    hide Less, Entries, Chained;
    ChainedMembers(files);
  }

  lemma ChainedSnoc(files: seq<Sst>, t: Sst)
    ensures Chained(files + [t]) == Chained(files) + Entries(t)
  {
    hide Flat, Entries;
    assert Runs(files + [t]) == Runs(files) + [Entries(t)];
    FlatConcat(Runs(files), [Entries(t)]);
    FlatOne(Entries(t));
  }

  lemma ChainedMembers(files: seq<Sst>)
    ensures forall i, e :: 0 <= i < |files| && e in Entries(files[i]) ==> e in Chained(files)
    ensures forall e :: e in Chained(files) ==> exists i :: 0 <= i < |files| && e in Entries(files[i])
  {
    hide Flat, Entries;
    FlatMembers(Runs(files));
    forall i, e | 0 <= i < |files| && e in Entries(files[i])
      ensures e in Chained(files)
    {
      assert e in Runs(files)[i];
    }
    forall e | e in Chained(files)
      ensures exists i :: 0 <= i < |files| && e in Entries(files[i])
    {
      var i :| 0 <= i < |Runs(files)| && e in Runs(files)[i];
    }
  }

  lemma ProgressStart(all: seq<Entry>, b: Builder, id: nat)
    requires Building(b) && Added(b) == []
    ensures Progress(all, 0, [], b, id)
  {
    hide Building, Added, Flat;
    FlatCons(Runs([]));
  }

  lemma LeftOverStep(b: Builder, s: seq<Entry>, target: nat, empty: Builder)
    requires Blooms.Valid(b.bloom) && Blooms.Valid(empty.bloom) && s != []
    ensures LeftOver(b, s, target, empty) ==
            LeftOver(if Cuts(Add(b, s[0]), s, target) then empty else Add(b, s[0]), s[1..], target, empty)
  {
    hide Add;
  }

  lemma LeftOverEnd(b: Builder, target: nat, empty: Builder)
    requires Blooms.Valid(b.bloom) && Blooms.Valid(empty.bloom)
    ensures LeftOver(b, [], target, empty) == b
  {
  }

  /** The tail: either a last table completes the list, or there is nothing to build and the build throws. */
  lemma FinishTail(all: seq<Entry>, files: seq<Sst>, b: Builder, id: nat, empty: Builder)
    requires Ordered(all) && Progress(all, |all|, files, b, id) && Building(empty) && Added(empty) == []
    ensures Build(b, id + |files|).None? <==> Added(b) == []
    ensures Added(b) == [] ==> AllWellFormed(files) && Separated(files) && Numbered(files, id) && Chained(files) == all
    ensures Build(b, id + |files|).Some? ==>
              var done := files + [Build(b, id + |files|).value];
              AllWellFormed(done) && Separated(done) && Numbered(done, id) && Chained(done) == all
  {
    hide Less, Building, Added, Chained, Build, Separated, AllWellFormed;
    BuildWellFormed(b, id + |files|);
    assert all[..|all|] == all;
    if Added(b) != [] {
      assert |all| == |Chained(files)| + |Added(b)|;
      ProgressCut(all, |all|, files, b, id, empty);
      assert Chained(files + [Build(b, id + |files|).value]) + Added(empty) == all;
    } else {
      assert Chained(files) + Added(b) == Chained(files);
    }
  }

  /** The builder holds what it would hold had its versions been added one by one. */
  ghost predicate Grown(b: Builder, empty: Builder)
    requires Blooms.Valid(empty.bloom)
  {
    b == AddAll(empty, Added(b))
  }

  /** The table is what building its versions gives. */
  ghost predicate Made(t: Sst, empty: Builder)
    requires Blooms.Valid(empty.bloom)
  {
    Build(AddAll(empty, Entries(t)), t.id) == Some(t)
  }

  ghost predicate AllMade(files: seq<Sst>, empty: Builder)
    requires Blooms.Valid(empty.bloom)
  {
    forall i :: 0 <= i < |files| ==> Made(files[i], empty)
  }

  lemma GrownAdd(b: Builder, e: Entry, empty: Builder)
    requires Blooms.Valid(empty.bloom) && Blooms.Valid(b.bloom) && Grown(b, empty)
    ensures Grown(Add(b, e), empty)
  {
    hide Add, Added;
    AddedGrows(b, e);
    assert (Added(b) + [e])[..|Added(b)|] == Added(b);
  }

  lemma GrownNone(empty: Builder)
    requires Blooms.Valid(empty.bloom) && Added(empty) == []
    ensures Grown(empty, empty) && AllMade([], empty)
  {
    hide Added;
  }

  lemma GrownBuilds(b: Builder, id: nat, empty: Builder, files: seq<Sst>)
    requires Blooms.Valid(empty.bloom) && Grown(b, empty) && Building(b) && Build(b, id).Some? && AllMade(files, empty)
    ensures AllMade(files + [Build(b, id).value], empty)
  {
    hide Building, Added, Build, AddAll, Entries, WellFormed;
    BuildWellFormed(b, id);
  }

  /**
   One version further: it is added, and the table is cut if its key ends there and the closed blocks
   reach the target.
   */
  lemma CutStep(all: seq<Entry>, n: nat, files: seq<Sst>, b: Builder, id: nat, target: nat, empty: Builder)
    requires Ordered(all) && n < |all| && Progress(all, n, files, b, id) && Building(empty) && Added(empty) == []
    requires Blooms.Valid(b.bloom) && Blooms.Valid(empty.bloom) && Grown(b, empty) && AllMade(files, empty)
    ensures var b1, sameKey := Add(b, all[n]), n + 1 < |all| && all[n + 1].key == all[n].key;
            var t, cut := Build(b1, id + |files|), !sameKey && b1.dataSize >= target;
            && (cut ==> t.Some? && Progress(all, n + 1, files + [t.value], empty, id))
            && (cut ==> AllMade(files + [t.value], empty))
            && (!cut ==> Progress(all, n + 1, files, b1, id)) && Grown(b1, empty)
            && LeftOver(b, all[n..], target, empty) == LeftOver(if cut then empty else b1, all[n + 1..], target, empty)
  {
    hide Less, Building, Ordered, Build, Added, Add, Progress, LeftOver, Grown, AllMade;
    var s := all[n..];
    assert s[0] == all[n] && s[1..] == all[n + 1..] && (n + 1 < |all| ==> s[1] == all[n + 1]);
    LeftOverStep(b, s, target, empty);
    ProgressAdd(all, n, files, b, id);
    AddedGrows(b, all[n]);
    var b1 := Add(b, all[n]);
    GrownAdd(b, all[n], empty);
    if Cuts(b1, s, target) {
      ProgressCut(all, n + 1, files, b1, id, empty);
      ProgressBuilding(all, n + 1, files, b1, id);
      GrownBuilds(b1, id + |files|, empty, files);
    }
  }

  lemma ProgressBuilding(all: seq<Entry>, n: nat, files: seq<Sst>, b: Builder, id: nat)
    requires Progress(all, n, files, b, id)
    ensures Building(b)
  {
    hide Building;
  }

  /**
   Drain the merge into new tables numbered from id. The tail build is guarded by a size that is
   never zero, so it throws, after taking an id, when the last version also completed a table;
   `thrown` reports that. Either way the tables built hold exactly the stream, in order, with no
   key in two of them: guarded by "the builder holds data", the tail build would lose nothing.
   */
  method GenSstFromIter(iter: TwoMergeIterator, capacity: nat, bloom: Blooms.Bloom, target: nat, id: nat)
    returns (files: seq<Sst>, next: nat, thrown: bool)
    requires iter.Valid() && Ordered(iter.Rest()) && Blooms.Valid(bloom)
    modifies iter.Repr()
    ensures next == id + |files| + (if thrown then 1 else 0)
    ensures var empty := NewBuilder(capacity, bloom);
            thrown <==> Added(LeftOver(empty, old(iter.Rest()), target, empty)) == []
    ensures AllWellFormed(files) && Separated(files) && Numbered(files, id) && Chained(files) == old(iter.Rest())
    ensures AllMade(files, NewBuilder(capacity, bloom))
  {
    hide Less, Building, Ordered, Build, Added, Add, Progress, LeftOver, Chained, Separated, AllWellFormed,
         Blooms.Valid, Grown, AllMade;
    hide TwoMergeIterator.Valid, TwoMergeIterator.Rest;
    ghost var all := iter.Rest();
    var empty := NewBuilder(capacity, bloom);
    NewBuilding(capacity, bloom);
    var b := empty;
    files, next, thrown := [], id, false;
    ProgressStart(all, b, id);
    GrownNone(empty);
    ghost var n := 0;
    var cur := iter.Current();
    while cur.Some?
      invariant iter.Valid() && fresh(iter.Repr() - old(iter.Repr())) && n <= |all| && Added(empty) == []
      invariant Building(empty)
      invariant iter.Rest() == all[n..] && (cur == None <==> n == |all|)
      invariant (cur.Some? ==> n < |all| && cur.value == all[n])
      invariant Progress(all, n, files, b, id) && next == id + |files|
      invariant Blooms.Valid(b.bloom) && Grown(b, empty) && AllMade(files, empty)
      invariant LeftOver(b, all[n..], target, empty) == LeftOver(empty, all, target, empty)
      decreases |all| - n
    {
      ghost var mid := iter.Repr();
      var key := cur.value.key;
      CutStep(all, n, files, b, id, target, empty);
      b := Add(b, cur.value);
      iter.Next();
      assert fresh(iter.Repr() - mid);
      cur := iter.Current();
      n := n + 1;
      var sameKey := cur.Some? && cur.value.key == key;
      if !sameKey && b.dataSize >= target {
        files := files + [Build(b, next).value];
        next := next + 1;
        b := empty;
        GrownNone(empty);
      }
    }
    assert all[..n] == all && all[n..] == [];
    LeftOverEnd(b, target, empty);
    FinishTail(all, files, b, id, empty);
    ProgressBuilding(all, n, files, b, id);
    match Build(b, next)
    case None =>
      next := next + 1;
      thrown := true;
    case Some(t) =>
      GrownBuilds(b, next, empty, files);
      files := files + [t];
      next := next + 1;
  }

  /** Nothing is left for the tail build, which then throws. */
  ghost predicate TailEmpty(stream: seq<Entry>, capacity: nat, bloom: Blooms.Bloom, target: nat)
    requires Blooms.Valid(bloom)
  {
    var empty := NewBuilder(capacity, bloom);
    Added(LeftOver(empty, stream, target, empty)) == []
  }

  /** Merge two streams and cut the result into tables. */
  method CutMerge(a: Source, b: Source, capacity: nat, bloom: Blooms.Bloom, target: nat, id: nat,
                  ghost stream: seq<Entry>)
    returns (files: seq<Sst>, next: nat, thrown: bool)
    requires Ready(a) && Ready(b) && Footprint(a) !! Footprint(b) && Blooms.Valid(bloom)
    requires stream == Merge(Remaining(a), Remaining(b)) && Ordered(stream)
    modifies Footprint(a), Footprint(b)
    ensures next == id + |files| + (if thrown then 1 else 0)
    ensures thrown <==> TailEmpty(stream, capacity, bloom, target)
    ensures AllWellFormed(files) && Separated(files) && Numbered(files, id) && Chained(files) == stream
    ensures AllMade(files, NewBuilder(capacity, bloom))
  {
    hide AllMade;
    hide Ready, Remaining, Ordered, LeftOver, Added, Merge, Chained, Separated, AllWellFormed;
    var merge := new TwoMergeIterator(a, b);
    files, next, thrown := GenSstFromIter(merge, capacity, bloom, target, id);
  }

  // ---------- the two compactions ----------

  /**
   The outcome of compacting the run `upper` over the run `lower`: sorted tables without shared
   keys that hold the same versions, tombstones included, in the same order per key.
   */
  ghost predicate Compacted(files: seq<Sst>, upper: seq<Entry>, lower: seq<Entry>, id: nat) {
    && AllWellFormed(files) && Separated(files) && Numbered(files, id)
    && Ordered(Chained(files))
    && SameVersions(Chained(files), upper + lower)
  }

  lemma SharedAgree(upper: seq<Entry>, lower: seq<Entry>)
    requires AgeOrdered(upper + lower)
    ensures Apart(upper, lower)
  {
    hide AgeOrdered;
    AgeOrderedParts(upper, lower);
  }

  /** Merging an arranged newer run with an older one conserves every version. */
  lemma MergeCompacts(files: seq<Sst>, arranged: seq<Entry>, upper: seq<Entry>, lower: seq<Entry>, id: nat)
    requires AgeOrdered(upper + lower) && Ordered(arranged) && Ordered(lower)
    requires multiset(arranged) == multiset(upper)
    requires AllWellFormed(files) && Separated(files) && Numbered(files, id)
    requires Chained(files) == Merge(arranged, lower)
    ensures Compacted(files, upper, lower, id)
  {
    hide AgeOrdered, Ordered, AllWellFormed, Separated, Merge, SameVersions;
    MergeInOrder(arranged, upper, lower);
    MergePermutes(arranged, lower);
    assert multiset(upper + lower) == multiset(upper) + multiset(lower);
    SortedPermutationKeepsVersions(upper + lower, Chained(files));
    SameVersionsMultiset(Chained(files), upper + lower);
  }

  lemma MergeInOrder(arranged: seq<Entry>, upper: seq<Entry>, lower: seq<Entry>)
    requires AgeOrdered(upper + lower) && Ordered(arranged) && Ordered(lower)
    requires multiset(arranged) == multiset(upper)
    ensures Ordered(Merge(arranged, lower))
  {
    hide AgeOrdered, Ordered, Merge;
    SharedAgree(upper, lower);
    SameMultiset(arranged, upper);
    MergeOrdered(arranged, lower);
  }

  lemma SameVersionsMultiset(a: seq<Entry>, b: seq<Entry>)
    requires SameVersions(a, b)
    ensures multiset(a) == multiset(b)
  {
  }

  /** The stream a compaction from level 0 cuts up: overlapping tables go through the queue first. */
  ghost function L0L1Stream(l0: seq<Sst>, l1: seq<Sst>): seq<Entry> {
    Merge(Delivery(TableQueue(l0)), Chained(l1))
  }

  ghost function CommonStream(lx: seq<Sst>, ly: seq<Sst>): seq<Entry> {
    Merge(Chained(lx), Chained(ly))
  }

  /** Whatever order the queue delivers in, the streams hold what the tables hold. */
  lemma StreamsPermute(lx: seq<Sst>, ly: seq<Sst>)
    ensures multiset(L0L1Stream(lx, ly)) == multiset(Chained(lx) + Chained(ly))
    ensures multiset(CommonStream(lx, ly)) == multiset(Chained(lx) + Chained(ly))
  {
    hide Flat, Queue, Entries, Delivery, Merge;
    QueueEntries(Runs(lx), NegatedIds(lx));
    DeliveryPermutes(TableQueue(lx));
    MergePermutes(Delivery(TableQueue(lx)), Chained(ly));
    MergePermutes(Chained(lx), Chained(ly));
  }

  /** Every file of the tables can be read back from its bytes. */
  ghost predicate AllRecoverable(files: seq<Sst>) {
    forall i :: 0 <= i < |files| ==> SstFiles.Recoverable(files[i])
  }

  lemma RecoverableWellFormed(files: seq<Sst>)
    requires AllRecoverable(files)
    ensures AllWellFormed(files)
  {
    hide WellFormed, SstFiles.FileFits, SstFiles.OffsetsTrue, SstFiles.LooksLong;
  }

  lemma TableIsPart(files: seq<Sst>, i: nat)
    requires i < |files|
    ensures multiset(Entries(files[i])) <= multiset(Chained(files))
    ensures Ordered(Chained(files)) ==> Ordered(Entries(files[i]))
  {
    hide Entries, Ordered;
    BlockIsPart(Runs(files), i);
    FlatSplit(Runs(files), i);
    if Ordered(Chained(files)) {
      OrderedSlices(Flat(Runs(files)[..i]), Runs(files)[i], Flat(Runs(files)[i + 1..]));
    }
  }

  /** Tables cut from a roomy stream can be read back. */
  lemma MadeRecoverable(files: seq<Sst>, stream: seq<Entry>, capacity: nat, bloom: Blooms.Bloom)
    requires Blooms.Valid(bloom) && BloomCodecs.Fits(bloom) && AllMade(files, NewBuilder(capacity, bloom))
    requires AllWellFormed(files) && Chained(files) == stream && Ordered(stream) && Roomy(stream, capacity)
    ensures AllRecoverable(files)
  {
    hide WellFormed, Ordered, Roomy, Chained, Build, AddAll, Entries, SstFiles.Recoverable;
    forall i | 0 <= i < |files|
      ensures SstFiles.Recoverable(files[i])
    {
      var t := files[i];
      TableIsPart(files, i);
      RoomyPart(Entries(t), stream, capacity);
      assert WellFormed(t);
      HasVersion(t);
      BuiltRecoverable(capacity, bloom, Entries(t), t.id);
      assert Made(t, NewBuilder(capacity, bloom));
    }
  }

  lemma HasVersion(t: Sst)
    requires WellFormed(t)
    ensures Entries(t) != []
  {
  }

  method FullL0L1Compact(l0: seq<Sst>, l1: seq<Sst>, capacity: nat, bloom: Blooms.Bloom, target: nat, id: nat)
    returns (files: seq<Sst>, next: nat, thrown: bool)
    requires AllRecoverable(l0) && AllRecoverable(l1) && Blooms.Valid(bloom) && BloomCodecs.Fits(bloom)
    requires Roomy(Chained(l0) + Chained(l1), capacity)
    requires forall i, j :: 0 <= i < j < |l0| ==> l0[i].id > l0[j].id
    requires AgeOrdered(Chained(l0) + Chained(l1)) && Ordered(Chained(l1))
    ensures thrown <==> TailEmpty(L0L1Stream(l0, l1), capacity, bloom, target)
    ensures Compacted(files, Chained(l0), Chained(l1), id) && next == id + |files| + (if thrown then 1 else 0)
    ensures AllRecoverable(files)
  {
    hide WellFormed, Chained, Delivery, AgeOrdered, Ordered, TailEmpty, Merge, Separated, Compacted, TableQueue,
         AllRecoverable, AllMade, Roomy;
    ghost var upper, lower := Chained(l0), Chained(l1);
    RecoverableWellFormed(l0);
    RecoverableWellFormed(l1);
    AgeOrderedParts(upper, lower);
    var heap := MergeSstIterator(l0);
    MergeInOrder(heap.Rest(), upper, lower);
    var tables := new ConcactIterator(l1);
    ghost var arranged := heap.Rest();
    files, next, thrown := CutMerge(OfHeap(heap), OfTables(tables), capacity, bloom, target, id, L0L1Stream(l0, l1));
    MergeCompacts(files, arranged, upper, lower, id);
    CompactedRoomy(files, upper, lower, id, capacity);
    MadeRecoverable(files, Chained(files), capacity, bloom);
  }

  method FullCommonCompact(lx: seq<Sst>, ly: seq<Sst>, capacity: nat, bloom: Blooms.Bloom, target: nat, id: nat)
    returns (files: seq<Sst>, next: nat, thrown: bool)
    requires AllRecoverable(lx) && AllRecoverable(ly) && Blooms.Valid(bloom) && BloomCodecs.Fits(bloom)
    requires Roomy(Chained(lx) + Chained(ly), capacity)
    requires AgeOrdered(Chained(lx) + Chained(ly)) && Ordered(Chained(lx)) && Ordered(Chained(ly))
    ensures thrown <==> TailEmpty(CommonStream(lx, ly), capacity, bloom, target)
    ensures Compacted(files, Chained(lx), Chained(ly), id) && next == id + |files| + (if thrown then 1 else 0)
    ensures AllRecoverable(files)
  {
    hide WellFormed, Chained, AgeOrdered, Ordered, TailEmpty, Merge, Separated, Compacted, AllRecoverable, AllMade,
         Roomy;
    ghost var upper, lower := Chained(lx), Chained(ly);
    RecoverableWellFormed(lx);
    RecoverableWellFormed(ly);
    MergeInOrder(upper, upper, lower);
    var newer := new ConcactIterator(lx);
    var older := new ConcactIterator(ly);
    ghost var stream := CommonStream(lx, ly);
    files, next, thrown := CutMerge(OfTables(newer), OfTables(older), capacity, bloom, target, id, stream);
    MergeCompacts(files, upper, upper, lower, id);
    CompactedRoomy(files, upper, lower, id, capacity);
    MadeRecoverable(files, Chained(files), capacity, bloom);
  }

  lemma CompactedRoomy(files: seq<Sst>, upper: seq<Entry>, lower: seq<Entry>, id: nat, capacity: nat)
    requires Compacted(files, upper, lower, id) && Roomy(upper + lower, capacity)
    ensures Roomy(Chained(files), capacity) && Ordered(Chained(files))
  {
    hide Roomy, AllWellFormed, Separated, Ordered, Chained;
    RoomyPart(Chained(files), upper + lower, capacity);
  }

}
