/** A store whose only compaction throws: what it leaves behind, and what reopening makes of it. */
module LeftOvers {
  import opened Versions
  import opened Ssts
  import opened HeapIterators
  import opened MergeIterators
  import opened Compactions
  import opened Levels
  import opened TailBuilds
  import opened Reloads
  import Engines
  import Blooms

  lemma {:induction false} MergeAlone(x: seq<Entry>)
    ensures Merge(x, []) == x
  {
    hide Merge;
    MergeUnfold(x, []);
    if x != [] {
      MergeAlone(x[1..]);
    }
  }

  /** A single table without markers goes through the queue unchanged. */
  lemma OneTableStream(t: Sst)
    requires Sorted(Entries(t)) && forall e :: e in Entries(t) ==> e.key != []
    ensures L0L1Stream([t], []) == Entries(t)
  {
    hide Delivery, Merge, Sorted, Entries, Flat, QueueRun;
    var q, s := TableQueue([t]), Entries(t);
    OneRun(t);
    OneRunOk(q, s);
    DeliverySorted(q);
    DeliveryPermutes(q);
    SortedUnique(Delivery(q), s);
    ChainedCons([]);
    MergeAlone(s);
  }

  lemma OneRun(t: Sst)
    ensures TableQueue([t]) == QueueRun(Entries(t), 0 - t.id)
  {
    hide Entries, QueueRun;
    var runs, idx := Runs([t]), NegatedIds([t]);
    assert runs[1..] == [] && idx[1..] == [] && runs[0] == Entries(t);
    assert Queue(runs, idx) == QueueRun(runs[0], idx[0]) + Queue(runs[1..], idx[1..]);
    assert Queue([], []) == [];
  }

  lemma OneRunOk(q: seq<SearchItem>, s: seq<Entry>)
    requires Sorted(s) && exists idx :: q == QueueRun(s, idx)
    ensures QueueOk(q) && Consistent(q) && ToEntries(q) == s && DistinctVersions(s)
  {
    hide Before;
    assert ToEntries(q) == s;
    forall i, j | 0 <= i < j < |s|
      ensures !SameVersion(s[i], s[j])
    {
      BeforeCompares(s[i], s[j]);
    }
  }

  /** A store with one table in level 0, for any block capacity, target and value, whose compaction throws. */
  lemma ThrowingStore(v: Value, capacity: nat, bloom: Blooms.Bloom, target: nat) returns (d: Disk)
    requires Blooms.Valid(bloom) && v != [] && |v| >= capacity && target > 0
    ensures DiskOk(d) && DirOk(d) && Clean(d) && Ids(d, 0) == [1] && Ids(d, 1) == []
    ensures TailEmpty(L0L1Stream(FilesOf(d, 0), FilesOf(d, 1)), capacity, bloom, target)
  {
    hide DiskOk, DirOk, WellFormed, Sorted, Ordered, TailEmpty, L0L1Stream, Entries, Ladder;
    var n := TailBuildCanThrow(v, capacity, bloom, target);
    var s := Ladder(n, v);
    SortedIsOrdered(s);
    LadderIs(n, v);
    SortedStreamBuilds(capacity, bloom, s, 1);
    var t := Build(AddAll(NewBuilder(capacity, bloom), s), 1).value;
    var start := Disk(map[], map[], 1, 0, {});
    Engines.EmptyStore(start);
    EmptyDir(start);
    PushedNew(start, t);
    PushedDir(start, t);
    d := Pushed(start.(nextId := 2), t);
    assert Ids(d, 0) == [1] && Ids(d, 1) == [];
    assert FilesOf(d, 0) == [t] && FilesOf(d, 1) == [];
    OneTableStream(t);
  }

  lemma LadderIs(n: nat, v: Value)
    requires n > 0
    ensures Ladder(n, v) != [] && forall e :: e in Ladder(n, v) ==> e.key != []
  {
  }

  lemma EmptyDir(d: Disk)
    requires d.levels == map[] && d.ssts == map[] && d.files == {}
    ensures DirOk(d) && Clean(d)
  {
  }

  /** After the throw the tables already written lie in the directory, and reopening lists them. */
  lemma ThrowSpoilsReload(d: Disk, src: nat, built: seq<Sst>, next: nat, dir: seq<FileEntry>)
    requires DiskOk(d) && DirOk(d) && Compacted(built, LevelRun(d, src), LevelRun(d, src + 1), d.nextId)
    requires next >= d.nextId + |built| && Ids(d, src) != []
    requires Enumerates(dir, Abandoned(d, built, src + 1, next).files)
    ensures var d' := Abandoned(d, built, src + 1, next);
            !Clean(d') && !(forall l: nat :: Arranged(l, Found(dir, l)) == Ids(d', l))
  {
    hide DiskOk, DirOk, Compacted, LevelRun, Enumerates, Clean, Abandoned, Arranged, Found, Ids;
    Engines.AbandonedOk(d, src, built, next);
    ArrangedIsLevel(Abandoned(d, built, src + 1, next), dir);
  }
}
