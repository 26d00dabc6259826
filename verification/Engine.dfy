/**
 The storage engine: writes go to memory, full memory goes to level 0, full levels are compacted
 into the next one, and a read takes the first hit from the newest place down.
 */
module Engines {
  import opened Versions
  import opened Histories
  import opened Ssts
  import opened MemTables
  import opened MergeIterators
  import opened Compactions
  import opened Levels
  import opened IdLists
  import opened Widths
  import BloomCodecs
  import SstFiles
  import Commits
  import Readers
  import TailBuilds
  import Blooms
  import SkipLists

  function Pow(b: nat, e: nat): nat {
    if e == 0 then 1 else b * Pow(b, e - 1)
  }

  class LSMEngine {
    const mem: MemTable
    const ratio: nat
    const blockSize: nat
    const perMem: nat
    const totalMem: nat
    const bloom: Blooms.Bloom

    var levelIds: map<nat, seq<nat>>
    var ssts: map<nat, Sst>
    var nextId: nat
    var maxLevel: nat
    var files: set<FileEntry>

    /** Every version ever written, whatever structure holds it now. */
    ghost var history: History

    function OnDisk(): Disk
      reads this
    {
      Disk(levelIds, ssts, nextId, maxLevel, files)
    }

    /** The memory tables, newest first. */
    ghost function Memory(): seq<seq<Entry>>
      reads this, mem, mem.Repr
    {
      if mem.Owns() then mem.Tables() else []
    }

    /** The whole store as one layout, newest place first. */
    ghost function All(): seq<Entry>
      reads this, mem, mem.Repr
    {
      if mem.Owns() then Flat(mem.Tables()) + DiskRun(OnDisk()) else []
    }

    /** The same as a store of the concurrent reads, between two steps of a writer. */
    ghost function Store(): Readers.Store
      reads this, mem, mem.Repr
    {
      if mem.Owns() then Readers.StoreOf(mem.Tables(), DiskRun(OnDisk())) else Readers.StoreOf([], [])
    }

    ghost predicate Valid()
      reads this, mem, mem.Repr
    {
      && this !in mem.Repr && mem.Valid() && mem.limit == perMem && Full(mem.Tables())
      && ratio >= 1 && Blooms.Valid(bloom) && BloomCodecs.Fits(bloom)
      && DiskFits(OnDisk()) && Roomy(All(), blockSize)
      && DiskOk(OnDisk()) && DirOk(OnDisk()) && |Ids(OnDisk(), 0)| <= ratio
      && AgeOrdered(All()) && Represents(All(), history)
    }

    constructor (ratio: nat, blockSize: nat, perMem: nat, totalMem: nat, bloom: Blooms.Bloom)
      requires ratio >= 1 && Blooms.Valid(bloom) && BloomCodecs.Fits(bloom) && blockSize < 0x1_0000
      ensures this.ratio == ratio && this.blockSize == blockSize && this.perMem == perMem && this.bloom == bloom
      ensures Valid() && fresh(mem) && fresh(mem.Repr) && history == map[] && Clean(OnDisk()) && All() == []
    {
      hide AgeOrdered, DiskOk, DiskRun, Represents, Flat, MemTables.MemTable.Owns;
      this.ratio, this.blockSize, this.perMem, this.totalMem, this.bloom := ratio, blockSize, perMem, totalMem, bloom;
      levelIds, ssts, nextId, maxLevel, files, history := map[], map[], 1, 0, {}, map[];
      mem := new MemTable(perMem, 16);
      new;
      EmptyStore(OnDisk());
      assert Flat(mem.Tables()) == [] && All() == [];
      NothingRoomy(blockSize);
    }

    /** An engine over tables found on disk, with nothing in memory yet. */
    constructor Over(d: Disk, ghost h: History, ratio: nat, blockSize: nat, perMem: nat, totalMem: nat,
                     bloom: Blooms.Bloom)
      requires ratio >= 1 && Blooms.Valid(bloom) && BloomCodecs.Fits(bloom)
      requires DiskOk(d) && DirOk(d) && DiskFits(d) && |Ids(d, 0)| <= ratio
      requires AgeOrdered(DiskRun(d)) && Represents(DiskRun(d), h) && Roomy(DiskRun(d), blockSize)
      ensures this.ratio == ratio && this.blockSize == blockSize && this.perMem == perMem && this.totalMem == totalMem
      ensures this.bloom == bloom && Valid() && fresh(mem) && fresh(mem.Repr)
      ensures history == h && OnDisk() == d && Flat(Memory()) == [] && All() == DiskRun(d)
    {
      hide AgeOrdered, DiskOk, DirOk, DiskFits, DiskRun, Represents, Roomy, Flat, MemTables.MemTable.Owns;
      this.ratio, this.blockSize, this.perMem, this.totalMem, this.bloom := ratio, blockSize, perMem, totalMem, bloom;
      levelIds, ssts, nextId, maxLevel, files, history := d.levels, d.ssts, d.nextId, d.maxLevel, d.files, h;
      mem := new MemTable(perMem, 16);
      new;
      FlatOne([]);
      assert [] + DiskRun(d) == DiskRun(d);
    }

    // ---------- reading ----------

    /**
     Memory first, then level 0 newest table first, then the deeper levels. A hit in memory carries
     the version's id, a hit on disk the id of the query.
     */
    method Get(key: Key, t: Id) returns (r: Option<(Value, Id)>)
      requires Valid() && key != []
      ensures Valid()
      ensures (if r.Some? then Some(r.value.0) else None) == Read(history, key, t)
      ensures r.Some? ==> r.value.1 == match First(Flat(mem.Tables()), key, t) case Some(e) => e.id case None => t
    {
      hide First, Flat, AgeOrdered, DiskOk, Represents, MemTables.MemTable.Owns;
      ghost var s := All();
      FirstAnswers(s, history, key, t);
      FirstConcat(Flat(mem.Tables()), DiskRun(OnDisk()), key, t);
      var inMem := mem.Get(key, t);
      if inMem.Some? {
        return if |inMem.value.value| > 0 then Some((inMem.value.value, inMem.value.id)) else None;
      }
      var onDisk := DiskGet(key, t);
      return if onDisk.Some? && |onDisk.value.value| > 0 then Some((onDisk.value.value, t)) else None;
    }

    /** The disk part of a read. */
    method DiskGet(key: Key, t: Id) returns (r: Option<Entry>)
      requires DiskOk(OnDisk()) && key != []
      ensures r == First(DiskRun(OnDisk()), key, t)
    {
      hide First, DiskOk, LevelRun;
      var d := OnDisk();
      RunUnfold(d, 0, maxLevel);
      FirstConcat(LevelRun(d, 0), RunTo(d, 1, maxLevel), key, t);
      r := L0Get(key, t);
      if r.Some? {
        return;
      }
      var level := 1;
      while level <= maxLevel
        invariant 1 <= level <= maxLevel + 1 && r.None?
        invariant First(DiskRun(d), key, t) == First(RunTo(d, level, maxLevel), key, t)
      {
        RunUnfold(d, level, maxLevel);
        FirstConcat(LevelRun(d, level), RunTo(d, level + 1, maxLevel), key, t);
        LevelFacts(d, level);
        r := LevelGet(Files(d, level), key, t);
        if r.Some? {
          return;
        }
        level := level + 1;
      }
      RunUnfold(d, level, maxLevel);
      FirstNone([], key, t);
    }

    /** Level 0: every table in turn, newest first. */
    method L0Get(key: Key, t: Id) returns (r: Option<Entry>)
      requires DiskOk(OnDisk()) && key != []
      ensures r == First(LevelRun(OnDisk(), 0), key, t)
    {
      hide First, DiskOk, Chained, WellFormed, Entries;
      var d := OnDisk();
      LevelFacts(d, 0);
      ghost var files := Files(d, 0);
      var ids := if 0 in levelIds then levelIds[0] else [];
      for i := 0 to |ids|
        invariant First(Chained(files), key, t) == First(Chained(files[i..]), key, t)
      {
        ChainedCons(files[i..]);
        assert files[i..][1..] == files[i + 1..];
        FirstConcat(Entries(files[i]), Chained(files[i + 1..]), key, t);
        r := Ssts.Get(ssts[ids[i]], key, t);
        if r.Some? {
          return;
        }
      }
      ChainedCons(files[|ids|..]);
      FirstNone([], key, t);
      r := None;
    }

    /** A read of the disk alone. The id it reports is the id it was asked with. */
    method SstGet(key: Key, t: Id) returns (r: Option<(Value, Id)>)
      requires DiskOk(OnDisk()) && key != []
      ensures (if r.Some? then Some(r.value.0) else None) == Answer(First(DiskRun(OnDisk()), key, t))
      ensures r.Some? ==> r.value.1 == t
    {
      hide DiskOk, DiskRun, First;
      var e := DiskGet(key, t);
      return if e.Some? && |e.value.value| > 0 then Some((e.value.value, t)) else None;
    }

    // ---------- compaction ----------

    /** The target size of a table at a level. */
    function SstSize(level: nat): nat {
      perMem * Pow(ratio, level)
    }

    /** Merging these tables of level src and the next one makes the tail build throw. */
    ghost predicate PairThrows(src: nat, lx: seq<Sst>, ly: seq<Sst>)
      requires Blooms.Valid(bloom)
    {
      if src == 0 then TailEmpty(L0L1Stream(lx, ly), blockSize, bloom, perMem * ratio)
      else TailEmpty(CommonStream(lx, ly), blockSize, bloom, SstSize(src + 1))
    }

    /** Compacting level src throws: the next level has to make room and throws, or the merge itself does. */
    ghost predicate Throws(d: Disk, src: nat)
      requires Blooms.Valid(bloom)
      decreases if src <= d.maxLevel then d.maxLevel + 1 - src else 0
    {
      if src < d.maxLevel && |Ids(d, src + 1)| >= ratio
      then Throws(d, src + 1) || PairThrows(src, FilesOf(d, src), [])
      else PairThrows(src, FilesOf(d, src), FilesOf(d, src + 1))
    }

    lemma ThrowsUnfold(d: Disk, src: nat)
      requires Blooms.Valid(bloom)
      ensures Throws(d, src) == if src < d.maxLevel && |Ids(d, src + 1)| >= ratio
                                then Throws(d, src + 1) || PairThrows(src, FilesOf(d, src), [])
                                else PairThrows(src, FilesOf(d, src), FilesOf(d, src + 1))
    {
      hide PairThrows;
    }

    /**
     Compact a whole level into the next one, after making room there if it is full. When the
     tail build throws, this level and the next stay as they are, so that compacting it again
     throws again, and the tables already written stay behind as files. Either way no version is
     lost and every key keeps its versions.
     */
    method FullCompact(src: nat) returns (thrown: bool)
      requires DiskOk(OnDisk()) && DirOk(OnDisk()) && AgeOrdered(DiskRun(OnDisk())) && src <= maxLevel
      requires ratio >= 1 && Blooms.Valid(bloom) && BloomCodecs.Fits(bloom)
      requires DiskFits(OnDisk()) && Roomy(DiskRun(OnDisk()), blockSize)
      modifies this`levelIds, this`ssts, this`nextId, this`maxLevel, this`files
      ensures DiskOk(OnDisk()) && DirOk(OnDisk()) && SameVersions(DiskRun(OnDisk()), old(DiskRun(OnDisk())))
      ensures DiskFits(OnDisk())
      ensures nextId >= old(nextId) && maxLevel >= old(maxLevel)
      ensures forall l: nat :: l < src ==>
                Ids(OnDisk(), l) == Ids(old(OnDisk()), l) && FilesOf(OnDisk(), l) == FilesOf(old(OnDisk()), l)
      ensures Ids(OnDisk(), src) == if thrown then Ids(old(OnDisk()), src) else []
      ensures thrown <==> Throws(old(OnDisk()), src)
      ensures thrown ==> Throws(OnDisk(), src) && FilesOf(OnDisk(), src) == FilesOf(old(OnDisk()), src)
      ensures Ids(old(OnDisk()), src) != [] ==> (Clean(OnDisk()) <==> Clean(old(OnDisk())) && !thrown)
      decreases maxLevel - src
    {
      hide DiskOk, DirOk, DiskRun, AgeOrdered, SameVersions, Compacted, Replaced, Throws, PairThrows, Clean, FilesOf,
           DiskFits, Roomy;
      ghost var d := OnDisk();
      SameVersionsItself(DiskRun(d));
      ThrowsUnfold(d, src);
      var next := if src + 1 in levelIds then levelIds[src + 1] else [];
      LevelFacts(d, src + 1);
      if |next| >= ratio {
        thrown := FullCompact(src + 1);
        SameVersionsAgeOrdered(DiskRun(OnDisk()), DiskRun(d));
        SameVersionsRoomy(DiskRun(OnDisk()), DiskRun(d), blockSize);
        if thrown {
          ThrowsUnfold(OnDisk(), src);
          return;
        }
        NoFilesOf(OnDisk(), src + 1);
      }
      ghost var mid := OnDisk();
      thrown := CompactPair(src);
      SameVersionsTransitive(DiskRun(OnDisk()), DiskRun(mid), DiskRun(d));
      ThrowsUnfold(OnDisk(), src);
    }

    /** Merge level src into level src + 1 and swap the index over to the new tables. */
    method CompactPair(src: nat) returns (thrown: bool)
      requires DiskOk(OnDisk()) && DirOk(OnDisk()) && AgeOrdered(DiskRun(OnDisk())) && src <= maxLevel
      requires ratio >= 1 && Blooms.Valid(bloom) && BloomCodecs.Fits(bloom)
      requires DiskFits(OnDisk()) && Roomy(DiskRun(OnDisk()), blockSize)
      modifies this`levelIds, this`ssts, this`nextId, this`maxLevel, this`files
      ensures DiskOk(OnDisk()) && DirOk(OnDisk()) && SameVersions(DiskRun(OnDisk()), old(DiskRun(OnDisk())))
      ensures DiskFits(OnDisk())
      ensures nextId >= old(nextId) && maxLevel >= old(maxLevel)
      ensures forall l: nat :: l < src || thrown ==>
                                 && Ids(OnDisk(), l) == Ids(old(OnDisk()), l)
                                 && FilesOf(OnDisk(), l) == FilesOf(old(OnDisk()), l)
      ensures thrown ==> maxLevel == old(maxLevel)
      ensures !thrown ==> Ids(OnDisk(), src) == []
      ensures thrown <==> PairThrows(src, FilesOf(old(OnDisk()), src), FilesOf(old(OnDisk()), src + 1))
      ensures Ids(old(OnDisk()), src) != [] ==> (Clean(OnDisk()) <==> Clean(old(OnDisk())) && !thrown)
    {
      hide DiskOk, DirOk, DiskRun, AgeOrdered, SameVersions, Compacted, LevelRun, Replaced, Chained, Ordered,
           Separated, AllWellFormed, Clean, TailEmpty, DiskFits, Roomy, AllRecoverable;
      var d := OnDisk();
      LevelFacts(d, src);
      LevelFacts(d, src + 1);
      AdjacentAgeOrdered(d, src);
      AdjacentIsPart(d, src);
      RoomyPart(LevelRun(d, src) + LevelRun(d, src + 1), DiskRun(d), blockSize);
      FilesFit(d, src);
      FilesFit(d, src + 1);
      var lx, ly := Files(d, src), Files(d, src + 1);
      var built, next;
      if src == 0 {
        built, next, thrown := FullL0L1Compact(lx, ly, blockSize, bloom, perMem * ratio, nextId);
      } else {
        built, next, thrown := FullCommonCompact(lx, ly, blockSize, bloom, SstSize(src + 1), nextId);
      }
      CompactedNumbered(d, src, built);
      ReplacedFits(d, src, built, next);
      if thrown {
        AbandonedOk(d, src, built, next);
        files, nextId := files + NewFiles(built, src + 1), next;
      } else {
        ReplacedOk(d, src, built, next);
        ReplacedSame(d, src, built, next);
        ReplacedIds(d, src, built, next);
        ReplacedDir(d, src, built, next);
        SwapIn(src, built, next);
      }
    }

    /** Drop the merged tables from the index and list the new ones, in id order. */
    method SwapIn(src: nat, built: seq<Sst>, next: nat)
      requires Numbered(built, nextId)
      modifies this`levelIds, this`ssts, this`nextId, this`maxLevel, this`files
      ensures OnDisk() == Replaced(old(OnDisk()), src, built, next)
    {
      hide ById, SortIds, NewFiles, IdSet, Ids, Numbered;
      var d := OnDisk();
      var ids := FileIds(built);
      SortedAlready(ids, built, nextId);
      var gone := IdSet(Ids(d, src)) + IdSet(Ids(d, src + 1));
      files := (set f | f in files && f.id !in gone) + NewFiles(built, src + 1);
      ssts := ssts - gone;
      Overwritten(levelIds[src := []], src + 1, [], ids);
      levelIds := levelIds[src := []][src + 1 := []];
      maxLevel := if maxLevel < src + 1 then src + 1 else maxLevel;
      levelIds := levelIds[src + 1 := SortIds(ids)];
      ssts := ssts + ById(built);
      nextId := next;
    }

    // ---------- flushing ----------

    /** Tables behind the current one are not empty, so there is data as soon as one is frozen. */
    lemma DataInMemory()
      requires Valid()
      ensures Flat(Memory()) != [] <==> mem.current.Contents() != [] || mem.frozen != []
      ensures Flat(Memory()) == [] <==> forall i :: 0 <= i < |mem.Tables()| ==> mem.Tables()[i] == []
    {
      hide DiskOk, DirOk, DiskRun, AgeOrdered, Represents, Flat, DiskFits, Roomy, MemTables.MemTable.Owns;
      mem.TablesAre();
      FlatEmpty(mem.Tables());
      if mem.frozen != [] {
        assert mem.Tables()[1] != [];
      }
    }

    /** Level 0 is full and compacting it throws. */
    ghost predicate Stuck()
      reads this
    {
      Blooms.Valid(bloom) && |Ids(OnDisk(), 0)| >= ratio && Throws(OnDisk(), 0)
    }

    /** Versions too few to fill a table of level 1. */
    ghost predicate Small(s: seq<Entry>) {
      TailBuilds.StreamBytes(s) < perMem * ratio
    }

    lemma PairSmall(src: nat, lx: seq<Sst>, ly: seq<Sst>, s: seq<Entry>)
      requires Blooms.Valid(bloom) && ratio >= 1 && Small(s)
      requires Chained(lx) != [] && multiset(Chained(lx) + Chained(ly)) <= multiset(s)
      ensures !PairThrows(src, lx, ly)
    {
      hide Chained, L0L1Stream, CommonStream, TailEmpty, TailBuilds.StreamBytes, Pow;
      var stream := if src == 0 then L0L1Stream(lx, ly) else CommonStream(lx, ly);
      StreamsPermute(lx, ly);
      assert multiset(stream) <= multiset(s) && Chained(lx)[0] in multiset(stream);
      TailBuilds.StreamPart(stream, s);
      PowAtLeast(ratio, src + 1);
      TargetGrows(perMem, ratio, Pow(ratio, src + 1));
      TailBuilds.SmallStreamsBuild(stream, blockSize, bloom, if src == 0 then perMem * ratio else SstSize(src + 1));
    }

    /** On a small disk no compaction of a level that holds anything throws. */
    lemma {:induction false} SmallNeverThrows(d: Disk, src: nat)
      requires DiskOk(d) && Blooms.Valid(bloom) && ratio >= 1 && Ids(d, src) != [] && Small(DiskRun(d))
      ensures !Throws(d, src)
      decreases if src <= d.maxLevel then d.maxLevel + 1 - src else 0
    {
      hide DiskOk, PairThrows, Small, DiskRun, Throws, FilesOf, Chained;
      ThrowsUnfold(d, src);
      LevelsArePart(d, src);
      if src < d.maxLevel && |Ids(d, src + 1)| >= ratio {
        SmallNeverThrows(d, src + 1);
        PairSmall(src, FilesOf(d, src), [], DiskRun(d));
      } else {
        PairSmall(src, FilesOf(d, src), FilesOf(d, src + 1), DiskRun(d));
      }
    }

    lemma SmallNotStuck(s: seq<Entry>)
      requires Valid() && Small(s) && multiset(All()) <= multiset(s)
      ensures !Stuck()
    {
      hide DiskOk, DirOk, DiskRun, AgeOrdered, Represents, Flat, DiskFits, Roomy, MemTables.MemTable.Owns, Throws,
           TailBuilds.StreamBytes;
      var disk := DiskRun(OnDisk());
      assert multiset(All()) == multiset(Flat(mem.Tables())) + multiset(disk);
      TailBuilds.StreamPart(disk, s);
      if Ids(OnDisk(), 0) != [] {
        SmallNeverThrows(OnDisk(), 0);
      }
    }

    /** While what is stored and still to come is no more than was counted, a small store is not stuck. */
    lemma NotStuckYet(start: seq<Entry>, written: seq<Entry>, rest: seq<Entry>)
      requires Valid() && multiset(All()) + multiset(rest) <= multiset(start) + multiset(written)
      ensures Small(start + written) ==> !Stuck()
    {
      hide Valid, All, Small, Stuck;
      if Small(start + written) {
        SmallNotStuck(start + written);
      }
    }

    /** Compact level 0 if it has reached the ratio. */
    method MakeRoom() returns (thrown: bool, ghost evs: seq<Readers.Event>)
      requires Valid()
      modifies this`levelIds, this`ssts, this`nextId, this`maxLevel, this`files
      ensures Valid() && SameVersions(All(), old(All())) && Readers.Moves(old(Store()), evs, Store(), true)
      ensures SameVersions(DiskRun(OnDisk()), old(DiskRun(OnDisk()))) && Memory() == old(Memory())
      ensures !thrown ==> |Ids(OnDisk(), 0)| < ratio
      ensures (thrown <==> old(Stuck())) && (thrown ==> Stuck())
      ensures Clean(OnDisk()) <==> Clean(old(OnDisk())) && !thrown
    {
      hide DiskOk, DirOk, DiskRun, AgeOrdered, SameVersions, Represents, Flat, MemTables.MemTable.Owns, Throws, Clean,
           DiskFits, Roomy, Readers.Moves, Readers.StoreOf;
      ghost var m, d := Flat(mem.Tables()), DiskRun(OnDisk());
      SameVersionsItself(All());
      SameVersionsItself(d);
      thrown := false;
      if 0 in levelIds && |levelIds[0]| >= ratio {
        AgeOrderedParts(m, d);
        RoomyPart(d, m + d, blockSize);
        thrown := FullCompact(0);
        SameVersionsItself(m);
        SameVersionsConcat(m, DiskRun(OnDisk()), m, d);
        SameVersionsAgeOrdered(All(), m + d);
        SameVersionsRoomy(All(), m + d, blockSize);
        SameVersionsRepresent(All(), m + d, history);
      }
      evs := [Readers.Compact(DiskRun(OnDisk()))];
      Readers.CompactMoves(mem.Tables(), d, DiskRun(OnDisk()), true);
    }

    /** Move the oldest memory table to the front of level 0, under a fresh table id. */
    method WriteOldest() returns (markers: seq<Id>, ghost table: seq<Entry>, ghost evs: seq<Readers.Event>)
      requires Valid() && |Ids(OnDisk(), 0)| < ratio
      requires Flat(Memory()) != []
      modifies this, mem.Repr
      ensures Valid() && fresh(mem.Repr - old(mem.Repr)) && history == old(history)
      ensures All() == old(All()) && Readers.Moves(old(Store()), evs, Store(), true)
      ensures old(Flat(Memory())) == Flat(Memory()) + table
      ensures DiskRun(OnDisk()) == table + old(DiskRun(OnDisk()))
      ensures forall x :: x in markers <==> Entry([], [], x) in table
      ensures Clean(OnDisk()) <==> Clean(old(OnDisk()))
      ensures table != []
      ensures if |old(Memory())| == 1 then old(Memory()) == [table] && Memory() == [[]]
              else Memory() != [] && old(Memory()) == Memory() + [table]
    {
      hide DiskFits, Roomy, SstFiles.Recoverable, Readers.Moves, Readers.StoreOf;
      hide DiskOk, DirOk, DiskRun, AgeOrdered, SameVersions, Represents, Flat, MemTables.MemTable.Owns,
           MemTables.MemTable.Tables, SumBytes, AddAll, Build, WellFormed, Sorted, Ordered, Entries, Clean;
      ghost var d := OnDisk();
      DataInMemory();
      var id := nextId;
      nextId := nextId + 1;
      mem.TablesSorted();
      mem.TablesAre();
      var filled, flushed;
      filled, markers, flushed := mem.FlushLast(NewBuilder(blockSize, bloom));
      table := flushed;
      TakenFrom(old(mem.Tables()), mem.Tables(), table);
      SortedIsOrdered(table);
      RoomyPart(table, old(All()), blockSize) by {
        assert old(All()) == Flat(mem.Tables()) + table + DiskRun(d);
      }
      BuiltRecoverable(blockSize, bloom, table, id);
      var sst := Build(filled, id).value;
      PushTable(sst, d);
      assert Flat(mem.Tables()) + (table + DiskRun(d)) == (Flat(mem.Tables()) + table) + DiskRun(d);
      evs := [Readers.PopOldest, Readers.InsertPopped];
      mem.TablesAre();
      Readers.FlushMoves(old(mem.Tables()), mem.Tables(), table, DiskRun(d), true);
    }

    /** Enter a new table, under the id just taken, in front of level 0. */
    method PushTable(sst: Sst, ghost d: Disk)
      requires OnDisk() == d.(nextId := d.nextId + 1) && sst.id == d.nextId
      requires DiskOk(d) && DirOk(d) && DiskFits(d) && SstFiles.Recoverable(sst)
      modifies this`levelIds, this`ssts, this`files
      ensures DiskOk(OnDisk()) && DirOk(OnDisk()) && DiskFits(OnDisk())
      ensures DiskRun(OnDisk()) == Entries(sst) + DiskRun(d) && Ids(OnDisk(), 0) == [sst.id] + Ids(d, 0)
      ensures Clean(OnDisk()) <==> Clean(d)
    {
      hide DiskOk, DirOk, DiskRun, DiskFits, Clean, Entries, SstFiles.Recoverable;
      RecoverableTable(sst);
      PushedNew(d, sst);
      PushedDir(d, sst);
      PushedFits(d, sst, d.nextId + 1);
      ssts := ssts[sst.id := sst];
      files := files + {FileEntry(sst.id, 0, sst)};
      levelIds := levelIds[0 := [sst.id] + (if 0 in levelIds then levelIds[0] else [])];
      assert OnDisk() == Pushed(d.(nextId := d.nextId + 1), sst);
    }

    /**
     Write the oldest memory table to a new level-0 table, compacting level 0 first if it is full.
     Reports the ids of the commit markers written. No version is lost, every key keeps its
     versions, and level 0 never exceeds the ratio. A flush throws exactly when there is something to
     flush and the store is stuck; memory then stays as it is, and so does the next flush's fate.
     */
    method Flush() returns (markers: seq<Id>, thrown: bool, ghost evs: seq<Readers.Event>)
      requires Valid()
      modifies this, mem.Repr
      ensures Valid() && fresh(mem.Repr - old(mem.Repr)) && history == old(history)
      ensures SameVersions(All(), old(All())) && Readers.Moves(old(Store()), evs, Store(), true)
      ensures thrown <==> old(Stuck()) && old(Flat(Memory()) != [])
      ensures thrown ==> Stuck() && Memory() == old(Memory())
      ensures old(Stuck()) && !thrown ==> Stuck()
      ensures !thrown ==> old(Flat(Memory())) == [] || |Flat(Memory())| < |old(Flat(Memory()))|
      ensures Clean(OnDisk()) <==> Clean(old(OnDisk())) && !thrown
    {
      hide DiskOk, DirOk, DiskRun, AgeOrdered, SameVersions, Represents, Flat, MemTables.MemTable.Owns, Stuck, Clean,
           DiskFits, Roomy, Full, Store;
      markers, thrown, evs := [], false, [];
      SameVersionsItself(All());
      DataInMemory();
      var total := mem.TotalSize();
      if total == 0 {
        return;
      }
      thrown, evs := MakeRoom();
      if thrown {
        return;
      }
      ghost var mid := Store();
      ghost var table, written;
      markers, table, written := WriteOldest();
      Readers.MovesJoin(old(Store()), evs, mid, written, Store(), true);
      evs := evs + written;
    }

    /** Flush until memory is empty, as closing the store does; a flush that throws ends it. */
    method FlushAll() returns (thrown: bool)
      requires Valid()
      modifies this, mem.Repr
      ensures Valid() && fresh(mem.Repr - old(mem.Repr)) && history == old(history)
      ensures SameVersions(All(), old(All()))
      ensures if thrown then Stuck() else Flat(Memory()) == [] && All() == DiskRun(OnDisk())
      ensures Small(old(All())) ==> !thrown
      ensures Clean(OnDisk()) <==> Clean(old(OnDisk())) && !thrown
    {
      hide Valid, All, Memory, Stuck, SameVersions, Clean, Readers.Moves, Flat, DiskRun, Small;
      SameVersionsItself(All());
      thrown := false;
      var total := HeldBytes();
      while total > 0
        invariant Valid() && fresh(mem.Repr - old(mem.Repr)) && history == old(history) && !thrown
        invariant SameVersions(All(), old(All())) && (total == 0 <==> Flat(Memory()) == [])
        invariant Clean(OnDisk()) <==> Clean(old(OnDisk()))
        decreases |Flat(Memory())|
      {
        ghost var before := All();
        SameMultisets(before, old(All()));
        if Small(old(All())) {
          SmallNotStuck(old(All()));
        }
        var _, threw, _ := Flush();
        SameVersionsTransitive(All(), before, old(All()));
        if threw {
          return true;
        }
        total := HeldBytes();
      }
      AllOnDisk();
    }

    method HeldBytes() returns (total: nat)
      requires Valid()
      ensures total == 0 <==> Flat(Memory()) == []
    {
      hide DiskOk, DirOk, DiskRun, AgeOrdered, Represents, Flat, DiskFits, Roomy, MemTables.MemTable.Owns;
      DataInMemory();
      total := mem.TotalSize();
    }

    /** What soundness says of the parameters, the disk and the layout. */
    lemma Facts()
      requires Valid()
      ensures ratio >= 1 && Blooms.Valid(bloom) && BloomCodecs.Fits(bloom)
      ensures DiskOk(OnDisk()) && DirOk(OnDisk()) && DiskFits(OnDisk()) && |Ids(OnDisk(), 0)| <= ratio
      ensures AgeOrdered(All()) && Represents(All(), history) && Roomy(All(), blockSize)
    {
      hide DiskOk, DirOk, DiskRun, AgeOrdered, Represents, Flat, DiskFits, Roomy, MemTables.MemTable.Owns;
    }

    /** The disk on its own is a sound part of the layout. */
    lemma DiskFacts()
      requires Valid()
      ensures AgeOrdered(DiskRun(OnDisk())) && Roomy(DiskRun(OnDisk()), blockSize)
      ensures forall e :: e in DiskRun(OnDisk()) ==> e in All()
    {
      hide DiskOk, DirOk, DiskRun, AgeOrdered, Represents, Flat, DiskFits, Roomy, MemTables.MemTable.Owns;
      var m, d := Flat(mem.Tables()), DiskRun(OnDisk());
      AgeOrderedParts(m, d);
      RoomyPart(d, m + d, blockSize);
    }

    lemma OlderIsPart()
      requires Valid()
      ensures forall f :: f in Older() ==> f in All()
    {
      hide DiskOk, DirOk, DiskRun, AgeOrdered, Represents, Flat, DiskFits, Roomy, MemTables.MemTable.Owns;
      mem.TablesAre();
      FlatConcat([mem.Tables()[0]], mem.Frozen());
    }

    lemma AllOnDisk()
      requires Valid() && Flat(Memory()) == []
      ensures All() == DiskRun(OnDisk())
    {
      hide DiskOk, DirOk, DiskRun, AgeOrdered, Represents, Flat, DiskFits, Roomy, MemTables.MemTable.Owns;
      assert [] + DiskRun(OnDisk()) == DiskRun(OnDisk());
    }

    // ---------- writing ----------

    /** Every place older than the table being written. */
    ghost function Older(): seq<Entry>
      reads this, mem, mem.Repr
    {
      if mem.Owns() then Flat(mem.Frozen()) + DiskRun(OnDisk()) else []
    }

    /**
     Write one version and flush if memory is full. The version must be newer than what older
     places hold for its key; the abstract store gains exactly this version.
     */
    method Put(key: Key, value: Value, t: Id)
      returns (markers: seq<Id>, thrown: bool, ghost evs: seq<Readers.Event>)
      requires Valid() && Fresh(Older(), Entry(key, value, t)) && Roomy(All() + [Entry(key, value, t)], blockSize)
      modifies this, mem.Repr
      ensures Valid() && fresh(mem.Repr - old(mem.Repr))
      ensures history == old(history)[(key, t) := value]
      ensures multiset(All()) <= multiset(old(All())) + multiset{Entry(key, value, t)}
      ensures Readers.Moves(old(Store()), evs, Store(), Fresh(old(All()), Entry(key, value, t)))
      ensures (Clean(OnDisk()) <==> Clean(old(OnDisk())) && !thrown) && (thrown ==> old(Stuck()))
      ensures (old(Stuck()) ==> Stuck())
    {
      hide Valid, All, Memory, Older, Store, Throws, Fresh, Roomy, Clean, SameVersions, Readers.Moves, Flat, WroteTo;
      ghost var rising := Fresh(All(), Entry(key, value, t));
      evs := WriteMem(key, value, t);
      markers, thrown := [], false;
      var total := HeldBytes();
      if total >= totalMem {
        ghost var mid := Store();
        ghost var flushed;
        ghost var written := All();
        markers, thrown, flushed := Flush();
        SameMultisets(All(), written);
        Readers.MovesAnyway(mid, flushed, Store(), rising);
        Readers.MovesJoin(old(Store()), evs, mid, flushed, Store(), rising);
        evs := evs + flushed;
      }
    }

    /** The memory part of a write. */
    method WriteMem(key: Key, value: Value, t: Id) returns (ghost evs: seq<Readers.Event>)
      requires Valid() && Fresh(Older(), Entry(key, value, t)) && Roomy(All() + [Entry(key, value, t)], blockSize)
      modifies this`history, mem.Repr
      ensures Valid() && fresh(mem.Repr - old(mem.Repr)) && OnDisk() == old(OnDisk())
      ensures history == old(history)[(key, t) := value]
      ensures multiset(All()) <= multiset(old(All())) + multiset{Entry(key, value, t)}
      ensures Readers.Moves(old(Store()), evs, Store(), Fresh(old(All()), Entry(key, value, t)))
      ensures WroteTo(old(Memory()), Memory(), Entry(key, value, t))
    {
      hide DiskOk, DirOk, DiskRun, AgeOrdered, Represents, Flat, Fresh, Upsert, Sorted, MemTables.MemTable.Owns,
           MemTables.MemTable.Tables, SumBytes, DiskFits, Roomy, Readers.Moves, Readers.StoreOf;
      mem.TablesAre();
      ghost var cur, disk, e := mem.Tables()[0], DiskRun(OnDisk()), Entry(key, value, t);
      ghost var frozen := mem.Frozen();
      mem.TablesSorted();
      WriteLayout(cur, frozen, disk, e, history);
      WritePart(cur, frozen, disk, e);
      RoomyPart(Flat([Upsert(cur, e)] + frozen) + disk, All() + [e], blockSize);
      var froze := mem.Put(key, value, t);
      history := history[(key, t) := value];
      NewHead(cur, Upsert(cur, e), frozen);
      evs := WriteEvents([cur] + frozen, disk, e, froze, Fresh(old(All()), e));
    }

    /** Deleting writes an empty value. */
    method Remove(key: Key, t: Id) returns (markers: seq<Id>, thrown: bool, ghost evs: seq<Readers.Event>)
      requires Valid() && Fresh(Older(), Entry(key, [], t)) && Roomy(All() + [Entry(key, [], t)], blockSize)
      modifies this, mem.Repr
      ensures Valid() && fresh(mem.Repr - old(mem.Repr))
      ensures history == old(history)[(key, t) := []]
      ensures multiset(All()) <= multiset(old(All())) + multiset{Entry(key, [], t)}
      ensures Readers.Moves(old(Store()), evs, Store(), Fresh(old(All()), Entry(key, [], t)))
      ensures (Clean(OnDisk()) <==> Clean(old(OnDisk())) && !thrown) && (thrown ==> old(Stuck()))
      ensures (old(Stuck()) ==> Stuck())
    {
      markers, thrown, evs := Put(key, [], t);
    }

    /**
     Write several versions into the current table, with no size check in between: the store stays
     sound exactly when each is newer than what older places hold for its key.
     */
    method ApplyRaw(es: seq<Entry>)
      requires Valid() && DistinctVersions(es) && Roomy(All() + es, blockSize)
      modifies this`history, mem.Repr
      ensures mem.Valid() && fresh(mem.Repr - old(mem.Repr)) && this !in mem.Repr
      ensures Applied(old(Memory()), Memory(), es)
      ensures OnDisk() == old(OnDisk()) && history == Commits.AddAll(old(history), es)
      ensures Valid() <==> forall e :: e in es ==> Fresh(old(Older()), e)
    {
      hide DiskOk, DiskRun, AgeOrdered, Represents, Flat, Fresh, Upsert, Sorted, MemTables.MemTable.Owns, SumBytes,
           Commits.UpsertAll, Commits.AddAll, DistinctVersions, DiskFits, Roomy, DirOk;
      ghost var cur, frozen, disk, h := mem.Tables()[0], mem.Frozen(), DiskRun(OnDisk()), history;
      mem.TablesSorted();
      mem.TablesAre();
      CommitPart(cur, frozen, disk, es);
      RoomyPart(Flat([Commits.UpsertAll(cur, es)] + frozen) + disk, All() + es, blockSize);
      PutEach(es);
      CommitLayout(cur, frozen, disk, es, h);
      NewHead(cur, Commits.UpsertAll(cur, es), frozen);
    }

    method PutEach(es: seq<Entry>)
      requires mem.Valid() && this !in mem.Repr
      modifies this`history, mem.Repr
      ensures mem.Valid() && fresh(mem.Repr - old(mem.Repr)) && this !in mem.Repr
      ensures Applied(old(Memory()), Memory(), es)
      ensures OnDisk() == old(OnDisk()) && history == Commits.AddAll(old(history), es)
    {
      hide Upsert, MemTables.MemTable.Valid, Commits.UpsertAll, Commits.AddAll, Memory, Applied;
      ghost var tables := Memory();
      NothingApplied();
      Commits.AddAllUnfold(history, es[..0]);
      for i := 0 to |es|
        invariant mem.Valid() && fresh(mem.Repr - old(mem.Repr)) && this !in mem.Repr
        invariant Applied(tables, Memory(), es[..i])
        invariant OnDisk() == old(OnDisk()) && history == Commits.AddAll(old(history), es[..i])
      {
        ghost var before := Memory();
        Commits.AddAllUnfold(old(history), es[..i + 1]);
        assert es[..i + 1][..i] == es[..i] && es[..i + 1] == es[..i] + [es[i]];
        PutRaw(es[i]);
        OneMoreApplied(tables, before, Memory(), es[..i], es[i]);
      }
      assert es[..|es|] == es;
    }

    /** One write without size check. */
    method PutRaw(e: Entry)
      requires mem.Valid() && this !in mem.Repr
      modifies this`history, mem.Repr
      ensures mem.Valid() && fresh(mem.Repr - old(mem.Repr)) && this !in mem.Repr
      ensures old(Memory()) != [] && Memory() == old(Memory())[0 := Upsert(old(Memory())[0], e)]
      ensures OnDisk() == old(OnDisk()) && history == old(history)[(e.key, e.id) := e.value]
    {
      hide Upsert, MemTables.MemTable.Owns, SumBytes;
      mem.TablesAre();
      mem.PutRaw(e.key, e.value, e.id);
      history := history[(e.key, e.id) := e.value];
    }

    lemma NothingApplied()
      requires mem.Valid()
      ensures Applied(Memory(), Memory(), [])
    {
      hide MemTables.MemTable.Owns, SumBytes;
      mem.TablesAre();
      assert Memory()[0 := Memory()[0]] == Memory();
    }

    /** Freeze the current table, if it holds anything. */
    method Freeze() returns (ghost evs: seq<Readers.Event>)
      requires Valid()
      modifies mem.Repr
      ensures Valid() && fresh(mem.Repr - old(mem.Repr)) && All() == old(All()) && history == old(history)
      ensures OnDisk() == old(OnDisk()) && Readers.Moves(old(Store()), evs, Store(), true)
    {
      hide DiskOk, DirOk, DiskRun, AgeOrdered, Represents, Flat, MemTables.MemTable.Owns, SumBytes, DiskFits, Roomy,
           Readers.StoreOf, Readers.Moves, MemTables.MemTable.Tables;
      ghost var tables := mem.Tables();
      evs := [];
      Readers.NoMoves(Store());
      mem.TablesAre();
      var n := mem.CurrentSize();
      if n > 0 {
        mem.Freeze();
        FlatConcat([[]], tables);
        FlatOne([]);
        assert [] + Flat(tables) == Flat(tables);
        evs := [Readers.FreezeTable];
        Readers.FreezeMoves(tables, DiskRun(OnDisk()), true);
      }
    }

    /** The store is one the concurrent reads start from. */
    lemma StoreSound()
      requires Valid()
      ensures Readers.Sound(Store()) && Readers.Layout(Store()) == All()
    {
      hide DiskOk, DirOk, DiskRun, AgeOrdered, Represents, Flat, MemTables.MemTable.Owns, DiskFits, Roomy, Sorted,
           Readers.Layout;
      mem.TablesAre();
      mem.TablesSorted();
      Readers.StoreLayout(mem.Tables(), DiskRun(OnDisk()));
    }

    /** Ids of successive writes increase, so each write is newer than everything stored. */
    lemma NewIdsAreFresh(e: Entry)
      requires Valid() && Below(history, e.id)
      ensures Fresh(Older(), e) && Fresh(All(), e)
    {
      hide DiskOk, DiskRun, AgeOrdered, Flat, MemTables.MemTable.Owns, DirOk, DiskFits, Roomy;
      OlderIsPart();
      forall f | f in All() && f.key == e.key && e.key != []
        ensures f.id < e.id
      {
        assert (f.key, f.id) in history;
      }
    }

    /**
     Any run of writes, freezes and flushes, compactions included, keeps the store sound, and every
     read that takes its steps between the steps of the run is linearizable. The data directory holds
     exactly the indexed tables as long as nothing throws; a stuck store stays stuck. Nothing throws
     while all that is written would not fill a table of level 1.
     */
    method Run(ops: seq<Op>, from: Id) returns (thrown: bool, ghost evs: seq<Readers.Event>)
      requires Valid() && Below(history, from) && Increasing(ops, from) && Roomy(All() + WrittenBy(ops), blockSize)
      modifies this, mem.Repr
      ensures Valid() && fresh(mem.Repr - old(mem.Repr))
      ensures history == Replay(old(history), ops)
      ensures Readers.Moves(old(Store()), evs, Store(), true) && Readers.Linearizable(old(Store()), evs)
      ensures multiset(All()) <= multiset(old(All())) + multiset(WrittenBy(ops))
      ensures (Clean(OnDisk()) <==> Clean(old(OnDisk())) && !thrown) && (old(Stuck()) ==> Stuck())
      ensures Small(old(All()) + WrittenBy(ops)) ==> !thrown
    {
      hide Small, Valid, All, Older, Fresh, Clean, Stuck, Roomy, WrittenBy, Readers.Moves, Store, Readers.Sound,
           Readers.Linearizable;
      var bound := from;
      thrown, evs := false, [];
      Readers.NoMoves(Store());
      StoreSound();
      assert ops[0..] == ops;
      for i := 0 to |ops|
        invariant Valid() && fresh(mem.Repr - old(mem.Repr))
        invariant Below(history, bound) && Increasing(ops[i..], bound)
        invariant Replay(history, ops[i..]) == Replay(old(history), ops)
        invariant (Clean(OnDisk()) <==> Clean(old(OnDisk())) && !thrown) && (old(Stuck()) ==> Stuck())
        invariant Roomy(All() + WrittenBy(ops[i..]), blockSize)
        invariant multiset(All()) + multiset(WrittenBy(ops[i..])) <= multiset(old(All())) + multiset(WrittenBy(ops))
        invariant Readers.Moves(old(Store()), evs, Store(), true)
        invariant Small(old(All()) + WrittenBy(ops)) ==> !thrown
      {
        assert ops[i..][1..] == ops[i + 1..];
        NotStuckYet(old(All()), WrittenBy(ops), WrittenBy(ops[i..]));
        ghost var before, rest := All(), WrittenBy(ops[i + 1..]);
        WrittenFirst(ops[i..], before, blockSize);
        ghost var mid, more := Store(), [];
        var threw;
        bound, threw, more := Step(ops[i], bound);
        thrown := thrown || threw;
        Readers.MovesJoin(old(Store()), evs, mid, more, Store(), true);
        evs := evs + more;
        RunRoom(All(), before, WrittenBy([ops[i]]), rest, blockSize);
        StillCounted(All(), before, WrittenBy([ops[i]]), rest, old(All()), WrittenBy(ops));
      }
      Readers.MovesLinearizable(old(Store()), evs, Store());
    }

    method Step(op: Op, bound: Id) returns (next: Id, thrown: bool, ghost evs: seq<Readers.Event>)
      requires Valid() && Below(history, bound) && Increasing([op], bound) && Roomy(All() + WrittenBy([op]), blockSize)
      modifies this, mem.Repr
      ensures Valid() && fresh(mem.Repr - old(mem.Repr))
      ensures history == Apply(old(history), op) && Below(history, next)
      ensures next == if IsWrite(op) then op.id + 1 else bound
      ensures multiset(All()) <= multiset(old(All())) + multiset(WrittenBy([op]))
      ensures Readers.Moves(old(Store()), evs, Store(), true)
      ensures (Clean(OnDisk()) <==> Clean(old(OnDisk())) && !thrown) && (old(Stuck()) ==> Stuck())
      ensures thrown ==> old(Stuck())
    {
      hide Valid, All, Older, Fresh, Clean, Throws, Roomy, SameVersions, Readers.Moves, Store;
      WrittenOne(op);
      next, thrown := bound, false;
      var markers;
      match op
      case Put(key, value, t) =>
        NewIdsAreFresh(Entry(key, value, t));
        markers, thrown, evs := Put(key, value, t);
        next := t + 1;
      case Remove(key, t) =>
        NewIdsAreFresh(Entry(key, [], t));
        markers, thrown, evs := Remove(key, t);
        next := t + 1;
      case Freeze =>
        evs := Freeze();
      case Flush =>
        ghost var before := All();
        markers, thrown, evs := Flush();
        SameMultisets(All(), before);
    }
  }

  /**
   End to end: on a new store, after any run of writes with increasing ids, freezes and flushes, a
   snapshot read returns the last write it may see.
   */
  method ReadAfterRun(ops: seq<Op>, from: Id, key: Key, t: Id, ratio: nat, blockSize: nat, perMem: nat,
                      totalMem: nat, bloom: Blooms.Bloom)
    returns (r: Option<Value>)
    requires Increasing(ops, from) && key != [] && ratio >= 1 && Blooms.Valid(bloom) && BloomCodecs.Fits(bloom)
    requires Roomy(WrittenBy(ops), blockSize)
    ensures r == LastWrite(ops, key, t)
  {
    hide LSMEngine.Valid, LSMEngine.All, Increasing, LastWrite, Read, Replay, Roomy, WrittenBy;
    RoomyCapacity(WrittenBy(ops), blockSize);
    var engine := new LSMEngine(ratio, blockSize, perMem, totalMem, bloom);
    assert [] + WrittenBy(ops) == WrittenBy(ops);
    var _, _ := engine.Run(ops, from);
    var hit := engine.Get(key, t);
    RunReadsLastWrite(ops, from, key, t);
    return if hit.Some? then Some(hit.value.0) else None;
  }

  /** The version has entered the current table, which may have been frozen since. */
  ghost predicate WroteTo(before: seq<seq<Entry>>, after: seq<seq<Entry>>, e: Entry) {
    before != [] &&
    var written := before[0 := Upsert(before[0], e)];
    after == written || after == [[]] + written
  }

  /** The versions have entered the current table. */
  ghost predicate Applied(before: seq<seq<Entry>>, after: seq<seq<Entry>>, es: seq<Entry>) {
    before != [] && after == before[0 := Commits.UpsertAll(before[0], es)]
  }

  lemma OneMoreApplied(before: seq<seq<Entry>>, mid: seq<seq<Entry>>, after: seq<seq<Entry>>, es: seq<Entry>, e: Entry)
    requires Applied(before, mid, es) && mid != [] && after == mid[0 := Upsert(mid[0], e)]
    ensures Applied(before, after, es + [e])
  {
    hide Upsert, Commits.UpsertAll;
    Commits.UpsertAllUnfold(before[0], es + [e]);
    assert (es + [e])[..|es|] == es;
  }

  /** A write into memory as events: the write, then the freeze if there was one. */
  lemma WriteEvents(tables: seq<seq<Entry>>, disk: seq<Entry>, e: Entry, froze: bool, rising: bool)
    returns (evs: seq<Readers.Event>)
    requires tables != [] && Fresh(Flat(tables[1..]) + disk, e) && (rising ==> Fresh(Flat(tables) + disk, e))
    ensures var written := tables[0 := Upsert(tables[0], e)];
            Readers.Moves(Readers.StoreOf(tables, disk), evs,
                          Readers.StoreOf(if froze then [[]] + written else written, disk), rising)
  {
    hide Readers.Moves, Readers.StoreOf, Upsert, Flat, Fresh;
    var written := tables[0 := Upsert(tables[0], e)];
    evs := [Readers.Write(e)];
    Readers.WriteMoves(tables, disk, e, rising);
    if froze {
      Readers.FreezeMoves(written, disk, rising);
      Readers.MovesJoin(Readers.StoreOf(tables, disk), evs, Readers.StoreOf(written, disk), [Readers.FreezeTable],
                        Readers.StoreOf([[]] + written, disk), rising);
      evs := evs + [Readers.FreezeTable];
    }
  }

  /** The layout after a write, whether or not the written table was frozen behind an empty one. */
  lemma WriteLayout(cur: seq<Entry>, frozen: seq<seq<Entry>>, disk: seq<Entry>, e: Entry, h: History)
    requires Sorted(cur) && Fresh(Flat(frozen) + disk, e)
    requires AgeOrdered(Flat([cur] + frozen) + disk) && Represents(Flat([cur] + frozen) + disk, h)
    ensures var tables := [Upsert(cur, e)] + frozen;
            && Flat([[]] + tables) == Flat(tables)
            && AgeOrdered(Flat(tables) + disk)
            && Represents(Flat(tables) + disk, h[(e.key, e.id) := e.value])
  {
    hide AgeOrdered, Represents, Flat, Fresh, Upsert, Sorted;
    var tables := [Upsert(cur, e)] + frozen;
    FlatConcat([cur], frozen);
    FlatConcat([Upsert(cur, e)], frozen);
    FlatConcat([[]], tables);
    FlatOne(cur);
    FlatOne(Upsert(cur, e));
    FlatOne([]);
    var older := Flat(frozen) + disk;
    assert Flat([cur] + frozen) + disk == cur + older;
    assert Flat(tables) + disk == Upsert(cur, e) + older;
    WriteKeepsAgeOrder(cur, older, e);
    WriteRepresents(cur, older, e, h);
  }

  lemma {:induction false} FlatEmpty(tables: seq<seq<Entry>>)
    ensures Flat(tables) == [] <==> forall i :: 0 <= i < |tables| ==> tables[i] == []
  {
    hide Flat;
    FlatCons(tables);
    if tables != [] {
      FlatEmpty(tables[1..]);
      assert forall i :: 1 <= i < |tables| ==> tables[i] == tables[1..][i - 1];
    }
  }

  lemma {:induction false} PowAtLeast(b: nat, e: nat)
    requires b >= 1
    ensures Pow(b, e) >= 1 && (e > 0 ==> Pow(b, e) >= b)
  {
    if e > 0 {
      PowAtLeast(b, e - 1);
      TargetGrows(b, 1, Pow(b, e - 1));
    }
  }

  lemma TargetGrows(size: nat, a: nat, b: nat)
    requires a <= b
    ensures size * a <= size * b
  {
  }

  lemma Overwritten<K, V>(m: map<K, V>, k: K, x: V, y: V)
    ensures m[k := x][k := y] == m[k := y]
  {
  }

  lemma NewHead<T>(x: T, y: T, rest: seq<T>)
    ensures ([x] + rest)[0 := y] == [y] + rest
  {
  }

  /** The layout after several raw writes. */
  lemma CommitLayout(cur: seq<Entry>, frozen: seq<seq<Entry>>, disk: seq<Entry>, es: seq<Entry>, h: History)
    requires Sorted(cur) && DistinctVersions(es)
    requires AgeOrdered(Flat([cur] + frozen) + disk) && Represents(Flat([cur] + frozen) + disk, h)
    ensures var s := Flat([Commits.UpsertAll(cur, es)] + frozen) + disk;
            var newer := forall e :: e in es ==> Fresh(Flat(frozen) + disk, e);
            && (AgeOrdered(s) <==> newer)
            && (newer ==> Represents(s, Commits.AddAll(h, es)))
  {
    hide AgeOrdered, Represents, Flat, Fresh, Sorted, Commits.UpsertAll, Commits.AddAll, DistinctVersions;
    var cur' := Commits.UpsertAll(cur, es);
    FlatConcat([cur], frozen);
    FlatConcat([cur'], frozen);
    FlatOne(cur);
    FlatOne(cur');
    var older := Flat(frozen) + disk;
    assert Flat([cur] + frozen) + disk == cur + older;
    assert Flat([cur'] + frozen) + disk == cur' + older;
    Commits.CommitKeepsAgeOrder(cur, older, es);
    if forall e :: e in es ==> Fresh(older, e) {
      Commits.CommitRepresents(cur, older, es, h);
    }
  }

  lemma NothingRoomy(capacity: nat)
    requires capacity < 0x1_0000
    ensures Roomy([], capacity)
  {
  }

  lemma RoomyCapacity(s: seq<Entry>, capacity: nat)
    requires Roomy(s, capacity)
    ensures capacity < 0x1_0000
  {
    assert DataBytes(ForKey(s, [])) + capacity < 0x1_0000;
  }

  lemma SameVersionsRoomy(a: seq<Entry>, b: seq<Entry>, capacity: nat)
    requires SameVersions(a, b) && Roomy(b, capacity)
    ensures Roomy(a, capacity)
  {
    hide Roomy, ForKey;
    RoomyPart(a, b, capacity);
  }

  lemma SameMultisets(a: seq<Entry>, b: seq<Entry>)
    requires SameVersions(a, b)
    ensures multiset(a) == multiset(b)
  {
  }

  lemma WrittenOne(op: Op)
    ensures WrittenBy([op]) == if IsWrite(op) then [Entry(op.key, Written(op), op.id)] else []
  {
    assert [op][1..] == [] && WrittenBy([]) == [];
  }

  lemma WrittenFirst(ops: seq<Op>, all: seq<Entry>, capacity: nat)
    requires ops != [] && Roomy(all + WrittenBy(ops), capacity)
    ensures WrittenBy(ops) == WrittenBy([ops[0]]) + WrittenBy(ops[1..]) && Roomy(all + WrittenBy([ops[0]]), capacity)
  {
    hide Roomy;
    WrittenOne(ops[0]);
    RoomyPart(all + WrittenBy([ops[0]]), all + WrittenBy(ops), capacity);
  }

  /** What a step adds was counted before it. */
  lemma RunRoom(all: seq<Entry>, before: seq<Entry>, first: seq<Entry>, rest: seq<Entry>, capacity: nat)
    requires multiset(all) <= multiset(before) + multiset(first) && Roomy(before + (first + rest), capacity)
    ensures Roomy(all + rest, capacity)
  {
    hide Roomy;
    RoomyPart(all + rest, before + (first + rest), capacity);
  }

  lemma StillCounted(all: seq<Entry>, before: seq<Entry>, first: seq<Entry>, rest: seq<Entry>, start: seq<Entry>,
                     written: seq<Entry>)
    requires multiset(all) <= multiset(before) + multiset(first)
    requires multiset(before) + multiset(first + rest) <= multiset(start) + multiset(written)
    ensures multiset(all) + multiset(rest) <= multiset(start) + multiset(written)
  {
  }

  lemma WritePart(cur: seq<Entry>, frozen: seq<seq<Entry>>, disk: seq<Entry>, e: Entry)
    requires Sorted(cur)
    ensures multiset(Flat([Upsert(cur, e)] + frozen) + disk) <= multiset(Flat([cur] + frozen) + disk + [e])
  {
    hide Flat, Upsert, Sorted;
    FlatConcat([cur], frozen);
    FlatConcat([Upsert(cur, e)], frozen);
    FlatOne(cur);
    FlatOne(Upsert(cur, e));
    UpsertPart(cur, e);
  }

  lemma CommitPart(cur: seq<Entry>, frozen: seq<seq<Entry>>, disk: seq<Entry>, es: seq<Entry>)
    requires Sorted(cur)
    ensures multiset(Flat([Commits.UpsertAll(cur, es)] + frozen) + disk) <= multiset(Flat([cur] + frozen) + disk + es)
  {
    hide Flat, Commits.UpsertAll, Sorted;
    FlatConcat([cur], frozen);
    FlatConcat([Commits.UpsertAll(cur, es)], frozen);
    FlatOne(cur);
    FlatOne(Commits.UpsertAll(cur, es));
    Commits.UpsertAllPart(cur, es);
  }

  lemma RecoverableTable(t: Sst)
    requires SstFiles.Recoverable(t)
    ensures WellFormed(t)
  {
    hide WellFormed;
  }

  /** Removing the oldest table removes the tail of the layout. */
  lemma TakenFrom(before: seq<seq<Entry>>, after: seq<seq<Entry>>, table: seq<Entry>)
    requires (before == [table] && after == [[]]) || before == after + [table]
    requires forall i :: 0 <= i < |before| ==> Sorted(before[i])
    ensures Flat(before) == Flat(after) + table && Sorted(table)
  {
    hide Sorted, Flat;
    FlatOne(table);
    FlatOne([]);
    if before == [table] && after == [[]] {
      assert Flat(after) + table == table;
      assert before[0] == table;
    } else {
      FlatConcat(after, [table]);
      assert before[|after|] == table;
    }
  }

  lemma ReplacedIds(d: Disk, src: nat, files: seq<Sst>, next: nat)
    requires DiskOk(d) && Numbered(files, d.nextId) && next == d.nextId + |files|
    ensures var d' := Replaced(d, src, files, next);
            && (forall l: nat :: l < src ==> Ids(d', l) == Ids(d, l) && FilesOf(d', l) == FilesOf(d, l))
            && Ids(d', src) == [] && d'.nextId == next && d'.maxLevel >= d.maxLevel
  {
    hide ById, DiskOk, FilesOf;
    forall l: nat | l < src
      ensures Ids(Replaced(d, src, files, next), l) == Ids(d, l)
      ensures FilesOf(Replaced(d, src, files, next), l) == FilesOf(d, l)
    {
      SameLevel(d, src, files, next, l);
    }
  }

  /** A compaction that throws leaves every level as it was, and a file behind if there was anything to merge. */
  lemma AbandonedOk(d: Disk, src: nat, built: seq<Sst>, next: nat)
    requires DiskOk(d) && DirOk(d) && Compacted(built, LevelRun(d, src), LevelRun(d, src + 1), d.nextId)
    requires next >= d.nextId + |built|
    ensures var d' := Abandoned(d, built, src + 1, next);
            && DiskOk(d') && DirOk(d') && SameVersions(DiskRun(d'), DiskRun(d))
            && (forall l: nat :: Ids(d', l) == Ids(d, l) && FilesOf(d', l) == FilesOf(d, l))
            && (Clean(d') <==> Clean(d) && built == []) && (Ids(d, src) != [] ==> built != [])
  {
    hide DiskOk, DirOk, DiskRun, Compacted, LevelRun, SameVersions, FilesOf, Clean, NewFiles;
    LaterNextId(d, next, d.files + NewFiles(built, src + 1));
    SameVersionsItself(DiskRun(d));
    CompactedNumbered(d, src, built);
    AbandonedDir(d, built, src + 1, next);
    if Ids(d, src) != [] {
      LevelNotEmpty(d, src);
      SameVersionsSameMembers(Chained(built), LevelRun(d, src) + LevelRun(d, src + 1));
      assert LevelRun(d, src)[0] in LevelRun(d, src) + LevelRun(d, src + 1);
      ChainedCons(built);
    }
  }

  lemma NoFilesOf(d: Disk, l: nat)
    requires Ids(d, l) == []
    ensures FilesOf(d, l) == []
  {
  }

  lemma ReplacedSame(d: Disk, src: nat, files: seq<Sst>, next: nat)
    requires DiskOk(d) && Compacted(files, LevelRun(d, src), LevelRun(d, src + 1), d.nextId)
    requires next == d.nextId + |files| && DiskOk(Replaced(d, src, files, next))
    ensures SameVersions(DiskRun(Replaced(d, src, files, next)), DiskRun(d))
  {
    hide DiskOk, Compacted, LevelRun, SameVersions, RunTo;
    var d' := Replaced(d, src, files, next);
    RunBeyond(d, 0, d'.maxLevel);
    ReplacedVersions(d, src, files, next, 0, d'.maxLevel);
  }

  lemma EmptyStore(d: Disk)
    requires d.levels == map[] && d.ssts == map[] && d.maxLevel == 0
    ensures DiskOk(d) && DiskRun(d) == [] && Flat([[]]) == []
    ensures AgeOrdered([]) && Represents([], map[])
  {
    forall l: nat
      ensures LevelOk(d, l)
    {
      NoFiles(d, l);
    }
    EmptyLevel(d, 0);
    RunUnfold(d, 0, 0);
    RunUnfold(d, 1, 0);
    FlatOne([]);
  }

  /** A level that lists a table, alone or with the next one, holds some part of the disk. */
  lemma LevelsArePart(d: Disk, l: nat)
    requires DiskOk(d) && Ids(d, l) != []
    ensures Chained(FilesOf(d, l)) != []
    ensures multiset(Chained(FilesOf(d, l)) + Chained(FilesOf(d, l + 1))) <= multiset(DiskRun(d))
    ensures multiset(Chained(FilesOf(d, l)) + Chained([])) <= multiset(DiskRun(d))
  {
    hide DiskOk, DiskRun, FilesOf, Chained, LevelRun, AllWellFormed, Separated, Ordered;
    LevelFacts(d, l);
    LevelFacts(d, l + 1);
    LevelNotEmpty(d, l);
    AdjacentIsPart(d, l);
    ChainedCons([]);
    var x, y := LevelRun(d, l), LevelRun(d, l + 1);
    assert multiset(x + y) == multiset(x) + multiset(y) && x + [] == x;
  }

  lemma LevelFacts(d: Disk, l: nat)
    requires DiskOk(d)
    ensures Indexed(d, l) && AllWellFormed(Files(d, l)) && LevelRun(d, l) == Chained(Files(d, l))
    ensures FilesOf(d, l) == Files(d, l)
    ensures l > 0 ==> Separated(Files(d, l)) && Ordered(Chained(Files(d, l)))
    ensures l == 0 ==>
              DescendingIds(Ids(d, l)) && forall i :: 0 <= i < |Ids(d, l)| ==> Files(d, l)[i].id == Ids(d, l)[i]
    ensures Ids(d, l) != [] ==> l <= d.maxLevel
  {
    hide AllWellFormed, Separated, Ordered, Chained, Ascending, DescendingIds;
    assert LevelOk(d, l);
  }
}
