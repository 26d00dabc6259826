/** The files on disk: which tables each level lists, and what the levels together hold. */
module Levels {
  import opened Versions
  import opened Ssts
  import opened MergeIterators
  import opened Compactions
  import opened IdLists
  import opened Widths
  import SstFiles

  /** A file `sst_{id}.{level}` in the data directory and the table it holds. */
  datatype FileEntry = FileEntry(id: nat, level: nat, sst: Sst)

  /** level_sst_ids, ssts, next_sst_id and cur_max_level, and the files in the data directory. */
  datatype Disk = Disk(levels: map<nat, seq<nat>>, ssts: map<nat, Sst>, nextId: nat, maxLevel: nat,
                       files: set<FileEntry>)

  function IdsAt(levels: map<nat, seq<nat>>, l: nat): seq<nat> {
    if l in levels then levels[l] else []
  }

  function Ids(d: Disk, l: nat): seq<nat> {
    IdsAt(d.levels, l)
  }

  predicate Indexed(d: Disk, l: nat) {
    forall i :: 0 <= i < |Ids(d, l)| ==> Ids(d, l)[i] in d.ssts
  }

  function Files(d: Disk, l: nat): (f: seq<Sst>)
    requires Indexed(d, l)
    ensures |f| == |Ids(d, l)| && forall i :: 0 <= i < |f| ==> f[i] == d.ssts[Ids(d, l)[i]]
  {
    seq(|Ids(d, l)|, i requires 0 <= i < |Ids(d, l)| => d.ssts[Ids(d, l)[i]])
  }

  /** The tables of a level, whether or not its ids are indexed. */
  ghost function FilesOf(d: Disk, l: nat): seq<Sst> {
    if Indexed(d, l) then Files(d, l) else []
  }

  /** One level: every id is an open, sound table of that id below the next id. */
  ghost predicate LevelOk(d: Disk, l: nat) {
    && Indexed(d, l)
    && (forall i :: 0 <= i < |Ids(d, l)| ==> Files(d, l)[i].id == Ids(d, l)[i] < d.nextId)
    && AllWellFormed(Files(d, l))
    && (l == 0 ==> DescendingIds(Ids(d, l)))
    && (l > 0 ==> Ascending(Ids(d, l)) && Separated(Files(d, l)) && Ordered(Chained(Files(d, l))))
    && (l > d.maxLevel ==> Ids(d, l) == [])
  }

  /** All levels are sound, no table is listed twice, and every open table is listed. */
  ghost predicate DiskOk(d: Disk) {
    && (forall l: nat :: LevelOk(d, l))
    && (forall l: nat, m: nat, id :: l != m && id in Ids(d, l) ==> id !in Ids(d, m))
    && (forall id :: id in d.ssts ==> exists l: nat :: l <= d.maxLevel && id in Ids(d, l))
  }

  /** The versions of level l, in reading order. */
  ghost function LevelRun(d: Disk, l: nat): seq<Entry> {
    if Indexed(d, l) then Chained(Files(d, l)) else []
  }

  /** The versions of levels l to top, newest level first. */
  ghost function RunTo(d: Disk, l: nat, top: nat): seq<Entry>
    decreases top + 1 - l
  {
    if l > top then [] else LevelRun(d, l) + RunTo(d, l + 1, top)
  }

  /** Everything on disk, newest place first. */
  ghost function DiskRun(d: Disk): seq<Entry> {
    RunTo(d, 0, d.maxLevel)
  }

  lemma EmptyLevel(d: Disk, l: nat)
    requires Ids(d, l) == []
    ensures LevelRun(d, l) == []
  {
    FlatCons(Runs(Files(d, l)));
  }

  /** Levels above the highest one add nothing. */
  lemma {:induction false} RunBeyond(d: Disk, l: nat, top: nat)
    requires DiskOk(d) && d.maxLevel <= top
    ensures RunTo(d, l, top) == RunTo(d, l, d.maxLevel)
    decreases top + 1 - l
  {
    hide LevelOk, LevelRun;
    if l <= top {
      RunBeyond(d, l + 1, top);
      if l > d.maxLevel {
        BeyondEmpty(d, l);
        EmptyLevel(d, l);
      }
    }
  }

  lemma BeyondEmpty(d: Disk, l: nat)
    requires DiskOk(d) && l > d.maxLevel
    ensures Ids(d, l) == []
  {
    assert LevelOk(d, l);
  }

  /** A level together with what lies below it is age-ordered if the whole disk is. */
  lemma {:induction false} SuffixAgeOrdered(d: Disk, from: nat, l: nat, top: nat)
    requires from <= l && AgeOrdered(RunTo(d, from, top))
    ensures AgeOrdered(RunTo(d, l, top))
    decreases l - from
  {
    hide AgeOrdered, LevelRun;
    if from < l {
      if from <= top {
        AgeOrderedParts(LevelRun(d, from), RunTo(d, from + 1, top));
        SuffixAgeOrdered(d, from + 1, l, top);
      }
    }
  }

  lemma AdjacentAgeOrdered(d: Disk, l: nat)
    requires DiskOk(d) && AgeOrdered(DiskRun(d)) && l <= d.maxLevel
    ensures AgeOrdered(LevelRun(d, l) + LevelRun(d, l + 1))
  {
    hide AgeOrdered, LevelRun, LevelOk, DiskOk;
    var top := d.maxLevel + 1;
    RunBeyond(d, 0, top);
    SuffixAgeOrdered(d, 0, l, top);
    var a, b, c := LevelRun(d, l), LevelRun(d, l + 1), RunTo(d, l + 2, top);
    assert RunTo(d, l, top) == a + (b + c) == (a + b) + c;
    AgeOrderedParts(a + b, c);
  }

  // ---------- sorting ids ----------

  /** New tables are numbered in order, so sorting their ids changes nothing. */
  lemma SortedAlready(ids: seq<nat>, files: seq<Sst>, id: nat)
    requires Numbered(files, id) && ids == FileIds(files)
    ensures SortIds(ids) == ids
  {
    SortAscending(ids);
  }

  // ---------- replacing two levels ----------

  /** The index after level src has been compacted into level src + 1. */
  function Replaced(d: Disk, src: nat, files: seq<Sst>, next: nat): Disk {
    var gone := IdSet(Ids(d, src)) + IdSet(Ids(d, src + 1));
    Disk(d.levels[src := []][src + 1 := FileIds(files)],
         (d.ssts - gone) + ById(files),
         next,
         if d.maxLevel < src + 1 then src + 1 else d.maxLevel,
         (set f | f in d.files && f.id !in gone) + NewFiles(files, src + 1))
  }

  /** The files a compaction writes into a level. */
  function NewFiles(files: seq<Sst>, level: nat): set<FileEntry> {
    set t | t in files :: FileEntry(t.id, level, t)
  }

  function IdSet(ids: seq<nat>): set<nat> {
    set i | i in ids
  }

  function FileIds(files: seq<Sst>): (ids: seq<nat>)
    ensures |ids| == |files| && forall i :: 0 <= i < |ids| ==> ids[i] == files[i].id
  {
    seq(|files|, i requires 0 <= i < |files| => files[i].id)
  }

  function ById(files: seq<Sst>): map<nat, Sst> {
    if files == [] then map[] else ById(files[..|files| - 1])[files[|files| - 1].id := files[|files| - 1]]
  }

  lemma {:induction false} ByIdOf(files: seq<Sst>, id: nat)
    requires Numbered(files, id)
    ensures forall i :: 0 <= i < |files| ==> files[i].id in ById(files) && ById(files)[files[i].id] == files[i]
    ensures forall x :: x in ById(files) <==> id <= x < id + |files|
  {
    if files != [] {
      var n := |files| - 1;
      ByIdOf(files[..n], id);
      assert files[n].id == id + n;
    }
  }

  /** Levels other than the two merged ones list the same tables as before. */
  lemma SameLevel(d: Disk, src: nat, files: seq<Sst>, next: nat, l: nat)
    requires DiskOk(d) && Numbered(files, d.nextId) && next == d.nextId + |files|
    requires l != src && l != src + 1
    ensures var d' := Replaced(d, src, files, next);
            && Ids(d', l) == Ids(d, l) && Indexed(d', l) && Indexed(d, l)
            && Files(d', l) == Files(d, l) && LevelOk(d', l)
            && FilesOf(d', l) == FilesOf(d, l)
  {
    hide LevelOk, ById;
    ByIdOf(files, d.nextId);
    OldIds(d);
    var d' := Replaced(d, src, files, next);
    assert LevelOk(d, l);
    IndexedLevel(d, l);
    forall i | 0 <= i < |Ids(d, l)|
      ensures Ids(d', l)[i] in d'.ssts && d'.ssts[Ids(d', l)[i]] == d.ssts[Ids(d, l)[i]]
    {
      var id := Ids(d, l)[i];
      assert id in Ids(d, l);
    }
    assert Files(d', l) == Files(d, l);
    LevelOkTransfer(d, d', l);
  }

  lemma IndexedLevel(d: Disk, l: nat)
    requires LevelOk(d, l)
    ensures Indexed(d, l)
  {
  }

  lemma LevelOkTransfer(d: Disk, d': Disk, l: nat)
    requires LevelOk(d, l) && Ids(d', l) == Ids(d, l) && Indexed(d', l) && Files(d', l) == Files(d, l)
    requires d.nextId <= d'.nextId && d.maxLevel <= d'.maxLevel
    ensures LevelOk(d', l)
  {
    hide AllWellFormed, Separated, Ordered, Chained;
  }

  lemma NewLevel(d: Disk, src: nat, files: seq<Sst>, next: nat, upper: seq<Entry>, lower: seq<Entry>)
    requires DiskOk(d) && Compacted(files, upper, lower, d.nextId) && next == d.nextId + |files|
    ensures var d' := Replaced(d, src, files, next);
            && Ids(d', src) == [] && LevelOk(d', src)
            && Ids(d', src + 1) == FileIds(files) && LevelOk(d', src + 1) && Files(d', src + 1) == files
  {
    hide AllWellFormed, Separated, Ordered, Chained;
    ByIdOf(files, d.nextId);
    var d' := Replaced(d, src, files, next);
    assert Indexed(d', src + 1);
    assert Files(d', src + 1) == files;
    NoFiles(d', src);
  }

  lemma NoFiles(d: Disk, l: nat)
    requires Ids(d, l) == []
    ensures LevelOk(d, l)
  {
    FlatCons(Runs(Files(d, l)));
  }

  /** Replacing two levels by their compaction keeps the index sound. */
  lemma ReplacedOk(d: Disk, src: nat, files: seq<Sst>, next: nat)
    requires DiskOk(d) && Compacted(files, LevelRun(d, src), LevelRun(d, src + 1), d.nextId)
    requires next == d.nextId + |files|
    ensures DiskOk(Replaced(d, src, files, next))
  {
    hide LevelOk, Compacted, LevelRun, ById;
    CompactedNumbered(d, src, files);
    var d' := Replaced(d, src, files, next);
    NewLevel(d, src, files, next, LevelRun(d, src), LevelRun(d, src + 1));
    forall l: nat
      ensures LevelOk(d', l)
      ensures l != src && l != src + 1 ==> Ids(d', l) == Ids(d, l)
    {
      if l != src && l != src + 1 {
        SameLevel(d, src, files, next, l);
      }
    }
    ReplacedLists(d, src, files, next);
  }

  lemma ReplacedLevels(d: Disk, src: nat, files: seq<Sst>, next: nat)
    ensures var d' := Replaced(d, src, files, next);
            && Ids(d', src) == [] && Ids(d', src + 1) == FileIds(files)
            && forall l: nat :: l != src && l != src + 1 ==> Ids(d', l) == Ids(d, l)
  {
    hide ById, IdSet, NewFiles;
  }

  /** After the swap no id is listed twice, and every indexed table is listed. */
  lemma ReplacedLists(d: Disk, src: nat, files: seq<Sst>, next: nat)
    requires DiskOk(d) && Numbered(files, d.nextId)
    ensures var d' := Replaced(d, src, files, next);
            && (forall l: nat, m: nat, id :: l != m && id in Ids(d', l) ==> id !in Ids(d', m))
            && (forall id :: id in d'.ssts ==> exists l: nat :: l <= d'.maxLevel && id in Ids(d', l))
  {
    hide LevelOk, ById, Ids, NewFiles;
    var d' := Replaced(d, src, files, next);
    OldIds(d);
    ByIdOf(files, d.nextId);
    ReplacedLevels(d, src, files, next);
    assert forall id :: id in FileIds(files) ==> id >= d.nextId;
    forall id | id in d'.ssts
      ensures exists l: nat :: l <= d'.maxLevel && id in Ids(d', l)
    {
      if id in ById(files) {
        assert FileIds(files)[id - d.nextId] == id;
        assert id in Ids(d', src + 1);
      } else {
        var l: nat :| l <= d.maxLevel && id in Ids(d, l);
        assert id in Ids(d', l);
      }
    }
  }

  lemma OldIds(d: Disk)
    requires DiskOk(d)
    ensures forall l: nat, id :: id in Ids(d, l) ==> id < d.nextId
  {
    forall l: nat, id | id in Ids(d, l)
      ensures id < d.nextId
    {
      assert LevelOk(d, l);
      var i :| 0 <= i < |Ids(d, l)| && Ids(d, l)[i] == id;
      assert Files(d, l)[i].id == Ids(d, l)[i];
    }
  }

  /** Replacing two levels by their compaction changes no key's versions. */
  lemma {:induction false} ReplacedVersions(d: Disk, src: nat, files: seq<Sst>, next: nat, l: nat, top: nat)
    requires DiskOk(d) && Compacted(files, LevelRun(d, src), LevelRun(d, src + 1), d.nextId)
    requires next == d.nextId + |files| && (l <= src || l > src + 1) && src + 1 <= top
    ensures SameVersions(RunTo(Replaced(d, src, files, next), l, top), RunTo(d, l, top))
    decreases top + 1 - l
  {
    hide DiskOk, LevelOk, LevelRun, SameVersions, Replaced, RunTo, Compacted;
    var d' := Replaced(d, src, files, next);
    RunUnfold(d, l, top);
    RunUnfold(d', l, top);
    if l > top {
      SameVersionsItself([]);
    } else if l == src {
      ReplacedVersions(d, src, files, next, src + 2, top);
      MergedVersions(d, src, files, next, top);
    } else {
      SameLevel(d, src, files, next, l) by { assert Numbered(files, d.nextId) by { CompactedNumbered(d, src, files); } }
      LevelRunIs(d, l);
      LevelRunIs(d', l);
      ReplacedVersions(d, src, files, next, l + 1, top);
      SameVersionsItself(LevelRun(d, l));
      SameVersionsConcat(LevelRun(d, l), RunTo(d', l + 1, top), LevelRun(d, l), RunTo(d, l + 1, top));
    }
  }

  lemma CompactedNumbered(d: Disk, src: nat, files: seq<Sst>)
    requires Compacted(files, LevelRun(d, src), LevelRun(d, src + 1), d.nextId)
    ensures Numbered(files, d.nextId)
    ensures SameVersions(Chained(files), LevelRun(d, src) + LevelRun(d, src + 1))
  {
  }

  lemma RunUnfold(d: Disk, l: nat, top: nat)
    ensures l > top ==> RunTo(d, l, top) == []
    ensures l <= top ==> RunTo(d, l, top) == LevelRun(d, l) + RunTo(d, l + 1, top)
  {
  }

  lemma LevelRunIs(d: Disk, l: nat)
    requires Indexed(d, l)
    ensures LevelRun(d, l) == Chained(Files(d, l))
  {
  }

  lemma MergedVersions(d: Disk, src: nat, files: seq<Sst>, next: nat, top: nat)
    requires DiskOk(d) && Compacted(files, LevelRun(d, src), LevelRun(d, src + 1), d.nextId)
    requires next == d.nextId + |files| && src + 1 <= top
    requires SameVersions(RunTo(Replaced(d, src, files, next), src + 2, top), RunTo(d, src + 2, top))
    ensures SameVersions(RunTo(Replaced(d, src, files, next), src, top), RunTo(d, src, top))
  {
    hide DiskOk, LevelRun, SameVersions, Replaced, RunTo, Compacted, Chained;
    var d' := Replaced(d, src, files, next);
    NewLevel(d, src, files, next, LevelRun(d, src), LevelRun(d, src + 1));
    EmptyLevel(d', src);
    LevelRunIs(d', src + 1);
    CompactedNumbered(d, src, files);
    RunUnfold(d, src, top);
    RunUnfold(d, src + 1, top);
    RunUnfold(d', src, top);
    RunUnfold(d', src + 1, top);
    var x, y, rest, rest' := LevelRun(d, src), LevelRun(d, src + 1), RunTo(d, src + 2, top), RunTo(d', src + 2, top);
    assert x + (y + rest) == (x + y) + rest;
    assert [] + (Chained(files) + rest') == Chained(files) + rest';
    SameVersionsConcat(Chained(files), rest', x + y, rest);
  }

  /** Ids may be consumed, and files written, without any table being listed. */
  lemma LaterNextId(d: Disk, next: nat, files: set<FileEntry>)
    requires DiskOk(d) && next >= d.nextId
    ensures var d' := d.(nextId := next, files := files);
            && DiskOk(d') && DiskRun(d') == DiskRun(d)
            && forall l: nat :: Ids(d', l) == Ids(d, l) && FilesOf(d', l) == FilesOf(d, l)
  {
    hide AllWellFormed, Separated, Ordered, Chained, LevelOk;
    var d' := d.(nextId := next, files := files);
    forall l: nat
      ensures LevelOk(d', l) && Ids(d', l) == Ids(d, l) && LevelRun(d', l) == LevelRun(d, l)
      ensures FilesOf(d', l) == FilesOf(d, l)
    {
      assert LevelOk(d, l);
      IndexedLevel(d, l);
      LevelOkTransfer(d, d', l);
    }
    SameRuns(d, d', 0, d.maxLevel);
  }

  lemma {:induction false} SameRuns(d: Disk, d': Disk, l: nat, top: nat)
    requires forall m: nat :: m >= l ==> LevelRun(d', m) == LevelRun(d, m)
    ensures RunTo(d', l, top) == RunTo(d, l, top)
    decreases top + 1 - l
  {
    hide LevelRun;
    if l <= top {
      SameRuns(d, d', l + 1, top);
    }
  }

  /** The index after a flushed table has been put in front of level 0. */
  function Pushed(d: Disk, t: Sst): Disk {
    d.(levels := d.levels[0 := [t.id] + Ids(d, 0)],
       ssts := d.ssts[t.id := t],
       files := d.files + {FileEntry(t.id, 0, t)})
  }

  /** A new table in front of level 0 is the newest place on disk. */
  lemma PushedOk(d: Disk, t: Sst)
    requires DiskOk(d) && WellFormed(t)
    requires t.id < d.nextId && forall l: nat, id :: id in Ids(d, l) ==> id < t.id
    ensures DiskOk(Pushed(d, t)) && DiskRun(Pushed(d, t)) == Entries(t) + DiskRun(d)
  {
    hide WellFormed, LevelOk, LevelRun, Entries;
    var d' := Pushed(d, t);
    assert LevelOk(d, 0);
    PushedFront(d, t);
    forall l: nat | l > 0
      ensures LevelOk(d', l) && Ids(d', l) == Ids(d, l) && LevelRun(d', l) == LevelRun(d, l)
    {
      PushedOther(d, t, l);
    }
    SameRuns(d, d', 1, d.maxLevel);
    RunUnfold(d, 0, d.maxLevel);
    RunUnfold(d', 0, d.maxLevel);
    PushedListed(d, t);
  }

  /** A table with the next id, put in front of level 0. */
  lemma PushedNew(d: Disk, t: Sst)
    requires DiskOk(d) && WellFormed(t) && t.id == d.nextId
    ensures var d' := Pushed(d.(nextId := d.nextId + 1), t);
            DiskOk(d') && DiskRun(d') == Entries(t) + DiskRun(d) && Ids(d', 0) == [t.id] + Ids(d, 0)
  {
    hide DiskOk, DiskRun, WellFormed, Entries;
    var d1 := d.(nextId := d.nextId + 1);
    LaterNextId(d, d.nextId + 1, d.files);
    OldIds(d);
    assert forall l: nat :: Ids(d1, l) == Ids(d, l);
    PushedOk(d1, t);
  }

  lemma PushedOther(d: Disk, t: Sst, l: nat)
    requires LevelOk(d, l) && l > 0 && forall id :: id in Ids(d, l) ==> id < t.id
    ensures var d' := Pushed(d, t);
            LevelOk(d', l) && Ids(d', l) == Ids(d, l) && LevelRun(d', l) == LevelRun(d, l)
  {
    hide LevelOk, Chained;
    var d' := Pushed(d, t);
    IndexedLevel(d, l);
    assert forall i :: 0 <= i < |Ids(d, l)| ==> Ids(d, l)[i] in Ids(d, l);
    assert Ids(d', l) == Ids(d, l) && Indexed(d', l);
    assert Files(d', l) == Files(d, l);
    LevelOkTransfer(d, d', l);
  }

  lemma PushedListed(d: Disk, t: Sst)
    requires DiskOk(d) && forall l: nat, id :: id in Ids(d, l) ==> id < t.id
    ensures var d' := Pushed(d, t);
            && (forall l: nat, m: nat, id :: l != m && id in Ids(d', l) ==> id !in Ids(d', m))
            && (forall id :: id in d'.ssts ==> exists l: nat :: l <= d'.maxLevel && id in Ids(d', l))
  {
    hide LevelOk;
    var d' := Pushed(d, t);
    assert forall l: nat :: l > 0 ==> Ids(d', l) == Ids(d, l);
    assert Ids(d', 0) == [t.id] + Ids(d, 0);
    assert forall id :: id in Ids(d', 0) <==> id == t.id || id in Ids(d, 0);
    forall id | id in d'.ssts
      ensures exists l: nat :: l <= d'.maxLevel && id in Ids(d', l)
    {
      if id == t.id {
        assert id in Ids(d', 0);
      } else {
        var l: nat :| l <= d.maxLevel && id in Ids(d, l);
        assert id in Ids(d', l);
      }
    }
  }

  lemma PushedFront(d: Disk, t: Sst)
    requires LevelOk(d, 0) && WellFormed(t) && t.id < d.nextId && forall id :: id in Ids(d, 0) ==> id < t.id
    ensures LevelOk(Pushed(d, t), 0) && LevelRun(Pushed(d, t), 0) == Entries(t) + LevelRun(d, 0)
  {
    hide WellFormed, Separated, Ordered, Entries, Chained, AllWellFormed, DescendingIds;
    var d' := Pushed(d, t);
    FrontFiles(d, t);
    FrontOrder(t.id, Ids(d, 0));
    FrontWellFormed(t, Files(d, 0));
    ChainedCons(Files(d', 0));
    assert Files(d', 0)[1..] == Files(d, 0);
  }

  lemma FrontFiles(d: Disk, t: Sst)
    requires Indexed(d, 0) && forall id :: id in Ids(d, 0) ==> id < t.id
    ensures var d' := Pushed(d, t);
            Ids(d', 0) == [t.id] + Ids(d, 0) && Indexed(d', 0) && Files(d', 0) == [t] + Files(d, 0)
  {
    var d' := Pushed(d, t);
    var ids := Ids(d, 0);
    assert Ids(d', 0) == [t.id] + ids;
    forall i | 0 <= i < |ids| + 1
      ensures Ids(d', 0)[i] in d'.ssts && d'.ssts[Ids(d', 0)[i]] == ([t] + Files(d, 0))[i]
    {
      if i > 0 {
        assert ids[i - 1] in ids;
      }
    }
    assert Files(d', 0) == [t] + Files(d, 0);
  }

  lemma FrontOrder(id: nat, ids: seq<nat>)
    requires DescendingIds(ids) && forall x :: x in ids ==> x < id
    ensures DescendingIds([id] + ids)
  {
    assert forall i :: 0 <= i < |ids| ==> ids[i] in ids;
  }

  lemma FrontWellFormed(t: Sst, files: seq<Sst>)
    requires WellFormed(t) && AllWellFormed(files)
    ensures AllWellFormed([t] + files)
  {
    hide WellFormed;
  }

  // ---------- the data directory ----------

  /** A file is a table the index lists under that level. */
  predicate Listed(d: Disk, f: FileEntry) {
    f.id in d.ssts && d.ssts[f.id] == f.sst && f.id in Ids(d, f.level)
  }

  ghost predicate UniqueIds(files: set<FileEntry>) {
    forall f, g :: f in files && g in files && f.id == g.id ==> f == g
  }

  /** Every listed table has its file; a file whose id is indexed is the listed one; ids are taken, and taken once. */
  ghost predicate DirOk(d: Disk) {
    && UniqueIds(d.files)
    && (forall l: nat, id :: id in Ids(d, l) ==> id in d.ssts && FileEntry(id, l, d.ssts[id]) in d.files)
    && (forall f :: f in d.files ==> f.id < d.nextId && (f.id in d.ssts ==> Listed(d, f)))
  }

  /** No file is left over. */
  ghost predicate Clean(d: Disk) {
    forall f :: f in d.files ==> f.id in d.ssts
  }

  /** A level that lists a table holds a version. */
  lemma LevelNotEmpty(d: Disk, l: nat)
    requires DiskOk(d) && Ids(d, l) != []
    ensures LevelRun(d, l) != []
  {
    hide Chained, Separated, Ordered;
    assert LevelOk(d, l);
    var files := Files(d, l);
    assert WellFormed(files[0]);
    RangeEnds(files[0]);
    ChainedCons(files);
  }

  /** In a sound directory without left-overs the files are exactly the listed tables. */
  lemma CleanListed(d: Disk)
    requires DirOk(d) && Clean(d)
    ensures forall f :: f in d.files <==> Listed(d, f)
  {
  }

  /** The index after a compaction has thrown: its tables stay behind as files nothing lists. */
  function Abandoned(d: Disk, files: seq<Sst>, level: nat, next: nat): Disk {
    d.(nextId := next, files := d.files + NewFiles(files, level))
  }

  lemma PushedDir(d: Disk, t: Sst)
    requires DiskOk(d) && DirOk(d) && t.id == d.nextId
    ensures var d' := Pushed(d.(nextId := d.nextId + 1), t); DirOk(d') && (Clean(d') <==> Clean(d))
  {
    hide LevelOk, Ids;
    var d' := Pushed(d.(nextId := d.nextId + 1), t);
    OldIds(d);
    IndexedIds(d);
    PushedIds(d, t, d.nextId + 1);
    forall l: nat, id | id in Ids(d', l)
      ensures id in d'.ssts && FileEntry(id, l, d'.ssts[id]) in d'.files
    {
      assert id in Ids(d, l) || (l == 0 && id == t.id);
    }
    forall f | f in d'.files
      ensures f.id < d'.nextId && (f.id in d'.ssts ==> Listed(d', f))
    {
      assert f in d.files || f == FileEntry(t.id, 0, t);
    }
    assert forall f :: f in d.files ==> f in d'.files && (f.id in d'.ssts <==> f.id in d.ssts);
    NewIdsUnique(d.files, {FileEntry(t.id, 0, t)}, d.nextId);
  }

  /** Files with new ids of their own join without clash. */
  lemma NewIdsUnique(files: set<FileEntry>, more: set<FileEntry>, next: nat)
    requires UniqueIds(files) && UniqueIds(more)
    requires (forall f :: f in files ==> f.id < next) && (forall f :: f in more ==> f.id >= next)
    ensures UniqueIds(files + more)
  {
  }

  lemma NumberedUnique(files: seq<Sst>, level: nat, next: nat)
    requires Numbered(files, next)
    ensures UniqueIds(NewFiles(files, level)) && forall f :: f in NewFiles(files, level) ==> f.id >= next
  {
    forall f | f in NewFiles(files, level)
      ensures f.id >= next && f.id - next < |files| && f == FileEntry(f.id, level, files[f.id - next])
    {
      var t :| t in files && f == FileEntry(t.id, level, t);
      var i :| 0 <= i < |files| && files[i] == t;
    }
  }

  lemma PushedIds(d: Disk, t: Sst, next: nat)
    ensures var d' := Pushed(d.(nextId := next), t);
            forall l: nat, id :: id in Ids(d', l) <==> id in Ids(d, l) || (l == 0 && id == t.id)
  {
    assert Ids(Pushed(d.(nextId := next), t), 0) == [t.id] + Ids(d, 0);
  }

  /** Indexed tables have old ids. */
  lemma IndexedIds(d: Disk)
    requires DiskOk(d)
    ensures forall id :: id in d.ssts ==> id < d.nextId
  {
    hide LevelOk;
    OldIds(d);
    forall id | id in d.ssts
      ensures id < d.nextId
    {
      var l: nat :| l <= d.maxLevel && id in Ids(d, l);
    }
  }

  lemma AbandonedDir(d: Disk, files: seq<Sst>, level: nat, next: nat)
    requires DiskOk(d) && DirOk(d) && Numbered(files, d.nextId) && next >= d.nextId + |files|
    ensures var d' := Abandoned(d, files, level, next); DirOk(d') && (Clean(d') <==> Clean(d) && files == [])
  {
    hide LevelOk;
    var d' := Abandoned(d, files, level, next);
    IndexedIds(d);
    assert forall l: nat :: Ids(d', l) == Ids(d, l);
    forall t | t in files
      ensures d.nextId <= t.id < next
    {
      var i :| 0 <= i < |files| && files[i] == t;
    }
    if files != [] {
      assert files[0] in files && FileEntry(files[0].id, level, files[0]) in d'.files;
    }
    NumberedUnique(files, level, d.nextId);
    NewIdsUnique(d.files, NewFiles(files, level), d.nextId);
  }

  lemma ReplacedDir(d: Disk, src: nat, files: seq<Sst>, next: nat)
    requires DiskOk(d) && DirOk(d) && Numbered(files, d.nextId) && next == d.nextId + |files|
    ensures var d' := Replaced(d, src, files, next); DirOk(d') && (Clean(d') <==> Clean(d))
  {
    hide DiskOk, Replaced, Listed, UniqueIds, Ids;
    var d' := Replaced(d, src, files, next);
    ReplacedFiles(d, src, files, next);
    ReplacedUnique(d, src, files, next);
    forall f | f in d'.files
      ensures f.id < d'.nextId && (f.id in d'.ssts ==> Listed(d', f))
      ensures Clean(d) ==> f.id in d'.ssts
    {
      ReplacedFile(d, src, files, next, f);
    }
    forall f | f in d.files && f.id !in d.ssts
      ensures f in d'.files && f.id !in d'.ssts
    {
      LeftOverStays(d, src, files, next, f);
    }
  }

  /** Every table listed after the swap has its file. */
  lemma ReplacedFiles(d: Disk, src: nat, files: seq<Sst>, next: nat)
    requires DiskOk(d) && DirOk(d) && Numbered(files, d.nextId) && next == d.nextId + |files|
    ensures var d' := Replaced(d, src, files, next);
            forall l: nat, id :: id in Ids(d', l) ==> id in d'.ssts && FileEntry(id, l, d'.ssts[id]) in d'.files
  {
    hide LevelOk, ById, Ids, Listed, UniqueIds;
    var d', gone := Replaced(d, src, files, next), IdSet(Ids(d, src)) + IdSet(Ids(d, src + 1));
    IndexedIds(d);
    ByIdOf(files, d.nextId);
    ReplacedLevels(d, src, files, next);
    forall l: nat, id | id in Ids(d', l)
      ensures id in d'.ssts && FileEntry(id, l, d'.ssts[id]) in d'.files
    {
      if l == src + 1 {
        var i :| 0 <= i < |files| && FileIds(files)[i] == id;
        assert files[i] in files;
      } else {
        assert id in Ids(d, l) && id !in gone;
      }
    }
  }

  lemma ReplacedUnique(d: Disk, src: nat, files: seq<Sst>, next: nat)
    requires DirOk(d) && Numbered(files, d.nextId)
    ensures Replaced(d, src, files, next).nextId == next && UniqueIds(Replaced(d, src, files, next).files)
  {
    hide ById, Ids, NewFiles;
    var gone := IdSet(Ids(d, src)) + IdSet(Ids(d, src + 1));
    NumberedUnique(files, src + 1, d.nextId);
    NewIdsUnique((set f | f in d.files && f.id !in gone), NewFiles(files, src + 1), d.nextId);
  }

  lemma LeftOverStays(d: Disk, src: nat, files: seq<Sst>, next: nat, f: FileEntry)
    requires DirOk(d) && Numbered(files, d.nextId) && f in d.files && f.id !in d.ssts
    ensures f in Replaced(d, src, files, next).files && f.id !in Replaced(d, src, files, next).ssts
  {
    hide ById, Ids, NewFiles, Listed;
    GoneIndexed(d, src);
    ByIdOf(files, d.nextId);
  }

  lemma GoneIndexed(d: Disk, src: nat)
    requires DirOk(d)
    ensures forall id :: id in IdSet(Ids(d, src)) + IdSet(Ids(d, src + 1)) ==> id in d.ssts
  {
  }

  lemma ReplacedFile(d: Disk, src: nat, files: seq<Sst>, next: nat, f: FileEntry)
    requires DiskOk(d) && DirOk(d) && Numbered(files, d.nextId) && next == d.nextId + |files|
    requires f in Replaced(d, src, files, next).files
    ensures var d' := Replaced(d, src, files, next);
            && f.id < next && (f.id in d'.ssts ==> Listed(d', f))
            && (f in d.files && f.id in d.ssts ==> f.id in d'.ssts) && (f !in d.files ==> f.id in d'.ssts)
  {
    hide LevelOk, ById, Ids;
    var d', gone := Replaced(d, src, files, next), IdSet(Ids(d, src)) + IdSet(Ids(d, src + 1));
    ByIdOf(files, d.nextId);
    ReplacedLevels(d, src, files, next);
    if f in NewFiles(files, src + 1) {
      var t :| t in files && f == FileEntry(t.id, src + 1, t);
      var i :| 0 <= i < |files| && files[i] == t;
      assert FileIds(files)[i] == f.id;
      assert Listed(d', f);
    } else {
      assert f in d.files && f.id !in gone && f.id < d.nextId;
      assert f.id !in ById(files);
      if f.id in d.ssts {
        assert Listed(d, f);
        assert f.level != src && f.level != src + 1;
        assert Ids(d', f.level) == Ids(d, f.level);
      }
    }
  }

  /** Every file in the directory, listed or left over, can be read back from its bytes. */
  ghost predicate DiskFits(d: Disk) {
    forall f :: f in d.files ==> SstFiles.Recoverable(f.sst) && f.sst.id == f.id
  }

  lemma FilesFit(d: Disk, l: nat)
    requires DirOk(d) && DiskFits(d) && Indexed(d, l)
    ensures AllRecoverable(Files(d, l))
  {
    hide SstFiles.Recoverable;
    forall i | 0 <= i < |Ids(d, l)|
      ensures SstFiles.Recoverable(Files(d, l)[i])
    {
      var id := Ids(d, l)[i];
      assert id in Ids(d, l);
      assert FileEntry(id, l, d.ssts[id]) in d.files;
    }
  }

  lemma PushedFits(d: Disk, t: Sst, next: nat)
    requires DiskFits(d) && SstFiles.Recoverable(t)
    ensures DiskFits(Pushed(d.(nextId := next), t))
  {
    hide SstFiles.Recoverable;
  }

  lemma NewFilesFit(d: Disk, built: seq<Sst>, level: nat)
    requires DiskFits(d) && AllRecoverable(built)
    ensures forall f :: f in NewFiles(built, level) || f in d.files ==> SstFiles.Recoverable(f.sst) && f.sst.id == f.id
  {
    hide SstFiles.Recoverable;
    forall f | f in NewFiles(built, level)
      ensures SstFiles.Recoverable(f.sst) && f.sst.id == f.id
    {
      var t :| t in built && f == FileEntry(t.id, level, t);
      var i :| 0 <= i < |built| && built[i] == t;
    }
  }

  lemma ReplacedFits(d: Disk, src: nat, built: seq<Sst>, next: nat)
    requires DiskFits(d) && AllRecoverable(built)
    ensures DiskFits(Replaced(d, src, built, next)) && DiskFits(Abandoned(d, built, src + 1, next))
  {
    hide SstFiles.Recoverable, ById, NewFiles, AllRecoverable;
    NewFilesFit(d, built, src + 1);
  }

  /** A stretch of levels is a part of the disk. */
  lemma {:induction false} SuffixIsPart(d: Disk, from: nat, l: nat, top: nat)
    requires from <= l
    ensures multiset(RunTo(d, l, top)) <= multiset(RunTo(d, from, top))
    decreases l - from
  {
    hide LevelRun;
    if from < l && from <= top {
      SuffixIsPart(d, from + 1, l, top);
    }
  }

  lemma AdjacentIsPart(d: Disk, l: nat)
    requires DiskOk(d) && l <= d.maxLevel
    ensures multiset(LevelRun(d, l) + LevelRun(d, l + 1)) <= multiset(DiskRun(d))
  {
    hide LevelRun, LevelOk, DiskOk;
    var top := d.maxLevel + 1;
    RunBeyond(d, 0, top);
    SuffixIsPart(d, 0, l, top);
    var a, b, c := LevelRun(d, l), LevelRun(d, l + 1), RunTo(d, l + 2, top);
    assert RunTo(d, l, top) == a + (b + c) == (a + b) + c;
  }

  // ---------- reading one level ----------

  /** Where a present key must be, relative to the range of table i. */
  lemma CompareFile(files: seq<Sst>, k: Key, i: nat, j: nat, e: Entry)
    requires AllWellFormed(files) && Separated(files) && k != [] && i < |files| && j < |files|
    requires e in Entries(files[j]) && e.key == k
    ensures Less(k, files[i].firstKey) ==> j < i
    ensures Less(files[i].lastKey, k) ==> j > i
    ensures AtMost(files[i].firstKey, k) && AtMost(k, files[i].lastKey) ==> j == i
  {
    hide Less, WellFormed, Entries, Tiled, Ordered;
    var t := files[i];
    assert WellFormed(t) && WellFormed(files[j]);
    if i == j {
      InOwnRange(t, e);
      LessTotal(k, t.firstKey);
      LessTotal(k, t.lastKey);
    } else {
      RangeEnds(t);
      var hi :| hi in Entries(t) && hi.key == t.lastKey;
      LessTotal(k, t.lastKey);
      if t.firstKey == [] {
        AtMostLess(k, [], []);
        assert hi.key == [];
      } else {
        var lo :| lo in Entries(t) && lo.key == t.firstKey;
        LessTotal(k, t.firstKey);
      }
    }
  }

  lemma RangeEnds(t: Sst)
    requires WellFormed(t)
    ensures TightRange(t)
  {
  }

  lemma InOwnRange(t: Sst, e: Entry)
    requires WellFormed(t) && e in Entries(t) && e.key != []
    ensures !Less(e.key, t.firstKey) && !Less(t.lastKey, e.key)
  {
    hide Less, First, WellFormed;
    if Less(e.key, t.firstKey) || Less(t.lastKey, e.key) {
      OutOfRange(t, e.key, 0);
    }
  }

  /** A key's versions in one level come from the one table whose range holds the key. */
  lemma OnlyFile(files: seq<Sst>, r: nat, k: Key, t: Id)
    requires AllWellFormed(files) && Separated(files) && k != [] && r < |files|
    requires AtMost(files[r].firstKey, k) && AtMost(k, files[r].lastKey)
    ensures First(Chained(files), k, t) == First(Entries(files[r]), k, t)
  {
    hide Less, WellFormed, Separated, Entries, Flat, First;
    forall j, e | 0 <= j < |Runs(files)| && e in Runs(files)[j] && e.key == k
      ensures j == r
    {
      CompareFile(files, k, r, j, e);
    }
    FirstInRun(Runs(files), r, k, t);
  }

  /**
   Binary search a level for the table whose key range holds the key and read there. A miss
   inside the range ends the level.
   */
  method LevelGet(files: seq<Sst>, key: Key, t: Id) returns (r: Option<Entry>)
    requires AllWellFormed(files) && Separated(files)
    ensures key != [] ==> r == First(Chained(files), key, t)
    ensures r.Some? ==> r.value.key == key
  {
    hide Less, WellFormed, Separated, Entries, Flat, First;
    var left, right := 0, |files|;
    while left < right
      invariant 0 <= left <= right <= |files|
      invariant key != [] ==>
                forall j, e :: 0 <= j < |files| && e in Entries(files[j]) && e.key == key ==> left <= j < right
    {
      var mid := left + (right - left) / 2;
      var sst := files[mid];
      forall j, e | key != [] && 0 <= j < |files| && e in Entries(files[j]) && e.key == key
        ensures Less(key, sst.firstKey) ==> j < mid
        ensures Less(sst.lastKey, key) ==> j > mid
      {
        CompareFile(files, key, mid, j, e);
      }
      LessTotal(key, sst.firstKey);
      LessTotal(key, sst.lastKey);
      if AtMost(sst.firstKey, key) && AtMost(key, sst.lastKey) {
        if key != [] { OnlyFile(files, mid, key, t); }
        r := Ssts.Get(sst, key, t);
        return;
      } else if Less(sst.lastKey, key) {
        left := mid + 1;
      } else {
        right := mid;
      }
    }
    if key != [] {
      ChainedMembers(files);
      FirstNone(Chained(files), key, t);
    }
    r := None;
  }
}
