/** Opening a data directory: the index of tables is rebuilt from the files found there. */
module Reloads {
  import opened Versions
  import opened Ssts
  import opened MergeIterators
  import opened Compactions
  import opened Levels
  import opened IdLists

  /** A directory listing, in whatever order. */
  ghost predicate Enumerates(dir: seq<FileEntry>, files: set<FileEntry>) {
    && (forall i, j :: 0 <= i < j < |dir| ==> dir[i] != dir[j])
    && (forall f :: f in dir <==> f in files)
  }

  /** The ids found for one level, in enumeration order. */
  function Found(dir: seq<FileEntry>, l: nat): seq<nat> {
    if dir == [] then []
    else Found(dir[..|dir| - 1], l) + (if dir[|dir| - 1].level == l then [dir[|dir| - 1].id] else [])
  }

  lemma {:induction false} FoundMembers(dir: seq<FileEntry>, l: nat, id: nat)
    ensures id in Found(dir, l) <==> exists f :: f in dir && f.level == l && f.id == id
  {
    if dir != [] {
      var n := |dir| - 1;
      FoundMembers(dir[..n], l, id);
      assert dir == dir[..n] + [dir[n]];
      assert dir[n].level == l && dir[n].id == id ==> dir[n] in dir;
    }
  }

  ghost predicate DistinctIds(dir: seq<FileEntry>) {
    forall i, j :: 0 <= i < j < |dir| ==> dir[i].id != dir[j].id
  }

  lemma {:induction false} FoundDistinct(dir: seq<FileEntry>, l: nat)
    requires DistinctIds(dir)
    ensures Distinct(Found(dir, l))
  {
    if dir != [] {
      var n := |dir| - 1;
      FoundDistinct(dir[..n], l);
      FoundMembers(dir[..n], l, dir[n].id);
      assert forall f :: f in dir[..n] ==> f.id != dir[n].id;
    }
  }

  lemma ListingDistinct(dir: seq<FileEntry>, files: set<FileEntry>)
    requires UniqueIds(files) && Enumerates(dir, files)
    ensures DistinctIds(dir)
  {
    forall i, j | 0 <= i < j < |dir|
      ensures dir[i].id != dir[j].id
    {
      assert dir[i] in dir && dir[j] in dir;
    }
  }

  // ---------- sorting ----------

  function Reverse(s: seq<nat>): (r: seq<nat>)
    ensures |r| == |s| && forall i :: 0 <= i < |s| ==> r[i] == s[|s| - 1 - i]
  {
    seq(|s|, i requires 0 <= i < |s| => s[|s| - 1 - i])
  }

  /** Level 0 lists the newest table first, the others run in id order. */
  function Arranged(l: nat, ids: seq<nat>): seq<nat> {
    if l == 0 then Reverse(SortIds(ids)) else SortIds(ids)
  }

  lemma ReverseOrder(s: seq<nat>)
    ensures Reverse(Reverse(s)) == s && forall y :: y in Reverse(s) <==> y in s
    ensures DescendingIds(s) ==> Ascending(Reverse(s))
  {
    forall y
      ensures y in Reverse(s) <==> y in s
    {
      if y in s {
        var i :| 0 <= i < |s| && s[i] == y;
        assert Reverse(s)[|s| - 1 - i] == y;
      }
    }
  }

  /**
   Whatever order the files are found in, arranging them gives back every level's list, if and only
   if no file is left over.
   */
  lemma ArrangedIsLevel(d: Disk, dir: seq<FileEntry>)
    requires DiskOk(d) && DirOk(d) && Enumerates(dir, d.files)
    ensures (forall l: nat :: Arranged(l, Found(dir, l)) == Ids(d, l)) <==> Clean(d)
  {
    hide DiskOk, DirOk, Arranged, Found, Ids;
    if Clean(d) {
      forall l: nat
        ensures Arranged(l, Found(dir, l)) == Ids(d, l)
      {
        CleanLevel(d, dir, l);
      }
    } else {
      var f :| f in d.files && f.id !in d.ssts;
      LeftOverListed(d, dir, f);
    }
  }

  lemma LeftOverListed(d: Disk, dir: seq<FileEntry>, f: FileEntry)
    requires DirOk(d) && Enumerates(dir, d.files) && f in d.files && f.id !in d.ssts
    ensures f.id in Arranged(f.level, Found(dir, f.level)) && f.id !in Ids(d, f.level)
  {
    hide SortIds, Found, Reverse, DirOk, Distinct, DistinctIds, Ascending;
    NotListed(d, f);
    DirUnique(d);
    ListingDistinct(dir, d.files);
    FoundDistinct(dir, f.level);
    FoundMembers(dir, f.level, f.id);
    SortIdsSorts(Found(dir, f.level));
    ReverseOrder(SortIds(Found(dir, f.level)));
  }

  lemma CleanLevel(d: Disk, dir: seq<FileEntry>, l: nat)
    requires DiskOk(d) && DirOk(d) && Enumerates(dir, d.files) && Clean(d)
    ensures Arranged(l, Found(dir, l)) == Ids(d, l)
  {
    hide SortIds, LevelOk, Found, DiskOk, Ascending, DescendingIds, Distinct, DistinctIds, Reverse, Clean, DirOk;
    var found := Found(dir, l);
    DirUnique(d);
    ListingDistinct(dir, d.files);
    FoundDistinct(dir, l);
    SortIdsSorts(found);
    LevelOrder(d, l);
    FoundIsLevel(d, dir, l);
    if l == 0 {
      ReverseOrder(Ids(d, 0));
      ReverseOrder(SortIds(found));
      AscendingUnique(SortIds(found), Reverse(Ids(d, 0)));
    } else {
      AscendingUnique(SortIds(found), Ids(d, l));
    }
  }

  lemma NotListed(d: Disk, f: FileEntry)
    requires DirOk(d) && f.id !in d.ssts
    ensures f.id !in Ids(d, f.level)
  {
  }

  lemma DirUnique(d: Disk)
    requires DirOk(d)
    ensures UniqueIds(d.files)
  {
  }

  lemma LevelOrder(d: Disk, l: nat)
    requires DiskOk(d)
    ensures Indexed(d, l) && if l == 0 then DescendingIds(Ids(d, l)) else Ascending(Ids(d, l))
  {
    hide AllWellFormed, Separated, Ordered, Chained;
    assert LevelOk(d, l);
  }

  lemma FoundIsLevel(d: Disk, dir: seq<FileEntry>, l: nat)
    requires Indexed(d, l) && DirOk(d) && Clean(d) && Enumerates(dir, d.files)
    ensures forall id :: id in Found(dir, l) <==> id in Ids(d, l)
  {
    hide Found;
    CleanListed(d);
    forall id
      ensures id in Found(dir, l) <==> id in Ids(d, l)
    {
      FoundMembers(dir, l, id);
      if id in Ids(d, l) {
        assert Listed(d, FileEntry(id, l, d.ssts[id]));
      }
    }
  }

  // ---------- loading ----------

  function Max(a: nat, b: nat): nat {
    if a < b then b else a
  }

  /** The tables opened so far, and the marks kept on the way. */
  ghost predicate Opened(dir: seq<FileEntry>, ssts: map<nat, Sst>, next: nat, top: nat) {
    && (forall f :: f in dir ==> f.id in ssts && ssts[f.id] == f.sst)
    && (forall id :: id in ssts ==> exists f :: f in dir && f.id == id)
    && (forall f :: f in dir ==> f.id <= next && f.level <= top)
  }

  lemma OpenOne(dir: seq<FileEntry>, ssts: map<nat, Sst>, next: nat, top: nat, f: FileEntry)
    requires Opened(dir, ssts, next, top) && forall g :: g in dir ==> g.id != f.id
    ensures Opened(dir + [f], ssts[f.id := f.sst], Max(f.id, next), Max(f.level, top))
  {
    assert f in dir + [f];
    forall id | id in ssts
      ensures exists g :: g in dir + [f] && g.id == id
    {
      var g :| g in dir && g.id == id;
      assert g in dir + [f];
    }
  }

  lemma FoundLast(dir: seq<FileEntry>, f: FileEntry, l: nat)
    ensures Found(dir + [f], l) == Found(dir, l) + if f.level == l then [f.id] else []
  {
    assert (dir + [f])[..|dir|] == dir;
  }

  /** First pass: open every file and note its id under its level. */
  method OpenAll(dir: seq<FileEntry>) returns (d: Disk)
    requires DistinctIds(dir)
    ensures forall l: nat :: Ids(d, l) == Found(dir, l)
    ensures d.nextId > 0 && Opened(dir, d.ssts, d.nextId - 1, d.maxLevel) && d.files == set f | f in dir
  {
    hide Found, Opened;
    var levels: map<nat, seq<nat>>, ssts: map<nat, Sst>, next: nat, top: nat := map[], map[], 0, 0;
    Nothing();
    for i := 0 to |dir|
      invariant forall l: nat :: IdsAt(levels, l) == Found(dir[..i], l)
      invariant Opened(dir[..i], ssts, next, top)
    {
      var f := dir[i];
      assert dir[..i + 1] == dir[..i] + [f];
      OpenOne(dir[..i], ssts, next, top, f);
      next := Max(f.id, next);
      top := Max(f.level, top);
      ssts := ssts[f.id := f.sst];
      levels := levels[f.level := IdsAt(levels, f.level) + [f.id]];
      forall l: nat
        ensures IdsAt(levels, l) == Found(dir[..i + 1], l)
      {
        FoundLast(dir[..i], f, l);
      }
    }
    assert dir[..|dir|] == dir;
    d := Disk(levels, ssts, next + 1, top, set f | f in dir);
  }

  lemma Nothing()
    ensures Opened([], map[], 0, 0) && forall l: nat :: Found([], l) == []
  {
  }

  /** Second pass: sort each level's list. */
  method SortLevels(levels: map<nat, seq<nat>>) returns (sorted: map<nat, seq<nat>>)
    ensures forall l: nat :: IdsAt(sorted, l) == Arranged(l, IdsAt(levels, l))
  {
    sorted := levels;
    var todo := levels.Keys;
    while todo != {}
      invariant todo <= levels.Keys && sorted.Keys == levels.Keys
      invariant forall l: nat :: l in levels ==> sorted[l] == if l in todo then levels[l] else Arranged(l, levels[l])
      decreases todo
    {
      var l :| l in todo;
      sorted := sorted[l := Arranged(l, sorted[l])];
      todo := todo - {l};
    }
    assert forall l: nat :: Arranged(l, []) == [];
  }

  /**
   Reopening lists, for any enumeration order, exactly the files found, under a next id that is
   unused. It rebuilds the index - every level lists the same tables in the same order - if and only
   if no file is left over; then every read is answered as before.
   */
  method Reload(dir: seq<FileEntry>, ghost was: Disk) returns (d: Disk)
    requires DiskOk(was) && DirOk(was) && Enumerates(dir, was.files)
    ensures (forall l: nat :: Ids(d, l) == Ids(was, l)) <==> Clean(was)
    ensures d.files == was.files && forall f :: f in was.files ==> f.id < d.nextId
    ensures Clean(was) ==> d.ssts == was.ssts && DiskOk(d) && DirOk(d) && Clean(d) && DiskRun(d) == DiskRun(was)
  {
    hide DiskOk, DirOk, DiskRun, Arranged, Found, Clean;
    DirUnique(was);
    ListingDistinct(dir, was.files);
    d := OpenAll(dir);
    var levels := SortLevels(d.levels);
    d := d.(levels := levels);
    ArrangedIsLevel(was, dir);
    assert d.files == was.files;
    assert forall l: nat :: Ids(d, l) == Arranged(l, Found(dir, l));
    if Clean(was) {
      SameTables(dir, was, d);
      SameIndex(was, d);
      SameDir(was, d);
    }
  }

  lemma SameDir(was: Disk, d: Disk)
    requires DirOk(was) && Clean(was) && d.ssts == was.ssts && d.files == was.files
    requires forall l: nat :: Ids(d, l) == Ids(was, l)
    requires forall f :: f in was.files ==> f.id < d.nextId
    ensures DirOk(d) && Clean(d)
  {
  }

  lemma SameTables(dir: seq<FileEntry>, was: Disk, d: Disk)
    requires DiskOk(was) && DirOk(was) && Clean(was) && Enumerates(dir, was.files)
    requires d.nextId > 0 && Opened(dir, d.ssts, d.nextId - 1, d.maxLevel)
    ensures d.ssts == was.ssts
    ensures forall l: nat, id :: id in Ids(was, l) ==> id < d.nextId && l <= d.maxLevel
  {
    hide LevelOk;
    CleanListed(was);
    forall id | id in was.ssts
      ensures id in d.ssts && d.ssts[id] == was.ssts[id]
    {
      var l: nat :| l <= was.maxLevel && id in Ids(was, l);
      assert Listed(was, FileEntry(id, l, was.ssts[id]));
    }
    forall l: nat, id | id in Ids(was, l)
      ensures id < d.nextId && l <= d.maxLevel
    {
      ListedOpen(was, l, id);
      assert Listed(was, FileEntry(id, l, was.ssts[id]));
    }
  }

  lemma ListedOpen(d: Disk, l: nat, id: nat)
    requires DiskOk(d) && id in Ids(d, l)
    ensures id in d.ssts
  {
    assert LevelOk(d, l);
  }

  /** An index with the same lists, tables and room for new ids is sound and reads the same. */
  lemma SameIndex(was: Disk, d: Disk)
    requires DiskOk(was) && d.ssts == was.ssts && forall l: nat :: Ids(d, l) == Ids(was, l)
    requires forall l: nat, id :: id in Ids(was, l) ==> id < d.nextId && l <= d.maxLevel
    ensures DiskOk(d) && DiskRun(d) == DiskRun(was)
  {
    hide LevelOk, LevelRun;
    forall l: nat
      ensures LevelOk(d, l) && LevelRun(d, l) == LevelRun(was, l)
    {
      SameLevelOk(was, d, l);
    }
    forall id | id in d.ssts
      ensures exists l: nat :: l <= d.maxLevel && id in Ids(d, l)
    {
      var l: nat :| l <= was.maxLevel && id in Ids(was, l);
      assert id in Ids(d, l);
    }
    var top := Max(was.maxLevel, d.maxLevel);
    RunBeyond(was, 0, top);
    RunBeyond(d, 0, top);
    SameRuns(was, d, 0, top);
  }

  lemma SameLevelOk(was: Disk, d: Disk, l: nat)
    requires LevelOk(was, l) && d.ssts == was.ssts && Ids(d, l) == Ids(was, l)
    requires forall id :: id in Ids(was, l) ==> id < d.nextId && l <= d.maxLevel
    ensures LevelOk(d, l) && LevelRun(d, l) == LevelRun(was, l)
  {
    hide AllWellFormed, Separated, Ordered, Chained;
    assert Files(d, l) == Files(was, l);
    assert forall i :: 0 <= i < |Ids(d, l)| ==> Ids(d, l)[i] in Ids(was, l);
    assert Ids(d, l) != [] ==> Ids(d, l)[0] in Ids(was, l);
  }
}
