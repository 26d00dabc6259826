/** Reopening from the bytes on disk: every file is opened, its blocks decoded, and the index rebuilt. */
module ByteReloads {
  import opened Versions
  import opened ByteCodec
  import opened Ssts
  import opened Levels
  import opened Reloads
  import Blocks = BlockCodecs
  import Files = SstFiles

  // ---------- one table ----------

  /** The entries of a decoded block from index i on. */
  function EntriesFrom(b: Blocks.Block, i: nat): Option<seq<Entry>>
    requires i <= |b.offsets|
    decreases |b.offsets| - i
  {
    if i == |b.offsets| then Some([])
    else
      var e, rest := Blocks.EntryAt(b, i), EntriesFrom(b, i + 1);
      if e.Failed? || rest.None? then None else Some([e.value] + rest.value)
  }

  lemma {:induction false} EntriesReadBack(s: seq<Entry>, i: nat)
    requires i <= |s| && Blocks.BlockFits(s)
    ensures EntriesFrom(Blocks.BlockOf(s), i) == Some(s[i..])
    decreases |s| - i
  {
    hide Blocks.Data, Blocks.EntryAt, Blocks.EntryFits;
    if i == |s| {
      assert s[i..] == [];
    } else {
      EntriesReadBack(s, i + 1);
      assert Blocks.EntryFits(s[i]);
      Blocks.FittingStarts(s, i);
      Blocks.EntryReadsBack(s, i);
      assert [s[i]] + s[i + 1..] == s[i..];
    }
  }

  /** The entries of block i of an opened file. */
  function LoadBlock(file: Bytes, o: Files.Opened, i: nat): Option<seq<Entry>>
    requires i < |o.metas|
  {
    var slice := Files.Slice(file, o.metas, i, o.metaOffset);
    if slice.Failed? then None
    else
      var b := Blocks.Decode(slice.value);
      if b.Failed? then None else EntriesFrom(b.value, 0)
  }

  /** The first n blocks. */
  function LoadBlocks(file: Bytes, o: Files.Opened, n: nat): Option<seq<seq<Entry>>>
    requires n <= |o.metas|
  {
    if n == 0 then Some([])
    else
      var init, last := LoadBlocks(file, o, n - 1), LoadBlock(file, o, n - 1);
      if init.None? || last.None? then None else Some(init.value + [last.value])
  }

  /** The table a file holds. */
  function LoadTable(id: nat, file: Bytes): Option<Sst> {
    var o := Files.Open(file);
    if o.Failed? || o.value.bloom.None? then None
    else
      var blocks := LoadBlocks(file, o.value, |o.value.metas|);
      if blocks.None? then None
      else Some(Sst(id, blocks.value, o.value.metas, o.value.firstKey, o.value.lastKey,
                    o.value.bloom.value, o.value.minId, o.value.maxId))
  }

  lemma {:induction false} BlocksReload(t: Sst, n: nat)
    requires Files.Recoverable(t) && n <= |t.metas|
    ensures |t.metas| == |t.blocks| && t.metas != [] && Files.Expected(t).metas == t.metas
    ensures LoadBlocks(Files.File(t), Files.Expected(t), n) == Some(t.blocks[..n])
  {
    hide Files.Recoverable, Files.File, LoadBlock, Files.Expected;
    Shape(t);
    ExpectedMetas(t);
    if n > 0 {
      BlocksReload(t, n - 1);
      OneReloads(t, n - 1);
      assert t.blocks[..n - 1] + [t.blocks[n - 1]] == t.blocks[..n];
    } else {
      assert t.blocks[..0] == [];
    }
  }

  lemma Shape(t: Sst)
    requires Files.Recoverable(t)
    ensures |t.metas| == |t.blocks| && t.metas != []
  {
    hide WellFormed, Files.FileFits, Files.OffsetsTrue, Files.LooksLong;
    Files.TableFacts(t);
  }

  lemma ExpectedMetas(t: Sst)
    requires t.metas != []
    ensures Files.Expected(t).metas == t.metas && Files.Expected(t).metaOffset == Files.MetaOffset(t)
  {
  }

  lemma OneReloads(t: Sst, i: nat)
    requires Files.Recoverable(t) && i < |t.metas|
    ensures |t.metas| == |t.blocks| && LoadBlock(Files.File(t), Files.Expected(t), i) == Some(t.blocks[i])
  {
    hide WellFormed, Files.File, Files.LooksLong, Files.Slice, Blocks.Decode, Blocks.BlockOf, EntriesFrom,
         Files.Expected, Files.OffsetsTrue;
    Shape(t);
    ExpectedMetas(t);
    Files.SliceReadsBack(t, i);
    BlockReloads(t.blocks[i]);
  }

  lemma BlockReloads(s: seq<Entry>)
    requires Blocks.BlockFits(s)
    ensures EntriesFrom(Blocks.BlockOf(s), 0) == Some(s)
  {
    EntriesReadBack(s, 0);
    assert s[0..] == s;
  }

  /** A recoverable table is read back from its file, whole. */
  lemma TableReloads(t: Sst)
    requires Files.Recoverable(t)
    ensures LoadTable(t.id, Files.File(t)) == Some(t)
  {
    hide Files.File, Files.LooksLong, Files.Open, LoadBlocks, Files.FileFits, Files.OffsetsTrue;
    Files.TableFacts(t);
    Files.OpenRecovers(t);
    BlocksReload(t, |t.metas|);
    assert t.blocks[..|t.metas|] == t.blocks;
    Ends(t);
  }

  lemma Ends(t: Sst)
    requires WellFormed(t)
    ensures t.metas != [] && t.firstKey == t.metas[0].first && t.lastKey == t.metas[|t.metas| - 1].last
  {
  }

  // ---------- the directory ----------

  /** A file as the directory shows it. */
  datatype RawFile = RawFile(id: nat, level: nat, bytes: Bytes)

  function Raw(f: FileEntry): RawFile {
    RawFile(f.id, f.level, Files.File(f.sst))
  }

  /** The raw directory shows these files, in this order. */
  ghost predicate Shows(raw: seq<RawFile>, dir: seq<FileEntry>) {
    |raw| == |dir| && forall i :: 0 <= i < |dir| ==> raw[i] == Raw(dir[i])
  }

  /** Open every file; one that cannot be read ends the attempt. */
  method LoadAll(raw: seq<RawFile>, ghost dir: seq<FileEntry>) returns (loaded: Option<seq<FileEntry>>)
    requires Shows(raw, dir) && forall f :: f in dir ==> Files.Recoverable(f.sst) && f.sst.id == f.id
    ensures loaded == Some(dir)
  {
    hide Files.Recoverable, LoadTable, Files.File;
    var files: seq<FileEntry> := [];
    for i := 0 to |raw|
      invariant files == dir[..i]
    {
      assert dir[i] in dir;
      TableReloads(dir[i].sst);
      var t := LoadTable(raw[i].id, raw[i].bytes);
      files := files + [FileEntry(raw[i].id, raw[i].level, t.value)];
    }
    assert dir[..|raw|] == dir;
    loaded := Some(files);
  }

  /**
   Reopening a clean directory from its bytes, in any order of enumeration, gives back the same
   tables in the same levels and answers every read as before.
   */
  method ReloadBytes(raw: seq<RawFile>, ghost dir: seq<FileEntry>, ghost was: Disk) returns (d: Option<Disk>)
    requires DiskOk(was) && DirOk(was) && DiskFits(was) && Enumerates(dir, was.files) && Shows(raw, dir)
    ensures d.Some? && d.value.files == was.files
    ensures (forall l: nat :: Ids(d.value, l) == Ids(was, l)) <==> Clean(was)
    ensures Clean(was) ==>
              && d.value.ssts == was.ssts && DiskOk(d.value) && DirOk(d.value) && Clean(d.value)
              && DiskRun(d.value) == DiskRun(was)
  {
    hide DiskOk, DirOk, DiskRun, Clean, Files.Recoverable, Enumerates, Shows;
    ListedFit(dir, was);
    var loaded := LoadAll(raw, dir);
    var disk := Reload(loaded.value, was);
    d := Some(disk);
  }

  lemma ListedFit(dir: seq<FileEntry>, was: Disk)
    requires DiskFits(was) && Enumerates(dir, was.files)
    ensures forall f :: f in dir ==> Files.Recoverable(f.sst) && f.sst.id == f.id
  {
    hide Files.Recoverable;
  }
}
