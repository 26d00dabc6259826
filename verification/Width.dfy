/**
 The widths of the file format against what a store holds: a condition on the versions under which
 every table that flush and compaction build can be read back from its bytes.
 */
module Widths {
  import opened Versions
  import opened Ssts
  import Blooms
  import BlockCodecs
  import MetaCodecs
  import BloomCodecs
  import SstFiles

  /** Ids from here on may have the longer format's magic as their top byte. */
  const ID_LIMIT: nat := 0x4B00_0000_0000_0000

  /** A version whose lengths fit 16 bits and whose id is ordinary. */
  predicate Ordinary(e: Entry) {
    |e.key| < 0x1_0000 && |e.value| < 0x1_0000 && e.id < ID_LIMIT
  }

  /** More than the data, offsets and index of any table made of these versions can take. */
  function Weight(s: seq<Entry>): nat {
    4 * DataBytes(s) + 16 * |s| + 16
  }

  /**
   Room in the format: every version is ordinary; the versions of each key, markers included, take less
   than 64 KB together with the block capacity, since a key is never split over blocks; all versions
   together stay within 32-bit file offsets.
   */
  ghost predicate Roomy(s: seq<Entry>, capacity: nat) {
    && (forall e :: e in s ==> Ordinary(e))
    && (forall k: Key :: DataBytes(ForKey(s, k)) + capacity < 0x1_0000)
    && Weight(s) < 0x1_0000_0000
  }

  // ---------- fewer versions take less room ----------

  lemma {:induction false} DataConcat(a: seq<Entry>, b: seq<Entry>)
    ensures DataBytes(a + b) == DataBytes(a) + DataBytes(b)
  {
    if b == [] {
      assert a + b == a;
    } else {
      var n := |b| - 1;
      assert (a + b)[..|a + b| - 1] == a + b[..n];
      DataConcat(a, b[..n]);
    }
  }

  lemma DataWithout(s: seq<Entry>, i: nat)
    requires i < |s|
    ensures DataBytes(s) == DataBytes(s[..i] + s[i + 1..]) + EntryBytes(s[i])
    ensures multiset(s) == multiset(s[..i] + s[i + 1..]) + multiset{s[i]}
  {
    hide DataBytes;
    assert s == s[..i] + [s[i]] + s[i + 1..];
    DataConcat(s[..i] + [s[i]], s[i + 1..]);
    DataConcat(s[..i], [s[i]]);
    DataConcat(s[..i], s[i + 1..]);
    DataOne(s[i]);
  }

  lemma DataOne(e: Entry)
    ensures DataBytes([e]) == EntryBytes(e)
  {
    assert [e][..0] == [];
  }

  /** A part of a collection of versions, in whatever order, takes no more bytes. */
  lemma {:induction false} DataPart(x: seq<Entry>, s: seq<Entry>)
    requires multiset(x) <= multiset(s)
    ensures DataBytes(x) <= DataBytes(s) && |x| <= |s|
    decreases |x|
  {
    hide DataBytes;
    if x == [] {
      DataNone();
    } else {
      var n := |x| - 1;
      assert x == x[..n] + [x[n]];
      assert multiset(x) == multiset(x[..n]) + multiset{x[n]};
      assert x[n] in multiset(x);
      assert x[n] in s;
      var i :| 0 <= i < |s| && s[i] == x[n];
      DataWithout(s, i);
      var rest := s[..i] + s[i + 1..];
      assert multiset(x[..n]) <= multiset(rest) by {
        assert multiset(x[..n]) == multiset(x) - multiset{x[n]} && multiset(rest) == multiset(s) - multiset{x[n]};
      }
      DataPart(x[..n], rest);
      DataConcat(x[..n], [x[n]]);
      DataOne(x[n]);
    }
  }

  lemma DataNone()
    ensures DataBytes([]) == 0
  {
  }

  lemma ForKeyPart(x: seq<Entry>, s: seq<Entry>, k: Key)
    requires multiset(x) <= multiset(s)
    ensures multiset(ForKey(x, k)) <= multiset(ForKey(s, k))
  {
    forall e: Entry
      ensures multiset(ForKey(x, k))[e] <= multiset(ForKey(s, k))[e]
    {
      ForKeyMultiset(x, k, e);
      ForKeyMultiset(s, k, e);
    }
  }

  lemma RoomyPart(x: seq<Entry>, s: seq<Entry>, capacity: nat)
    requires Roomy(s, capacity) && multiset(x) <= multiset(s)
    ensures Roomy(x, capacity)
  {
    hide DataBytes, ForKey, Ordinary;
    DataPart(x, s);
    forall e | e in x
      ensures Ordinary(e)
    {
      assert e in multiset(x);
      assert e in s;
    }
    forall k: Key
      ensures DataBytes(ForKey(x, k)) + capacity < 0x1_0000
    {
      ForKeyPart(x, s, k);
      DataPart(ForKey(x, k), ForKey(s, k));
    }
  }

  // ---------- blocks ----------

  /** Apart from one key, the block stays within the capacity. */
  ghost predicate Snug(s: seq<Entry>, capacity: nat, k: Key) {
    DataBytes(s) <= capacity + DataBytes(ForKey(s, k))
  }

  ghost predicate SnugBlock(s: seq<Entry>, capacity: nat) {
    exists k :: Snug(s, capacity, k)
  }

  ghost predicate SnugBlocks(b: Builder) {
    && (forall i :: 0 <= i < |b.blocks| ==> SnugBlock(b.blocks[i], b.capacity))
    && (b.block != [] ==> Snug(b.block, b.capacity, b.last))
  }

  lemma SnugOne(e: Entry, capacity: nat)
    ensures Snug([e], capacity, e.key)
  {
    hide DataBytes;
    ForKeySame([e], e.key);
  }

  /** A forced entry has the last key; another one is taken only within the capacity, or into an empty block. */
  lemma SnugAccepts(b: Builder, e: Entry)
    requires Blooms.Valid(b.bloom) && SnugBlocks(b) && !Refuses(Noted(b, e), e)
    ensures Snug(b.block + [e], b.capacity, e.key)
  {
    hide DataBytes, Blooms.Added;
    DataConcat(b.block, [e]);
    DataOne(e);
    if b.block == [] {
      assert b.block + [e] == [e];
      SnugOne(e, b.capacity);
    } else if e.key == b.last {
      ForKeyConcat(b.block, [e], e.key);
      ForKeySame([e], e.key);
      DataConcat(ForKey(b.block, e.key), [e]);
      assert ForKey(b.block + [e], e.key) == ForKey(b.block, e.key) + [e];
      assert Snug(b.block, b.capacity, e.key);
    } else {
      Within(b, e);
    }
  }

  lemma Within(b: Builder, e: Entry)
    requires Blooms.Valid(b.bloom) && !Refuses(Noted(b, e), e) && b.block != [] && e.key != b.last
    ensures DataBytes(b.block) + EntryBytes(e) <= b.capacity
  {
    hide DataBytes, Blooms.Added;
  }

  lemma AddSnug(b: Builder, e: Entry)
    requires Blooms.Valid(b.bloom) && SnugBlocks(b)
    ensures SnugBlocks(Add(b, e))
  {
    hide Snug, Blooms.Added, CurSize;
    var r := Add(b, e);
    if Refuses(Noted(b, e), e) {
      SnugOne(e, b.capacity);
      forall i | 0 <= i < |r.blocks|
        ensures SnugBlock(r.blocks[i], r.capacity)
      {
        if i == |b.blocks| {
          assert Snug(r.blocks[i], r.capacity, b.last);
        } else {
          assert r.blocks[i] == b.blocks[i];
        }
      }
    } else {
      SnugAccepts(b, e);
      assert r.blocks == b.blocks && r.capacity == b.capacity && r.block == b.block + [e] && r.last == e.key;
    }
  }

  // ---------- the file ----------

  /** Closed blocks, index and open block, and the running keys. */
  function Held(b: Builder): nat {
    b.dataSize + MetaCodecs.BodySize(b.metas) + DataBytes(b.block) + 8 * |b.block| + |b.first| + |b.last|
  }

  lemma BodySnocSize(ms: seq<Meta>, m: Meta)
    ensures MetaCodecs.BodySize(ms + [m]) == MetaCodecs.BodySize(ms) + 8 + |m.first| + |m.last|
  {
    MetaCodecs.BodySnoc(ms, m);
  }

  lemma AddHeld(b: Builder, e: Entry)
    requires Blooms.Valid(b.bloom)
    ensures Held(Add(b, e)) <= Held(b) + 4 * EntryBytes(e) + 16
  {
    hide DataBytes, Blooms.Added, MetaCodecs.BodySize;
    DataConcat(b.block, [e]);
    DataOne(e);
    var n := Noted(b, e);
    if Refuses(n, e) {
      BodySnocSize(b.metas, Meta(b.dataSize, n.first, n.last));
    }
  }

  /** Keys in the index are keys of versions, ids are theirs. */
  ghost predicate Plain(b: Builder, capacity: nat, bloom: Blooms.Bloom) {
    && b.capacity == capacity && |b.first| < 0x1_0000 && |b.last| < 0x1_0000
    && (forall i :: 0 <= i < |b.metas| ==> |b.metas[i].first| < 0x1_0000 && |b.metas[i].last| < 0x1_0000)
    && b.maxId < ID_LIMIT && b.minId <= MAX_ID
    && (forall i :: 0 <= i < |b.blocks| ==> b.blocks[i] != [])
    && Blooms.Valid(b.bloom) && |b.bloom.bits| == |bloom.bits| && b.bloom.numHashes == bloom.numHashes
    && b.bloom.expected == bloom.expected && b.bloom.rate == bloom.rate
  }

  lemma AddPlain(b: Builder, e: Entry, capacity: nat, bloom: Blooms.Bloom)
    requires Plain(b, capacity, bloom) && Ordinary(e)
    ensures Plain(Add(b, e), capacity, bloom)
  {
    hide CurSize;
  }

  /** What the builder has made of a stream. */
  ghost predicate MadeOf(b: Builder, s: seq<Entry>, capacity: nat, bloom: Blooms.Bloom) {
    && Plain(b, capacity, bloom) && SnugBlocks(b) && SstFiles.Tracks(b)
    && Added(b) == s && Held(b) + 16 <= Weight(s)
  }

  lemma {:induction false} AddAllMakes(capacity: nat, bloom: Blooms.Bloom, s: seq<Entry>)
    requires Blooms.Valid(bloom) && forall e :: e in s ==> Ordinary(e)
    ensures MadeOf(AddAll(NewBuilder(capacity, bloom), s), s, capacity, bloom)
  {
    hide Ordinary, Plain, SnugBlocks, SstFiles.Tracks, Added, Held, Add, DataBytes;
    var b := NewBuilder(capacity, bloom);
    if s == [] {
      FreshBuilder(capacity, bloom);
    } else {
      var n := |s| - 1;
      var r, e := AddAll(b, s[..n]), s[n];
      AddAllMakes(capacity, bloom, s[..n]);
      PlainValid(r, capacity, bloom);
      assert s == s[..n] + [e];
      AddPlain(r, e, capacity, bloom);
      AddSnug(r, e);
      SstFiles.AddTracks(r, e);
      AddedGrows(r, e);
      AddHeld(r, e);
      DataConcat(s[..n], [e]);
      DataOne(e);
    }
  }

  lemma PlainValid(b: Builder, capacity: nat, bloom: Blooms.Bloom)
    requires Plain(b, capacity, bloom)
    ensures Blooms.Valid(b.bloom)
  {
  }

  lemma FreshBuilder(capacity: nat, bloom: Blooms.Bloom)
    requires Blooms.Valid(bloom)
    ensures MadeOf(NewBuilder(capacity, bloom), [], capacity, bloom)
  {
    SstFiles.NewTracks(capacity, bloom);
  }

  // ---------- the table ----------

  /** A block of a roomy collection fits its offsets. */
  lemma BlockRoom(block: seq<Entry>, s: seq<Entry>, capacity: nat)
    requires Roomy(s, capacity) && multiset(block) <= multiset(s) && SnugBlock(block, capacity)
    ensures BlockCodecs.BlockFits(block)
  {
    hide DataBytes, ForKey;
    var k :| Snug(block, capacity, k);
    RoomyPart(block, s, capacity);
    assert DataBytes(ForKey(block, k)) + capacity < 0x1_0000;
    forall i | 0 <= i < |block|
      ensures BlockCodecs.EntryFits(block[i])
    {
      assert Ordinary(block[i]);
    }
    if block != [] {
      BlockCodecs.PrefixBytes(block, |block| - 1);
    }
  }

  lemma {:induction false} BlockIsPart(blocks: seq<seq<Entry>>, i: nat)
    requires i < |blocks|
    ensures multiset(blocks[i]) <= multiset(Flat(blocks))
  {
    hide Flat;
    FlatSplit(blocks, i);
    var a, b := Flat(blocks[..i]), Flat(blocks[i + 1..]);
    assert multiset(a + blocks[i] + b) == multiset(a) + multiset(blocks[i]) + multiset(b);
  }

  /** The builder with its last block closed. */
  function Closed(b: Builder): Builder {
    if b.block != [] then Finish(b) else b
  }

  lemma CloseMakes(b: Builder, s: seq<Entry>, capacity: nat, bloom: Blooms.Bloom)
    requires MadeOf(b, s, capacity, bloom) && s != []
    ensures var f := Closed(b);
            && Plain(f, capacity, bloom) && SstFiles.Tracks(f) && Flat(f.blocks) == s
            && (forall i :: 0 <= i < |f.blocks| ==> SnugBlock(f.blocks[i], capacity))
            && f.dataSize + MetaCodecs.BodySize(f.metas) + 8 <= Weight(s)
  {
    hide Snug, DataBytes, Flat, SstFiles.OffsetsTrue, SstFiles.BlocksBytes, MetaCodecs.BodySize;
    var f := Closed(b);
    if b.block != [] {
      SstFiles.FinishTracks(b);
      BodySnocSize(b.metas, Meta(b.dataSize, b.first, b.last));
      FlatConcat(b.blocks, [b.block]);
      FlatOne(b.block);
      forall i | 0 <= i < |f.blocks|
        ensures SnugBlock(f.blocks[i], capacity)
      {
        if i == |b.blocks| {
          assert Snug(f.blocks[i], capacity, b.last);
        } else {
          assert f.blocks[i] == b.blocks[i];
        }
      }
    } else {
      assert Flat(b.blocks) + [] == Flat(b.blocks);
      DataNone();
      assert f == b && b.capacity == capacity;
    }
  }

  /** Offsets, index and footer of the table stay within their widths. */
  lemma ClosedFits(f: Builder, s: seq<Entry>, capacity: nat, bloom: Blooms.Bloom)
    requires Plain(f, capacity, bloom) && SstFiles.Tracks(f) && Flat(f.blocks) == s && BloomCodecs.Fits(bloom)
    requires f.dataSize + MetaCodecs.BodySize(f.metas) + 8 < 0x1_0000_0000
    requires forall i :: 0 <= i < |f.blocks| ==> BlockCodecs.BlockFits(f.blocks[i])
    ensures MetaCodecs.MetasFit(f.metas) && BloomCodecs.Fits(f.bloom)
    ensures |SstFiles.BlocksBytes(f.blocks)| + |MetaCodecs.Encoded(f.metas)| < 0x1_0000_0000
  {
    hide SstFiles.BlocksBytes, MetaCodecs.Body, BlockCodecs.BlockFits, Flat, MetaCodecs.Encoded;
    IndexCount(f.metas);
    forall i | 0 <= i < |f.metas|
      ensures MetaCodecs.MetaFits(f.metas[i])
    {
      SstFiles.BlockLies(f.blocks, i);
    }
    EncodedSize(f.metas);
  }

  lemma EncodedSize(ms: seq<Meta>)
    ensures |MetaCodecs.Encoded(ms)| == MetaCodecs.BodySize(ms) + 8
  {
  }

  lemma {:induction false} IndexCount(ms: seq<Meta>)
    ensures |ms| <= MetaCodecs.BodySize(ms)
  {
    if ms != [] {
      IndexCount(ms[1..]);
    }
  }

  /** Every table built from roomy versions can be read back from its bytes. */
  lemma BuiltRecoverable(capacity: nat, bloom: Blooms.Bloom, s: seq<Entry>, id: nat)
    requires Blooms.Valid(bloom) && BloomCodecs.Fits(bloom) && Ordered(s) && s != [] && Roomy(s, capacity)
    ensures var t := Build(AddAll(NewBuilder(capacity, bloom), s), id);
            t.Some? && t.value.id == id && Entries(t.value) == s && SstFiles.Recoverable(t.value)
  {
    hide AddAll, Ordered, WellFormed, Plain, SnugBlocks, SstFiles.Tracks, Flat, Held, DataBytes, ForKey,
         MetaCodecs.BodySize, SstFiles.FileFits, SstFiles.OffsetsTrue, SstFiles.LooksLong, SstFiles.File, Finish;
    SortedStreamBuilds(capacity, bloom, s, id);
    var b := AddAll(NewBuilder(capacity, bloom), s);
    AddAllMakes(capacity, bloom, s);
    CloseMakes(b, s, capacity, bloom);
    var f := Closed(b);
    forall i | 0 <= i < |f.blocks|
      ensures BlockCodecs.BlockFits(f.blocks[i])
    {
      BlockIsPart(f.blocks, i);
      BlockRoom(f.blocks[i], s, capacity);
    }
    ClosedFits(f, s, capacity, bloom);
    var t := Build(b, id).value;
    TableFits(f, t, capacity, bloom);
  }

  lemma TableFits(f: Builder, t: Sst, capacity: nat, bloom: Blooms.Bloom)
    requires Plain(f, capacity, bloom) && SstFiles.Tracks(f) && WellFormed(t)
    requires t.blocks == f.blocks && t.metas == f.metas && t.bloom == f.bloom
    requires t.minId == f.minId && t.maxId == f.maxId
    requires forall i :: 0 <= i < |f.blocks| ==> BlockCodecs.BlockFits(f.blocks[i])
    requires MetaCodecs.MetasFit(f.metas) && BloomCodecs.Fits(f.bloom)
    requires |SstFiles.BlocksBytes(f.blocks)| + |MetaCodecs.Encoded(f.metas)| < 0x1_0000_0000
    ensures SstFiles.Recoverable(t)
  {
    hide WellFormed, SstFiles.BlocksBytes, MetaCodecs.Encoded, BlockCodecs.BlockFits, SstFiles.OffsetsTrue,
         MetaCodecs.MetasFit, BloomCodecs.Fits;
    SstFiles.TableFacts(t);
    assert SstFiles.FileFits(t);
    NotLong(t);
  }

  lemma NotLong(t: Sst)
    requires SstFiles.FileFits(t) && t.maxId < ID_LIMIT
    ensures !SstFiles.LooksLong(SstFiles.File(t))
  {
    hide SstFiles.File, SstFiles.FileFits;
    SstFiles.LastByte(t);
  }

  // ---------- outside the condition ----------

  /** A key's versions all go into one block, however many they are. */
  lemma {:induction false} OneKeyOneBlock(b: Builder, s: seq<Entry>, k: Key)
    requires Blooms.Valid(b.bloom) && b.block == [] && b.blocks == []
    requires forall e :: e in s ==> e.key == k
    ensures var r := AddAll(b, s); r.blocks == [] && r.block == s && (s != [] ==> r.last == k) && Blooms.Valid(r.bloom)
  {
    hide Add;
    if s != [] {
      var n := |s| - 1;
      OneKeyOneBlock(b, s[..n], k);
      assert s[n] in s && s == s[..n] + [s[n]];
      SameKeyStays(AddAll(b, s[..n]), s[n]);
    }
  }

  lemma SameKeyStays(b: Builder, e: Entry)
    requires Blooms.Valid(b.bloom) && (b.block != [] ==> b.last == e.key)
    ensures Add(b, e).blocks == b.blocks && Add(b, e).block == b.block + [e] && Add(b, e).last == e.key
  {
    hide CurSize, Blooms.Added;
  }

  /** 4683 writes of one key, flushed into one table: its only block cannot be read back, whatever the capacity. */
  lemma RewrittenKeyIsLost(v: Byte, capacity: nat, bloom: Blooms.Bloom, id: nat)
    requires Blooms.Valid(bloom)
    ensures var s := BlockCodecs.Rewritten(4683, v);
            var t := Build(AddAll(NewBuilder(capacity, bloom), s), id);
            && t.Some? && t.value.blocks == [s] && !Roomy(s, capacity) && !BlockCodecs.ReadsBack(s)
            && var last := BlockCodecs.EntryAt(BlockCodecs.BlockOf(s), 4682); last.Parsed? ==> last.value != s[4682]
  {
    hide AddAll, Sorted, Ordered, WellFormed, BlockCodecs.EntryAt, BlockCodecs.BlockOf, BlockCodecs.ReadsBack,
         BlockCodecs.Rewritten, DataBytes, ForKey;
    var s := BlockCodecs.Rewritten(4683, v);
    BlockCodecs.RewrittenMisread(v);
    BlockCodecs.ReadsBackIff(s);
    OneKeyOneBlock(NewBuilder(capacity, bloom), s, [1]);
    if Roomy(s, capacity) {
      AllOneKey(s, [1]);
      BlockCodecs.FourteenEach(s);
    }
  }

  lemma {:induction false} AllOneKey(s: seq<Entry>, k: Key)
    requires forall e :: e in s ==> e.key == k
    ensures ForKey(s, k) == s
  {
    if s != [] {
      AllOneKey(s[1..], k);
      assert s == [s[0]] + s[1..] && s[0] in s;
    }
  }
}
