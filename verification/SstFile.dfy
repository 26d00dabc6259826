/** Table files: blocks, block index, bloom filter and footer as bytes; building them and opening them again. */
module SstFiles {
  import opened Versions
  import opened ByteCodec
  import opened Ssts
  import Blooms
  import Blocks = BlockCodecs
  import Metas = MetaCodecs
  import BloomBytes = BloomCodecs

  const FOOTER: nat := 24
  const LONG_FOOTER: nat := 26
  const MAGIC: Byte := 0x4B

  // ---------- the file ----------

  function BlockBytes(s: seq<Entry>): (r: Bytes)
    ensures |r| == CurSize(s) + 4
  {
    Blocks.Encoded(Blocks.BlockOf(s))
  }

  function BlocksBytes(blocks: seq<seq<Entry>>): Bytes {
    if blocks == [] then [] else BlocksBytes(blocks[..|blocks| - 1]) + BlockBytes(blocks[|blocks| - 1])
  }

  function MetaOffset(t: Sst): nat {
    |BlocksBytes(t.blocks)|
  }

  function BloomOffset(t: Sst): nat {
    MetaOffset(t) + |Metas.Encoded(t.metas)|
  }

  function Footer(t: Sst): (r: Bytes)
    ensures |r| == FOOTER
  {
    LE(MetaOffset(t), 4) + (LE(BloomOffset(t), 4) + (LE(t.minId, 8) + LE(t.maxId, 8)))
  }

  /** What building a table writes. */
  function File(t: Sst): Bytes {
    BlocksBytes(t.blocks) + (Metas.Encoded(t.metas) + (BloomBytes.Encoded(t.bloom) + Footer(t)))
  }

  /** Each recorded offset is where its block starts. */
  ghost predicate OffsetsTrue(blocks: seq<seq<Entry>>, metas: seq<Meta>) {
    |metas| == |blocks| && forall i :: 0 <= i < |metas| ==> metas[i].offset == |BlocksBytes(blocks[..i])|
  }

  /** The widths of the format hold the table. */
  ghost predicate FileFits(t: Sst) {
    && (forall i :: 0 <= i < |t.blocks| ==> t.blocks[i] != [] && Blocks.BlockFits(t.blocks[i]))
    && Metas.MetasFit(t.metas) && BloomBytes.Fits(t.bloom)
    && t.minId < 0x1_0000_0000_0000_0000 && t.maxId < 0x1_0000_0000_0000_0000
    && BloomOffset(t) < 0x1_0000_0000
  }

  // ---------- building ----------

  lemma BlocksBytesSnoc(blocks: seq<seq<Entry>>, s: seq<Entry>)
    ensures BlocksBytes(blocks + [s]) == BlocksBytes(blocks) + BlockBytes(s)
  {
    assert (blocks + [s])[..|blocks|] == blocks;
  }

  lemma OffsetsSnoc(blocks: seq<seq<Entry>>, metas: seq<Meta>, s: seq<Entry>, m: Meta)
    requires OffsetsTrue(blocks, metas) && m.offset == |BlocksBytes(blocks)|
    ensures OffsetsTrue(blocks + [s], metas + [m])
  {
    hide BlocksBytes;
    forall i | 0 <= i < |metas| + 1
      ensures (metas + [m])[i].offset == |BlocksBytes((blocks + [s])[..i])|
    {
      assert (blocks + [s])[..i] == blocks[..i];
      assert i == |metas| ==> blocks[..i] == blocks;
    }
  }

  /** The builder on bytes. It keeps in step with the builder on entry lists, `model`. */
  class SSTBuilder {
    const capacity: nat
    var block: Blocks.Block
    var data: Bytes
    var metas: seq<Meta>
    var firstKey: Key
    var lastKey: Key
    var bloom: Blooms.Bloom
    var minId: nat
    var maxId: nat
    ghost var model: Builder

    ghost predicate Valid()
      reads this
    {
      && model == Builder(capacity, model.blocks, model.block, metas, firstKey, lastKey, |data|, bloom, minId, maxId)
      && block == Blocks.BlockOf(model.block) && data == BlocksBytes(model.blocks)
      && OffsetsTrue(model.blocks, metas) && Blooms.Valid(bloom)
    }

    constructor (capacity: nat, bloom: Blooms.Bloom)
      requires Blooms.Valid(bloom)
      ensures Valid() && model == NewBuilder(capacity, bloom)
    {
      this.capacity, this.bloom := capacity, bloom;
      block, data, metas, firstKey, lastKey, minId, maxId := Blocks.BlockOf([]), [], [], [], [], MAX_ID, 0;
      model := NewBuilder(capacity, bloom);
    }

    /** Append to the open block unless that would overfill it. */
    method AddEntry(e: Entry, force: bool) returns (ok: bool)
      requires Valid()
      modifies this`block, this`model
      ensures var size := CurSize(old(model.block)) + |e.key| + |e.value| + 3 * 2 + 8;
              !ok <==> !force && size > capacity && old(model.block) != []
      ensures Valid() && model == if ok then old(model).(block := old(model.block) + [e]) else old(model)
    {
      hide Blocks.BlockOf, BlocksBytes, OffsetsTrue;
      Sizes(model.block);
      var size := |block.data| + 2 * |block.offsets| + 2;
      if !force && size + |e.key| + |e.value| + 3 * 2 + 8 > capacity && |block.offsets| > 0 {
        return false;
      }
      block := Blocks.AddEntry(block, e, model.block);
      model := model.(block := model.block + [e]);
      ok := true;
    }

    /** Encode the open block, record its range and offset, and start an empty one. */
    method FinishBlock()
      requires Valid()
      modifies this`block, this`data, this`metas, this`model
      ensures Valid() && model == Finish(old(model))
    {
      hide Blocks.BlockOf, Blocks.Encoded, BlocksBytes, OffsetsTrue;
      var encoded := Blocks.Encoded(block);
      BlocksBytesSnoc(model.blocks, model.block);
      OffsetsSnoc(model.blocks, metas, model.block, Meta(|data|, firstKey, lastKey));
      metas := metas + [Meta(|data|, firstKey, lastKey)];
      data := data + encoded;
      block := Blocks.Block([], []);
      model := Finish(model);
      EmptyBlock();
    }

    method Add(key: Key, value: Value, id: Id)
      requires Valid()
      modifies this
      ensures Valid() && model == Ssts.Add(old(model), Entry(key, value, id))
    {
      hide Valid, Blooms.Added, CurSize;
      Note(Entry(key, value, id));
      Place(Entry(key, value, id));
    }

    /** First key, bloom filter and id range. */
    method Note(e: Entry)
      requires Valid()
      modifies this`firstKey, this`bloom, this`maxId, this`minId, this`model
      ensures Valid() && model == Noted(old(model), e)
    {
      hide Blocks.BlockOf, BlocksBytes, OffsetsTrue, Blooms.Added;
      if firstKey == [] {
        firstKey := e.key;
      }
      bloom := Blooms.Add(bloom, e.key);
      maxId := if maxId < e.id then e.id else maxId;
      minId := if e.id < minId then e.id else minId;
      model := Noted(model, e);
    }

    /** Into the open block, or into a new one. A key's versions stay in one block. */
    method Place(e: Entry)
      requires Valid()
      modifies this`block, this`data, this`metas, this`firstKey, this`lastKey, this`model
      ensures Valid()
      ensures model == if Refuses(old(model), e) then Finish(old(model)).(block := [e], first := e.key, last := e.key)
                       else old(model).(block := old(model.block) + [e], last := e.key)
    {
      hide Blocks.BlockOf, BlocksBytes, OffsetsTrue, CurSize;
      var ok := AddEntry(e, e.key == lastKey);
      if ok {
        lastKey := e.key;
        model := model.(last := e.key);
        return;
      }
      FinishBlock();
      ok := AddEntry(e, false);
      firstKey := e.key;
      lastKey := e.key;
      assert model.block == [e];
      model := model.(first := e.key, last := e.key);
    }

    /** Close the last block and write the file; nothing to write is an error. */
    method Build(id: nat) returns (file: Option<Bytes>)
      requires Valid()
      modifies this`block, this`data, this`metas, this`model
      ensures file.Some? <==> Ssts.Build(old(model), id).Some?
      ensures file.Some? ==> var t := Ssts.Build(old(model), id).value;
                             file.value == File(t) && OffsetsTrue(t.blocks, t.metas)
    {
      hide Blocks.BlockOf, Blocks.Encoded, BlocksBytes, OffsetsTrue, LE, Metas.Encoded, BloomBytes.Encoded;
      Sizes(model.block);
      if |block.offsets| > 0 {
        FinishBlock();
      }
      if metas == [] {
        return None;
      }
      var metaBlock := Metas.Encode(metas);
      var metaOffset := |data|;
      var content := data + metaBlock;
      var bloomOffset := |content|;
      var bloomData := BloomBytes.Encode(bloom);
      content := content + bloomData;
      var footer := LE(metaOffset, 4) + (LE(bloomOffset, 4) + (LE(minId, 8) + LE(maxId, 8)));
      assert content + footer == data + (metaBlock + (bloomData + footer));
      file := Some(content + footer);
    }
  }

  lemma Sizes(s: seq<Entry>)
    ensures |Blocks.BlockOf(s).offsets| == |s|
    ensures |Blocks.BlockOf(s).data| + 2 * |Blocks.BlockOf(s).offsets| + 2 == CurSize(s)
  {
  }

  lemma EmptyBlock()
    ensures Blocks.BlockOf([]) == Blocks.Block([], [])
  {
  }

  // ---------- opening ----------

  /** What opening a file recovers. */
  datatype Opened = Opened(metas: seq<Meta>, bloom: Option<Blooms.Bloom>, minId: nat, maxId: nat,
                           metaOffset: nat, bloomOffset: nat, mode: nat, firstKey: Key, lastKey: Key)

  /** The last byte is the magic and the four bytes before a long footer would be a sane offset. */
  predicate LooksLong(file: Bytes) {
    && |file| >= LONG_FOOTER && file[|file| - 1] == MAGIC
    && At(file, |file| - LONG_FOOTER, 4) < |file| - LONG_FOOTER
  }

  function Open(file: Bytes): Parsed<Opened> {
    if |file| < FOOTER then Failed(TooSmall)
    else
      var long := LooksLong(file);
      var base := |file| - (if long then LONG_FOOTER else FOOTER);
      var mode := if long then file[|file| - 2] else 0;
      OpenAt(file, base, mode, At(file, base, 4), At(file, base + 4, 4), At(file, base + 8, 8), At(file, base + 16, 8))
  }

  /** Decode the sections a footer at `base` points to. */
  function OpenAt(file: Bytes, base: nat, mode: nat, metaOffset: nat, bloomOffset: nat, minId: nat,
                  maxId: nat): Parsed<Opened>
    requires base + FOOTER <= |file|
  {
    var hasBloom := bloomOffset + FOOTER < |file| && bloomOffset != base;
    if hasBloom && bloomOffset > base then Failed(PastEnd)
    else if metaOffset > bloomOffset || bloomOffset > |file| then Failed(PastEnd)
    else
      var bloom := if hasBloom then BloomBytes.Parse(file[bloomOffset..base]) else Failed(PastEnd);
      if hasBloom && bloom.Failed? then Failed(bloom.fault)
      else
        var metas := Metas.Parse(file[metaOffset..bloomOffset]);
        if metas.Failed? then Failed(metas.fault)
        else
          Parsed(Opened(metas.value, if hasBloom then Some(bloom.value) else None, minId, maxId,
                        metaOffset, bloomOffset, mode,
                        if metas.value == [] then [] else metas.value[0].first,
                        if metas.value == [] then [] else metas.value[|metas.value| - 1].last), |file|)
  }

  /** The table as it should come back. */
  function Expected(t: Sst): Opened
    requires t.metas != []
  {
    Opened(t.metas, Some(t.bloom), t.minId, t.maxId, MetaOffset(t), BloomOffset(t), 0,
           t.metas[0].first, t.metas[|t.metas| - 1].last)
  }

  /** The footer fields of a written file, at their places. */
  lemma FooterReadsBack(t: Sst)
    requires FileFits(t)
    ensures var file := File(t); var base := |file| - FOOTER;
            && base >= 0 && base == BloomOffset(t) + |BloomBytes.Encoded(t.bloom)|
            && Lies(file, base, Footer(t))
            && At(file, base, 4) == MetaOffset(t) && At(file, base + 4, 4) == BloomOffset(t)
            && At(file, base + 8, 8) == t.minId && At(file, base + 16, 8) == t.maxId
  {
    hide LE, At, BlocksBytes, Metas.Encoded, BloomBytes.Encoded;
    var file := File(t);
    var base := |file| - FOOTER;
    FileLayout(t);
    LiesConcat(file, base, LE(MetaOffset(t), 4), LE(BloomOffset(t), 4) + (LE(t.minId, 8) + LE(t.maxId, 8)));
    LiesConcat(file, base + 4, LE(BloomOffset(t), 4), LE(t.minId, 8) + LE(t.maxId, 8));
    LiesConcat(file, base + 8, LE(t.minId, 8), LE(t.maxId, 8));
    At4(file, base, MetaOffset(t));
    At4(file, base + 4, BloomOffset(t));
    At8(file, base + 8, t.minId);
    At8(file, base + 16, t.maxId);
  }

  lemma FileLayout(t: Sst)
    ensures var file := File(t); var base := |file| - FOOTER;
            && base == BloomOffset(t) + |BloomBytes.Encoded(t.bloom)|
            && Lies(file, 0, BlocksBytes(t.blocks)) && Lies(file, MetaOffset(t), Metas.Encoded(t.metas))
            && Lies(file, BloomOffset(t), BloomBytes.Encoded(t.bloom)) && Lies(file, base, Footer(t))
  {
    hide BlocksBytes, Metas.Encoded, BloomBytes.Encoded, Footer;
    var file := File(t);
    var a, b, c, d := BlocksBytes(t.blocks), Metas.Encoded(t.metas), BloomBytes.Encoded(t.bloom), Footer(t);
    assert Lies(file, 0, file);
    LiesConcat(file, 0, a, b + (c + d));
    LiesConcat(file, |a|, b, c + d);
    LiesConcat(file, |a| + |b|, c, d);
  }

  /** The sections decode when the footer is found where it was written. */
  lemma SectionsReadBack(t: Sst)
    requires FileFits(t) && t.metas != []
    ensures var file := File(t); var base := |file| - FOOTER;
            && base >= 0
            && OpenAt(file, base, 0, MetaOffset(t), BloomOffset(t), t.minId, t.maxId) == Parsed(Expected(t), |file|)
  {
    hide LE, At, BlocksBytes, Metas.Encoded, BloomBytes.Encoded, Metas.Parse, BloomBytes.Parse, Footer;
    var file := File(t);
    FileLayout(t);
    BloomNotEmpty(t.bloom);
    Metas.MetasRoundTrip(t.metas);
    BloomBytes.BloomRoundTrip(t.bloom);
  }

  lemma BloomNotEmpty(f: Blooms.Bloom)
    ensures |BloomBytes.Encoded(f)| >= 24
  {
  }

  /** Offsets that also match two bytes further on would put both sections at one place. */
  lemma ShiftedFooter(file: Bytes, base: nat)
    requires base >= 2 && base + 8 <= |file|
    requires At(file, base - 2, 4) == At(file, base, 4) && At(file, base + 2, 4) == At(file, base + 4, 4)
    ensures At(file, base, 4) == At(file, base + 4, 4)
  {
    hide At;
    AtPairs(file, base - 2);
    AtPairs(file, base);
    AtPairs(file, base + 2);
    AtPairs(file, base + 4);
  }

  /**
   Opening the file of a table recovers its index, filter, id range and section offsets exactly
   when the file's tail does not pass for the longer footer.
   */
  lemma OpenRecovers(t: Sst)
    requires FileFits(t) && t.metas != []
    ensures Open(File(t)) == Parsed(Expected(t), |File(t)|) <==> !LooksLong(File(t))
  {
    hide LE, At, BlocksBytes, Metas.Encoded, BloomBytes.Encoded, Metas.Parse, BloomBytes.Parse, Footer, File,
         FileFits, OpenAt, MetaOffset, BloomOffset, LooksLong;
    var file := File(t);
    FooterReadsBack(t);
    SectionsReadBack(t);
    SectionsApart(t);
    if LooksLong(file) {
      LongIsLong(file);
      if Open(file) == Parsed(Expected(t), |file|) {
        OpenKeepsOffsets(file);
        ShiftedFooter(file, |file| - FOOTER);
      }
    }
  }

  lemma SectionsApart(t: Sst)
    ensures MetaOffset(t) < BloomOffset(t)
  {
  }

  lemma LongIsLong(file: Bytes)
    requires LooksLong(file)
    ensures |file| >= LONG_FOOTER
  {
  }

  /** A file taken for the long format reports the offsets found two bytes early. */
  lemma OpenKeepsOffsets(file: Bytes)
    requires LooksLong(file) && Open(file).Parsed? && |file| >= LONG_FOOTER
    ensures Open(file).value.metaOffset == At(file, |file| - LONG_FOOTER, 4)
    ensures Open(file).value.bloomOffset == At(file, |file| - LONG_FOOTER + 4, 4)
  {
    hide At, Metas.Parse, BloomBytes.Parse;
  }

  /** The file's last byte is the top byte of the largest id. */
  lemma LastByte(t: Sst)
    requires FileFits(t)
    ensures File(t) != [] && File(t)[|File(t)| - 1] == t.maxId / 0x100_0000_0000_0000
  {
    hide LE, BlocksBytes, Metas.Encoded, BloomBytes.Encoded, Metas.Parse, BloomBytes.Parse;
    FileLayout(t);
    var file := File(t);
    var tail := LE(t.maxId, 8);
    assert file[|file| - 1] == Footer(t)[FOOTER - 1] == tail[7];
    ByteOfLE(t.maxId, 8, 7);
    Widths();
  }

  /** Ids whose top byte is not the magic are always safe. */
  lemma OrdinaryIdsRecover(t: Sst)
    requires FileFits(t) && t.metas != [] && t.maxId / 0x100_0000_0000_0000 != MAGIC
    ensures Open(File(t)) == Parsed(Expected(t), |File(t)|)
  {
    hide FileFits, File, Open;
    LastByte(t);
    OpenRecovers(t);
  }

  /** The table's file was written by the builder, within the format's widths, with an unmistakable tail. */
  ghost predicate Recoverable(t: Sst) {
    WellFormed(t) && FileFits(t) && OffsetsTrue(t.blocks, t.metas) && !LooksLong(File(t))
  }

  // ---------- reading a block ----------

  /** The bytes of block i: up to the next block, or up to the index. */
  function Slice(file: Bytes, metas: seq<Meta>, i: nat, metaOffset: nat): Parsed<Bytes>
    requires i < |metas|
  {
    var from := metas[i].offset;
    var to := if i == |metas| - 1 then metaOffset else metas[i + 1].offset;
    if from <= to <= |file| then Parsed(file[from..to], to) else Failed(PastEnd)
  }

  lemma {:induction false} BlockLies(blocks: seq<seq<Entry>>, i: nat)
    requires i < |blocks|
    ensures Lies(BlocksBytes(blocks), |BlocksBytes(blocks[..i])|, BlockBytes(blocks[i]))
    ensures |BlocksBytes(blocks[..i + 1])| == |BlocksBytes(blocks[..i])| + |BlockBytes(blocks[i])|
  {
    hide BlockBytes;
    var n := |blocks| - 1;
    var all := BlocksBytes(blocks);
    assert blocks[..n + 1] == blocks;
    LiesConcat(all, 0, BlocksBytes(blocks[..n]), BlockBytes(blocks[n]));
    if i < n {
      BlockLies(blocks[..n], i);
      assert blocks[..n][..i] == blocks[..i] && blocks[..n][..i + 1] == blocks[..i + 1] && blocks[..n][i] == blocks[i];
      var init := BlocksBytes(blocks[..n]);
      Blocks.LiesPrefix(init, BlockBytes(blocks[n]), |BlocksBytes(blocks[..i])|, BlockBytes(blocks[i]));
    }
  }

  /** Every block's slice decodes to the entries that were added. */
  lemma SliceReadsBack(t: Sst, i: nat)
    requires FileFits(t) && OffsetsTrue(t.blocks, t.metas) && i < |t.metas|
    ensures var slice := Slice(File(t), t.metas, i, MetaOffset(t));
            && slice.Parsed? && Blocks.Decode(slice.value) == Parsed(Blocks.BlockOf(t.blocks[i]), |slice.value|)
            && forall j :: 0 <= j < |t.blocks[i]| ==>
                 && Blocks.EntryAt(Blocks.BlockOf(t.blocks[i]), j).Parsed?
                 && Blocks.EntryAt(Blocks.BlockOf(t.blocks[i]), j).value == t.blocks[i][j]
  {
    hide BlocksBytes, Metas.Encoded, BloomBytes.Encoded, Footer, Blocks.BlockOf, Blocks.Encoded, Blocks.Decode,
         Blocks.EntryAt, Blocks.BlockFits;
    var file, data, s := File(t), BlocksBytes(t.blocks), t.blocks[i];
    BlockLies(t.blocks, i);
    var from := t.metas[i].offset;
    var to := from + |BlockBytes(s)|;
    assert i == |t.metas| - 1 ==> t.blocks[..i + 1] == t.blocks;
    assert file[from..to] == data[from..to];
    Blocks.BlockRoundTrip(s);
  }

  // ---------- from a stream of versions to bytes and back ----------

  ghost predicate Tracks(b: Builder) {
    OffsetsTrue(b.blocks, b.metas) && b.dataSize == |BlocksBytes(b.blocks)|
  }

  lemma FinishTracks(b: Builder)
    requires Tracks(b)
    ensures Tracks(Finish(b))
  {
    hide BlocksBytes, OffsetsTrue, CurSize;
    BlocksBytesSnoc(b.blocks, b.block);
    OffsetsSnoc(b.blocks, b.metas, b.block, Meta(b.dataSize, b.first, b.last));
  }

  lemma AddTracks(b: Builder, e: Entry)
    requires Blooms.Valid(b.bloom) && Tracks(b)
    ensures Tracks(Add(b, e))
  {
    hide BlocksBytes, OffsetsTrue, CurSize, Blooms.Added;
    FinishTracks(Noted(b, e));
  }

  lemma {:induction false} AddAllTracks(b: Builder, s: seq<Entry>)
    requires Blooms.Valid(b.bloom) && Tracks(b)
    ensures Tracks(AddAll(b, s))
  {
    hide Tracks, Add;
    if s != [] {
      AddAllTracks(b, s[..|s| - 1]);
      AddTracks(AddAll(b, s[..|s| - 1]), s[|s| - 1]);
    }
  }

  /**
   End to end: any ordered stream of versions is cut into blocks whose bytes, found through the
   recovered index, decode to exactly that stream.
   */
  lemma StreamReadsBack(capacity: nat, bloom: Blooms.Bloom, s: seq<Entry>, id: nat)
    requires Blooms.Valid(bloom) && s != [] && Ordered(s)
    ensures var t := Build(AddAll(NewBuilder(capacity, bloom), s), id);
            && t.Some? && t.value.metas != [] && |t.value.blocks| == |t.value.metas| && Flat(t.value.blocks) == s
            && (FileFits(t.value) ==>
                  && (Open(File(t.value)) == Parsed(Expected(t.value), |File(t.value)|) <==> !LooksLong(File(t.value)))
                  && forall i :: 0 <= i < |t.value.metas| ==>
                       var slice := Slice(File(t.value), t.value.metas, i, MetaOffset(t.value));
                       && slice.Parsed?
                       && Blocks.Decode(slice.value) == Parsed(Blocks.BlockOf(t.value.blocks[i]), |slice.value|))
  {
    hide AddAll, Ordered, Tracks, FileFits, File, Open, Slice, LooksLong, Blocks.BlockOf, Blocks.Decode, Entries,
         WellFormed;
    SortedStreamBuilds(capacity, bloom, s, id);
    var b := AddAll(NewBuilder(capacity, bloom), s);
    NewTracks(capacity, bloom);
    AddAllTracks(NewBuilder(capacity, bloom), s);
    var t := Build(b, id).value;
    BuiltTracks(b, id);
    TableFacts(t);
    if FileFits(t) {
      OpenRecovers(t);
      forall i | 0 <= i < |t.metas|
        ensures var slice := Slice(File(t), t.metas, i, MetaOffset(t));
                slice.Parsed? && Blocks.Decode(slice.value) == Parsed(Blocks.BlockOf(t.blocks[i]), |slice.value|)
      {
        SliceReadsBack(t, i);
      }
    }
  }

  lemma NewTracks(capacity: nat, bloom: Blooms.Bloom)
    ensures Tracks(NewBuilder(capacity, bloom))
  {
  }

  lemma BuiltTracks(b: Builder, id: nat)
    requires Tracks(b) && Build(b, id).Some?
    ensures OffsetsTrue(Build(b, id).value.blocks, Build(b, id).value.metas)
  {
    hide BlocksBytes, OffsetsTrue, CurSize;
    FinishTracks(b);
  }

  lemma TableFacts(t: Sst)
    requires WellFormed(t)
    ensures t.metas != [] && |t.blocks| == |t.metas| && Entries(t) == Flat(t.blocks)
  {
  }

  // ---------- files that are misread ----------

  /**
   Whatever the filter holds: a block section that ends on a multiple of 65536, and the magic as the
   top byte of the largest id, make the tail pass for the longer footer.
   */
  lemma TailMistaken(t: Sst)
    requires FileFits(t) && MetaOffset(t) > 0 && MetaOffset(t) % 0x1_0000 == 0
    requires t.maxId / 0x100_0000_0000_0000 == MAGIC
    ensures LooksLong(File(t))
  {
    hide LE, At, BlocksBytes, Metas.Encoded, BloomBytes.Encoded, Footer, File, FileFits, MetaOffset;
    var file := File(t);
    var base := |file| - FOOTER;
    FooterReadsBack(t);
    LastByte(t);
    BloomNotEmpty(t.bloom);
    SectionsApart(t);
    AtPairs(file, base - 2);
    AtPairs(file, base);
  }

  /** One version that fills a block of 65536 bytes, with the magic as the top byte of its id. */
  function Unlucky(): Entry {
    Entry([1], seq(65515, _ => 0), 0x4B00_0000_0000_0000)
  }

  function UnluckyTable(bloom: Blooms.Bloom): Sst
    requires Blooms.Valid(bloom)
  {
    Sst(1, [[Unlucky()]], [Meta(0, [1], [1])], [1], [1], Blooms.Added(bloom, [1]), Unlucky().id, Unlucky().id)
  }

  lemma UnluckyBuilds(capacity: nat, bloom: Blooms.Bloom)
    requires Blooms.Valid(bloom)
    ensures Build(AddAll(NewBuilder(capacity, bloom), [Unlucky()]), 1) == Some(UnluckyTable(bloom))
  {
    hide Blooms.Added;
    var b, e := NewBuilder(capacity, bloom), Unlucky();
    assert [e][..0] == [];
    assert AddAll(b, []) == b;
    assert AddAll(b, [e]) == Add(b, e);
    var r := Builder(capacity, [], [e], [], [1], [1], 0, Blooms.Added(bloom, [1]), e.id, e.id);
    assert Add(b, e) == r;
    assert Finish(r).blocks == [[e]] && Finish(r).metas == [Meta(0, [1], [1])];
  }

  lemma UnluckySizes(bloom: Blooms.Bloom)
    requires Blooms.Valid(bloom) && BloomBytes.Fits(bloom)
    ensures MetaOffset(UnluckyTable(bloom)) == 0x1_0000 && FileFits(UnluckyTable(bloom))
  {
    var e := Unlucky();
    var t := UnluckyTable(bloom);
    assert [e][..0] == [];
    assert DataBytes([e]) == DataBytes([]) + EntryBytes(e);
    assert t.blocks[..0] == [];
    assert BlocksBytes(t.blocks) == BlocksBytes([]) + BlockBytes([e]);
    assert |Metas.Body(t.metas)| == Metas.BodySize(t.metas);
    assert t.metas[1..] == [];
  }

  /** For any block capacity and any filter the format holds, a table the builder produces whose file is misread. */
  lemma FooterCanBeMistaken(capacity: nat, bloom: Blooms.Bloom)
    requires Blooms.Valid(bloom) && BloomBytes.Fits(bloom)
    ensures var t := UnluckyTable(bloom);
            && Build(AddAll(NewBuilder(capacity, bloom), [Unlucky()]), 1) == Some(t)
            && FileFits(t) && LooksLong(File(t)) && Open(File(t)) != Parsed(Expected(t), |File(t)|)
  {
    hide File, FileFits, Open, LooksLong, MetaOffset, AddAll, Build, Blooms.Added;
    UnluckyBuilds(capacity, bloom);
    UnluckySizes(bloom);
    TailMistaken(UnluckyTable(bloom));
    OpenRecovers(UnluckyTable(bloom));
  }
}
