/** The byte form of a data block: entries, their offsets, the count, and a hash. */
module BlockCodecs {
  import opened Versions
  import opened ByteCodec
  import Blooms
  import Ssts

  /** Lengths fit 16 bits and the id 64. */
  predicate EntryFits(e: Entry) {
    |e.key| < 0x1_0000 && |e.value| < 0x1_0000 && e.id < 0x1_0000_0000_0000_0000
  }

  /** Every entry fits, and so does the offset at which each starts. */
  predicate BlockFits(s: seq<Entry>) {
    && (forall i :: 0 <= i < |s| ==> EntryFits(s[i]))
    && (s != [] ==> Ssts.DataBytes(s[..|s| - 1]) < 0x1_0000)
  }

  // ---------- entries ----------

  /** A length cut to 16 bits and that many bytes of the text: all of it when it fits. */
  function Stored(s: Bytes): (r: Bytes)
    ensures |r| <= 2 + |s|
    ensures |s| < 0x1_0000 ==> r == Text(s)
  {
    assert |s| < 0x1_0000 ==> s[..|s| % 0x1_0000] == s;
    LE(|s|, 2) + s[..|s| % 0x1_0000]
  }

  function Zeros(n: nat): (r: Bytes)
    ensures |r| == n
  {
    seq(n, _ => 0)
  }

  /** Key, value and id, each behind the other; room reserved for bytes that were cut off stays zero. */
  function EncodedEntry(e: Entry): (r: Bytes)
    ensures |r| == Ssts.EntryBytes(e)
    ensures EntryFits(e) ==> r == Text(e.key) + (Text(e.value) + LE(e.id, 8))
  {
    var fields := Stored(e.key) + (Stored(e.value) + LE(e.id, 8));
    assert EntryFits(e) ==> fields + Zeros(Ssts.EntryBytes(e) - |fields|) == fields;
    fields + Zeros(Ssts.EntryBytes(e) - |fields|)
  }

  function Data(s: seq<Entry>): (r: Bytes)
    ensures |r| == Ssts.DataBytes(s)
  {
    if s == [] then [] else Data(s[..|s| - 1]) + EncodedEntry(s[|s| - 1])
  }

  /** Where each entry starts. */
  function Starts(s: seq<Entry>): (r: seq<nat>)
    ensures |r| == |s| && forall i :: 0 <= i < |s| ==> r[i] == Ssts.DataBytes(s[..i])
  {
    seq(|s|, i requires 0 <= i < |s| => Ssts.DataBytes(s[..i]))
  }

  /** The starts as the block keeps them, cut to 16 bits. */
  function Offsets(s: seq<Entry>): (r: seq<nat>)
    ensures |r| == |s| && forall i :: 0 <= i < |s| ==> r[i] == Ssts.DataBytes(s[..i]) % 0x1_0000
  {
    seq(|s|, i requires 0 <= i < |s| => Ssts.DataBytes(s[..i]) % 0x1_0000)
  }

  /** A block as it is held in memory. */
  datatype Block = Block(data: Bytes, offsets: seq<nat>)

  function BlockOf(s: seq<Entry>): Block {
    Block(Data(s), Offsets(s))
  }

  function KeyAt(b: Block, offset: nat): Parsed<Key> {
    ParseText(b.data, offset)
  }

  function ValueAt(b: Block, offset: nat): Parsed<Value> {
    var k := ParseText(b.data, offset);
    if k.Failed? then k else ParseText(b.data, k.next)
  }

  function TrancIdAt(b: Block, offset: nat): Parsed<Id> {
    var v := ValueAt(b, offset);
    if v.Failed? then Failed(v.fault)
    else if v.next + 8 > |b.data| then Failed(PastEnd)
    else Parsed(At(b.data, v.next, 8), v.next + 8)
  }

  /** The entry at an index, read through the offset array. */
  function EntryAt(b: Block, i: nat): Parsed<Entry>
    requires i < |b.offsets|
  {
    var k, v, t := KeyAt(b, b.offsets[i]), ValueAt(b, b.offsets[i]), TrancIdAt(b, b.offsets[i]);
    if k.Failed? then Failed(k.fault)
    else if v.Failed? then Failed(v.fault)
    else if t.Failed? then Failed(t.fault)
    else Parsed(Entry(k.value, v.value, t.value), t.next)
  }

  lemma {:induction false} DataLies(s: seq<Entry>, i: nat)
    requires i < |s|
    ensures Lies(Data(s), Ssts.DataBytes(s[..i]), EncodedEntry(s[i]))
  {
    hide EncodedEntry;
    var n := |s| - 1;
    LiesConcat(Data(s), 0, Data(s[..n]), EncodedEntry(s[n]));
    if i < n {
      DataLies(s[..n], i);
      assert s[..n][..i] == s[..i] && s[..n][i] == s[i];
      LiesPrefix(Data(s[..n]), EncodedEntry(s[n]), Ssts.DataBytes(s[..i]), EncodedEntry(s[i]));
    }
  }

  lemma LiesPrefix(a: Bytes, b: Bytes, pos: nat, piece: Bytes)
    requires Lies(a, pos, piece)
    ensures Lies(a + b, pos, piece)
  {
    assert (a + b)[pos..pos + |piece|] == a[pos..pos + |piece|];
  }

  /** The getters read back the entry that was added. */
  lemma EntryReadsBack(s: seq<Entry>, i: nat)
    requires i < |s| && EntryFits(s[i]) && Ssts.DataBytes(s[..i]) < 0x1_0000
    ensures EntryAt(BlockOf(s), i).Parsed? && EntryAt(BlockOf(s), i).value == s[i]
  {
    hide Data, ParseText, Text, LE, At;
    var e, pos, data := s[i], Ssts.DataBytes(s[..i]), Data(s);
    DataLies(s, i);
    LiesConcat(data, pos, Text(e.key), Text(e.value) + LE(e.id, 8));
    LiesConcat(data, pos + |Text(e.key)|, Text(e.value), LE(e.id, 8));
    TextParses(data, pos, e.key);
    TextParses(data, pos + |Text(e.key)|, e.value);
    At8(data, pos + |Text(e.key)| + |Text(e.value)|, e.id);
  }

  /** Grow the data by one entry and fill its fields. */
  method AddEntry(b: Block, e: Entry, ghost s: seq<Entry>) returns (r: Block)
    requires b == BlockOf(s)
    ensures r == BlockOf(s + [e])
  {
    hide LE, Blit, Data, Ssts.DataBytes;
    var oldSize := |b.data|;
    var data := b.data + Zeros(Ssts.EntryBytes(e));
    var keyLen, valueLen := |e.key| % 0x1_0000, |e.value| % 0x1_0000;
    data := Filled(data, oldSize, LE(|e.key|, 2), b.data);
    data := Filled(data, oldSize + 2, e.key[..keyLen], b.data + LE(|e.key|, 2));
    data := Filled(data, oldSize + 2 + keyLen, LE(|e.value|, 2), b.data + Stored(e.key));
    data := Filled(data, oldSize + 2 + keyLen + 2, e.value[..valueLen], b.data + Stored(e.key) + LE(|e.value|, 2));
    data := Filled(data, oldSize + 2 + keyLen + 2 + valueLen, LE(e.id, 8), b.data + Stored(e.key) + Stored(e.value));
    assert data == b.data + EncodedEntry(e) by {
      var fields := Stored(e.key) + (Stored(e.value) + LE(e.id, 8));
      assert data == data[..|b.data + fields|] + data[|b.data + fields|..];
      assert data[..|b.data + fields|] == b.data + fields;
    }
    DataSnoc(s, e);
    r := Block(data, b.offsets + [oldSize % 0x1_0000]);
  }

  /** One memcpy into zeroed room behind what is already there. */
  method Filled(buf: Bytes, pos: nat, piece: Bytes, ghost done: Bytes) returns (r: Bytes)
    requires pos == |done| && pos + |piece| <= |buf| && buf == done + Zeros(|buf| - pos)
    ensures |r| == |buf| && r == done + piece + Zeros(|buf| - pos - |piece|)
  {
    BlitNext(buf, done, piece);
    r := Blit(buf, pos, piece);
    assert buf[pos + |piece|..] == Zeros(|buf| - pos - |piece|);
    assert r == r[..|done + piece|] + r[pos + |piece|..];
  }

  lemma DataSnoc(s: seq<Entry>, e: Entry)
    ensures Data(s + [e]) == Data(s) + EncodedEntry(e)
    ensures Offsets(s + [e]) == Offsets(s) + [|Data(s)| % 0x1_0000]
  {
    assert (s + [e])[..|s|] == s;
    assert forall i :: 0 <= i < |s| ==> (s + [e])[..i] == s[..i];
  }

  // ---------- the block ----------

  function Words(ns: seq<nat>): (r: Bytes)
    ensures |r| == 2 * |ns|
  {
    if ns == [] then [] else Words(ns[..|ns| - 1]) + LE(ns[|ns| - 1], 2)
  }

  function ReadWords(s: Bytes, pos: nat, n: nat): (r: seq<nat>)
    requires pos + 2 * n <= |s|
    ensures |r| == n && forall i :: 0 <= i < n ==> r[i] == At(s, pos + 2 * i, 2)
  {
    seq(n, i requires 0 <= i < n => At(s, pos + 2 * i, 2))
  }

  lemma {:induction false} WordsReadBack(s: Bytes, pos: nat, ns: seq<nat>)
    requires Lies(s, pos, Words(ns)) && forall i :: 0 <= i < |ns| ==> ns[i] < 0x1_0000
    ensures ReadWords(s, pos, |ns|) == ns
  {
    hide LE, At;
    if ns != [] {
      var n := |ns| - 1;
      LiesConcat(s, pos, Words(ns[..n]), LE(ns[n], 2));
      WordsReadBack(s, pos, ns[..n]);
      At2(s, pos + 2 * n, ns[n]);
      assert forall i :: 0 <= i < n ==> ReadWords(s, pos, |ns|)[i] == ReadWords(s, pos, n)[i] == ns[i];
    }
  }

  function Body(b: Block): (r: Bytes)
    ensures |r| == |b.data| + 2 * |b.offsets| + 2
  {
    b.data + (Words(b.offsets) + LE(|b.offsets|, 2))
  }

  /** Data, offsets, count, then the low 32 bits of the hash of all that. */
  function Encoded(b: Block): (r: Bytes)
    ensures |r| == |b.data| + 2 * |b.offsets| + 6
  {
    Body(b) + LE(Blooms.HASH(Body(b)), 4)
  }

  /** Check the hash and split the sections again. */
  function Decode(s: Bytes): Parsed<Block> {
    if |s| <= 6 then Failed(TooSmall)
    else if At(s, |s| - 4, 4) != Blooms.HASH(s[..|s| - 4]) % 0x1_0000_0000 then Failed(HashMismatch)
    else
      var n, numPos := At(s, |s| - 6, 2), |s| - 6;
      if |s| < 2 + 2 * n then Failed(BadSize)
      else if numPos < 2 * n then Failed(PastEnd)
      else Parsed(Block(s[..numPos - 2 * n], ReadWords(s, numPos - 2 * n, n)), |s|)
  }

  /** A block's sections survive the round trip. */
  lemma BlockReadsBack(b: Block)
    requires |b.offsets| > 0 && |b.offsets| < 0x1_0000 && forall i :: 0 <= i < |b.offsets| ==> b.offsets[i] < 0x1_0000
    ensures Decode(Encoded(b)) == Parsed(b, |Encoded(b)|)
  {
    hide LE, At, Words, ReadWords;
    var s, body, h := Encoded(b), Body(b), Blooms.HASH(Body(b));
    assert s[..|s| - 4] == body;
    assert Lies(s, 0, s);
    LiesConcat(s, 0, body, LE(h, 4));
    HashReadsBack(s, |s| - 4, h);
    LiesConcat(s, 0, b.data, Words(b.offsets) + LE(|b.offsets|, 2));
    LiesConcat(s, |b.data|, Words(b.offsets), LE(|b.offsets|, 2));
    At2(s, |s| - 6, |b.offsets|);
    WordsReadBack(s, |b.data|, b.offsets);
    assert s[..|b.data|] == b.data;
  }

  lemma {:induction false} SmallCount(s: seq<Entry>)
    ensures 12 * |s| <= Ssts.DataBytes(s)
  {
    if s != [] {
      SmallCount(s[..|s| - 1]);
    }
  }

  lemma {:induction false} PrefixBytes(s: seq<Entry>, i: nat)
    requires i <= |s|
    ensures Ssts.DataBytes(s[..i]) <= Ssts.DataBytes(s)
  {
    var n := |s| - 1;
    if i == |s| {
      assert s[..i] == s;
    } else {
      PrefixBytes(s[..n], i);
      assert s[..n][..i] == s[..i];
    }
  }

  lemma FittingStarts(s: seq<Entry>, i: nat)
    requires BlockFits(s) && i < |s|
    ensures Ssts.DataBytes(s[..i]) < 0x1_0000
  {
    var init := s[..|s| - 1];
    PrefixBytes(init, i);
    assert init[..i] == s[..i];
  }

  /** Every non-empty block that fits is read back entry by entry from its bytes. */
  lemma BlockRoundTrip(s: seq<Entry>)
    requires s != [] && BlockFits(s)
    ensures Decode(Encoded(BlockOf(s))) == Parsed(BlockOf(s), Ssts.CurSize(s) + 4) && Offsets(s) == Starts(s)
    ensures forall i :: 0 <= i < |s| ==> EntryAt(BlockOf(s), i).Parsed? && EntryAt(BlockOf(s), i).value == s[i]
  {
    hide Data, Decode, Encoded, EntryAt;
    var b := BlockOf(s);
    SmallCount(s[..|s| - 1]);
    forall i | 0 <= i < |s|
      ensures b.offsets[i] < 0x1_0000 && b.offsets[i] == Starts(s)[i]
      ensures EntryAt(b, i).Parsed? && EntryAt(b, i).value == s[i]
    {
      FittingStarts(s, i);
      EntryReadsBack(s, i);
    }
    BlockReadsBack(b);
  }

  // ---------- exactly when a block can be read back ----------

  /** Decoded from its bytes, the block leads to the start of each entry and reads the entry there. */
  predicate ReadsBack(s: seq<Entry>) {
    var d := Decode(Encoded(BlockOf(s)));
    && d.Parsed? && d.value.offsets == Starts(s)
    && forall i :: 0 <= i < |s| ==> EntryAt(d.value, i).Parsed? && EntryAt(d.value, i).value == s[i]
  }

  /** Whatever is read fits. */
  lemma ReadFits(b: Block, i: nat)
    requires i < |b.offsets| && EntryAt(b, i).Parsed?
    ensures EntryFits(EntryAt(b, i).value)
  {
    hide At;
    Widths();
    var o := b.offsets[i];
    AtBelow(b.data, o, 2);
    var k := ParseText(b.data, o);
    AtBelow(b.data, k.next, 2);
    var v := ParseText(b.data, k.next);
    AtBelow(b.data, v.next, 8);
  }

  lemma DecodedOffsets(s: Bytes)
    ensures Decode(s).Parsed? ==>
              forall i :: 0 <= i < |Decode(s).value.offsets| ==> Decode(s).value.offsets[i] < 0x1_0000
  {
    hide At;
    Widths();
    if Decode(s).Parsed? {
      var n, offsets := At(s, |s| - 6, 2), Decode(s).value.offsets;
      forall i | 0 <= i < |offsets|
        ensures offsets[i] < 0x1_0000
      {
        AtBelow(s, |s| - 6 - 2 * n + 2 * i, 2);
      }
    }
  }

  /**
   A block survives its bytes if and only if every length and every entry's start fit 16 bits. (A single
   entry behind a cut offset may still come out right by accident: a value may contain its bytes.)
   */
  lemma ReadsBackIff(s: seq<Entry>)
    requires s != []
    ensures ReadsBack(s) <==> BlockFits(s)
  {
    hide Decode, Encoded, EntryAt, EntryFits, BlockOf;
    if BlockFits(s) {
      BlockRoundTrip(s);
      OffsetsOf(s);
    }
    if ReadsBack(s) {
      var b := Decode(Encoded(BlockOf(s))).value;
      DecodedOffsets(Encoded(BlockOf(s)));
      assert b.offsets[|s| - 1] == Starts(s)[|s| - 1];
      forall i | 0 <= i < |s|
        ensures EntryFits(s[i])
      {
        ReadFits(b, i);
      }
    }
  }

  lemma OffsetsOf(s: seq<Entry>)
    ensures BlockOf(s).offsets == Offsets(s)
  {
  }

  // ---------- inputs that are misread ----------

  /** n versions of one key, newest first, each of 14 bytes. */
  function Rewritten(n: nat, v: Byte): (s: seq<Entry>)
    ensures |s| == n && forall i :: 0 <= i < n ==> s[i] == Entry([1], [v], n - i)
  {
    seq(n, i requires 0 <= i < n => Entry([1], [v], n - i))
  }

  lemma {:induction false} FourteenEach(s: seq<Entry>)
    requires forall i :: 0 <= i < |s| ==> |s[i].key| == 1 && |s[i].value| == 1
    ensures Ssts.DataBytes(s) == 14 * |s|
  {
    if s != [] {
      FourteenEach(s[..|s| - 1]);
    }
  }

  /**
   A key written 4683 times with one-byte values is too much for one block, and the builder never
   splits a key: the offset of the oldest version is cut to 12, where another entry's id is read as an
   empty key.
   */
  lemma RewrittenMisread(v: Byte)
    ensures var s := Rewritten(4683, v);
            && Sorted(s) && !BlockFits(s) && BlockOf(s).offsets[4682] == 12
            && (EntryAt(BlockOf(s), 4682).Parsed? ==> EntryAt(BlockOf(s), 4682).value.key == [])
            && s[4682] == Entry([1], [v], 1)
  {
    hide EntryAt;
    var s := Rewritten(4683, v);
    FourteenEach(s[..4682]);
    ZeroBytes(s);
    EmptyKeyRead(BlockOf(s), 4682);
  }

  /** The top two bytes of the first id. */
  lemma ZeroBytes(s: seq<Entry>)
    requires s != [] && EntryFits(s[0]) && |s[0].key| == 1 && |s[0].value| == 1 && s[0].id < 0x1_0000_0000_0000
    ensures |Data(s)| >= 14 && Data(s)[12] == 0 && Data(s)[13] == 0
  {
    hide LE, Data;
    DataLies(s, 0);
    assert s[..0] == [];
    var e, id := EncodedEntry(s[0]), LE(s[0].id, 8);
    assert Data(s)[0..14] == e;
    assert e[12] == id[6] && e[13] == id[7];
    ByteOfLE(s[0].id, 8, 6);
    ByteOfLE(s[0].id, 8, 7);
    Widths();
    SixBytes();
  }

  lemma SixBytes()
    ensures Pow256(6) == 0x1_0000_0000_0000 && Pow256(7) == 0x100_0000_0000_0000
  {
    Widths();
    assert Pow256(6) == 256 * Pow256(5) && Pow256(5) == 256 * Pow256(4) && Pow256(7) == 256 * Pow256(6);
  }

  lemma EmptyKeyRead(b: Block, i: nat)
    requires i < |b.offsets| && b.offsets[i] + 2 <= |b.data|
    requires b.data[b.offsets[i]] == 0 && b.data[b.offsets[i] + 1] == 0
    ensures EntryAt(b, i).Parsed? ==> EntryAt(b, i).value.key == []
  {
    AtTwo(b.data, b.offsets[i]);
  }
}
