/** The byte form of a bloom filter: four 8-byte fields and the bits, eight to a byte. */
module BloomCodecs {
  import opened Versions
  import opened ByteCodec
  import opened Blooms

  predicate Fits(f: Bloom) {
    && f.expected < 0x1_0000_0000_0000_0000 && |f.rate| == 8
    && |f.bits| < 0x1_0000_0000_0000_0000 && f.numHashes < 0x1_0000_0000_0000_0000
  }

  function Pow2(j: nat): (p: nat)
    ensures p > 0
  {
    if j == 0 then 1 else 2 * Pow2(j - 1)
  }

  /** The bits from an index on, lowest first, packed into a number; bits past the end count as zero. */
  function Packed(bits: seq<bool>, from: nat, n: nat): (p: nat)
    ensures p < Pow2(n)
    decreases n
  {
    if n == 0 then 0
    else (if from < |bits| && bits[from] then 1 else 0) + 2 * Packed(bits, from + 1, n - 1)
  }

  predicate BitOf(byte: nat, j: nat) {
    byte / Pow2(j) % 2 == 1
  }

  lemma {:induction false} PackedBit(bits: seq<bool>, from: nat, n: nat, j: nat)
    requires j < n
    ensures BitOf(Packed(bits, from, n), j) <==> from + j < |bits| && bits[from + j]
    decreases n
  {
    hide Packed, Pow2;
    var p, rest := Packed(bits, from, n), Packed(bits, from + 1, n - 1);
    PackedCons(bits, from, n);
    if j == 0 {
      PackedNone(bits, from);
    } else {
      PackedBit(bits, from + 1, n - 1, j - 1);
      Pow2Step(j - 1);
      HalfDivides(p, Pow2(j - 1));
      assert p / 2 == rest;
    }
  }

  lemma PackedCons(bits: seq<bool>, from: nat, n: nat)
    requires n > 0
    ensures Packed(bits, from, n) == (if from < |bits| && bits[from] then 1 else 0) + 2 * Packed(bits, from + 1, n - 1)
  {
  }

  lemma HalfDivides(p: nat, d: nat)
    requires d > 0
    ensures p / (2 * d) == p / 2 / d
  {
    var q, r := p / 2 / d, p / 2 % d;
    assert p / 2 == q * d + r;
    assert p == 2 * (q * d + r) + p % 2;
    assert 2 * (q * d) == q * (2 * d);
    assert 2 * r + p % 2 < 2 * d;
    QuotientIs(p, 2 * d, q, 2 * r + p % 2);
  }

  lemma QuotientIs(n: nat, m: nat, q: nat, r: nat)
    requires m > 0 && n == q * m + r && r < m
    ensures n / m == q
  {
    ModUnique(n, m, q, r);
    assert (n / m - q) * m == 0;
  }

  lemma Pow2Byte()
    ensures Pow2(8) == 256
  {
    assert Pow2(4) == 16;
    assert Pow2(7) == 128;
  }

  function PackedByte(bits: seq<bool>, i: nat): Byte {
    Pow2Byte();
    Packed(bits, 8 * i, 8)
  }

  function NumBytes(numBits: nat): nat {
    (numBits + 7) / 8
  }

  function BitBytes(bits: seq<bool>): (r: Bytes)
    ensures |r| == NumBytes(|bits|) && forall i :: 0 <= i < |r| ==> r[i] == PackedByte(bits, i)
  {
    seq(NumBytes(|bits|), i requires 0 <= i < NumBytes(|bits|) => PackedByte(bits, i))
  }

  function Encoded(f: Bloom): Bytes {
    LE(f.expected, 8) + (f.rate + (LE(|f.bits|, 8) + (LE(f.numHashes, 8) + BitBytes(f.bits))))
  }

  /** Append the fields, then pack the bits byte by byte. */
  method Encode(f: Bloom) returns (data: Bytes)
    ensures data == Encoded(f)
  {
    hide LE, Packed, PackedByte;
    data := LE(f.expected, 8) + f.rate + LE(|f.bits|, 8) + LE(f.numHashes, 8);
    ghost var head := data;
    for i := 0 to NumBytes(|f.bits|)
      invariant data == head + BitBytes(f.bits)[..i]
    {
      var byte := PackByte(f.bits, i);
      data := data + [byte];
      assert BitBytes(f.bits)[..i + 1] == BitBytes(f.bits)[..i] + [byte];
    }
    assert BitBytes(f.bits)[..NumBytes(|f.bits|)] == BitBytes(f.bits);
  }

  /** Or together the eight bits of one byte. */
  method PackByte(bits: seq<bool>, i: nat) returns (byte: Byte)
    ensures byte == PackedByte(bits, i)
  {
    hide Packed, Pow2;
    Pow2Byte();
    var b := 0;
    var j := 0;
    PackedNone(bits, 8 * i);
    while j < 8
      invariant 0 <= j <= 8 && b == Packed(bits, 8 * i, j) < Pow2(j)
    {
      PackedSnoc(bits, 8 * i, j);
      Pow2Step(j);
      if i * 8 + j < |bits| && bits[i * 8 + j] {
        b := b + Pow2(j);
      }
      j := j + 1;
    }
    byte := b;
  }

  lemma PackedNone(bits: seq<bool>, from: nat)
    ensures Packed(bits, from, 0) == 0 && Pow2(0) == 1
  {
  }

  lemma Pow2Step(j: nat)
    ensures Pow2(j + 1) == 2 * Pow2(j)
  {
  }

  lemma {:induction false} PackedSnoc(bits: seq<bool>, from: nat, n: nat)
    ensures Packed(bits, from, n + 1) ==
            Packed(bits, from, n) + if from + n < |bits| && bits[from + n] then Pow2(n) else 0
    decreases n
  {
    if n > 0 {
      PackedSnoc(bits, from + 1, n - 1);
    }
  }

  // ---------- decoding ----------

  function Parse(s: Bytes): Parsed<Bloom> {
    if |s| < 32 then Failed(PastEnd)
    else
      var numBits := At(s, 16, 8);
      if 32 + NumBytes(numBits) > |s| then Failed(PastEnd)
      else
        var bits := Unpacked(s[32..32 + NumBytes(numBits)], numBits);
        Parsed(Bloom(At(s, 0, 8), s[8..16], At(s, 24, 8), bits), 32 + NumBytes(numBits))
  }

  function Unpacked(bytes: Bytes, numBits: nat): (bits: seq<bool>)
    requires |bytes| == NumBytes(numBits)
    ensures |bits| == numBits && forall k :: 0 <= k < numBits ==> bits[k] == BitOf(bytes[k / 8], k % 8)
  {
    seq(numBits, k requires 0 <= k < numBits => BitOf(bytes[k / 8], k % 8))
  }

  /** Read the fields, then unpack the bits byte by byte. */
  method Decode(s: Bytes) returns (r: Parsed<Bloom>)
    ensures r == Parse(s)
    ensures forall f :: Fits(f) && s == Encoded(f) ==> r == Parsed(f, |s|)
  {
    hide At, BitOf, Encoded;
    forall f | Fits(f) && s == Encoded(f)
      ensures Parse(s) == Parsed(f, |s|)
    {
      BloomRoundTrip(f);
    }
    if |s| < 32 {
      return Failed(PastEnd);
    }
    var numBits := At(s, 16, 8);
    var numBytes := NumBytes(numBits);
    if 32 + numBytes > |s| {
      return Failed(PastEnd);
    }
    var bits := seq(numBits, _ => false);
    ghost var bytes := s[32..32 + numBytes];
    for i := 0 to numBytes
      invariant |bits| == numBits
      invariant forall k :: 0 <= k < numBits && k < 8 * i ==> bits[k] == BitOf(bytes[k / 8], k % 8)
    {
      bits := UnpackByte(bits, s[32 + i], i);
      assert s[32 + i] == bytes[i];
    }
    assert bits == Unpacked(bytes, numBits);
    r := Parsed(Bloom(At(s, 0, 8), s[8..16], At(s, 24, 8), bits), 32 + numBytes);
  }

  method UnpackByte(bits: seq<bool>, byte: Byte, i: nat) returns (r: seq<bool>)
    ensures |r| == |bits|
    ensures forall k :: 0 <= k < |bits| ==> r[k] == if k / 8 == i then BitOf(byte, k % 8) else bits[k]
  {
    hide BitOf;
    r := bits;
    for j := 0 to 8
      invariant |r| == |bits|
      invariant forall k :: 0 <= k < |bits| ==>
                r[k] == if 8 * i <= k < 8 * i + j then BitOf(byte, k - 8 * i) else bits[k]
    {
      if i * 8 + j < |bits| {
        r := r[i * 8 + j := BitOf(byte, j)];
      }
    }
  }

  lemma BitsReadBack(bits: seq<bool>)
    ensures Unpacked(BitBytes(bits), |bits|) == bits
  {
    hide Packed, BitOf;
    forall k | 0 <= k < |bits|
      ensures Unpacked(BitBytes(bits), |bits|)[k] == bits[k]
    {
      PackedBit(bits, 8 * (k / 8), 8, k % 8);
    }
  }

  /** The filter survives the round trip, bit for bit. */
  lemma BloomRoundTrip(f: Bloom)
    requires Fits(f)
    ensures Parse(Encoded(f)) == Parsed(f, |Encoded(f)|)
  {
    hide LE, At, BitBytes, Unpacked;
    var s := Encoded(f);
    var bits := BitBytes(f.bits);
    assert Lies(s, 0, s);
    LiesConcat(s, 0, LE(f.expected, 8), f.rate + (LE(|f.bits|, 8) + (LE(f.numHashes, 8) + bits)));
    LiesConcat(s, 8, f.rate, LE(|f.bits|, 8) + (LE(f.numHashes, 8) + bits));
    LiesConcat(s, 16, LE(|f.bits|, 8), LE(f.numHashes, 8) + bits);
    LiesConcat(s, 24, LE(f.numHashes, 8), bits);
    At8(s, 0, f.expected);
    At8(s, 16, |f.bits|);
    At8(s, 24, f.numHashes);
    BitsReadBack(f.bits);
  }
}
