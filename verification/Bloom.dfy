/** The bloom filter of an SST. The string hash is an uninterpreted function. */
module Blooms {
  import opened Versions

  const TWO_64: nat := 0x1_0000_0000_0000_0000
  const SALT: Bytes := [115, 97, 108, 116]

  /** std::hash over the key bytes: any function will do. */
  const HASH: Bytes -> nat

  /** expected and rate are carried through the codec and never read; rate is its eight raw bytes. */
  datatype Bloom = Bloom(expected: nat, rate: Bytes, numHashes: nat, bits: seq<bool>)

  ghost predicate Valid(f: Bloom) {
    |f.bits| > 0
  }

  /** Double hashing in wrapping 64-bit arithmetic, reduced to a bit position. */
  function BitIndex(numBits: nat, key: Key, i: nat): (b: nat)
    requires numBits > 0
    ensures b < numBits
  {
    (HASH(key) + i * HASH(key + SALT)) % TWO_64 % numBits
  }

  /** Every probe of the key finds its bit set. */
  predicate MayContain(f: Bloom, key: Key)
    requires Valid(f)
  {
    forall i :: 0 <= i < f.numHashes ==> f.bits[BitIndex(|f.bits|, key, i)]
  }

  /** The filter with the first n probe bits of the key set. */
  function Marked(f: Bloom, key: Key, n: nat): (g: Bloom)
    requires Valid(f)
    ensures Valid(g) && |g.bits| == |f.bits| && g.numHashes == f.numHashes
    ensures forall j :: 0 <= j < |f.bits| ==>
              (g.bits[j] <==> f.bits[j] || exists i :: 0 <= i < n && BitIndex(|f.bits|, key, i) == j)
  {
    f.(bits := seq(|f.bits|, j requires 0 <= j < |f.bits| =>
                     f.bits[j] || exists i :: 0 <= i < n && BitIndex(|f.bits|, key, i) == j))
  }

  function Added(f: Bloom, key: Key): (g: Bloom)
    requires Valid(f)
    ensures Valid(g) && |g.bits| == |f.bits| && g.numHashes == f.numHashes
  {
    Marked(f, key, f.numHashes)
  }

  /** No false negatives: an added key tests positive, and later additions never take that away. */
  lemma AddedMayContain(f: Bloom, key: Key, other: Key)
    requires Valid(f)
    ensures MayContain(Added(f, key), key)
    ensures MayContain(f, other) ==> MayContain(Added(f, key), other)
  {
    hide BitIndex;
    var g := Added(f, key);
    forall i | 0 <= i < f.numHashes
      ensures g.bits[BitIndex(|g.bits|, key, i)]
    {
      assert BitIndex(|f.bits|, key, i) == BitIndex(|g.bits|, key, i);
    }
  }

  method Add(f: Bloom, key: Key) returns (g: Bloom)
    requires Valid(f)
    ensures g == Added(f, key)
  {
    hide BitIndex;
    g := f;
    for i := 0 to f.numHashes
      invariant g.bits == Marked(f, key, i).bits && g == f.(bits := g.bits)
    {
      g := g.(bits := g.bits[BitIndex(|g.bits|, key, i) := true]);
    }
  }

  method PossiblyContains(f: Bloom, key: Key) returns (r: bool)
    requires Valid(f)
    ensures r == MayContain(f, key)
  {
    for i := 0 to f.numHashes
      invariant forall j :: 0 <= j < i ==> f.bits[BitIndex(|f.bits|, key, j)]
    {
      if !f.bits[BitIndex(|f.bits|, key, i)] {
        return false;
      }
    }
    return true;
  }
}
