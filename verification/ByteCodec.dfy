/** Fixed-width little-endian integers, as memcpy lays them out, and slices of byte strings. */
module ByteCodec {
  import opened Versions

  function Pow256(w: nat): (p: nat)
    ensures p > 0
  {
    if w == 0 then 1 else 256 * Pow256(w - 1)
  }

  /** The low w bytes of n, lowest first. */
  function LE(n: nat, w: nat): (s: Bytes)
    ensures |s| == w
  {
    if w == 0 then [] else [n % 256] + LE(n / 256, w - 1)
  }

  function FromLE(s: Bytes): nat {
    if s == [] then 0 else s[0] + 256 * FromLE(s[1..])
  }

  /** Reading back gives the value cut to its width: the value itself when it fits. */
  lemma {:induction false} FromLEOfLE(n: nat, w: nat)
    ensures FromLE(LE(n, w)) == n % Pow256(w)
    ensures n < Pow256(w) ==> FromLE(LE(n, w)) == n
  {
    if w > 0 {
      FromLEOfLE(n / 256, w - 1);
      assert LE(n, w)[1..] == LE(n / 256, w - 1);
      ModSplit(n, Pow256(w - 1));
    }
  }

  lemma ModSplit(n: nat, p: nat)
    ensures p > 0 ==> n % (256 * p) == n % 256 + 256 * ((n / 256) % p)
  {
    if p > 0 {
      var q := n / 256;
      var d, r := q / p, q % p;
      assert n == 256 * q + n % 256;
      assert q == d * p + r;
      assert n == d * (256 * p) + (n % 256 + 256 * r) by {
        assert d * (256 * p) == 256 * (d * p);
      }
      ModUnique(n, 256 * p, d, n % 256 + 256 * r);
    }
  }

  lemma ModUnique(n: nat, m: nat, d: nat, r: nat)
    requires m > 0 && n == d * m + r && r < m
    ensures n % m == r
  {
    var d' := n / m;
    assert n == d' * m + n % m;
    assert (d - d') * m == n % m - r;
    assert d - d' >= 1 ==> (d - d') * m >= m;
    assert d - d' <= -1 ==> (d - d') * m <= 0 - m;
  }

  lemma Widths()
    ensures Pow256(1) == 0x100 && Pow256(2) == 0x1_0000 && Pow256(4) == 0x1_0000_0000
    ensures Pow256(8) == 0x1_0000_0000_0000_0000
  {
    assert Pow256(3) == 256 * Pow256(2) && Pow256(5) == 256 * Pow256(4);
    assert Pow256(6) == 256 * Pow256(5) && Pow256(7) == 256 * Pow256(6);
  }

  /** The w-byte integer at an offset. */
  function At(s: Bytes, pos: nat, w: nat): nat
    requires pos + w <= |s|
  {
    FromLE(s[pos..pos + w])
  }

  /** A piece of a byte string lies at an offset. */
  predicate Lies(s: Bytes, pos: nat, piece: Bytes) {
    pos + |piece| <= |s| && s[pos..pos + |piece|] == piece
  }

  lemma LiesConcat(s: Bytes, pos: nat, a: Bytes, b: Bytes)
    ensures Lies(s, pos, a + b) <==> Lies(s, pos, a) && Lies(s, pos + |a|, b)
  {
    if pos + |a| + |b| <= |s| {
      var whole := s[pos..pos + |a| + |b|];
      assert whole == s[pos..pos + |a|] + s[pos + |a|..pos + |a| + |b|];
      assert whole[..|a|] == s[pos..pos + |a|] && whole[|a|..] == s[pos + |a|..pos + |a| + |b|];
      assert (a + b)[..|a|] == a && (a + b)[|a|..] == b;
    }
  }

  lemma AtOfLE(s: Bytes, pos: nat, n: nat, w: nat)
    requires Lies(s, pos, LE(n, w)) && n < Pow256(w)
    ensures At(s, pos, w) == n
  {
    FromLEOfLE(n, w);
  }

  lemma At2(s: Bytes, pos: nat, n: nat)
    requires Lies(s, pos, LE(n, 2)) && n < 0x1_0000
    ensures At(s, pos, 2) == n
  {
    hide LE, FromLE;
    Widths();
    AtOfLE(s, pos, n, 2);
  }

  lemma At4(s: Bytes, pos: nat, n: nat)
    requires Lies(s, pos, LE(n, 4)) && n < 0x1_0000_0000
    ensures At(s, pos, 4) == n
  {
    hide LE, FromLE;
    Widths();
    AtOfLE(s, pos, n, 4);
  }

  lemma At8(s: Bytes, pos: nat, n: nat)
    requires Lies(s, pos, LE(n, 8)) && n < 0x1_0000_0000_0000_0000
    ensures At(s, pos, 8) == n
  {
    hide LE, FromLE;
    Widths();
    AtOfLE(s, pos, n, 8);
  }

  /** A field never holds more than its width. */
  lemma {:induction false} FromLEBelow(s: Bytes)
    ensures FromLE(s) < Pow256(|s|)
  {
    if s != [] {
      FromLEBelow(s[1..]);
    }
  }

  lemma AtBelow(s: Bytes, pos: nat, w: nat)
    requires pos + w <= |s|
    ensures At(s, pos, w) < Pow256(w)
  {
    FromLEBelow(s[pos..pos + w]);
  }

  /** Four bytes are two pairs. */
  lemma AtPairs(s: Bytes, pos: nat)
    requires pos + 4 <= |s|
    ensures At(s, pos, 4) == At(s, pos, 2) + 0x1_0000 * At(s, pos + 2, 2)
    ensures At(s, pos, 2) < 0x1_0000
  {
    AtTwo(s, pos);
    AtTwo(s, pos + 2);
    var w := s[pos..pos + 4];
    assert w[1..][1..] == s[pos + 2..pos + 4];
    assert FromLE(w) == w[0] + 256 * FromLE(w[1..]);
    assert FromLE(w[1..]) == w[1] + 256 * FromLE(w[1..][1..]);
  }

  lemma AtTwo(s: Bytes, pos: nat)
    requires pos + 2 <= |s|
    ensures At(s, pos, 2) == s[pos] as int + 256 * s[pos + 1] as int
  {
    var w := s[pos..pos + 2];
    assert w[1..] == [s[pos + 1]];
    assert FromLE([s[pos + 1]]) == s[pos + 1] + 256 * FromLE([]);
  }

  lemma {:induction false} ByteOfLE(n: nat, w: nat, i: nat)
    requires i < w
    ensures LE(n, w)[i] == n / Pow256(i) % 256
  {
    if i > 0 {
      ByteOfLE(n / 256, w - 1, i - 1);
      DivTwice(n, Pow256(i - 1));
    }
  }

  lemma DivTwice(n: nat, p: nat)
    requires p > 0
    ensures n / (256 * p) == n / 256 / p
  {
    var q, r := n / 256 / p, n / 256 % p;
    assert n / 256 == q * p + r;
    assert n == 256 * (q * p + r) + n % 256;
    assert 256 * (q * p) == q * (256 * p);
    ModUnique(n, 256 * p, q, 256 * r + n % 256);
    assert (n / (256 * p) - q) * (256 * p) == 0;
  }

  /** A hash is stored as its low 32 bits. */
  lemma HashReadsBack(s: Bytes, pos: nat, h: nat)
    requires Lies(s, pos, LE(h, 4))
    ensures At(s, pos, 4) == h % 0x1_0000_0000
  {
    hide LE, FromLE;
    Widths();
    FromLEOfLE(h, 4);
  }

  /** memcpy into a buffer. */
  function Blit(buf: Bytes, pos: nat, piece: Bytes): (r: Bytes)
    requires pos + |piece| <= |buf|
    ensures |r| == |buf| && Lies(r, pos, piece)
    ensures r[..pos] == buf[..pos] && r[pos + |piece|..] == buf[pos + |piece|..]
  {
    buf[..pos] + piece + buf[pos + |piece|..]
  }

  /** Filling a buffer front to back. */
  lemma BlitNext(buf: Bytes, done: Bytes, piece: Bytes)
    requires |done| + |piece| <= |buf| && buf[..|done|] == done
    ensures Blit(buf, |done|, piece)[..|done + piece|] == done + piece
  {
  }

  /** A 16-bit length and the bytes behind it. */
  function Text(s: Bytes): (r: Bytes)
    ensures |r| == 2 + |s|
  {
    LE(|s|, 2) + s
  }

  /** A 16-bit length and the text, behind what is already there. */
  method BlitText(buf: Bytes, pos: nat, text: Bytes, ghost done: Bytes) returns (r: Bytes)
    requires pos == |done| && pos + 2 + |text| <= |buf| && buf[..pos] == done
    ensures |r| == |buf| && r[..pos + 2 + |text|] == done + Text(text)
  {
    hide LE, Blit;
    BlitNext(buf, done, LE(|text|, 2));
    r := Blit(buf, pos, LE(|text|, 2));
    BlitNext(r, done + LE(|text|, 2), text);
    r := Blit(r, pos + 2, text);
  }


  // ---------- reading ----------

  /** Reading outside the buffer is undefined in the original and reported here. */
  datatype Fault = TooSmall | BadSize | HashMismatch | PastEnd

  datatype Parsed<+T> = Parsed(value: T, next: nat) | Failed(fault: Fault)

  /** A 16-bit length and that many bytes. */
  function ParseText(data: Bytes, pos: nat): (p: Parsed<Bytes>)
    ensures p.Parsed? ==> pos + 2 <= p.next <= |data|
  {
    if pos + 2 > |data| then Failed(PastEnd)
    else
      var n := At(data, pos, 2);
      if pos + 2 + n > |data| then Failed(PastEnd) else Parsed(data[pos + 2..pos + 2 + n], pos + 2 + n)
  }

  lemma TextParses(data: Bytes, pos: nat, text: Bytes)
    requires Lies(data, pos, Text(text)) && |text| < 0x1_0000
    ensures ParseText(data, pos) == Parsed(text, pos + 2 + |text|)
  {
    hide LE, FromLE;
    LiesConcat(data, pos, LE(|text|, 2), text);
    At2(data, pos, |text|);
  }

  /** Items already read, in front of the rest. */
  function After<T>(xs: seq<T>, rest: Parsed<seq<T>>): Parsed<seq<T>> {
    if rest.Failed? then rest else Parsed(xs + rest.value, rest.next)
  }

  lemma AfterNone<T>(rest: Parsed<seq<T>>)
    ensures After([], rest) == rest
  {
    if rest.Parsed? {
      assert [] + rest.value == rest.value;
    }
  }

  lemma AfterTwice<T>(xs: seq<T>, x: T, rest: Parsed<seq<T>>)
    ensures After(xs, After([x], rest)) == After(xs + [x], rest)
  {
    if rest.Parsed? {
      assert xs + ([x] + rest.value) == (xs + [x]) + rest.value;
    }
  }
}
