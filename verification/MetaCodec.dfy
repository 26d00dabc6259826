/** The byte form of a table's block index. */
module MetaCodecs {
  import opened Versions
  import opened ByteCodec
  import opened Ssts
  import Blooms

  /** File offsets fit 32 bits, key lengths 16. */
  predicate MetaFits(m: Meta) {
    m.offset < 0x1_0000_0000 && |m.first| < 0x1_0000 && |m.last| < 0x1_0000
  }

  predicate MetasFit(ms: seq<Meta>) {
    |ms| < 0x1_0000_0000 && forall i :: 0 <= i < |ms| ==> MetaFits(ms[i])
  }

  function EncodedMeta(m: Meta): (r: Bytes)
    ensures |r| == 4 + 2 + |m.first| + 2 + |m.last|
  {
    LE(m.offset, 4) + (Text(m.first) + Text(m.last))
  }

  function Body(ms: seq<Meta>): Bytes {
    if ms == [] then [] else EncodedMeta(ms[0]) + Body(ms[1..])
  }

  /** The count, the metas, and the low 32 bits of the hash of the metas. */
  function Encoded(ms: seq<Meta>): (r: Bytes)
    ensures |r| == |Body(ms)| + 8
  {
    LE(|ms|, 4) + (Body(ms) + LE(Blooms.HASH(Body(ms)), 4))
  }

  function BodySize(ms: seq<Meta>): (n: nat)
    ensures n == |Body(ms)|
  {
    if ms == [] then 0 else 8 + |ms[0].first| + |ms[0].last| + BodySize(ms[1..])
  }

  lemma {:induction false} BodySnoc(ms: seq<Meta>, m: Meta)
    ensures Body(ms + [m]) == Body(ms) + EncodedMeta(m)
  {
    hide EncodedMeta;
    if ms == [] {
      assert ms + [m] == [m] && Body([m]) == EncodedMeta(m) + Body([]);
    } else {
      assert (ms + [m])[1..] == ms[1..] + [m];
      BodySnoc(ms[1..], m);
    }
  }

  /** Size the buffer, then write count, metas and hash behind a moving position. */
  method Encode(ms: seq<Meta>) returns (buf: Bytes)
    ensures buf == Encoded(ms)
  {
    hide LE, Blit, Text, Body, EncodedMeta, BodySize;
    buf := seq(4 + BodySize(ms) + 4, _ => 0);
    ghost var head := LE(|ms|, 4);
    BlitNext(buf, [], LE(|ms|, 4));
    buf := Blit(buf, 0, LE(|ms|, 4));
    var pos := 4;
    BodyNone();
    for i := 0 to |ms|
      invariant |buf| == |Body(ms)| + 8 && pos == 4 + |Body(ms[..i])| <= |buf| - 4
      invariant buf[..pos] == head + Body(ms[..i])
    {
      assert ms[..i + 1] == ms[..i] + [ms[i]];
      BodySnoc(ms[..i], ms[i]);
      BodyPrefix(ms, i + 1);
      buf, pos := EncodeOne(buf, pos, ms[i], head + Body(ms[..i]));
    }
    assert ms[..|ms|] == ms;
    var hash := Blooms.HASH(buf[4..pos]);
    assert buf[4..pos] == buf[..pos][4..] == Body(ms);
    BlitNext(buf, head + Body(ms), LE(hash, 4));
    buf := Blit(buf, pos, LE(hash, 4));
    assert buf == buf[..pos + 4];
  }

  method EncodeOne(buf: Bytes, pos: nat, m: Meta, ghost done: Bytes) returns (r: Bytes, next: nat)
    requires pos == |done| && pos + 8 + |m.first| + |m.last| <= |buf| && buf[..pos] == done
    ensures |r| == |buf| && next == pos + |EncodedMeta(m)| && r[..next] == done + EncodedMeta(m)
  {
    hide LE, Blit, Text;
    BlitNext(buf, done, LE(m.offset, 4));
    r := Blit(buf, pos, LE(m.offset, 4));
    next := pos + 4;
    r := BlitText(r, next, m.first, done + LE(m.offset, 4));
    next := next + 2 + |m.first|;
    r := BlitText(r, next, m.last, done + LE(m.offset, 4) + Text(m.first));
    next := next + 2 + |m.last|;
  }

  lemma BodyNone()
    ensures Body([]) == []
  {
  }

  lemma {:induction false} BodyPrefix(ms: seq<Meta>, i: nat)
    requires i <= |ms|
    ensures |Body(ms[..i])| <= |Body(ms)|
  {
    hide EncodedMeta;
    if i > 0 {
      BodyPrefix(ms[1..], i - 1);
      assert ms[..i][1..] == ms[1..][..i - 1];
    }
  }

  // ---------- decoding ----------

  function ParseMeta(s: Bytes, pos: nat): (r: Parsed<Meta>)
    ensures r.Parsed? ==> pos < r.next <= |s|
  {
    if pos + 4 > |s| then Failed(PastEnd)
    else
      var first := ParseText(s, pos + 4);
      if first.Failed? then Failed(first.fault)
      else
        var last := ParseText(s, first.next);
        if last.Failed? then Failed(last.fault)
        else Parsed(Meta(At(s, pos, 4), first.value, last.value), last.next)
  }

  /** The next n metas. */
  function ParseMetas(s: Bytes, pos: nat, n: nat): (r: Parsed<seq<Meta>>)
    requires pos <= |s|
    ensures r.Parsed? ==> pos <= r.next <= |s|
    decreases n
  {
    if n == 0 then Parsed([], pos)
    else
      var m := ParseMeta(s, pos);
      if m.Failed? then Failed(m.fault) else After([m.value], ParseMetas(s, m.next, n - 1))
  }

  function Checked(s: Bytes, ms: Parsed<seq<Meta>>): Parsed<seq<Meta>>
    requires ms.Parsed? ==> 4 <= ms.next <= |s|
  {
    if ms.Failed? then ms
    else if ms.next + 4 > |s| then Failed(PastEnd)
    else if At(s, ms.next, 4) != Blooms.HASH(s[4..ms.next]) % 0x1_0000_0000 then Failed(HashMismatch)
    else Parsed(ms.value, ms.next + 4)
  }

  function Parse(s: Bytes): Parsed<seq<Meta>> {
    if |s| < 8 then Failed(TooSmall)
    else Checked(s, ParseMetas(s, 4, At(s, 0, 4)))
  }

  /** Read the count, that many metas, and verify the hash over them. */
  method Decode(s: Bytes) returns (result: Parsed<seq<Meta>>)
    ensures result == Parse(s)
    ensures forall ms :: MetasFit(ms) && s == Encoded(ms) ==> result == Parsed(ms, |s|)
  {
    hide At, ParseMeta, ParseMetas, Encoded;
    forall ms | MetasFit(ms) && s == Encoded(ms)
      ensures Parse(s) == Parsed(ms, |s|)
    {
      MetasRoundTrip(ms);
    }
    if |s| < 8 {
      return Failed(TooSmall);
    }
    var n := At(s, 0, 4);
    var ms: seq<Meta>, pos := [], 4;
    AfterNone(ParseMetas(s, 4, n));
    for i := 0 to n
      invariant 4 <= pos <= |s|
      invariant ParseMetas(s, 4, n) == After(ms, ParseMetas(s, pos, n - i))
    {
      ParseMetasCons(s, pos, n - i);
      var m := ParseMeta(s, pos);
      if m.Failed? {
        return Failed(m.fault);
      }
      AfterTwice(ms, m.value, ParseMetas(s, m.next, n - i - 1));
      ms := ms + [m.value];
      pos := m.next;
    }
    ParseMetasCons(s, pos, 0);
    assert ms + [] == ms;
    if pos + 4 > |s| {
      return Failed(PastEnd);
    }
    if At(s, pos, 4) != Blooms.HASH(s[4..pos]) % 0x1_0000_0000 {
      return Failed(HashMismatch);
    }
    return Parsed(ms, pos + 4);
  }

  lemma ParseMetasCons(s: Bytes, pos: nat, n: nat)
    requires pos <= |s|
    ensures n == 0 ==> ParseMetas(s, pos, n) == Parsed([], pos)
    ensures n > 0 && ParseMeta(s, pos).Failed? ==> ParseMetas(s, pos, n) == Failed(ParseMeta(s, pos).fault)
    ensures n > 0 && ParseMeta(s, pos).Parsed? ==>
              ParseMetas(s, pos, n) == After([ParseMeta(s, pos).value], ParseMetas(s, ParseMeta(s, pos).next, n - 1))
  {
    hide ParseMeta;
  }

  lemma MetaReadsBack(s: Bytes, pos: nat, m: Meta)
    requires MetaFits(m) && Lies(s, pos, EncodedMeta(m))
    ensures ParseMeta(s, pos) == Parsed(m, pos + |EncodedMeta(m)|)
  {
    hide LE, At, Text, ParseText;
    LiesConcat(s, pos, LE(m.offset, 4), Text(m.first) + Text(m.last));
    LiesConcat(s, pos + 4, Text(m.first), Text(m.last));
    At4(s, pos, m.offset);
    TextParses(s, pos + 4, m.first);
    TextParses(s, pos + 4 + |Text(m.first)|, m.last);
  }

  lemma {:induction false} MetasReadBack(s: Bytes, pos: nat, ms: seq<Meta>)
    requires (forall i :: 0 <= i < |ms| ==> MetaFits(ms[i])) && Lies(s, pos, Body(ms))
    ensures ParseMetas(s, pos, |ms|) == Parsed(ms, pos + |Body(ms)|)
    decreases |ms|
  {
    hide EncodedMeta, ParseMeta, MetaFits;
    if ms != [] {
      LiesConcat(s, pos, EncodedMeta(ms[0]), Body(ms[1..]));
      MetaReadsBack(s, pos, ms[0]);
      MetasReadBack(s, pos + |EncodedMeta(ms[0])|, ms[1..]);
      assert [ms[0]] + ms[1..] == ms;
    }
  }

  /** The block index survives the round trip. */
  lemma MetasRoundTrip(ms: seq<Meta>)
    requires MetasFit(ms)
    ensures Parse(Encoded(ms)) == Parsed(ms, |Encoded(ms)|)
  {
    hide LE, At, Body, ParseMetas, MetaFits;
    var s, body, h := Encoded(ms), Body(ms), Blooms.HASH(Body(ms));
    assert Lies(s, 0, s);
    LiesConcat(s, 0, LE(|ms|, 4), body + LE(h, 4));
    LiesConcat(s, 4, body, LE(h, 4));
    At4(s, 0, |ms|);
    MetasReadBack(s, 4, ms);
    HashReadsBack(s, 4 + |body|, h);
  }
}
