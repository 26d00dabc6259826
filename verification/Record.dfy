/** Write-ahead log records and their byte form. */
module Records {
  import opened Versions
  import opened ByteCodec

  datatype Record =
    | Create(id: Id)
    | Commit(id: Id)
    | Rollback(id: Id)
    | Put(id: Id, key: Key, value: Value)
    | Delete(id: Id, key: Key)
    /** A record with an operation byte the format does not define. */
    | Other(id: Id, op: Byte)

  const HEAD: nat := 11

  function Op(r: Record): Byte {
    match r
    case Create(_) => 0
    case Commit(_) => 1
    case Rollback(_) => 2
    case Put(_, _, _) => 3
    case Delete(_, _) => 4
    case Other(_, op) => op
  }

  function Len(r: Record): nat {
    match r
    case Put(_, k, v) => HEAD + 2 + |k| + 2 + |v|
    case Delete(_, k) => HEAD + 2 + |k|
    case _ => HEAD
  }

  /** The record's total length fits its 16-bit field and its id 64 bits. */
  predicate Fits(r: Record) {
    Len(r) < 0x1_0000 && r.id < 0x1_0000_0000_0000_0000 && (r.Other? ==> r.op > 4)
  }

  function Head(r: Record): (s: Bytes)
    ensures |s| == HEAD
  {
    LE(Len(r), 2) + LE(r.id, 8) + [Op(r)]
  }

  function Body(r: Record): Bytes {
    match r
    case Put(_, k, v) => Text(k) + Text(v)
    case Delete(_, k) => Text(k)
    case _ => []
  }

  /** Length, id, operation, then key and value, each behind its length. */
  function Encoded(r: Record): (s: Bytes)
    ensures |s| == Len(r)
  {
    Head(r) + Body(r)
  }

  function EncodedAll(rs: seq<Record>): Bytes {
    if rs == [] then [] else Encoded(rs[0]) + EncodedAll(rs[1..])
  }

  /** Fill a zeroed buffer field by field. */
  method Encode(r: Record) returns (buf: Bytes)
    requires Fits(r)
    ensures buf == Encoded(r)
  {
    hide LE, Blit;
    buf := seq(Len(r), _ => 0);
    BlitNext(buf, [], LE(Len(r), 2));
    buf := Blit(buf, 0, LE(Len(r), 2));
    BlitNext(buf, LE(Len(r), 2), LE(r.id, 8));
    buf := Blit(buf, 2, LE(r.id, 8));
    BlitNext(buf, LE(Len(r), 2) + LE(r.id, 8), [Op(r)]);
    buf := Blit(buf, 10, [Op(r)]);
    if r.Put? {
      buf := BlitText(buf, HEAD, r.key, Head(r));
      buf := BlitText(buf, HEAD + 2 + |r.key|, r.value, Head(r) + Text(r.key));
    } else if r.Delete? {
      buf := BlitText(buf, HEAD, r.key, Head(r));
    }
    assert buf == buf[..Len(r)];
  }

  // ---------- decoding ----------

  /** A record without key and value. */
  function Plain(id: Id, op: Byte): Record {
    if op == 0 then Create(id) else if op == 1 then Commit(id) else if op == 2 then Rollback(id) else Other(id, op)
  }

  /** The record at an offset. */
  function ParseRecord(data: Bytes, pos: nat): (p: Parsed<Record>)
    ensures p.Parsed? ==> pos < p.next <= |data|
  {
    if pos + 2 > |data| then Failed(PastEnd)
    else if |data| < At(data, pos, 2) then Failed(BadSize)
    else if pos + HEAD > |data| then Failed(PastEnd)
    else
      var id, op := At(data, pos + 2, 8), data[pos + 10];
      if op == 3 then
        var k := ParseText(data, pos + HEAD);
        if k.Failed? then Failed(k.fault)
        else
          var v := ParseText(data, k.next);
          if v.Failed? then Failed(v.fault) else Parsed(Put(id, k.value, v.value), v.next)
      else if op == 4 then
        var k := ParseText(data, pos + HEAD);
        if k.Failed? then Failed(k.fault) else Parsed(Delete(id, k.value), k.next)
      else
        Parsed(Plain(id, op), pos + HEAD)
  }

  function ParseAll(data: Bytes, pos: nat): Parsed<seq<Record>>
    requires pos <= |data|
    decreases |data| - pos
  {
    if pos == |data| then Parsed([], pos)
    else
      var r := ParseRecord(data, pos);
      if r.Failed? then Failed(r.fault) else After([r.value], ParseAll(data, r.next))
  }

  /** Read records one after another until the data is used up. */
  method Decode(data: Bytes) returns (result: Parsed<seq<Record>>)
    ensures |data| < HEAD ==> result == Parsed([], 0)
    ensures |data| >= HEAD ==> result == ParseAll(data, 0)
    ensures forall rs :: data == EncodedAll(rs) && (forall i :: 0 <= i < |rs| ==> Fits(rs[i])) ==>
              result.Parsed? && result.value == rs
  {
    hide ParseRecord, EncodedAll, ParseAll;
    forall rs | data == EncodedAll(rs) && (forall i :: 0 <= i < |rs| ==> Fits(rs[i]))
      ensures ParseAll(data, 0) == Parsed(rs, |data|) && (|data| < HEAD ==> rs == [])
    {
      DecodeEncoded(rs);
      EncodedAllCons(rs);
    }
    if |data| < HEAD {
      return Parsed([], 0);
    }
    var records: seq<Record>, pos := [], 0;
    AfterNone(ParseAll(data, 0));
    while pos < |data|
      invariant pos <= |data|
      invariant ParseAll(data, 0) == After(records, ParseAll(data, pos))
    {
      ParseAllCons(data, pos);
      var r := ParseRecord(data, pos);
      if r.Failed? {
        return Failed(r.fault);
      }
      AfterTwice(records, r.value, ParseAll(data, r.next));
      records := records + [r.value];
      pos := r.next;
    }
    ParseAllCons(data, pos);
    assert records + [] == records;
    return Parsed(records, pos);
  }

  lemma ParseAllCons(data: Bytes, pos: nat)
    requires pos <= |data|
    ensures pos == |data| ==> ParseAll(data, pos) == Parsed([], pos)
    ensures pos < |data| && ParseRecord(data, pos).Failed? ==>
              ParseAll(data, pos) == Failed(ParseRecord(data, pos).fault)
    ensures pos < |data| && ParseRecord(data, pos).Parsed? ==>
              ParseAll(data, pos) == After([ParseRecord(data, pos).value], ParseAll(data, ParseRecord(data, pos).next))
  {
    hide ParseRecord;
  }

  lemma EncodedAllCons(rs: seq<Record>)
    ensures rs == [] ==> EncodedAll(rs) == []
    ensures rs != [] ==> EncodedAll(rs) == Encoded(rs[0]) + EncodedAll(rs[1..]) && |EncodedAll(rs)| >= HEAD
  {
  }

  lemma HeadParses(data: Bytes, pos: nat, r: Record)
    requires Fits(r) && Lies(data, pos, Head(r))
    ensures At(data, pos, 2) == Len(r) && At(data, pos + 2, 8) == r.id && data[pos + 10] == Op(r)
  {
    hide LE, FromLE;
    LiesConcat(data, pos, LE(Len(r), 2) + LE(r.id, 8), [Op(r)]);
    LiesConcat(data, pos, LE(Len(r), 2), LE(r.id, 8));
    At2(data, pos, Len(r));
    At8(data, pos + 2, r.id);
    assert data[pos + 10..pos + 11][0] == Op(r);
  }

  lemma RecordParses(data: Bytes, pos: nat, r: Record)
    requires Fits(r) && Lies(data, pos, Encoded(r))
    ensures ParseRecord(data, pos) == Parsed(r, pos + Len(r))
  {
    hide LE, FromLE, Head, At, ParseText;
    LiesConcat(data, pos, Head(r), Body(r));
    HeadParses(data, pos, r);
    match r
    case Put(_, k, v) =>
      LiesConcat(data, pos + HEAD, Text(k), Text(v));
      TextParses(data, pos + HEAD, k);
      TextParses(data, pos + HEAD + 2 + |k|, v);
    case Delete(_, k) =>
      TextParses(data, pos + HEAD, k);
    case _ =>
  }

  lemma {:induction false} AllParse(data: Bytes, pos: nat, rs: seq<Record>)
    requires pos <= |data| && data[pos..] == EncodedAll(rs)
    requires forall i :: 0 <= i < |rs| ==> Fits(rs[i])
    ensures ParseAll(data, pos) == Parsed(rs, |data|)
    decreases |rs|
  {
    hide ParseRecord, Encoded, EncodedAll;
    EncodedAllCons(rs);
    if rs != [] {
      var r, rest := rs[0], EncodedAll(rs[1..]);
      assert data[pos..pos + Len(r)] == data[pos..][..Len(r)] == Encoded(r);
      RecordParses(data, pos, r);
      assert data[pos + Len(r)..] == data[pos..][Len(r)..] == rest;
      AllParse(data, pos + Len(r), rs[1..]);
      assert [r] + rs[1..] == rs;
    }
  }

  /** Decoding a concatenation of encoded records returns those records, in order. */
  lemma DecodeEncoded(rs: seq<Record>)
    requires forall i :: 0 <= i < |rs| ==> Fits(rs[i])
    ensures ParseAll(EncodedAll(rs), 0) == Parsed(rs, |EncodedAll(rs)|)
  {
    var data := EncodedAll(rs);
    assert data[0..] == data;
    AllParse(data, 0, rs);
  }
}
