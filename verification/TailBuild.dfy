/**
 When a compaction throws. The tail build fails when the loop ends with an empty builder, that is,
 when the last key of the stream completed a table.
 */
module TailBuilds {
  import opened Versions
  import opened Ssts
  import opened Compactions
  import Blooms
  import Widths

  /** Where the versions of the stream's last key start. */
  function LastKeyStart(s: seq<Entry>): (n: nat)
    requires s != []
    ensures n < |s| && (n > 0 ==> s[n - 1].key != s[n].key)
    ensures forall i :: n <= i < |s| ==> s[i].key == s[|s| - 1].key
  {
    var last := |s| - 1;
    if last == 0 || s[last - 1].key != s[last].key then last
    else LastKeyStart(s[..last])
  }

  /** Cutting does not look across a key change: the stream may be taken in two pieces there. */
  lemma {:induction false} LeftOverSplit(b: Builder, x: seq<Entry>, y: seq<Entry>, target: nat, empty: Builder)
    requires Blooms.Valid(b.bloom) && Blooms.Valid(empty.bloom)
    requires x != [] && y != [] ==> x[|x| - 1].key != y[0].key
    ensures LeftOver(b, x + y, target, empty) == LeftOver(LeftOver(b, x, target, empty), y, target, empty)
    decreases |x|
  {
    hide Add, LeftOver;
    if x == [] {
      LeftOverEnd(b, target, empty);
      assert x + y == y;
    } else {
      LeftOverStep(b, x, target, empty);
      LeftOverStep(b, x + y, target, empty);
      assert (x + y)[1..] == x[1..] + y && (x + y)[0] == x[0];
      assert |x| > 1 ==> (x + y)[1] == x[1];
      assert |x| == 1 && y != [] ==> (x + y)[1] == y[0];
      var b1 := Add(b, x[0]);
      assert Cuts(b1, x + y, target) == Cuts(b1, x, target);
      LeftOverSplit(if Cuts(b1, x, target) then empty else b1, x[1..], y, target, empty);
    }
  }

  /** What is left over has not reached the target. */
  lemma {:induction false} LeftOverBelow(b: Builder, s: seq<Entry>, target: nat, empty: Builder)
    requires Blooms.Valid(b.bloom) && Blooms.Valid(empty.bloom) && target > 0 && empty.dataSize == 0
    requires b.dataSize < target || s != []
    ensures LeftOver(b, s, target, empty).dataSize < target
    decreases |s|
  {
    hide Add, LeftOver;
    if s == [] {
      LeftOverEnd(b, target, empty);
    } else {
      LeftOverStep(b, s, target, empty);
      var b1 := Add(b, s[0]);
      LeftOverBelow(if Cuts(b1, s, target) then empty else b1, s[1..], target, empty);
    }
  }

  /** An addition closes a block exactly when the open block refuses it. */
  lemma AddCloses(b: Builder, e: Entry)
    requires Blooms.Valid(b.bloom)
    ensures Add(b, e).last == e.key && Added(Add(b, e)) == Added(b) + [e]
    ensures !Refuses(Noted(b, e), e) ==> Add(b, e).dataSize == b.dataSize
    ensures Refuses(Noted(b, e), e) ==>
              Add(b, e).dataSize == b.dataSize + CurSize(b.block) + 4 && Add(b, e).block == [e]
    ensures e.key == b.last ==> !Refuses(Noted(b, e), e)
  {
    hide Blooms.Added, CurSize;
    AddedGrows(b, e);
  }

  /** Within one key nothing but its first version can close a block, so the key is cut at its end or not at all. */
  lemma {:induction false} OneKey(b: Builder, s: seq<Entry>, target: nat, empty: Builder)
    requires Blooms.Valid(b.bloom) && Blooms.Valid(empty.bloom)
    requires s != [] && forall e :: e in s ==> e.key == b.last
    ensures if b.dataSize >= target then LeftOver(b, s, target, empty) == empty
            else Added(LeftOver(b, s, target, empty)) != []
    decreases |s|
  {
    hide Add, LeftOver, Added;
    LeftOverStep(b, s, target, empty);
    AddCloses(b, s[0]);
    var b1 := Add(b, s[0]);
    assert s[0] in s && (|s| > 1 ==> s[1] in s);
    if |s| == 1 {
      assert s[1..] == [] && (Added(b) + [s[0]])[|Added(b)|] == s[0];
      LeftOverEnd(b1, target, empty);
      LeftOverEnd(empty, target, empty);
    } else {
      OneKey(b1, s[1..], target, empty);
    }
  }

  /** The last key's first version closes a block and brings the closed bytes to the target. */
  ghost predicate LastKeyCompletes(s: seq<Entry>, capacity: nat, bloom: Blooms.Bloom, target: nat)
    requires Blooms.Valid(bloom) && s != []
  {
    var empty, n := NewBuilder(capacity, bloom), LastKeyStart(s);
    var b := LeftOver(empty, s[..n], target, empty);
    Refuses(Noted(b, s[n]), s[n]) && b.dataSize + CurSize(b.block) + 4 >= target
  }

  /** Exactly when the tail build throws. */
  lemma ThrowsIff(s: seq<Entry>, capacity: nat, bloom: Blooms.Bloom, target: nat)
    requires Blooms.Valid(bloom) && target > 0
    ensures TailEmpty(s, capacity, bloom, target) <==> s == [] || LastKeyCompletes(s, capacity, bloom, target)
  {
    hide Add, LeftOver, Added, Refuses, Noted, CurSize;
    var empty := NewBuilder(capacity, bloom);
    EmptyBuilder(capacity, bloom);
    if s == [] {
      LeftOverEnd(empty, target, empty);
    } else {
      var n := LastKeyStart(s);
      var b := LeftOver(empty, s[..n], target, empty);
      assert s == s[..n] + s[n..];
      LeftOverSplit(empty, s[..n], s[n..], target, empty);
      LeftOverBelow(empty, s[..n], target, empty);
      assert forall e :: e in s[n..] ==> e.key == s[n].key;
      LastKey(b, s[n..], target, empty);
    }
  }

  /** The versions of one key at the end of a stream. */
  lemma LastKey(b: Builder, s: seq<Entry>, target: nat, empty: Builder)
    requires Blooms.Valid(b.bloom) && Blooms.Valid(empty.bloom) && b.dataSize < target && Added(empty) == []
    requires s != [] && forall e :: e in s ==> e.key == s[0].key
    ensures Added(LeftOver(b, s, target, empty)) == [] <==>
            Refuses(Noted(b, s[0]), s[0]) && b.dataSize + CurSize(b.block) + 4 >= target
  {
    hide Add, LeftOver, Added, Refuses, Noted, CurSize;
    AddCloses(b, s[0]);
    var b1 := Add(b, s[0]);
    LeftOverStep(b, s, target, empty);
    if |s| == 1 {
      assert s[1..] == [];
      LeftOverEnd(b1, target, empty);
      LeftOverEnd(empty, target, empty);
    } else {
      OneKey(b1, s[1..], target, empty);
    }
  }

  lemma EmptyBuilder(capacity: nat, bloom: Blooms.Bloom)
    ensures Added(NewBuilder(capacity, bloom)) == [] && NewBuilder(capacity, bloom).dataSize == 0
  {
  }

  // ---------- a condition that needs no simulation ----------

  /** More than the bytes any cutting into blocks can make of the stream. */
  function StreamBytes(s: seq<Entry>): nat {
    if s == [] then 0 else EntryBytes(s[0]) + 8 + StreamBytes(s[1..])
  }

  lemma {:induction false} StreamBytesAre(s: seq<Entry>)
    ensures StreamBytes(s) == DataBytes(s) + 8 * |s|
  {
    hide DataBytes;
    if s == [] {
      Widths.DataNone();
    } else {
      StreamBytesAre(s[1..]);
      assert s == [s[0]] + s[1..];
      Widths.DataConcat([s[0]], s[1..]);
      Widths.DataOne(s[0]);
    }
  }

  /** A part of a small stream is small. */
  lemma StreamPart(x: seq<Entry>, s: seq<Entry>)
    requires multiset(x) <= multiset(s)
    ensures StreamBytes(x) <= StreamBytes(s)
  {
    hide DataBytes, StreamBytes;
    StreamBytesAre(x);
    StreamBytesAre(s);
    Widths.DataPart(x, s);
  }

  function HeldBytes(b: Builder): nat {
    b.dataSize + DataBytes(b.block) + 8 * |b.block|
  }

  lemma AddHolds(b: Builder, e: Entry)
    requires Blooms.Valid(b.bloom)
    ensures HeldBytes(Add(b, e)) <= HeldBytes(b) + EntryBytes(e) + 8 && Add(b, e).dataSize <= HeldBytes(Add(b, e))
  {
    hide Blooms.Added;
    DataSnoc(b.block, e);
    DataSnoc([], e);
    assert [] + [e] == [e];
  }

  lemma DataSnoc(s: seq<Entry>, e: Entry)
    ensures DataBytes(s + [e]) == DataBytes(s) + EntryBytes(e)
  {
    assert (s + [e])[..|s|] == s;
  }

  lemma {:induction false} NeverCut(b: Builder, s: seq<Entry>, target: nat, empty: Builder)
    requires Blooms.Valid(b.bloom) && Blooms.Valid(empty.bloom)
    requires HeldBytes(b) + StreamBytes(s) < target && (s != [] || Added(b) != [])
    ensures Added(LeftOver(b, s, target, empty)) != []
    decreases |s|
  {
    hide Add, LeftOver, Added, HeldBytes;
    if s == [] {
      LeftOverEnd(b, target, empty);
    } else {
      LeftOverStep(b, s, target, empty);
      AddHolds(b, s[0]);
      AddCloses(b, s[0]);
      NeverCut(Add(b, s[0]), s[1..], target, empty);
    }
  }

  /** A non-empty stream too small to fill a table never throws. */
  lemma SmallStreamsBuild(s: seq<Entry>, capacity: nat, bloom: Blooms.Bloom, target: nat)
    requires Blooms.Valid(bloom) && s != [] && StreamBytes(s) < target
    ensures !TailEmpty(s, capacity, bloom, target)
  {
    NeverCut(NewBuilder(capacity, bloom), s, target, NewBuilder(capacity, bloom));
  }

  // ---------- streams that throw, for every capacity and target ----------

  /** The key of n + 1 bytes 'a'. */
  function Key97(n: nat): Key {
    seq(n + 1, _ => 97)
  }

  /** n versions with keys a, aa, aaa, and so on, all with one value. */
  function Ladder(n: nat, v: Value): (s: seq<Entry>)
    ensures |s| == n && forall i :: 0 <= i < n ==> s[i] == Entry(Key97(i), v, 1)
  {
    seq(n, i requires 0 <= i < n => Entry(Key97(i), v, 1))
  }

  lemma {:induction false} KeysRise(i: nat, j: nat)
    requires i < j
    ensures Less(Key97(i), Key97(j))
  {
    if i > 0 {
      KeysRise(i - 1, j - 1);
      assert Key97(i)[1..] == Key97(i - 1) && Key97(j)[1..] == Key97(j - 1);
    } else {
      assert Key97(0)[1..] == [] && Key97(j)[1..] != [];
    }
  }

  lemma LadderSorted(n: nat, v: Value)
    ensures Sorted(Ladder(n, v))
  {
    forall i, j | 0 <= i < j < n
      ensures Before(Ladder(n, v)[i], Ladder(n, v)[j])
    {
      KeysRise(i, j);
    }
  }

  /** Each rung is refused by a block that holds the one before it. */
  lemma RungRefused(b: Builder, n: nat, v: Value)
    requires Blooms.Valid(b.bloom) && |v| >= b.capacity && n > 0
    requires b.block == [Entry(Key97(n - 1), v, 1)] && b.last == Key97(n - 1)
    ensures Refuses(Noted(b, Entry(Key97(n), v, 1)), Entry(Key97(n), v, 1))
    ensures CurSize(b.block) + 4 > |v|
  {
    assert |Key97(n)| != |Key97(n - 1)|;
    DataSnoc([], b.block[0]);
    assert [] + b.block == b.block;
  }

  /** After n rungs nothing has been cut yet; climb until the closed blocks reach the target. */
  lemma {:induction false} Climb(n: nat, v: Value, capacity: nat, bloom: Blooms.Bloom, target: nat, b: Builder)
    returns (m: nat)
    requires Blooms.Valid(bloom) && v != [] && |v| >= capacity && n > 0
    requires b == LeftOver(NewBuilder(capacity, bloom), Ladder(n, v), target, NewBuilder(capacity, bloom))
    requires b.capacity == capacity && b.block == [Entry(Key97(n - 1), v, 1)] && b.last == Key97(n - 1)
    requires (n - 1) * |v| <= b.dataSize < target
    ensures m > 1 && (m - 2) * |v| < target && TailEmpty(Ladder(m, v), capacity, bloom, target)
    decreases target - b.dataSize
  {
    hide Add, LeftOver, Added, Refuses, Noted, CurSize;
    var empty, e := NewBuilder(capacity, bloom), Entry(Key97(n), v, 1);
    RungRefused(b, n, v);
    AddCloses(b, e);
    var b1 := Add(b, e);
    assert Ladder(n + 1, v) == Ladder(n, v) + [e];
    assert |Key97(n)| != |Key97(n - 1)|;
    LeftOverSplit(empty, Ladder(n, v), [e], target, empty);
    LeftOverStep(b, [e], target, empty);
    assert [e][1..] == [];
    LeftOverEnd(b1, target, empty);
    LeftOverEnd(empty, target, empty);
    EmptyBuilder(capacity, bloom);
    if b1.dataSize >= target {
      m := n + 1;
    } else {
      CapacityStays(b, e);
      assert n * |v| == (n - 1) * |v| + |v|;
      m := Climb(n + 1, v, capacity, bloom, target, b1);
    }
  }

  lemma CapacityStays(b: Builder, e: Entry)
    requires Blooms.Valid(b.bloom)
    ensures Add(b, e).capacity == b.capacity
  {
  }

  /** For every block capacity and every target there is a sorted stream of one value's size whose compaction throws. */
  lemma TailBuildCanThrow(v: Value, capacity: nat, bloom: Blooms.Bloom, target: nat) returns (n: nat)
    requires Blooms.Valid(bloom) && v != [] && |v| >= capacity && target > 0
    ensures n > 1 && (n - 2) * |v| < target && Sorted(Ladder(n, v))
    ensures TailEmpty(Ladder(n, v), capacity, bloom, target)
  {
    hide LeftOver, Added, Sorted;
    var empty, e := NewBuilder(capacity, bloom), Entry(Key97(0), v, 1);
    assert Ladder(1, v) == [e];
    var b := FirstRung(v, capacity, bloom, target);
    n := Climb(1, v, capacity, bloom, target, b);
    LadderSorted(n, v);
  }

  lemma FirstRung(v: Value, capacity: nat, bloom: Blooms.Bloom, target: nat) returns (b: Builder)
    requires Blooms.Valid(bloom) && target > 0
    ensures b == LeftOver(NewBuilder(capacity, bloom), Ladder(1, v), target, NewBuilder(capacity, bloom))
    ensures b.capacity == capacity && b.block == [Entry(Key97(0), v, 1)] && b.last == Key97(0) && b.dataSize == 0
  {
    var empty, e := NewBuilder(capacity, bloom), Entry(Key97(0), v, 1);
    b := Add(empty, e);
    assert Ladder(1, v) == [e] && [e][1..] == [];
    assert LeftOver(b, [], target, empty) == b;
  }

  /** With the default configuration: 32 KB blocks, 16 MB tables, and fewer than three hundred values of 60000 bytes. */
  lemma DefaultsCanThrow(v: Value, bloom: Blooms.Bloom) returns (n: nat)
    requires Blooms.Valid(bloom) && |v| == 60000
    ensures 1 < n < 300 && Sorted(Ladder(n, v)) && TailEmpty(Ladder(n, v), 32768, bloom, 4 * 4194304)
  {
    hide Sorted;
    n := TailBuildCanThrow(v, 32768, bloom, 4 * 4194304);
  }
}
