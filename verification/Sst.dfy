/**
 Sorted string tables: the builder that cuts a sorted stream of versions into blocks, and the
 point read through key range, bloom filter, block index and block search.
 */
module Ssts {
  import opened Versions
  import Blooms
  import Blocks

  const MAX_ID: nat := 0xFFFF_FFFF_FFFF_FFFF

  datatype Meta = Meta(offset: nat, first: Key, last: Key)

  /** A finished table. Blocks are given by their entry lists. */
  datatype Sst = Sst(id: nat, blocks: seq<seq<Entry>>, metas: seq<Meta>, firstKey: Key, lastKey: Key,
                     bloom: Blooms.Bloom, minId: nat, maxId: nat)

  /** The builder: finished blocks with their metas, the open block, and the running first and last key. */
  datatype Builder = Builder(capacity: nat, blocks: seq<seq<Entry>>, block: seq<Entry>, metas: seq<Meta>,
                             first: Key, last: Key, dataSize: nat, bloom: Blooms.Bloom, minId: nat, maxId: nat)

  function NewBuilder(capacity: nat, bloom: Blooms.Bloom): Builder {
    Builder(capacity, [], [], [], [], [], 0, bloom, MAX_ID, 0)
  }

  // ---------- block sizes ----------

  /** Bytes one entry takes in a block: two lengths, key, value and id. */
  function EntryBytes(e: Entry): nat {
    2 + |e.key| + 2 + |e.value| + 8
  }

  function DataBytes(s: seq<Entry>): nat {
    if s == [] then 0 else DataBytes(s[..|s| - 1]) + EntryBytes(s[|s| - 1])
  }

  /** Data, one two-byte offset per entry, and the two-byte count. */
  function CurSize(s: seq<Entry>): nat {
    DataBytes(s) + 2 * |s| + 2
  }

  // ---------- building ----------

  /** The open block turns the entry away: it is not empty, not forced, and over capacity. */
  predicate Refuses(b: Builder, e: Entry) {
    && e.key != b.last
    && CurSize(b.block) + |e.key| + |e.value| + 3 * 2 + 8 > b.capacity
    && b.block != []
  }

  /** Close the open block: encode it with its hash and record its key range. */
  function Finish(b: Builder): Builder {
    b.(blocks := b.blocks + [b.block], block := [],
       metas := b.metas + [Meta(b.dataSize, b.first, b.last)],
       dataSize := b.dataSize + CurSize(b.block) + 4)
  }

  /** The bookkeeping every addition does first. An empty first key counts as unset. */
  function Noted(b: Builder, e: Entry): Builder
    requires Blooms.Valid(b.bloom)
  {
    b.(first := if b.first == [] then e.key else b.first,
       bloom := Blooms.Added(b.bloom, e.key),
       maxId := if b.maxId < e.id then e.id else b.maxId,
       minId := if e.id < b.minId then e.id else b.minId)
  }

  function Add(b: Builder, e: Entry): (r: Builder)
    requires Blooms.Valid(b.bloom)
    ensures Blooms.Valid(r.bloom)
  {
    var n := Noted(b, e);
    if Refuses(n, e) then Finish(n).(block := [e], first := e.key, last := e.key)
    else n.(block := n.block + [e], last := e.key)
  }

  /** Close the last block and emit the table; building nothing throws. */
  function Build(b: Builder, id: nat): Option<Sst> {
    var f := if b.block != [] then Finish(b) else b;
    if f.metas == [] then None
    else Some(Sst(id, f.blocks, f.metas, f.metas[0].first, f.metas[|f.metas| - 1].last, f.bloom, f.minId, f.maxId))
  }

  /** All versions added so far, in order. */
  function Added(b: Builder): seq<Entry> {
    Flat(b.blocks) + b.block
  }

  function Entries(t: Sst): seq<Entry> {
    Flat(t.blocks)
  }

  // ---------- key ranges ----------

  /**
   How the range of block i constrains an entry of block j. The commit marker's empty key is exempt
   from lower bounds.
   */
  predicate Cell(m: Meta, i: nat, j: nat, e: Entry) {
    && (j < i ==> Less(e.key, m.first))
    && (j <= i ==> AtMost(e.key, m.last))
    && (j >= i && e.key != [] ==> AtMost(m.first, e.key))
    && (j > i ==> Less(m.last, e.key))
  }

  /** Ranges separate the blocks: no key spans two of them. */
  ghost predicate Tiled(blocks: seq<seq<Entry>>, metas: seq<Meta>) {
    forall i, j, e :: 0 <= i < |metas| && 0 <= j < |blocks| && e in blocks[j] ==> Cell(metas[i], i, j, e)
  }

  ghost predicate BloomCovers(f: Blooms.Bloom, s: seq<Entry>) {
    Blooms.Valid(f) && forall e :: e in s ==> Blooms.MayContain(f, e.key)
  }

  ghost predicate IdsCovered(lo: nat, hi: nat, s: seq<Entry>) {
    forall e :: e in s ==> lo <= e.id <= hi
  }

  ghost predicate KeyIn(s: seq<Entry>, k: Key) {
    exists e :: e in s && e.key == k
  }

  /** The recorded range ends are keys of the table; an unset first key means there are only commit markers. */
  ghost predicate TightRange(t: Sst) {
    && (t.firstKey != [] ==> KeyIn(Entries(t), t.firstKey))
    && (t.firstKey == [] ==> forall e :: e in Entries(t) ==> e.key == [])
    && KeyIn(Entries(t), t.lastKey)
  }

  ghost predicate WellFormed(t: Sst) {
    && 0 < |t.blocks| == |t.metas|
    && (forall i :: 0 <= i < |t.blocks| ==> t.blocks[i] != [])
    && Ordered(Entries(t))
    && Tiled(t.blocks, t.metas)
    && t.firstKey == t.metas[0].first && t.lastKey == t.metas[|t.metas| - 1].last
    && TightRange(t)
    && BloomCovers(t.bloom, Entries(t))
    && IdsCovered(t.minId, t.maxId, Entries(t))
  }

  /** The running keys: last is the open block's last key, first bounds its keys and clears the finished blocks. */
  ghost predicate Running(b: Builder) {
    && (b.block == [] ==> b.blocks == [] && b.first == b.last == [])
    && (b.block != [] ==> b.last == b.block[|b.block| - 1].key && AtMost(b.first, b.last))
    && (b.first == [] ==> b.blocks == [] && forall e :: e in b.block ==> e.key == [])
    && (forall e :: e in b.block && e.key != [] ==> AtMost(b.first, e.key))
    && (forall e :: e in b.block ==> AtMost(e.key, b.last))
    && (forall e :: e in Flat(b.blocks) ==> Less(e.key, b.first) && Less(e.key, b.last))
  }

  /** Every recorded first key is set and is the key of some version. */
  ghost predicate Attained(b: Builder) {
    && (b.first != [] ==> KeyIn(Added(b), b.first))
    && (forall i :: 0 <= i < |b.metas| ==> b.metas[i].first != [] && KeyIn(Added(b), b.metas[i].first))
  }

  ghost predicate Building(b: Builder) {
    && |b.metas| == |b.blocks|
    && (forall i :: 0 <= i < |b.blocks| ==> b.blocks[i] != [])
    && Ordered(Added(b))
    && Tiled(b.blocks + [b.block], b.metas)
    && Running(b)
    && Attained(b)
    && BloomCovers(b.bloom, Added(b))
    && IdsCovered(b.minId, b.maxId, Added(b))
  }

  lemma NewBuilding(capacity: nat, bloom: Blooms.Bloom)
    requires Blooms.Valid(bloom)
    ensures Building(NewBuilder(capacity, bloom)) && Added(NewBuilder(capacity, bloom)) == []
  {
  }

  /** A version that sorts after everything added, seen from the running last key. */
  lemma AfterLast(b: Builder, e: Entry)
    requires Building(b) && b.block != []
    requires forall f :: f in Added(b) ==> InOrder(f, e)
    ensures AtMost(b.last, e.key)
  {
    hide Less;
    var x := b.block[|b.block| - 1];
    assert x in Added(b);
  }

  lemma AtMostLess(a: Key, b: Key, c: Key)
    ensures AtMost(a, b) && Less(b, c) ==> Less(a, c)
    ensures Less(a, b) && AtMost(b, c) ==> Less(a, c)
    ensures AtMost(a, b) && AtMost(b, c) ==> AtMost(a, c)
    ensures !Less(a, [])
  {
    if Less(a, b) && Less(b, c) {
      LessTransitive(a, b, c);
    }
  }

  /** Ranges already recorded lie before any version still to come. */
  lemma TiledNext(b: Builder, e: Entry, i: nat)
    requires Building(b) && i < |b.metas|
    requires forall f :: f in Added(b) ==> InOrder(f, e)
    ensures forall j: nat :: j > i ==> Cell(b.metas[i], i, j, e)
  {
    hide Less, Ordered;
    AfterLast(b, e);
    var all := b.blocks + [b.block];
    var x := b.block[|b.block| - 1];
    assert all[|b.blocks|] == b.block && x in all[|b.blocks|];
    assert Cell(b.metas[i], i, |b.blocks|, x);
    AtMostLess(b.metas[i].last, x.key, []);
    AtMostLess(b.metas[i].last, x.key, e.key);
    AtMostLess(b.metas[i].first, x.key, e.key);
  }

  lemma TiledAppend(b: Builder, e: Entry)
    requires Building(b)
    requires forall f :: f in Added(b) ==> InOrder(f, e)
    ensures Tiled(b.blocks + [b.block + [e]], b.metas)
  {
    hide Less, Ordered, Cell;
    var all, all' := b.blocks + [b.block], b.blocks + [b.block + [e]];
    forall i, j, f | 0 <= i < |b.metas| && 0 <= j < |all'| && f in all'[j]
      ensures Cell(b.metas[i], i, j, f)
    {
      if j == |b.blocks| && f == e {
        TiledNext(b, e, i);
      } else {
        assert f in all[j];
      }
    }
  }

  /** Closing the open block with the running keys as its range, then opening a block with e. */
  lemma TiledFinish(b: Builder, first: Key, e: Entry)
    requires Building(b) && b.block != []
    requires forall f :: f in Added(b) ==> InOrder(f, e)
    requires first == (if b.first == [] then e.key else b.first) && e.key != b.last
    ensures Tiled(b.blocks + [b.block] + [[e]], b.metas + [Meta(b.dataSize, first, b.last)])
  {
    hide Less, Ordered, Cell;
    var all, m := b.blocks + [b.block], Meta(b.dataSize, first, b.last);
    var all', metas' := all + [[e]], b.metas + [m];
    forall i, j, f | 0 <= i < |metas'| && 0 <= j < |all'| && f in all'[j]
      ensures Cell(metas'[i], i, j, f)
    {
      if i < |b.metas| {
        if j == |all| {
          TiledNext(b, e, i);
        } else {
          assert f in all[j];
        }
      } else {
        NewCell(b, first, e, j, f);
      }
    }
  }

  lemma NewCell(b: Builder, first: Key, e: Entry, j: nat, f: Entry)
    requires Building(b) && b.block != []
    requires forall g :: g in Added(b) ==> InOrder(g, e)
    requires first == (if b.first == [] then e.key else b.first) && e.key != b.last
    requires j <= |b.blocks| + 1 && f in (b.blocks + [b.block] + [[e]])[j]
    ensures Cell(Meta(b.dataSize, first, b.last), |b.blocks|, j, f)
  {
    hide Less, Ordered, Tiled;
    AfterLast(b, e);
    FlatMembers(b.blocks);
    AtMostLess(b.first, b.last, e.key);
    if j < |b.blocks| {
      assert f in b.blocks[j];
    }
  }

  lemma AddedGrows(b: Builder, e: Entry)
    requires Blooms.Valid(b.bloom)
    ensures Added(Add(b, e)) == Added(b) + [e]
  {
    if Refuses(Noted(b, e), e) {
      FlatConcat(b.blocks, [b.block]);
      FlatOne(b.block);
      assert Flat(b.blocks) + b.block + [e] == Flat(b.blocks + [b.block]) + [e];
    } else {
      assert Flat(b.blocks) + (b.block + [e]) == Flat(b.blocks) + b.block + [e];
    }
  }

  lemma CoverageGrows(b: Builder, e: Entry)
    requires Building(b)
    ensures BloomCovers(Add(b, e).bloom, Added(b) + [e])
    ensures IdsCovered(Add(b, e).minId, Add(b, e).maxId, Added(b) + [e])
  {
    hide Ordered, Tiled, Running, Attained, Blooms.MayContain;
    Blooms.AddedMayContain(b.bloom, e.key, e.key);
    forall f | f in Added(b)
      ensures Blooms.MayContain(Add(b, e).bloom, f.key)
    {
      Blooms.AddedMayContain(b.bloom, e.key, f.key);
    }
  }

  /** A refused version starts a block of its own: everything added before has a smaller key. */
  lemma RunningRefuses(b: Builder, e: Entry)
    requires Building(b) && Refuses(Noted(b, e), e)
    requires forall f :: f in Added(b) ==> InOrder(f, e)
    ensures Running(Finish(Noted(b, e)).(block := [e], first := e.key, last := e.key))
  {
    hide Less, Ordered, Tiled, IdsCovered, Attained, BloomCovers, Blooms.Added, CurSize, Flat;
    AfterLast(b, e);
    FlatConcat(b.blocks, [b.block]);
    FlatOne(b.block);
    forall f | f in Added(b)
      ensures Less(f.key, e.key)
    {
      AtMostLess(f.key, b.last, e.key);
    }
    AtMostLess(b.last, e.key, []);
  }

  /** An accepted version extends the open block. */
  lemma RunningAccepts(b: Builder, e: Entry)
    requires Building(b)
    requires forall f :: f in Added(b) ==> InOrder(f, e)
    ensures Running(Noted(b, e).(block := b.block + [e], last := e.key))
  {
    hide Less, Ordered, Tiled, IdsCovered, Attained, BloomCovers, Blooms.Added, Flat;
    FirstAtMost(e.key);
    if b.block == [] {
      FlatCons(b.blocks);
    } else {
      AfterLast(b, e);
      AtMostLess(b.first, b.last, e.key);
      forall f | f in b.block || f in Flat(b.blocks)
        ensures AtMost(f.key, e.key) && (f in Flat(b.blocks) ==> Less(f.key, e.key))
      {
        AtMostLess(f.key, b.last, e.key);
      }
    }
  }

  lemma RunningGrows(b: Builder, e: Entry)
    requires Building(b)
    requires forall f :: f in Added(b) ==> InOrder(f, e)
    ensures Running(Add(b, e))
  {
    hide Running, Noted, Finish, Refuses, Ordered, Tiled, Attained, IdsCovered, Added;
    if Refuses(Noted(b, e), e) {
      RunningRefuses(b, e);
    } else {
      RunningAccepts(b, e);
      NotedKeeps(b, e);
    }
  }

  lemma NotedKeeps(b: Builder, e: Entry)
    requires Blooms.Valid(b.bloom)
    ensures Noted(b, e).block == b.block && Noted(b, e).blocks == b.blocks
  {
  }

  lemma AttainedGrows(b: Builder, e: Entry)
    requires Building(b)
    requires forall f :: f in Added(b) ==> InOrder(f, e)
    ensures Attained(Add(b, e))
  {
    hide Less, Ordered, Tiled, Blooms.MayContain, IdsCovered, Flat;
    AddedGrows(b, e);
    if b.block != [] {
      AfterLast(b, e);
      FirstAtMost(b.last);
    }
    var all := Added(b) + [e];
    assert e in all;
    forall k | KeyIn(Added(b), k)
      ensures KeyIn(all, k)
    {
      var f :| f in Added(b) && f.key == k;
      assert f in all;
    }
  }

  lemma FirstAtMost(k: Key)
    ensures AtMost([], k) && (AtMost(k, []) ==> k == []) && !Less(k, [])
  {
  }

  /** Adding in sorted order keeps the builder invariant and appends to what it holds. */
  lemma AddKeepsBuilding(b: Builder, e: Entry)
    requires Building(b)
    requires forall f :: f in Added(b) ==> InOrder(f, e)
    ensures Building(Add(b, e)) && Added(Add(b, e)) == Added(b) + [e]
  {
    hide Less, Running, Attained, IdsCovered, Tiled, Cell, Blooms.MayContain;
    AddedGrows(b, e);
    CoverageGrows(b, e);
    RunningGrows(b, e);
    AttainedGrows(b, e);
    OrderedConcat(Added(b), [e]);
    var n := Noted(b, e);
    if Refuses(n, e) {
      TiledFinish(b, n.first, e);
    } else {
      TiledAppend(b, e);
    }
  }

  /** Building yields a well-formed table with exactly the added versions; it fails only when nothing was added. */
  lemma BuildWellFormed(b: Builder, id: nat)
    requires Building(b)
    ensures Build(b, id).None? <==> Added(b) == []
    ensures Build(b, id).Some? ==> var t := Build(b, id).value;
                                   WellFormed(t) && Entries(t) == Added(b) && t.id == id
  {
    hide Less, BloomCovers, IdsCovered, Ordered, Tiled;
    if b.block != [] {
      FlatConcat(b.blocks, [b.block]);
      FlatOne(b.block);
      BuildTiled(b);
      var x := b.block[|b.block| - 1];
      assert x in Added(b) && x.key == b.last;
    }
  }

  lemma BuildTiled(b: Builder)
    requires Building(b) && b.block != []
    ensures Tiled(b.blocks + [b.block], b.metas + [Meta(b.dataSize, b.first, b.last)])
  {
    hide Less, BloomCovers, IdsCovered, Ordered, Attained, Flat;
    var all, m := b.blocks + [b.block], Meta(b.dataSize, b.first, b.last);
    FlatMembers(b.blocks);
    forall i, j, e | 0 <= i < |b.metas + [m]| && 0 <= j < |all| && e in all[j]
      ensures Cell((b.metas + [m])[i], i, j, e)
    {
      if i == |b.metas| && j < |b.blocks| {
        assert e in b.blocks[j];
      }
    }
  }

  /** Add a whole stream, one version after another. */
  function AddAll(b: Builder, s: seq<Entry>): (r: Builder)
    requires Blooms.Valid(b.bloom)
    ensures Blooms.Valid(r.bloom)
  {
    if s == [] then b else Add(AddAll(b, s[..|s| - 1]), s[|s| - 1])
  }

  lemma LastIsAfter(s: seq<Entry>, n: nat, e: Entry)
    requires Ordered(s) && |s| == n + 1 && s[n] == e
    ensures Ordered(s[..n])
    ensures forall f :: f in s[..n] ==> InOrder(f, e)
  {
    hide Less;
  }

  lemma {:induction false} AddAllBuilding(b: Builder, s: seq<Entry>)
    requires Building(b) && Ordered(Added(b) + s)
    ensures Building(AddAll(b, s)) && Added(AddAll(b, s)) == Added(b) + s
  {
    hide Less, Ordered, Tiled, Running, Attained, Added;
    if s == [] {
      assert Added(b) + s == Added(b);
    } else {
      var n := |s| - 1;
      var all := Added(b) + s;
      assert Added(b) + s[..n] == all[..|all| - 1];
      LastIsAfter(all, |all| - 1, s[n]);
      AddAllBuilding(b, s[..n]);
      var r, e := AddAll(b, s[..n]), s[n];
      AddKeepsBuilding(r, e);
      assert Added(b) + s[..n] + [e] == all;
    }
  }

  /** Any sorted stream of versions builds into one well-formed table that holds exactly the stream. */
  lemma SortedStreamBuilds(capacity: nat, bloom: Blooms.Bloom, s: seq<Entry>, id: nat)
    requires Blooms.Valid(bloom) && Ordered(s) && s != []
    ensures var t := Build(AddAll(NewBuilder(capacity, bloom), s), id);
            t.Some? && WellFormed(t.value) && Entries(t.value) == s && t.value.id == id
  {
    hide Building, WellFormed, AddAll, Build, Ordered, Added;
    var b := NewBuilder(capacity, bloom);
    NewBuilding(capacity, bloom);
    assert Added(b) + s == s;
    AddAllBuilding(b, s);
    BuildWellFormed(AddAll(b, s), id);
  }

  // ---------- reading ----------

  /** Key k occurs in no block but r (in no block at all when r is -1). */
  ghost predicate OnlyIn(t: Sst, k: Key, r: int) {
    forall j, e :: 0 <= j < |t.blocks| && e in t.blocks[j] && e.key == k ==> j == r
  }

  lemma BlocksAreSorted(t: Sst, r: nat)
    requires WellFormed(t) && r < |t.blocks|
    ensures Ordered(t.blocks[r])
  {
    hide Less, Flat, Tiled;
    FlatSplit(t.blocks, r);
    OrderedSlices(Flat(t.blocks[..r]), t.blocks[r], Flat(t.blocks[r + 1..]));
  }

  /** Where a present key must be, relative to the range of block i. */
  lemma Compare(t: Sst, k: Key, i: nat, j: nat, e: Entry)
    requires WellFormed(t) && k != [] && i < |t.metas| && j < |t.blocks|
    requires e in t.blocks[j] && e.key == k
    ensures Less(k, t.metas[i].first) ==> j < i
    ensures Less(t.metas[i].last, k) ==> j > i
    ensures AtMost(t.metas[i].first, k) && AtMost(k, t.metas[i].last) ==> j == i
  {
    hide Less;
    var m := t.metas[i];
    assert Cell(m, i, j, e);
    LessTotal(k, m.first);
    LessTotal(k, m.last);
  }

  /** Bloom test, then binary search over the block ranges. */
  method FindBlockIdx(t: Sst, key: Key) returns (r: int)
    requires WellFormed(t)
    ensures -1 <= r < |t.blocks|
    ensures key != [] ==> OnlyIn(t, key, r)
  {
    hide Less, WellFormed;
    Shape(t);
    var maybe := Blooms.PossiblyContains(t.bloom, key);
    if !maybe {
      Absent(t, key);
      return -1;
    }
    var left, right := 0, |t.metas|;
    while left < right
      invariant 0 <= left <= right <= |t.metas|
      invariant key != [] ==>
                forall j, e :: 0 <= j < |t.blocks| && e in t.blocks[j] && e.key == key ==> left <= j < right
    {
      var mid := (left + right) / 2;
      var meta := t.metas[mid];
      forall j, e | key != [] && 0 <= j < |t.blocks| && e in t.blocks[j] && e.key == key
        ensures Less(key, meta.first) ==> j < mid
        ensures Less(meta.last, key) ==> j > mid
        ensures AtMost(meta.first, key) && AtMost(key, meta.last) ==> j == mid
      {
        Compare(t, key, mid, j, e);
      }
      LessTotal(key, meta.first);
      LessTotal(key, meta.last);
      if Less(key, meta.first) {
        right := mid;
      } else if Less(meta.last, key) {
        left := mid + 1;
      } else {
        return mid;
      }
    }
    if left >= |t.metas| {
      return -1;
    }
    return left;
  }

  lemma Shape(t: Sst)
    requires WellFormed(t)
    ensures 0 < |t.blocks| == |t.metas| && Blooms.Valid(t.bloom)
    ensures t.firstKey == t.metas[0].first && t.lastKey == t.metas[|t.metas| - 1].last
  {
  }

  lemma Absent(t: Sst, key: Key)
    requires WellFormed(t) && !Blooms.MayContain(t.bloom, key)
    ensures OnlyIn(t, key, -1) && forall e :: e in Entries(t) ==> e.key != key
  {
    hide Ordered, Tiled, Blooms.MayContain, Flat;
    FlatMembers(t.blocks);
  }

  /** Outside the key range of the table nothing is found. */
  lemma OutOfRange(t: Sst, key: Key, id: Id)
    requires WellFormed(t) && key != []
    requires Less(key, t.firstKey) || Less(t.lastKey, key)
    ensures First(Entries(t), key, id) == None
  {
    hide Less, Flat, First, Ordered, WellFormed;
    Shape(t);
    FlatMembers(t.blocks);
    forall e | e in Entries(t)
      ensures e.key != key
    {
      var j :| 0 <= j < |t.blocks| && e in t.blocks[j];
      if e.key == key {
        Compare(t, key, 0, j, e);
        Compare(t, key, |t.metas| - 1, j, e);
      }
    }
    FirstNone(Entries(t), key, id);
  }

  /** A point read finds exactly the newest visible version that was added. */
  method Get(t: Sst, key: Key, id: Id) returns (r: Option<Entry>)
    requires WellFormed(t)
    ensures key != [] ==> r == First(Entries(t), key, id)
    ensures r.Some? ==> r.value.key == key
  {
    hide Less, Flat, First, WellFormed, Ordered;
    Shape(t);
    if Less(key, t.firstKey) || Less(t.lastKey, key) {
      if key != [] { OutOfRange(t, key, id); }
      return None;
    }
    var maybe := Blooms.PossiblyContains(t.bloom, key);
    if !maybe {
      Absent(t, key);
      FirstNone(Entries(t), key, id);
      return None;
    }
    var idx := FindBlockIdx(t, key);
    if idx == -1 {
      if key != [] {
        FlatMembers(t.blocks);
        FirstNone(Entries(t), key, id);
      }
      return None;
    }
    BlocksAreSorted(t, idx);
    if key != [] { FirstInRun(t.blocks, idx, key, id); }
    var at := Blocks.GetIdxBinary(t.blocks[idx], key, id);
    r := match at case None => None case Some(i) => Some(t.blocks[idx][i]);
  }
}
