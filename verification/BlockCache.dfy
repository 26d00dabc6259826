/**
 The block cache: LRU-K over two lists. Blocks used fewer than K times wait in one list, the others
 in a second; each list is kept most recently used first.
 */
module BlockCaches {
  import opened Versions
  import opened ByteCodec
  import Blocks = BlockCodecs
  import Files = SstFiles

  /** Table id and block index. */
  type CacheKey = (nat, nat)

  /** `last` is the time of the latest access, counted in accesses. */
  datatype Item = Item(key: CacheKey, block: Blocks.Block, count: nat, last: nat)

  /** Which list an index entry points into. */
  datatype Place = LessK | GreaterK

  // ---------- lists in order of use ----------

  ghost predicate Recency(list: seq<Item>) {
    forall i, j :: 0 <= i < j < |list| ==> list[i].last > list[j].last
  }

  ghost predicate DistinctKeys(list: seq<Item>) {
    forall i, j :: 0 <= i < j < |list| ==> list[i].key != list[j].key
  }

  ghost predicate Has(list: seq<Item>, key: CacheKey) {
    exists i :: 0 <= i < |list| && list[i].key == key
  }

  function Without(list: seq<Item>, i: nat): (r: seq<Item>)
    requires i < |list|
    ensures |r| == |list| - 1
  {
    list[..i] + list[i + 1..]
  }

  /** Taking an item out keeps order and distinctness, and takes out nothing else. */
  lemma WithoutIs(list: seq<Item>, i: nat)
    requires i < |list| && Recency(list) && DistinctKeys(list)
    ensures var r := Without(list, i);
            && Recency(r) && DistinctKeys(r)
            && (forall x :: x in r <==> x in list && x != list[i])
            && (forall key :: Has(r, key) <==> Has(list, key) && key != list[i].key)
  {
    hide Has, Recency, DistinctKeys, Without;
    WithoutOrder(list, i);
    WithoutMember(list, i);
    forall key
      ensures Has(Without(list, i), key) <==> Has(list, key) && key != list[i].key
    {
      WithoutHas(list, i, key);
    }
  }

  lemma WithoutOrder(list: seq<Item>, i: nat)
    requires i < |list| && Recency(list) && DistinctKeys(list)
    ensures Recency(Without(list, i)) && DistinctKeys(Without(list, i))
  {
    var r := Without(list, i);
    assert forall j :: 0 <= j < |r| ==> r[j] == if j < i then list[j] else list[j + 1];
  }

  lemma WithoutHas(list: seq<Item>, i: nat, key: CacheKey)
    requires i < |list| && DistinctKeys(list)
    ensures Has(Without(list, i), key) <==> Has(list, key) && key != list[i].key
  {
    var r := Without(list, i);
    if Has(r, key) {
      var j :| 0 <= j < |r| && r[j].key == key;
      assert list[if j < i then j else j + 1].key == key;
    }
    if Has(list, key) && key != list[i].key {
      var j :| 0 <= j < |list| && list[j].key == key;
      assert r[if j < i then j else j - 1].key == key;
    }
  }

  lemma WithoutMember(list: seq<Item>, i: nat)
    requires i < |list| && DistinctKeys(list)
    ensures forall x :: x in Without(list, i) <==> x in list && x != list[i]
  {
    var r := Without(list, i);
    forall x
      ensures x in r <==> x in list && x != list[i]
    {
      if x in list && x != list[i] {
        var j :| 0 <= j < |list| && list[j] == x;
        assert r[if j < i then j else j - 1] == x;
      }
      if x in r {
        var j :| 0 <= j < |r| && r[j] == x;
        assert x == list[if j < i then j else j + 1];
      }
    }
  }

  lemma HasMember(list: seq<Item>)
    ensures forall key :: Has(list, key) <==> exists x :: x in list && x.key == key
    ensures forall x :: x in list ==> Has(list, x.key)
  {
    forall key
      ensures Has(list, key) <==> exists x :: x in list && x.key == key
    {
      if Has(list, key) {
        var i :| 0 <= i < |list| && list[i].key == key;
        assert list[i] in list;
      }
    }
  }

  /** Putting a newly used item in front. */
  lemma FrontIs(list: seq<Item>, x: Item)
    requires Recency(list) && DistinctKeys(list) && !Has(list, x.key)
    requires forall y :: y in list ==> y.last < x.last
    ensures Recency([x] + list) && DistinctKeys([x] + list)
    ensures forall y :: y in [x] + list <==> y == x || y in list
    ensures forall key :: Has([x] + list, key) <==> key == x.key || Has(list, key)
  {
    hide Has;
    var r := [x] + list;
    assert forall i :: 0 <= i < |list| ==> list[i] in list;
    assert forall i :: 0 < i < |r| ==> r[i] == list[i - 1];
    HasMember(list);
    forall key
      ensures Has(r, key) <==> key == x.key || Has(list, key)
    {
      FrontHas(list, x, key);
    }
  }

  lemma FrontHas(list: seq<Item>, x: Item, key: CacheKey)
    ensures Has([x] + list, key) <==> key == x.key || Has(list, key)
  {
    var r := [x] + list;
    assert r[0] == x;
    if Has(list, key) {
      var i :| 0 <= i < |list| && list[i].key == key;
      assert r[i + 1].key == key;
    }
    if Has(r, key) && key != x.key {
      var i :| 0 <= i < |r| && r[i].key == key;
      assert list[i - 1].key == key;
    }
  }

  /** What both lists share: where each key is, what is cached, and the time. */
  datatype Book = Book(index: map<CacheKey, Place>, contents: map<CacheKey, Blocks.Block>, clock: nat)

  function Forgotten(b: Book, key: CacheKey): Book {
    Book(b.index - {key}, b.contents - {key}, b.clock)
  }

  /** Two books that agree about every other key. */
  ghost predicate AgreeBut(b: Book, b': Book, key: CacheKey) {
    && (forall o :: o != key ==> (o in b'.index <==> o in b.index))
    && (forall o :: o != key && o in b.index ==> b'.index[o] == b.index[o])
    && (forall o :: o != key ==> (o in b'.contents <==> o in b.contents))
    && (forall o :: o != key && o in b.contents ==> b'.contents[o] == b.contents[o])
  }

  /** Every item of a list is indexed there, with its block, and was last used in the past. */
  ghost predicate ListOk(list: seq<Item>, place: Place, b: Book) {
    && Recency(list) && DistinctKeys(list)
    && (forall x :: x in list ==> x.last < b.clock && x.key in b.index && b.index[x.key] == place)
    && (forall x :: x in list ==> x.key in b.contents && b.contents[x.key] == x.block)
    && (forall key :: key in b.index && b.index[key] == place ==> Has(list, key))
  }

  /** The least recently used of a list's items. */
  ghost predicate LeastRecent(list: seq<Item>, key: CacheKey) {
    exists v :: v in list && v.key == key && forall x :: x in list && x != v ==> v.last < x.last
  }

  /** The item to give up: the least recently used one below K uses if there is any, else of the rest. */
  ghost predicate IsVictim(less: seq<Item>, greater: seq<Item>, key: CacheKey) {
    if less != [] then LeastRecent(less, key) else LeastRecent(greater, key)
  }

  lemma LastIsLeastRecent(list: seq<Item>)
    requires list != [] && Recency(list)
    ensures LeastRecent(list, list[|list| - 1].key)
  {
    var v := list[|list| - 1];
    assert v in list;
    forall x | x in list && x != v
      ensures v.last < x.last
    {
      var i :| 0 <= i < |list| && list[i] == x;
    }
  }

  /** An item leaves a list, and its key leaves the index or moves to the other list. */
  lemma Leaves(list: seq<Item>, place: Place, i: nat, b: Book, b': Book)
    requires ListOk(list, place, b) && i < |list| && b.clock <= b'.clock && AgreeBut(b, b', list[i].key)
    requires list[i].key in b'.index ==> b'.index[list[i].key] != place
    ensures ListOk(Without(list, i), place, b')
  {
    hide Without, Recency, DistinctKeys, Has;
    WithoutIs(list, i);
    HasMember(Without(list, i));
  }

  /** An item enters at the front of a list. */
  lemma Enters(list: seq<Item>, place: Place, x: Item, b: Book, b': Book)
    requires ListOk(list, place, b) && !Has(list, x.key) && x.last == b.clock && b'.clock == b.clock + 1
    requires AgreeBut(b, b', x.key) && x.key in b'.index && b'.index[x.key] == place
    requires x.key in b'.contents && b'.contents[x.key] == x.block
    ensures ListOk([x] + list, place, b')
  {
    hide Recency, DistinctKeys, Has;
    FrontIs(list, x);
    HasMember(list);
  }

  /** A change of a key the list does not hold leaves it in order. */
  lemma Elsewhere(list: seq<Item>, place: Place, key: CacheKey, b: Book, b': Book)
    requires ListOk(list, place, b) && b.clock <= b'.clock && !Has(list, key) && AgreeBut(b, b', key)
    requires key in b'.index ==> b'.index[key] != place
    ensures ListOk(list, place, b')
  {
    hide Recency, DistinctKeys, Has;
    HasMember(list);
  }

  // ---------- the state of the cache ----------

  datatype State = State(less: seq<Item>, greater: seq<Item>, book: Book)

  /**
   The index covers exactly the two lists, which share no key; use counts split at K; each list is
   ordered by last use; the capacity is not exceeded.
   */
  ghost predicate CacheOk(s: State, k: nat, capacity: nat) {
    && k >= 2 && capacity >= 1
    && ListOk(s.less, LessK, s.book) && ListOk(s.greater, GreaterK, s.book)
    && Counts(s, k)
    && s.book.contents.Keys == s.book.index.Keys && |s.book.index| == |s.less| + |s.greater| <= capacity
  }

  ghost predicate Counts(s: State, k: nat) {
    && (forall x :: x in s.less ==> 1 <= x.count < k)
    && (forall x :: x in s.greater ==> x.count >= k)
  }

  function Used(item: Item, update: Option<Blocks.Block>, clock: nat): Item {
    item.(count := item.count + 1, last := clock, block := if update.Some? then update.value else item.block)
  }

  /** The book after a use of a block that is now in the given list. */
  function Noted(b: Book, x: Item, place: Place): Book {
    Book(b.index[x.key := place], b.contents[x.key := x.block], b.clock + 1)
  }

  /** A use below K: to the front of its list. */
  function UseLess(s: State, i: nat, update: Option<Blocks.Block>): State
    requires i < |s.less|
  {
    var x := Used(s.less[i], update, s.book.clock);
    s.(less := [x] + Without(s.less, i), book := Noted(s.book, x, LessK))
  }

  /** The K-th use: to the front of the other list. */
  function Promote(s: State, i: nat, update: Option<Blocks.Block>): State
    requires i < |s.less|
  {
    var x := Used(s.less[i], update, s.book.clock);
    State(Without(s.less, i), [x] + s.greater, Noted(s.book, x, GreaterK))
  }

  /** A use beyond K. */
  function UseGreater(s: State, i: nat, update: Option<Blocks.Block>): State
    requires i < |s.greater|
  {
    var x := Used(s.greater[i], update, s.book.clock);
    s.(greater := [x] + Without(s.greater, i), book := Noted(s.book, x, GreaterK))
  }

  function Inserted(s: State, key: CacheKey, block: Blocks.Block): State {
    var x := Item(key, block, 1, s.book.clock);
    s.(less := [x] + s.less, book := Noted(s.book, x, LessK))
  }

  function EvictLess(s: State): State
    requires s.less != []
  {
    var n := |s.less| - 1;
    s.(less := s.less[..n], book := Forgotten(s.book, s.less[n].key))
  }

  function EvictGreater(s: State): State
    requires s.greater != []
  {
    var n := |s.greater| - 1;
    s.(greater := s.greater[..n], book := Forgotten(s.book, s.greater[n].key))
  }

  /** Rewriting an indexed key keeps the size of the index. */
  lemma NotedSize(b: Book, x: Item, place: Place)
    requires b.contents.Keys == b.index.Keys
    ensures Noted(b, x, place).contents.Keys == Noted(b, x, place).index.Keys
    ensures |Noted(b, x, place).index| == |b.index| + (if x.key in b.index then 0 else 1)
  {
    if x.key in b.index {
      assert Noted(b, x, place).index.Keys == b.index.Keys && |b.index| == |b.index.Keys|;
      assert |Noted(b, x, place).index| == |Noted(b, x, place).index.Keys|;
    }
  }

  lemma UseLessOk(s: State, i: nat, update: Option<Blocks.Block>, k: nat, capacity: nat)
    requires CacheOk(s, k, capacity) && i < |s.less| && s.less[i].count + 1 < k
    ensures CacheOk(UseLess(s, i, update), k, capacity)
  {
    hide ListOk, Without;
    var x := Used(s.less[i], update, s.book.clock);
    var b, b' := Forgotten(s.book, x.key), Noted(s.book, x, LessK);
    AtIndex(s.less, LessK, s.book, i);
    NotIn(s.greater, GreaterK, x.key, s.book);
    Leaves(s.less, LessK, i, s.book, b);
    Enters(Without(s.less, i), LessK, x, b, b');
    Elsewhere(s.greater, GreaterK, x.key, s.book, b');
    NotedSize(s.book, x, LessK);
  }

  lemma PromoteOk(s: State, i: nat, update: Option<Blocks.Block>, k: nat, capacity: nat)
    requires CacheOk(s, k, capacity) && i < |s.less| && s.less[i].count + 1 == k
    ensures CacheOk(Promote(s, i, update), k, capacity)
  {
    hide ListOk, Without;
    var x := Used(s.less[i], update, s.book.clock);
    var b' := Noted(s.book, x, GreaterK);
    AtIndex(s.less, LessK, s.book, i);
    NotIn(s.greater, GreaterK, x.key, s.book);
    Leaves(s.less, LessK, i, s.book, b');
    Enters(s.greater, GreaterK, x, s.book, b');
    NotedSize(s.book, x, GreaterK);
  }

  lemma UseGreaterOk(s: State, i: nat, update: Option<Blocks.Block>, k: nat, capacity: nat)
    requires CacheOk(s, k, capacity) && i < |s.greater|
    ensures CacheOk(UseGreater(s, i, update), k, capacity)
  {
    hide ListOk, Without;
    var x := Used(s.greater[i], update, s.book.clock);
    var b, b' := Forgotten(s.book, x.key), Noted(s.book, x, GreaterK);
    AtIndex(s.greater, GreaterK, s.book, i);
    NotIn(s.less, LessK, x.key, s.book);
    Leaves(s.greater, GreaterK, i, s.book, b);
    Enters(Without(s.greater, i), GreaterK, x, b, b');
    Elsewhere(s.less, LessK, x.key, s.book, b');
    NotedSize(s.book, x, GreaterK);
  }

  lemma InsertOk(s: State, key: CacheKey, block: Blocks.Block, k: nat, capacity: nat)
    requires CacheOk(s, k, capacity) && key !in s.book.index && |s.book.index| < capacity
    ensures CacheOk(Inserted(s, key, block), k, capacity)
  {
    hide ListOk;
    var x := Item(key, block, 1, s.book.clock);
    var b' := Noted(s.book, x, LessK);
    NotIn(s.less, LessK, key, s.book);
    NotIn(s.greater, GreaterK, key, s.book);
    Enters(s.less, LessK, x, s.book, b');
    Elsewhere(s.greater, GreaterK, key, s.book, b');
    NotedSize(s.book, x, LessK);
  }

  lemma EvictLessOk(s: State, k: nat, capacity: nat)
    requires CacheOk(s, k, capacity) && s.less != []
    ensures CacheOk(EvictLess(s), k, capacity) && |EvictLess(s).book.index| < |s.book.index|
    ensures s.less[|s.less| - 1].key in s.book.contents && LeastRecent(s.less, s.less[|s.less| - 1].key)
  {
    hide ListOk, LeastRecent;
    GivesUp(s.less, LessK, s.greater, GreaterK, s.book);
  }

  lemma EvictGreaterOk(s: State, k: nat, capacity: nat)
    requires CacheOk(s, k, capacity) && s.greater != []
    ensures CacheOk(EvictGreater(s), k, capacity) && |EvictGreater(s).book.index| < |s.book.index|
    ensures s.greater[|s.greater| - 1].key in s.book.contents && LeastRecent(s.greater, s.greater[|s.greater| - 1].key)
  {
    hide ListOk, LeastRecent;
    GivesUp(s.greater, GreaterK, s.less, LessK, s.book);
  }

  lemma AtIndex(list: seq<Item>, place: Place, b: Book, i: nat)
    requires ListOk(list, place, b) && i < |list|
    ensures list[i].key in b.index && b.index[list[i].key] == place
    ensures list[i].key in b.contents && b.contents[list[i].key] == list[i].block
    ensures !Has(Without(list, i), list[i].key) && forall x :: x in Without(list, i) ==> x in list
  {
    assert list[i] in list;
    WithoutIs(list, i);
  }

  /** A key indexed elsewhere, or not at all, is not in the list. */
  lemma NotIn(list: seq<Item>, place: Place, key: CacheKey, b: Book)
    requires ListOk(list, place, b) && (key in b.index ==> b.index[key] != place)
    ensures !Has(list, key)
  {
    HasMember(list);
  }

  /** Dropping the last node of one list keeps both lists in order. */
  lemma GivesUp(list: seq<Item>, place: Place, other: seq<Item>, elsewhere: Place, b: Book)
    requires ListOk(list, place, b) && ListOk(other, elsewhere, b) && place != elsewhere && list != []
    ensures var n := |list| - 1; var key := list[n].key;
            && key in b.index && key in b.contents && LeastRecent(list, key)
            && ListOk(list[..n], place, Forgotten(b, key)) && ListOk(other, elsewhere, Forgotten(b, key))
            && |b.index - {key}| == |b.index| - 1
  {
    hide ListOk, LeastRecent;
    var n := |list| - 1;
    var key := list[n].key;
    AtIndex(list, place, b, n);
    LastIsLeastRecent(list) by { InRecency(list, place, b); }
    Leaves(list, place, n, b, Forgotten(b, key));
    assert Without(list, n) == list[..n];
    NotIn(other, elsewhere, key, b);
    Elsewhere(other, elsewhere, key, b, Forgotten(b, key));
    assert (b.index - {key}).Keys == b.index.Keys - {key};
    assert |b.index - {key}| == |(b.index - {key}).Keys| && |b.index| == |b.index.Keys|;
  }

  lemma InRecency(list: seq<Item>, place: Place, b: Book)
    requires ListOk(list, place, b)
    ensures Recency(list)
  {
  }

  // ---------- the cache ----------

  class BlockCache {
    const capacity: nat
    const k: nat
    var greater: seq<Item>
    var less: seq<Item>
    var index: map<CacheKey, Place>
    var totalRequests: nat
    var hitRequests: nat
    var clock: nat

    /** What is cached. */
    ghost var contents: map<CacheKey, Blocks.Block>

    ghost function View(): State
      reads this
    {
      State(less, greater, Book(index, contents, clock))
    }

    ghost predicate Valid()
      reads this
    {
      CacheOk(View(), k, capacity) && hitRequests <= totalRequests
    }

    constructor (capacity: nat, k: nat)
      requires capacity >= 1 && k >= 2
      ensures Valid() && contents == map[]
    {
      this.capacity, this.k := capacity, k;
      greater, less, index, totalRequests, hitRequests, clock, contents := [], [], map[], 0, 0, 0, map[];
    }

    /** Look a block up, and count the use. */
    method Get(sst: nat, idx: nat) returns (r: Option<Blocks.Block>)
      requires Valid()
      modifies this
      ensures Valid() && contents == old(contents)
      ensures r == if (sst, idx) in contents then Some(contents[(sst, idx)]) else None
      ensures totalRequests == old(totalRequests) + 1 && hitRequests == old(hitRequests) + if r.Some? then 1 else 0
    {
      hide ListOk, Counts;
      totalRequests := totalRequests + 1;
      var key := (sst, idx);
      if key !in index {
        return None;
      }
      hitRequests := hitRequests + 1;
      var block := UpdateAccessCount(key, None);
      assert contents[key := contents[key]] == contents;
      r := Some(block);
    }

    /** Follow an index entry to its list node. */
    method Find(key: CacheKey) returns (i: nat)
      requires Valid() && key in index
      ensures if index[key] == LessK then i < |less| && less[i].key == key else i < |greater| && greater[i].key == key
    {
      if index[key] == LessK {
        i :| 0 <= i < |less| && less[i].key == key;
      } else {
        i :| 0 <= i < |greater| && greater[i].key == key;
      }
    }

    /**
     Count a use of a cached block: it moves to the front of its list, or to the front of the
     other list on its K-th use. A new block value, if given, replaces the old one.
     */
    method UpdateAccessCount(key: CacheKey, update: Option<Blocks.Block>) returns (block: Blocks.Block)
      requires Valid() && key in index
      modifies this`greater, this`less, this`index, this`clock, this`contents
      ensures Valid() && key in old(contents)
      ensures contents == old(contents)[key := block]
      ensures block == if update.Some? then update.value else old(contents)[key]
    {
      hide CacheOk, Without;
      var i := Find(key);
      Lookup(View(), k, capacity, key, i);
      var item := Used(if index[key] == LessK then less[i] else greater[i], update, clock);
      ghost var s := View();
      assert index[key := index[key]] == index;
      if item.count < k {
        UseLessOk(s, i, update, k, capacity);
        less := [item] + Without(less, i);
      } else if item.count == k {
        PromoteOk(s, i, update, k, capacity);
        less, greater, index := Without(less, i), [item] + greater, index[key := GreaterK];
      } else {
        UseGreaterOk(s, i, update, k, capacity);
        greater := [item] + Without(greater, i);
      }
      clock, contents, block := clock + 1, contents[key := item.block], item.block;
    }

    /**
     Insert a block. When the cache is full the victim goes first: the least recently used block
     below K uses if there is one, otherwise the least recently used of all.
     */
    method Put(sst: nat, idx: nat, block: Blocks.Block) returns (ghost evicted: Option<CacheKey>)
      requires Valid()
      modifies this
      ensures Valid()
      ensures var kept := if evicted.Some? then old(contents) - {evicted.value} else old(contents);
              contents == kept[(sst, idx) := block]
      ensures evicted.Some? <==> (sst, idx) !in old(contents) && |old(contents)| == capacity
      ensures evicted.Some? ==> IsVictim(old(less), old(greater), evicted.value)
    {
      hide ListOk, IsVictim, Counts;
      var key := (sst, idx);
      evicted := None;
      SameSize(contents, index);
      if key in index {
        var _ := UpdateAccessCount(key, Some(block));
      } else {
        if |index| >= capacity {
          evicted := Evict();
        }
        InsertOk(View(), key, block, k, capacity);
        less, index := [Item(key, block, 1, clock)] + less, index[key := LessK];
        contents, clock := contents[key := block], clock + 1;
      }
    }

    method Evict() returns (ghost victim: Option<CacheKey>)
      requires Valid() && |index| >= capacity
      modifies this`less, this`greater, this`index, this`contents
      ensures Valid() && |index| < capacity && victim.Some? && victim.value in old(contents)
      ensures contents == old(contents) - {victim.value} && index.Keys == old(index.Keys) - {victim.value}
      ensures IsVictim(old(less), old(greater), victim.value)
    {
      hide ListOk, LeastRecent, Counts;
      if less != [] {
        var n := |less| - 1;
        var key := less[n].key;
        EvictLessOk(View(), k, capacity);
        victim := Some(key);
        index, contents, less := index - {key}, contents - {key}, less[..n];
      } else {
        var n := |greater| - 1;
        var key := greater[n].key;
        EvictGreaterOk(View(), k, capacity);
        victim := Some(key);
        index, contents, greater := index - {key}, contents - {key}, greater[..n];
      }
    }
  }

  /** The node an index entry leads to holds the key's block, and its use count tells the list. */
  lemma Lookup(s: State, k: nat, capacity: nat, key: CacheKey, i: nat)
    requires CacheOk(s, k, capacity) && key in s.book.index
    requires var list := if s.book.index[key] == LessK then s.less else s.greater; i < |list| && list[i].key == key
    ensures var list := if s.book.index[key] == LessK then s.less else s.greater;
            key in s.book.contents && s.book.contents[key] == list[i].block
    ensures s.book.index[key] == LessK ==> 1 <= s.less[i].count < k
    ensures s.book.index[key] == GreaterK ==> s.greater[i].count >= k
  {
    hide Recency, DistinctKeys, Has;
    if s.book.index[key] == LessK {
      assert s.less[i] in s.less;
    } else {
      assert s.greater[i] in s.greater;
    }
  }

  lemma SameSize(a: map<CacheKey, Blocks.Block>, b: map<CacheKey, Place>)
    requires a.Keys == b.Keys
    ensures |a| == |b|
  {
    assert |a| == |a.Keys| && |b| == |b.Keys|;
  }

  // ---------- reading blocks through the cache ----------

  /** A table's file, and its recovered index. */
  datatype Handle = Handle(id: nat, file: Bytes, table: Files.Opened)

  /** Read and decode a block straight from the file. */
  function Direct(h: Handle, idx: nat): Parsed<Blocks.Block> {
    if idx >= |h.table.metas| then Failed(PastEnd)
    else
      var slice := Files.Slice(h.file, h.table.metas, idx, h.table.metaOffset);
      if slice.Failed? then Failed(slice.fault) else Blocks.Decode(slice.value)
  }

  /** Every cached block is what its table's file holds. `tables` lists every table ever created. */
  ghost predicate Coherent(contents: map<CacheKey, Blocks.Block>, tables: map<nat, Handle>) {
    forall id, idx :: (id, idx) in contents ==>
                        && id in tables && Direct(tables[id], idx).Parsed?
                        && Direct(tables[id], idx).value == contents[(id, idx)]
  }

  /** Table ids are never reused, so a new table keeps the cache coherent. */
  lemma NewTableCoherent(contents: map<CacheKey, Blocks.Block>, tables: map<nat, Handle>, h: Handle)
    requires Coherent(contents, tables) && h.id !in tables
    ensures Coherent(contents, tables[h.id := h])
  {
    hide Direct;
  }

  /** A read through the cache returns exactly what a direct read returns. */
  method ReadBlock(cache: BlockCache, h: Handle, idx: nat, ghost tables: map<nat, Handle>)
    returns (r: Parsed<Blocks.Block>)
    requires cache.Valid() && Coherent(cache.contents, tables) && h.id in tables && tables[h.id] == h
    modifies cache
    ensures cache.Valid() && Coherent(cache.contents, tables)
    ensures r.Parsed? <==> Direct(h, idx).Parsed?
    ensures r.Parsed? ==> r.value == Direct(h, idx).value
    ensures r.Failed? ==> r == Direct(h, idx)
  {
    hide CacheOk, Blocks.Decode, Files.Slice;
    if idx >= |h.table.metas| {
      return Failed(PastEnd);
    }
    var hit := cache.Get(h.id, idx);
    if hit.Some? {
      return Parsed(hit.value, 0);
    }
    var slice := Files.Slice(h.file, h.table.metas, idx, h.table.metaOffset);
    if slice.Failed? {
      return Failed(slice.fault);
    }
    r := Blocks.Decode(slice.value);
    if r.Failed? {
      return;
    }
    ghost var evicted := cache.Put(h.id, idx, r.value);
  }
}
