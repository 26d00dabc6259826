/**
 Merging many sorted sources through a priority queue: the item order, and the heap iterator in
 its two modes (all versions for compaction, newest live version for scans).
 */
module HeapIterators {
  import opened Versions

  datatype SearchItem = SearchItem(key: Key, value: Value, id: Id, idx: int, level: int) {
    function ToEntry(): Entry {
      Entry(key, value, id)
    }
  }

  /** operator> as the queue uses it. */
  predicate Greater(a: SearchItem, b: SearchItem) {
    if a.key != b.key then Less(b.key, a.key)
    else a.id < b.id || a.level < b.level || a.idx > b.idx
  }

  /** On items of one key, a larger id never comes with a larger source index, and levels agree. */
  predicate Compatible(a: SearchItem, b: SearchItem) {
    && a.level == b.level
    && (a.key == b.key && a.id > b.id ==> a.idx <= b.idx)
    && (a.key == b.key && b.id > a.id ==> b.idx <= a.idx)
  }

  /** The intended order: key ascending, id descending, source index ascending. */
  predicate Follows(a: SearchItem, b: SearchItem) {
    || Less(b.key, a.key)
    || (a.key == b.key && (a.id < b.id || (a.id == b.id && a.idx > b.idx)))
  }

  /** On compatible items operator> is the intended strict order. */
  lemma GreaterIsFollows(a: SearchItem, b: SearchItem)
    requires Compatible(a, b)
    ensures Greater(a, b) <==> Follows(a, b)
    ensures !(Greater(a, b) && Greater(b, a))
  {
    LessTotal(a.key, b.key);
  }

  /** On items of one level, operator> contradicts itself exactly when a larger id meets a larger index. */
  lemma GreaterAsymmetricIff(a: SearchItem, b: SearchItem)
    requires a.level == b.level
    ensures !(Greater(a, b) && Greater(b, a)) <==> Compatible(a, b)
  {
    LessTotal(a.key, b.key);
  }

  /**
   Commit markers of two level-0 tables: the queue's order contradicts itself exactly when the newer
   table holds the smaller id. Tables are indexed by their negated ids.
   */
  lemma MarkersContradict(a: Id, newer: nat, b: Id, older: nat)
    requires newer > older
    ensures var x, y := SearchItem([], [], a, 0 - newer, 0), SearchItem([], [], b, 0 - older, 0);
            && (Greater(x, y) && Greater(y, x) <==> a < b)
            && (Compatible(x, y) <==> a >= b)
            && Queue([[Entry([], [], a)], [Entry([], [], b)]], [0 - newer, 0 - older]) == [x, y]
  {
    var x, y := SearchItem([], [], a, 0 - newer, 0), SearchItem([], [], b, 0 - older, 0);
    var runs, idx := [[Entry([], [], a)], [Entry([], [], b)]], [0 - newer, 0 - older];
    assert QueueRun(runs[0], idx[0]) == [x] && QueueRun(runs[1], idx[1]) == [y];
    assert runs[1..] == [runs[1]] && idx[1..] == [idx[1]];
    assert runs[1..][1..] == [] && idx[1..][1..] == [];
    assert Queue(runs[1..], idx[1..]) == [y] + Queue([], []);
  }

  // ---------- what a queue will deliver ----------

  function ToEntries(items: seq<SearchItem>): (s: seq<Entry>)
    ensures |s| == |items| && forall i :: 0 <= i < |s| ==> s[i] == items[i].ToEntry()
  {
    seq(|items|, i requires 0 <= i < |items| => items[i].ToEntry())
  }

  /** The order hypothesis, for every item but the markers: compatible, and no version queued with two values. */
  ghost predicate QueueOk(items: seq<SearchItem>) {
    forall i, j :: 0 <= i < j < |items| && items[i].key != [] ==>
                     Compatible(items[i], items[j]) && OneValue(items[i].ToEntry(), items[j].ToEntry())
  }

  /** operator> never contradicts itself on the queue. */
  predicate Consistent(items: seq<SearchItem>) {
    forall i, j :: 0 <= i < j < |items| ==> Compatible(items[i], items[j])
  }

  /** An item the queue may have on top: in order before all others, and the least if the order is consistent. */
  predicate IsTop(items: seq<SearchItem>, m: nat) {
    && m < |items|
    && (forall j :: 0 <= j < |items| && j != m ==> InOrder(items[m].ToEntry(), items[j].ToEntry()))
    && (Consistent(items) ==> forall j :: 0 <= j < |items| ==> !Follows(items[m], items[j]))
  }

  /** Which of several possible tops a heap shows, where its order leaves that open: any choice will do. */
  const PICK: seq<SearchItem> -> nat

  /** The least of the first n items, by the comparisons a scan makes. */
  function ScanTop(items: seq<SearchItem>, n: nat): (m: nat)
    requires 0 < n <= |items|
    ensures m < n
  {
    if n == 1 then 0
    else
      var m := ScanTop(items, n - 1);
      if Greater(items[m], items[n - 1]) then n - 1 else m
  }

  lemma {:induction false} ScanTopIsTop(items: seq<SearchItem>, n: nat)
    requires QueueOk(items) && 0 < n <= |items|
    ensures forall j :: 0 <= j < n && j != ScanTop(items, n) ==>
              InOrder(items[ScanTop(items, n)].ToEntry(), items[j].ToEntry())
  {
    hide Less, Greater, InOrder;
    if n > 1 {
      ScanTopIsTop(items, n - 1);
      var m, i := ScanTop(items, n - 1), n - 1;
      GreaterIsInOrder(items[m], items[i]);
      if Greater(items[m], items[i]) {
        forall j | 0 <= j < i
          ensures InOrder(items[i].ToEntry(), items[j].ToEntry())
        {
          if j != m { InOrderTransitive(items[i].ToEntry(), items[m].ToEntry(), items[j].ToEntry()); }
        }
      }
    }
  }

  lemma {:induction false} ScanTopIsLeast(items: seq<SearchItem>, n: nat)
    requires Consistent(items) && 0 < n <= |items|
    ensures forall j :: 0 <= j < n ==> !Follows(items[ScanTop(items, n)], items[j])
  {
    hide Less, Greater, Follows, Compatible;
    FollowsOrder(items[0], items[0], items[0]);
    if n > 1 {
      ScanTopIsLeast(items, n - 1);
      var m, i := ScanTop(items, n - 1), n - 1;
      GreaterIsFollows(items[m], items[i]);
      FollowsOrder(items[i], items[i], items[i]);
      if Greater(items[m], items[i]) {
        forall j | 0 <= j < i
          ensures !Follows(items[i], items[j])
        {
          FollowsOrder(items[m], items[i], items[j]);
        }
      }
    }
  }

  lemma FollowsOrder(a: SearchItem, b: SearchItem, c: SearchItem)
    ensures Follows(a, b) && Follows(b, c) ==> Follows(a, c)
    ensures !Follows(a, a)
  {
    LessTotal(a.key, a.key);
    if Less(b.key, a.key) && Less(c.key, b.key) {
      LessTransitive(c.key, b.key, a.key);
    }
  }

  /** Whatever operator> answers, obeying it keeps table order. */
  lemma GreaterIsInOrder(a: SearchItem, b: SearchItem)
    requires a.key != [] ==> Compatible(a, b) && OneValue(a.ToEntry(), b.ToEntry())
    ensures Greater(a, b) ==> InOrder(b.ToEntry(), a.ToEntry())
    ensures !Greater(a, b) ==> InOrder(a.ToEntry(), b.ToEntry())
  {
    LessTotal(a.key, b.key);
  }

  function Top(items: seq<SearchItem>): (m: nat)
    requires items != []
    ensures m < |items|
  {
    if IsTop(items, PICK(items)) then PICK(items) else ScanTop(items, |items|)
  }

  lemma TopIsTop(items: seq<SearchItem>)
    requires QueueOk(items) && items != []
    ensures IsTop(items, Top(items))
  {
    hide InOrder, Follows, Compatible;
    ScanTopIsTop(items, |items|);
    if Consistent(items) {
      ScanTopIsLeast(items, |items|);
    }
  }

  function Without<T>(s: seq<T>, m: nat): (r: seq<T>)
    requires m < |s|
    ensures |r| == |s| - 1
  {
    s[..m] + s[m + 1..]
  }

  lemma WithoutIs<T>(s: seq<T>, m: nat)
    requires m < |s|
    ensures multiset(s) == multiset{s[m]} + multiset(Without(s, m))
    ensures forall i :: 0 <= i < |s| - 1 ==> Without(s, m)[i] == s[if i < m then i else i + 1]
  {
    assert s == s[..m] + [s[m]] + s[m + 1..];
  }

  lemma WithoutOk(items: seq<SearchItem>, m: nat)
    requires QueueOk(items) && m < |items|
    ensures QueueOk(Without(items, m))
  {
    hide Compatible, OneValue;
    WithoutIs(items, m);
  }

  /** Everything queued, in the order it comes to the top. */
  function Delivery(items: seq<SearchItem>): seq<Entry>
    decreases |items|
  {
    if items == [] then [] else [items[Top(items)].ToEntry()] + Delivery(Without(items, Top(items)))
  }

  lemma DeliveryUnfold(items: seq<SearchItem>)
    ensures items == [] <==> Delivery(items) == []
    ensures items != [] ==> Delivery(items) == [items[Top(items)].ToEntry()] + Delivery(Without(items, Top(items)))
  {
  }

  /** The queue delivers every version once. */
  lemma {:induction false} DeliveryPermutes(items: seq<SearchItem>)
    ensures multiset(Delivery(items)) == multiset(ToEntries(items))
    decreases |items|
  {
    hide Delivery, Top;
    DeliveryUnfold(items);
    if items != [] {
      var m := Top(items);
      DeliveryPermutes(Without(items, m));
      WithoutIs(ToEntries(items), m);
      assert ToEntries(Without(items, m)) == Without(ToEntries(items), m);
    }
  }

  /** The queue delivers in table order, however its markers contradict each other. */
  lemma {:induction false} DeliveryOrdered(items: seq<SearchItem>)
    requires QueueOk(items)
    ensures Ordered(Delivery(items))
    decreases |items|
  {
    hide Delivery, Top, QueueOk, InOrder;
    DeliveryUnfold(items);
    if items != [] {
      var m := Top(items);
      TopIsTop(items);
      WithoutOk(items, m);
      var rest := Without(items, m);
      DeliveryOrdered(rest);
      DeliveryPermutes(rest);
      SameMultiset(Delivery(rest), ToEntries(rest));
      WithoutIs(items, m);
      assert forall i :: 0 <= i < |rest| ==> InOrder(items[m].ToEntry(), ToEntries(rest)[i]);
      OrderedCons(items[m].ToEntry(), Delivery(rest));
    }
  }

  /**
   Where the order is consistent and no version is queued twice, markers included, the delivery is
   sorted outright.
   */
  lemma {:induction false} DeliverySorted(items: seq<SearchItem>)
    requires QueueOk(items) && Consistent(items) && DistinctVersions(ToEntries(items))
    ensures Sorted(Delivery(items))
    decreases |items|
  {
    hide Delivery, Top, QueueOk, InOrder, Before, Follows, Compatible;
    DeliveryUnfold(items);
    if items != [] {
      var m := Top(items);
      TopIsTop(items);
      WithoutOk(items, m);
      var rest := Without(items, m);
      WithoutIs(items, m);
      assert DistinctVersions(ToEntries(rest));
      DeliverySorted(rest);
      DeliveryPermutes(rest);
      SameMultiset(Delivery(rest), ToEntries(rest));
      forall f | f in Delivery(rest)
        ensures Before(items[m].ToEntry(), f)
      {
        var i :| 0 <= i < |rest| && ToEntries(rest)[i] == f;
        var j := if i < m then i else i + 1;
        assert !Follows(items[m], items[j]) && items[j].ToEntry() == f;
        assert !SameVersion(ToEntries(items)[m], ToEntries(items)[j]);
        LeastIsBefore(items[m], items[j]);
      }
      SortedCons(items[m].ToEntry(), Delivery(rest));
    }
  }

  lemma LeastIsBefore(a: SearchItem, b: SearchItem)
    requires !Follows(a, b) && !SameVersion(a.ToEntry(), b.ToEntry())
    ensures Before(a.ToEntry(), b.ToEntry())
  {
    LessTotal(a.key, b.key);
  }

  lemma SortedCons(e: Entry, s: seq<Entry>)
    requires Sorted(s) && forall f :: f in s ==> Before(e, f)
    ensures Sorted([e] + s)
  {
    hide Before;
  }

  lemma OrderedCons(e: Entry, s: seq<Entry>)
    requires Ordered(s) && forall f :: f in s ==> InOrder(e, f)
    ensures Ordered([e] + s)
  {
    hide InOrder;
  }

  // ---------- filling the queue from runs, newest first ----------

  function QueueRun(s: seq<Entry>, idx: int): (q: seq<SearchItem>)
    ensures |q| == |s|
    ensures forall i :: 0 <= i < |q| ==> q[i].ToEntry() == s[i] && q[i].idx == idx && q[i].level == 0
  {
    seq(|s|, i requires 0 <= i < |s| => SearchItem(s[i].key, s[i].value, s[i].id, idx, 0))
  }

  /** Each run's entries tagged with the run's index. */
  function Queue(runs: seq<seq<Entry>>, idx: seq<int>): seq<SearchItem>
    requires |runs| == |idx|
  {
    if runs == [] then [] else QueueRun(runs[0], idx[0]) + Queue(runs[1..], idx[1..])
  }

  lemma {:induction false} QueueSnoc(runs: seq<seq<Entry>>, idx: seq<int>, n: nat)
    requires |runs| == |idx| && n < |runs|
    ensures Queue(runs[..n + 1], idx[..n + 1]) == Queue(runs[..n], idx[..n]) + QueueRun(runs[n], idx[n])
  {
    hide QueueRun;
    if n > 0 {
      QueueSnoc(runs[1..], idx[1..], n - 1);
      assert runs[1..][..n] == runs[..n + 1][1..] && idx[1..][..n] == idx[..n + 1][1..];
      assert runs[1..][..n - 1] == runs[..n][1..] && idx[1..][..n - 1] == idx[..n][1..];
    } else {
      assert runs[..1] == [runs[0]] && idx[..1] == [idx[0]];
      assert runs[..1][1..] == [] && idx[..1][1..] == [];
    }
  }

  lemma {:induction false} QueueEntries(runs: seq<seq<Entry>>, idx: seq<int>)
    requires |runs| == |idx|
    ensures ToEntries(Queue(runs, idx)) == Flat(runs)
  {
    hide Flat;
    FlatCons(runs);
    if runs != [] {
      QueueEntries(runs[1..], idx[1..]);
    }
  }

  /**
   The order hypothesis holds of what the store queues, markers apart: newer runs have smaller
   indices and larger ids.
   */
  lemma {:induction false} QueueCompatible(runs: seq<seq<Entry>>, idx: seq<int>)
    requires |runs| == |idx| && AgeOrdered(Flat(runs))
    requires forall i, j :: 0 <= i < j < |idx| ==> idx[i] <= idx[j]
    ensures QueueOk(Queue(runs, idx))
    ensures forall x :: x in Queue(runs, idx) ==>
              x.level == 0 && x.ToEntry() in Flat(runs) && (idx != [] ==> idx[0] <= x.idx)
  {
    hide Flat, AgeOrdered;
    FlatCons(runs);
    if runs != [] {
      var tail := Flat(runs[1..]);
      AgeOrderedParts(runs[0], tail);
      AgeOrderedAgrees(runs[0]);
      QueueCompatible(runs[1..], idx[1..]);
      var a, b := QueueRun(runs[0], idx[0]), Queue(runs[1..], idx[1..]);
      forall i, j | 0 <= i < |a| && 0 <= j < |b| && a[i].key != []
        ensures Compatible(a[i], b[j]) && OneValue(a[i].ToEntry(), b[j].ToEntry())
      {
        assert a[i].ToEntry() in runs[0] && b[j] in b;
      }
    }
  }

  lemma AgeOrderedAgrees(s: seq<Entry>)
    requires AgeOrdered(s)
    ensures forall i, j :: 0 <= i < j < |s| && s[i].key != [] ==> OneValue(s[i], s[j])
  {
    hide AgeOrdered, ForKey;
    forall i, j | 0 <= i < j < |s| && s[i].key != []
      ensures OneValue(s[i], s[j])
    {
      assert s == s[..j] + s[j..];
      AgeOrderedParts(s[..j], s[j..]);
      assert s[i] in s[..j] && s[j] in s[j..];
    }
  }

  // ---------- the newest live version of each key ----------

  /** Drop the leading versions of key k. */
  function DropKey(s: seq<Entry>, k: Key): (r: seq<Entry>)
    ensures |r| <= |s|
  {
    if s != [] && s[0].key == k then DropKey(s[1..], k) else s
  }

  /** The first version the snapshot sees among the leading versions of key k. */
  function Lead(s: seq<Entry>, k: Key, t: Id): Option<Entry> {
    if s == [] || s[0].key != k then None
    else if Visible(s[0].id, t) then Some(s[0])
    else Lead(s[1..], k, t)
  }

  /** Per key its first visible version, unless that version is a deletion. */
  function Live(s: seq<Entry>, t: Id): seq<Entry>
    decreases |s|
  {
    if s == [] then []
    else
      var v, rest := Lead(s, s[0].key, t), DropKey(s[1..], s[0].key);
      if v.Some? && v.value.value != [] then [v.value] + Live(rest, t) else Live(rest, t)
  }

  /** In an ordered run, dropping the head's key leaves exactly the other keys, all larger. */
  lemma {:induction false} DropKeyOrdered(s: seq<Entry>, k: Key)
    requires Ordered(s) && forall e :: e in s ==> AtMost(k, e.key)
    ensures Ordered(DropKey(s, k))
    ensures forall e :: e in DropKey(s, k) <==> e in s && e.key != k
    ensures forall t, key :: key != k ==> First(DropKey(s, k), key, t) == First(s, key, t)
    ensures forall t :: First(s, k, t) == Lead(s, k, t)
  {
    hide Less;
    if s != [] && s[0].key == k {
      TailOrdered(s);
      TailMembers(s);
      DropKeyOrdered(s[1..], k);
    } else if s != [] {
      forall e | e in s
        ensures e.key != k
      {
        var j :| 0 <= j < |s| && s[j] == e;
        assert s[0] in s;
        if j > 0 { assert InOrder(s[0], s[j]); }
        LessTotal(k, s[0].key);
        LessTotal(s[0].key, e.key);
        if Less(k, s[0].key) && Less(s[0].key, e.key) { LessTransitive(k, s[0].key, e.key); }
        LessTotal(k, e.key);
      }
      forall t
        ensures First(s, k, t) == None
      {
        FirstNone(s, k, t);
      }
    }
  }

  lemma TailMembers<T>(s: seq<T>)
    requires s != []
    ensures forall x :: x in s <==> x == s[0] || x in s[1..]
  {
    assert s == [s[0]] + s[1..];
  }

  lemma TailOrdered(s: seq<Entry>)
    requires Ordered(s) && s != []
    ensures Ordered(s[1..])
    ensures forall e :: e in s[1..] ==> InOrder(s[0], e) && AtMost(s[0].key, e.key)
  {
    hide Less;
  }

  /** What a scan must show: each key once, in order, with the version a read returns, deletions left out. */
  lemma {:induction false} LiveIsNewest(s: seq<Entry>, t: Id)
    requires Ordered(s)
    ensures forall e :: e in Live(s, t) <==> e.value != [] && First(s, e.key, t) == Some(e)
    ensures forall i, j :: 0 <= i < j < |Live(s, t)| ==> Less(Live(s, t)[i].key, Live(s, t)[j].key)
    decreases |s|
  {
    hide Less, Ordered, First, InOrder;
    if s == [] {
      assert forall k: Key :: First(s, k, t) == None;
    } else {
      TailOrdered(s);
      TailMembers(s);
      var k, rest := s[0].key, DropKey(s[1..], s[0].key);
      HeadKey(s, t);
      LiveIsNewest(rest, t);
      forall e | e in Live(rest, t)
        ensures Less(k, e.key)
      {
        assert e in rest;
        LessTotal(k, e.key);
      }
    }
  }

  /** The head's key and the rest of an ordered run, as reads see them. */
  lemma HeadKey(s: seq<Entry>, t: Id)
    requires Ordered(s) && s != []
    ensures var k, rest := s[0].key, DropKey(s[1..], s[0].key);
            && Ordered(rest) && First(s, k, t) == Lead(s, k, t)
            && (forall e :: e in rest ==> e.key != k && AtMost(k, e.key))
            && (forall key :: key != k ==> First(s, key, t) == First(rest, key, t))
            && First(rest, k, t) == None
            && (Lead(s, k, t).Some? ==> Lead(s, k, t).value.key == k)
  {
    hide Less, InOrder;
    var k, rest := s[0].key, DropKey(s[1..], s[0].key);
    TailOrdered(s);
    DropKeyOrdered(s[1..], k);
    assert forall key :: key != k ==> First(s, key, t) == First(s[1..], key, t);
    FirstNone(rest, k, t);
    if Lead(s, k, t).Some? { LeadKey(s, k, t); }
  }

  lemma {:induction false} LeadKey(s: seq<Entry>, k: Key, t: Id)
    ensures Lead(s, k, t).Some? ==> Lead(s, k, t).value.key == k && Lead(s, k, t).value in s
  {
    if s != [] && s[0].key == k && !Visible(s[0].id, t) {
      LeadKey(s[1..], k, t);
    }
  }

  // ---------- what the iterator shows ----------

  /** Is the top fit to show? */
  predicate Legal(e: Entry, t: Id, skipDelete: bool) {
    Visible(e.id, t) && (skipDelete ==> e.value != [])
  }

  /** Pop what the snapshot does not see. */
  function SkipHidden(s: seq<Entry>, t: Id): (r: seq<Entry>)
    ensures |r| <= |s| && (s != [] && !Visible(s[0].id, t) ==> |r| < |s|) && (s == [] || Visible(s[0].id, t) ==> r == s)
  {
    if s != [] && !Visible(s[0].id, t) then SkipHidden(s[1..], t) else s
  }

  /** Pop deletions, visible or not, each with the rest of its key unless all versions are kept. */
  function DropDeleted(s: seq<Entry>, keepAll: bool): (r: seq<Entry>)
    ensures |r| <= |s| && (s != [] && s[0].value == [] ==> |r| < |s|)
    decreases |s|
  {
    if s != [] && s[0].value == []
    then DropDeleted(if keepAll then s[1..] else DropKey(s[1..], s[0].key), keepAll)
    else s
  }

  /** Repeat both until the top is fit to show. */
  function Settled(s: seq<Entry>, t: Id, skipDelete: bool, keepAll: bool): (r: seq<Entry>)
    ensures r != [] ==> Legal(r[0], t, skipDelete)
    decreases |s|
  {
    if s == [] || Legal(s[0], t, skipDelete) then s
    else
      var seen := SkipHidden(s, t);
      Settled(if skipDelete then DropDeleted(seen, keepAll) else seen, t, skipDelete, keepAll)
  }

  /**
   What a scan shows, key by key. While deletions are being dropped, a key whose first version is a
   deletion goes too, even one the snapshot does not see.
   */
  function Shown(s: seq<Entry>, t: Id, dropping: bool): seq<Entry>
    decreases |s|
  {
    if s == [] then []
    else
      var v, rest := Lead(s, s[0].key, t), DropKey(s[1..], s[0].key);
      if dropping && s[0].value == [] then Shown(rest, t, true)
      else if v.None? then Shown(rest, t, false)
      else if v.value.value == [] then Shown(rest, t, true)
      else [v.value] + Shown(rest, t, false)
  }

  /** A live key lies under a deletion from the snapshot's future, directly after a dropped key. */
  predicate Buried(s: seq<Entry>, t: Id, dropping: bool)
    decreases |s|
  {
    s != [] &&
    var v, rest := Lead(s, s[0].key, t), DropKey(s[1..], s[0].key);
    if dropping && s[0].value == [] then (v.Some? && v.value.value != []) || Buried(rest, t, true)
    else Buried(rest, t, v.Some? && v.value.value == [])
  }

  /** The scan shows every live key exactly when none is buried. */
  lemma {:induction false} ShownIsLive(s: seq<Entry>, t: Id, dropping: bool)
    ensures Shown(s, t, dropping) == Live(s, t) <==> !Buried(s, t, dropping)
    ensures |Shown(s, t, dropping)| <= |Live(s, t)|
    ensures Buried(s, t, dropping) ==> |Shown(s, t, dropping)| < |Live(s, t)|
    decreases |s|
  {
    if s != [] {
      var rest := DropKey(s[1..], s[0].key);
      ShownIsLive(rest, t, true);
      ShownIsLive(rest, t, false);
    }
  }

  /** When every queued version is visible, nothing is buried. */
  lemma {:induction false} AllVisibleNotBuried(s: seq<Entry>, t: Id, dropping: bool)
    requires forall e :: e in s ==> Visible(e.id, t)
    ensures !Buried(s, t, dropping)
    decreases |s|
  {
    if s != [] {
      assert s[0] in s;
      DropKeyMembers(s[1..], s[0].key);
      AllVisibleNotBuried(DropKey(s[1..], s[0].key), t, true);
      AllVisibleNotBuried(DropKey(s[1..], s[0].key), t, false);
    }
  }

  lemma {:induction false} DropKeyMembers(s: seq<Entry>, k: Key)
    ensures forall e :: e in DropKey(s, k) ==> e in s
  {
    if s != [] && s[0].key == k {
      DropKeyMembers(s[1..], k);
    }
  }

  /** A scan as of 3 loses the live key [2]: its deletion at 9 is dropped along with the deleted key [1]. */
  lemma LiveKeyCanBeBuried()
    ensures var s := [Entry([1], [], 1), Entry([2], [], 9), Entry([2], [7], 2)];
            && Ordered(s) && Buried(s, 3, false)
            && Shown(s, 3, false) == [] && Live(s, 3) == [Entry([2], [7], 2)]
  {
    var a, b, c := Entry([1], [], 1), Entry([2], [], 9), Entry([2], [7], 2);
    var s := [a, b, c];
    assert s[1..] == [b, c] && [b, c][1..] == [c] && [c][1..] == [];
    assert DropKey([b, c], [1]) == [b, c] && DropKey([c], [2]) == DropKey([], [2]) == [];
    assert Lead([b, c], [2], 3) == Lead([c], [2], 3) == Some(c);
    assert Live([], 3) == [] && Live([b, c], 3) == [c] + Live([], 3);
    assert Shown([], 3, true) == [] && Shown([b, c], 3, true) == [];
  }

  // ---------- settling does not change what is shown ----------

  lemma {:induction false} SkipHiddenShows(s: seq<Entry>, t: Id)
    ensures Shown(SkipHidden(s, t), t, false) == Shown(s, t, false)
  {
    if s != [] && !Visible(s[0].id, t) {
      SkipHiddenShows(s[1..], t);
      var rest := s[1..];
      if rest != [] && rest[0].key == s[0].key {
        assert DropKey(rest, s[0].key) == DropKey(rest[1..], s[0].key);
      } else {
        assert DropKey(rest, s[0].key) == rest && Lead(rest, s[0].key, t) == None;
        assert Shown(s, t, false) == Shown(rest, t, false);
      }
    }
  }

  lemma {:induction false} DropDeletedShows(s: seq<Entry>, t: Id)
    ensures Shown(DropDeleted(s, false), t, false) == Shown(s, t, true)
    decreases |s|
  {
    if s != [] && s[0].value == [] {
      DropDeletedShows(DropKey(s[1..], s[0].key), t);
    }
  }

  lemma {:induction false} SettledShows(s: seq<Entry>, t: Id)
    ensures Shown(Settled(s, t, true, false), t, false) == Shown(s, t, false)
    decreases |s|
  {
    if s != [] && !Legal(s[0], t, true) {
      var seen := SkipHidden(s, t);
      SkipHiddenShows(s, t);
      DropDeletedShows(seen, t);
      SettledShows(DropDeleted(seen, false), t);
      SkipHiddenTop(s, t);
    }
  }

  lemma {:induction false} SkipHiddenTop(s: seq<Entry>, t: Id)
    ensures SkipHidden(s, t) != [] ==> Visible(SkipHidden(s, t)[0].id, t)
  {
    if s != [] && !Visible(s[0].id, t) {
      SkipHiddenTop(s[1..], t);
    }
  }

  // ---------- the iterator ----------

  class HeapIterator {
    var items: seq<SearchItem>
    const maxId: Id
    const skipDelete: bool
    const keepAll: bool

    ghost predicate Valid()
      reads this
    {
      QueueOk(items)
    }

    /** Everything queued, in the order the queue delivers it. */
    ghost function Rest(): seq<Entry>
      reads this
    {
      Delivery(items)
    }

    /** What is left to show in the mode that skips old versions and deletions. */
    ghost function ToShow(): seq<Entry>
      reads this
    {
      Shown(Rest(), maxId, false)
    }

    /** The queue's top. */
    method TopIndex() returns (m: nat)
      requires Valid() && items != []
      ensures m < |items| && m == Top(items) && Rest() != [] && Rest()[0] == items[m].ToEntry()
    {
      hide Greater, Delivery, ScanTop, InOrder;
      DeliveryUnfold(items);
      if IsTop(items, PICK(items)) {
        return PICK(items);
      }
      m := 0;
      ScanOne(items);
      for i := 1 to |items|
        invariant m < i && m == ScanTop(items, i)
      {
        ScanNext(items, i);
        if Greater(items[m], items[i]) {
          m := i;
        }
      }
    }

    constructor (items: seq<SearchItem>, maxId: Id, skipDelete: bool, keepAll: bool)
      requires QueueOk(items)
      ensures Valid() && this.maxId == maxId && this.skipDelete == skipDelete && this.keepAll == keepAll
      ensures Rest() == Settled(Delivery(items), maxId, skipDelete, keepAll)
      ensures skipDelete && !keepAll ==> ToShow() == Shown(Delivery(items), maxId, false)
    {
      this.items, this.maxId, this.skipDelete, this.keepAll := items, maxId, skipDelete, keepAll;
      new;
      SettledShows(Delivery(items), maxId);
      Settle();
    }

    /** Remove the top. */
    method Pop()
      requires Valid() && items != []
      modifies this
      ensures Valid() && Rest() == old(Rest())[1..] && |items| == |old(items)| - 1
    {
      hide Delivery, QueueOk, Top;
      DeliveryUnfold(items);
      var m := TopIndex();
      WithoutOk(items, m);
      items := Without(items, m);
    }

    /** Remove every item of a key that is on top. */
    method DropTop(key: Key)
      requires Valid()
      modifies this
      ensures Valid() && Rest() == DropKey(old(Rest()), key)
    {
      hide Delivery, QueueOk, Top;
      while items != []
        invariant Valid() && DropKey(Rest(), key) == DropKey(old(Rest()), key)
        decreases |items|
      {
        var m := TopIndex();
        if items[m].key != key {
          return;
        }
        Pop();
      }
      DeliveryUnfold(items);
    }

    method TopValueLegal() returns (legal: bool)
      requires Valid()
      ensures legal <==> Rest() == [] || Legal(Rest()[0], maxId, skipDelete)
    {
      hide Delivery, QueueOk, Top;
      DeliveryUnfold(items);
      if items == [] {
        return true;
      }
      var m := TopIndex();
      if maxId == 0 || items[m].id <= maxId {
        return if skipDelete then |items[m].value| > 0 else true;
      }
      return false;
    }

    /** Until the top is fit to show: pop what is invisible, then deletions. */
    method Settle()
      requires Valid()
      modifies this
      ensures Valid() && Rest() == Settled(old(Rest()), maxId, skipDelete, keepAll)
    {
      hide Delivery, QueueOk, Top;
      var legal := TopValueLegal();
      while !legal
        invariant Valid()
        invariant Settled(Rest(), maxId, skipDelete, keepAll) == Settled(old(Rest()), maxId, skipDelete, keepAll)
        invariant legal <==> Rest() == [] || Legal(Rest()[0], maxId, skipDelete)
        decreases |Rest()|
      {
        SkipByTrancId();
        if skipDelete {
          SkipDeleted();
        }
        legal := TopValueLegal();
      }
    }

    /** Pop items newer than the snapshot from the top. */
    method SkipByTrancId()
      requires Valid()
      modifies this
      ensures Valid() && Rest() == SkipHidden(old(Rest()), maxId)
    {
      hide Delivery, QueueOk, Top;
      if maxId == 0 {
        return;
      }
      while items != []
        invariant Valid() && SkipHidden(Rest(), maxId) == SkipHidden(old(Rest()), maxId)
        decreases |items|
      {
        var m := TopIndex();
        if items[m].id <= maxId {
          return;
        }
        Pop();
      }
      DeliveryUnfold(items);
    }

    /** Pop deletions from the top, each with the rest of its key unless all versions are kept. */
    method SkipDeleted()
      requires Valid()
      modifies this
      ensures Valid() && Rest() == DropDeleted(old(Rest()), keepAll)
    {
      hide Delivery, QueueOk, Top;
      DeliveryUnfold(items);
      while items != []
        invariant Valid() && DropDeleted(Rest(), keepAll) == DropDeleted(old(Rest()), keepAll)
        invariant items == [] <==> Rest() == []
        decreases |Rest()|
      {
        var m := TopIndex();
        if |items[m].value| > 0 {
          return;
        }
        var key := items[m].key;
        Pop();
        if !keepAll {
          DropTop(key);
        }
        DeliveryUnfold(items);
      }
    }

    /** Advance: to the next version when all are kept, else past every version of the current key. */
    method Next()
      requires Valid()
      modifies this
      ensures Valid()
      ensures old(items) == [] ==> items == []
      ensures old(items) != [] ==>
                old(Rest()) != [] &&
                var e, rest := old(Rest())[0], old(Rest())[1..];
                Rest() == Settled(if keepAll then rest else DropKey(rest, e.key), maxId, skipDelete, keepAll)
      ensures old(items) != [] && skipDelete && !keepAll && Legal(old(Rest())[0], maxId, true) ==>
                old(ToShow()) == [old(Rest())[0]] + ToShow()
    {
      hide Delivery, QueueOk, Top;
      if items == [] {
        return;
      }
      var m := TopIndex();
      var key := items[m].key;
      ghost var before := Rest();
      Pop();
      if !keepAll {
        DropTop(key);
      }
      SettledShows(Rest(), maxId);
      Settle();
    }
  }

  lemma ScanOne(items: seq<SearchItem>)
    requires items != []
    ensures ScanTop(items, 1) == 0
  {
  }

  lemma ScanNext(items: seq<SearchItem>, i: nat)
    requires 0 < i < |items|
    ensures ScanTop(items, i + 1) == if Greater(items[ScanTop(items, i)], items[i]) then i else ScanTop(items, i)
  {
  }
}
