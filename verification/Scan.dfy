/** Scanning the memory tables: MemTable::begin and the walk over what it yields. */
module Scans {
  import opened Versions
  import opened HeapIterators
  import opened MemTables
  import SkipLists

  /** The versions of s a snapshot sees, in order. */
  function VisibleOf(s: seq<Entry>, t: Id): seq<Entry> {
    if s == [] then []
    else if Visible(s[0].id, t) then [s[0]] + VisibleOf(s[1..], t)
    else VisibleOf(s[1..], t)
  }

  lemma {:induction false} VisibleMembers(s: seq<Entry>, t: Id, e: Entry)
    ensures e in VisibleOf(s, t) <==> e in s && Visible(e.id, t)
  {
    if s != [] {
      VisibleMembers(s[1..], t, e);
      assert s == [s[0]] + s[1..];
    }
  }

  lemma {:induction false} VisibleConcat(a: seq<Entry>, b: seq<Entry>, t: Id)
    ensures VisibleOf(a + b, t) == VisibleOf(a, t) + VisibleOf(b, t)
  {
    if a == [] {
      assert a + b == b;
    } else {
      VisibleConcat(a[1..], b, t);
      assert (a + b)[0] == a[0] && (a + b)[1..] == a[1..] + b;
    }
  }

  lemma {:induction false} VisibleForKey(s: seq<Entry>, t: Id, k: Key)
    ensures ForKey(VisibleOf(s, t), k) == VisibleOf(ForKey(s, k), t)
  {
    if s != [] {
      VisibleForKey(s[1..], t, k);
      assert ([s[0]] + VisibleOf(s[1..], t))[1..] == VisibleOf(s[1..], t);
      assert ([s[0]] + ForKey(s[1..], k))[1..] == ForKey(s[1..], k);
    }
  }

  lemma {:induction false} VisibleDescending(s: seq<Entry>, t: Id)
    requires Descending(s)
    ensures Descending(VisibleOf(s, t))
  {
    if s != [] {
      assert Descending(s[1..]) by {
        assert forall i :: 0 <= i < |s[1..]| ==> s[1..][i] == s[i + 1];
      }
      VisibleDescending(s[1..], t);
      var v := VisibleOf(s[1..], t);
      forall j | 0 <= j < |v|
        ensures Supersedes(s[0], v[j])
      {
        VisibleMembers(s[1..], t, v[j]);
        assert v[j] in s[1..];
      }
    }
  }

  lemma VisibleAgeOrdered(s: seq<Entry>, t: Id)
    requires AgeOrdered(s)
    ensures AgeOrdered(VisibleOf(s, t))
  {
    hide ForKey, VisibleOf;
    forall k: Key | k != []
      ensures Descending(ForKey(VisibleOf(s, t), k))
    {
      VisibleForKey(s, t, k);
      VisibleDescending(ForKey(s, k), t);
    }
  }

  /** The filtered tables, as the scan queues them. */
  function VisibleRuns(tables: seq<seq<Entry>>, t: Id): (r: seq<seq<Entry>>)
    ensures |r| == |tables| && forall i :: 0 <= i < |r| ==> r[i] == VisibleOf(tables[i], t)
  {
    seq(|tables|, i requires 0 <= i < |tables| => VisibleOf(tables[i], t))
  }

  lemma {:induction false} VisibleFlat(tables: seq<seq<Entry>>, t: Id)
    ensures Flat(VisibleRuns(tables, t)) == VisibleOf(Flat(tables), t)
  {
    hide Flat;
    FlatCons(tables);
    FlatCons(VisibleRuns(tables, t));
    if tables != [] {
      VisibleFlat(tables[1..], t);
      assert VisibleRuns(tables, t)[1..] == VisibleRuns(tables[1..], t);
      VisibleConcat(tables[0], Flat(tables[1..]), t);
    }
  }

  /** The visible versions of all tables, tagged with the table's place: 0, 1, 2, and so on. */
  function ScanQueue(tables: seq<seq<Entry>>, t: Id): seq<SearchItem> {
    Queue(VisibleRuns(tables, t), seq(|tables|, i => i))
  }

  /** The queue delivers the visible versions in table order. */
  lemma ScanQueueDelivers(tables: seq<seq<Entry>>, t: Id)
    requires AgeOrdered(Flat(tables))
    ensures QueueOk(ScanQueue(tables, t)) && Ordered(Delivery(ScanQueue(tables, t)))
    ensures forall e :: e in Delivery(ScanQueue(tables, t)) <==> e in Flat(tables) && Visible(e.id, t)
  {
    hide Flat, AgeOrdered, Queue, VisibleOf, Delivery, QueueOk, Ordered;
    var runs, idx, q := VisibleRuns(tables, t), seq(|tables|, i => i), ScanQueue(tables, t);
    VisibleFlat(tables, t);
    VisibleAgeOrdered(Flat(tables), t);
    QueueEntries(runs, idx);
    QueueCompatible(runs, idx);
    DeliveryOrdered(q);
    DeliveryPermutes(q);
    SameMultiset(Delivery(q), VisibleOf(Flat(tables), t));
    forall e
      ensures e in VisibleOf(Flat(tables), t) <==> e in Flat(tables) && Visible(e.id, t)
    {
      VisibleMembers(Flat(tables), t, e);
    }
  }

  /** Every version under the marker's key is a marker. */
  ghost predicate PlainMarkers(s: seq<Entry>) {
    forall e :: e in s && e.key == [] ==> e.value == []
  }

  /**
   Exactly the versions a point read returns are shown; of the marker's key at most a value someone
   wrote under it.
   */
  ghost predicate ShowsReads(shown: seq<Entry>, s: seq<Entry>, t: Id) {
    && (forall e: Entry :: e.key != [] ==> (e in shown <==> e.value != [] && First(s, e.key, t) == Some(e)))
    && (forall e :: e in shown && e.key == [] ==> e in s && e.value != [])
    && (forall i, j :: 0 <= i < j < |shown| ==> Less(shown[i].key, shown[j].key))
  }

  /** With nothing but markers under the marker's key, that is the whole truth for every key. */
  lemma PlainShowsReads(shown: seq<Entry>, s: seq<Entry>, t: Id)
    requires ShowsReads(shown, s, t) && PlainMarkers(s)
    ensures forall e :: e in shown <==> e.value != [] && First(s, e.key, t) == Some(e)
  {
    hide First, Less;
  }

  /**
   What the scan shows, against point reads: every key a read finds, once, in order, with the value
   the read returns.
   */
  lemma ShownIsRead(tables: seq<seq<Entry>>, t: Id)
    requires AgeOrdered(Flat(tables))
    ensures ShowsReads(Shown(Delivery(ScanQueue(tables, t)), t, false), Flat(tables), t)
  {
    hide Less, First, Delivery, Live, Shown, AgeOrdered, Ordered, Flat, ScanQueue;
    var s, a := Flat(tables), Delivery(ScanQueue(tables, t));
    ScanQueueDelivers(tables, t);
    AllVisibleNotBuried(a, t, false);
    ShownIsLive(a, t, false);
    LiveIsNewest(a, t);
    OrderedIsAgeOrdered(a);
    forall e: Entry | e.key != []
      ensures First(a, e.key, t) == Some(e) <==> First(s, e.key, t) == Some(e)
    {
      FirstIsNewest(a, e.key, t, e);
      FirstIsNewest(s, e.key, t, e);
    }
  }

  /** Queue one table's visible versions under its index. */
  method QueueTable(data: seq<Entry>, idx: int, t: Id) returns (items: seq<SearchItem>)
    ensures items == QueueRun(VisibleOf(data, t), idx)
  {
    items := [];
    for i := 0 to |data|
      invariant items == QueueRun(VisibleOf(data[..i], t), idx)
    {
      assert data[..i + 1] == data[..i] + [data[i]];
      VisibleConcat(data[..i], [data[i]], t);
      if !(t != 0 && data[i].id > t) {
        items := items + [SearchItem(data[i].key, data[i].value, data[i].id, idx, 0)];
      }
    }
    assert data[..|data|] == data;
  }

  /** Queue the current table under index 0 and the frozen tables under 1, 2, and so on. */
  method Begin(mem: MemTable, t: Id) returns (it: HeapIterator)
    requires mem.Valid() && AgeOrdered(Flat(mem.Tables()))
    ensures mem.Valid() && fresh(it)
    ensures it.Valid() && it.skipDelete && !it.keepAll && it.maxId == t
    ensures it.Rest() != [] ==> Legal(it.Rest()[0], t, true)
    ensures it.ToShow() == Shown(Delivery(ScanQueue(mem.Tables(), t)), t, false)
    ensures ShowsReads(it.ToShow(), Flat(mem.Tables()), t)
  {
    hide SkipLists.SkipList.Valid, SkipLists.SkipList.Contents, VisibleOf, AgeOrdered, Flat, Queue, Shown, Delivery,
         SumBytes, QueueOk, ShowsReads;
    ghost var tables := mem.Tables();
    ghost var runs, idx := VisibleRuns(tables, t), seq(|tables|, i => i);
    var data := mem.current.Flush();
    var items := QueueTable(data, 0, t);
    QueueFirst(runs, idx);
    for i := 0 to |mem.frozen|
      invariant items == Queue(runs[..i + 1], idx[..i + 1])
    {
      data := mem.frozen[i].Flush();
      var more := QueueTable(data, i + 1, t);
      QueueSnoc(runs, idx, i + 1);
      items := items + more;
    }
    assert runs[..|tables|] == runs && idx[..|tables|] == idx;
    ScanQueueDelivers(tables, t);
    ShownIsRead(tables, t);
    it := new HeapIterator(items, t, true, false);
  }

  lemma QueueFirst(runs: seq<seq<Entry>>, idx: seq<int>)
    requires |runs| == |idx| && runs != []
    ensures Queue(runs[..1], idx[..1]) == QueueRun(runs[0], idx[0])
  {
    QueueSnoc(runs, idx, 0);
  }

  /** Walk the scan to its end. */
  method ScanAll(mem: MemTable, t: Id) returns (out: seq<Entry>)
    requires mem.Valid() && AgeOrdered(Flat(mem.Tables()))
    ensures mem.Valid() && ShowsReads(out, Flat(mem.Tables()), t)
    ensures PlainMarkers(Flat(mem.Tables())) ==>
              forall e :: e in out <==> e.value != [] && First(Flat(mem.Tables()), e.key, t) == Some(e)
  {
    hide SkipLists.SkipList.Valid, SkipLists.SkipList.Contents, VisibleOf, AgeOrdered, Flat, Shown, Delivery,
         SumBytes, Less, First, QueueOk, ShowsReads;
    var it := Begin(mem, t);
    out := Drain(it);
    if PlainMarkers(Flat(mem.Tables())) { PlainShowsReads(out, Flat(mem.Tables()), t); }
  }

  /** Step an iterator that shows live keys until it is empty. */
  method Drain(it: HeapIterator) returns (out: seq<Entry>)
    requires it.Valid() && it.skipDelete && !it.keepAll
    requires it.Rest() != [] ==> Legal(it.Rest()[0], it.maxId, true)
    modifies it
    ensures out == old(it.ToShow())
  {
    hide Shown, Delivery, QueueOk, Settled;
    ghost var shown := it.ToShow();
    out := [];
    DeliveryUnfold(it.items);
    while it.items != []
      invariant it.Valid() && (it.items == [] <==> it.Rest() == []) && shown == out + it.ToShow()
      invariant it.Rest() != [] ==> Legal(it.Rest()[0], it.maxId, true)
      decreases |shown| - |out|
    {
      var m := it.TopIndex();
      out := out + [it.items[m].ToEntry()];
      it.Next();
      DeliveryUnfold(it.items);
    }
    NothingToShow(it);
    assert out == shown;
  }

  lemma NothingToShow(it: HeapIterator)
    requires it.Valid() && it.items == []
    ensures it.ToShow() == []
  {
  }
}
