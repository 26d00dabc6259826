/**
 One session of the store as a state machine: writes, commits, aborts, freezes and flushes in any
 order, a crash at any point. What the flushed-id set claims is on disk is on disk, so replaying the
 logged transactions outside it loses no committed write.
 */
module Sessions {
  import opened Versions
  import opened IdLists
  import opened FlushedIds

  /**
   tables: memory, newest first, the current table at the head. queue: commit markers that have
   reached the disk and are not yet reported. log: what each committed transaction wrote.
   applied: logged transactions whose writes and marker have been put in memory.
   */
  datatype State = State(
    tables: seq<set<Entry>>,
    disk: set<Entry>,
    queue: seq<Id>,
    ready: Ready,
    flushed: seq<Id>,
    log: map<Id, map<Key, Value>>,
    applied: set<Id>,
    aborted: set<Id>)

  datatype Event =
    | Write(e: Entry)
    | Log(id: Id, writes: map<Key, Value>)
    | ApplyBuffered(id: Id)
    | ApplyDirect(id: Id)
    | Abort(id: Id)
    | MarkReady(id: Id, st: TransactionState)
    | FreezeTable
    | FlushOldest(markers: seq<Id>)
    | ReportFlushed

  function Marker(id: Id): Entry {
    Entry([], [], id)
  }

  function Writes(writes: map<Key, Value>, id: Id): set<Entry> {
    set k | k in writes :: Entry(k, writes[k], id)
  }

  /** Put versions in a table; a version with the same key and id is replaced. */
  function Put(table: set<Entry>, es: set<Entry>): set<Entry> {
    (set f | f in table && !(exists e :: e in es && SameVersion(e, f))) + es
  }

  function Oldest(s: State): set<Entry>
    requires s.tables != []
  {
    s.tables[|s.tables| - 1]
  }

  function Next(s: State, ev: Event): State
    requires s.tables != []
  {
    match ev
    case Write(e) => s.(tables := s.tables[0 := Put(s.tables[0], {e})])
    case Log(id, writes) => s.(log := s.log[id := writes])
    case ApplyBuffered(id) =>
      if id in s.log then
        s.(tables := s.tables[0 := Put(s.tables[0], Writes(s.log[id], id) + {Marker(id)})], applied := s.applied + {id})
      else s
    case ApplyDirect(id) =>
      s.(tables := s.tables[0 := Put(s.tables[0], {Marker(id)})], applied := s.applied + {id})
    case Abort(id) => s.(aborted := s.aborted + {id})
    case MarkReady(id, st) => s.(ready := Assigned(s.ready, id, st))
    case FreezeTable => s.(tables := [{}] + s.tables)
    case FlushOldest(markers) =>
      s.(tables := if |s.tables| == 1 then [{}] else s.tables[..|s.tables| - 1],
         disk := s.disk + Oldest(s), queue := s.queue + markers)
    case ReportFlushed =>
      if s.queue == [] then s
      else s.(queue := s.queue[1..],
              flushed := AfterMarker(s.flushed, s.ready, s.queue[0]),
              ready := Without(s.ready, Settles(s.ready, s.queue[0])))
  }

  /**
   When a step may happen. A transaction is logged once, if it has not aborted, and writes nothing
   afterwards; then its buffered writes and its marker go to memory in one step. A read-uncommitted
   transaction has put its writes already and adds only the marker.
   */
  ghost predicate Enabled(s: State, ev: Event)
    requires s.tables != []
  {
    match ev
    case Write(e) => e.key != [] && e.id !in s.log
    case Log(id, writes) => id !in s.log && id !in s.aborted && [] !in writes
    case ApplyBuffered(id) => id in s.log && id !in s.applied
    case ApplyDirect(id) =>
      id in s.log && id !in s.applied && forall k :: k in s.log[id] ==> Held(s, Entry(k, s.log[id][k], id))
    case Abort(id) => id !in s.log
    case MarkReady(id, st) => if st == Aborted then id in s.aborted else id in s.log
    case FreezeTable => true
    case FlushOldest(markers) => forall x :: x in markers <==> Marker(x) in Oldest(s)
    case ReportFlushed => s.queue != []
  }

  ghost predicate Legal(s: State, evs: seq<Event>)
    decreases |evs|
  {
    && s.tables != []
    && (evs == [] || (Enabled(s, evs[0]) && Next(s, evs[0]).tables != [] && Legal(Next(s, evs[0]), evs[1..])))
  }

  function Run(s: State, evs: seq<Event>): State
    requires s.tables != []
    decreases |evs|
  {
    if evs == [] then s else Run(Next(s, evs[0]), evs[1..])
  }

  /** A session starts with every stored id at or below the mark, and the mark as the only flushed id. */
  ghost predicate Starts(s: State, mark: Id) {
    && s.tables != [] && s.queue == [] && s.ready == [] && s.flushed == [mark]
    && s.log == map[] && s.applied == {} && s.aborted == {}
    && (forall i, e :: 0 <= i < |s.tables| && e in s.tables[i] ==> e.id <= mark)
  }

  // ---------- the invariant ----------

  predicate InMemory(s: State, e: Entry) {
    exists i :: 0 <= i < |s.tables| && e in s.tables[i]
  }

  predicate Held(s: State, e: Entry) {
    e in s.disk || InMemory(s, e)
  }

  /** No version of the transaction is left in the first n tables. */
  ghost predicate NoneIn(tables: seq<set<Entry>>, n: nat, id: Id)
    requires n <= |tables|
  {
    forall i, e :: 0 <= i < n && e in tables[i] ==> e.id != id
  }

  /** Everything the transaction put in memory has left it. */
  ghost predicate OutOfMemory(s: State, id: Id) {
    NoneIn(s.tables, |s.tables|, id)
  }

  /** The marker in table i belongs to an applied transaction with nothing in a newer table. */
  ghost predicate Leads(s: State, id: Id, i: nat)
    requires i < |s.tables|
  {
    id in s.applied && NoneIn(s.tables, i, id)
  }

  /** The transaction needs no replay. */
  ghost predicate Settled(s: State, id: Id) {
    id in s.aborted || (id in s.applied && OutOfMemory(s, id))
  }

  ghost predicate Tracked(s: State, mark: Id) {
    && s.applied <= s.log.Keys
    && (forall id :: id in s.log ==> id !in s.aborted && [] !in s.log[id])
    && (forall i, id: Id :: 0 <= i < |s.tables| && id > mark && Marker(id) in s.tables[i] ==> Leads(s, id, i))
    && (forall id, k :: id in s.applied && k in s.log[id] ==> Held(s, Entry(k, s.log[id][k], id)))
  }

  ghost predicate Reported(s: State, mark: Id) {
    && Ascending(s.flushed) && s.flushed != [] && ByRisingId(s.ready)
    && (forall id :: (id, Aborted) in s.ready ==> id in s.aborted)
    && (forall id :: id in s.queue && id > mark ==> Settled(s, id))
    && (forall id: Id :: id > mark && Represented(s.flushed, id) ==> Settled(s, id))
  }

  ghost predicate Inv(s: State, mark: Id) {
    s.tables != [] && Tracked(s, mark) && Reported(s, mark)
  }

  lemma StartKeepsInv(s: State, mark: Id)
    requires Starts(s, mark)
    ensures Inv(s, mark)
  {
  }

  /** A settled transaction stays settled. */
  lemma SettledStays(s: State, ev: Event, mark: Id, id: Id)
    requires Inv(s, mark) && Enabled(s, ev) && Settled(s, id)
    ensures Settled(Next(s, ev), id)
  {
    hide Reported, AfterMarker, Assigned, Without, Settles;
    var s' := Next(s, ev);
    if id !in s.aborted {
      forall i, e | 0 <= i < |s'.tables| && e in s'.tables[i]
        ensures e.id != id
      {
      }
    }
  }

  lemma NextKeepsReported(s: State, ev: Event, mark: Id)
    requires Inv(s, mark) && Enabled(s, ev)
    ensures Reported(Next(s, ev), mark)
  {
    hide Tracked, AfterMarker, Assigned, Without, Settles, Settled;
    var s' := Next(s, ev);
    forall id | Settled(s, id)
      ensures Settled(s', id)
    {
      SettledStays(s, ev, mark, id);
    }
    match ev
    case MarkReady(id, st) => AssignedIs(s.ready, id, st);
    case ReportFlushed =>
      var m := s.queue[0];
      AfterMarkerIs(s.flushed, s.ready, m);
      SettlesIs(s.ready, m);
      WithoutIs(s.ready, Settles(s.ready, m));
      forall id: Id | id > mark && id in Settles(s.ready, m)
        ensures Settled(s, id)
      {
        if id == m {
          assert m in s.queue;
        } else {
          AbortedSettled(s, id);
        }
      }
    case FlushOldest(markers) =>
      forall id | id in markers && id > mark
        ensures Settled(s', id)
      {
        FlushedSettled(s, markers, mark, id);
      }
    case _ =>
  }

  lemma AbortedSettled(s: State, id: Id)
    requires id in s.aborted
    ensures Settled(s, id)
  {
  }

  /** Tables are flushed oldest first, so the marker's table is the last to hold the transaction. */
  lemma FlushedSettled(s: State, markers: seq<Id>, mark: Id, id: Id)
    requires Inv(s, mark) && Enabled(s, FlushOldest(markers)) && id in markers && id > mark
    ensures Settled(Next(s, FlushOldest(markers)), id)
  {
    hide Reported;
    var last := |s.tables| - 1;
    assert Marker(id) in s.tables[last];
    assert Leads(s, id, last);
  }

  lemma NextKeepsTracked(s: State, ev: Event, mark: Id)
    requires Inv(s, mark) && Enabled(s, ev)
    ensures Next(s, ev).tables != [] && Tracked(Next(s, ev), mark)
  {
    hide Reported, AfterMarker, Assigned, Without, Settles;
    var s' := Next(s, ev);
    forall i, id: Id | 0 <= i < |s'.tables| && id > mark && Marker(id) in s'.tables[i]
      ensures Leads(s', id, i)
    {
      LeadsStays(s, ev, mark, id, i);
    }
    forall e | Held(s, e) && e.id in s.applied
      ensures Held(s', e)
    {
      HeldStays(s, ev, mark, e);
    }
    forall id, k | id in s'.applied && k in s'.log[id]
      ensures Held(s', Entry(k, s'.log[id][k], id))
    {
      if id !in s.applied {
        AppliedHeld(s, ev, mark, id, k);
      }
    }
  }

  lemma LeadsStays(s: State, ev: Event, mark: Id, id: Id, i: nat)
    requires Inv(s, mark) && Enabled(s, ev) && id > mark
    requires i < |Next(s, ev).tables| && Marker(id) in Next(s, ev).tables[i]
    ensures Leads(Next(s, ev), id, i)
  {
    hide Reported, AfterMarker, Assigned, Without, Settles;
    var s' := Next(s, ev);
    if ev.FreezeTable? {
      assert s'.tables[i] == s.tables[i - 1];
      assert Leads(s, id, i - 1);
      forall j, e | 0 <= j < i && e in s'.tables[j]
        ensures e.id != id
      {
        assert j > 0 ==> e in s.tables[j - 1];
      }
    } else if i > 0 {
      assert Leads(s, id, i);
      forall j, e | 0 <= j < i && e in s'.tables[j]
        ensures e.id != id
      {
        assert e in s.tables[j] || j == 0;
      }
    } else {
      assert Marker(id) in s.tables[0] ==> Leads(s, id, 0);
    }
  }

  lemma HeldStays(s: State, ev: Event, mark: Id, e: Entry)
    requires Inv(s, mark) && Enabled(s, ev) && Held(s, e) && e.id in s.applied
    ensures Held(Next(s, ev), e)
  {
    hide Reported, AfterMarker, Assigned, Without, Settles;
    var s' := Next(s, ev);
    if e !in s.disk {
      var i :| 0 <= i < |s.tables| && e in s.tables[i];
      if ev.FreezeTable? {
        assert e in s'.tables[i + 1];
      } else if ev.FlushOldest? && i == |s.tables| - 1 {
        assert e in s'.disk;
      } else {
        assert e in s'.tables[i];
      }
    }
  }

  lemma AppliedHeld(s: State, ev: Event, mark: Id, id: Id, k: Key)
    requires Inv(s, mark) && Enabled(s, ev) && id !in s.applied && id in Next(s, ev).applied
    requires id in s.log && k in s.log[id]
    ensures Held(Next(s, ev), Entry(k, s.log[id][k], id))
  {
    hide Reported, AfterMarker, Assigned, Without, Settles;
    var s', e := Next(s, ev), Entry(k, s.log[id][k], id);
    if ev.ApplyBuffered? {
      assert e in s'.tables[0];
    } else if e !in s.disk {
      var i :| 0 <= i < |s.tables| && e in s.tables[i];
      assert e in s'.tables[i];
    }
  }

  lemma {:induction false} RunKeepsInv(s: State, evs: seq<Event>, mark: Id)
    requires Inv(s, mark) && Legal(s, evs)
    ensures Inv(Run(s, evs), mark)
    decreases |evs|
  {
    hide Tracked, Reported, Enabled, Next;
    if evs != [] {
      NextKeepsTracked(s, evs[0], mark);
      NextKeepsReported(s, evs[0], mark);
      RunKeepsInv(Next(s, evs[0]), evs[1..], mark);
    }
  }

  // ---------- what a session guarantees ----------

  /**
   In every reachable state, an id above the mark is represented as flushed only if its
   transaction aborted or every version it wrote has left memory for the disk.
   */
  lemma FlushedMeansOnDisk(s: State, evs: seq<Event>, mark: Id, id: Id)
    requires Starts(s, mark) && Legal(s, evs) && id > mark && Represented(Run(s, evs).flushed, id)
    ensures var now := Run(s, evs);
            || id in now.aborted
            || (&& id in now.log && (forall e :: InMemory(now, e) ==> e.id != id)
                && Writes(now.log[id], id) <= now.disk)
  {
    StartKeepsInv(s, mark);
    RunKeepsInv(s, evs, mark);
    var now := Run(s, evs);
    if id !in now.aborted {
      forall e | e in Writes(now.log[id], id)
        ensures e in now.disk
      {
        assert Held(now, e);
      }
    }
  }

  /** Recovery takes the logged ids above the smallest id of the saved set and skips the set's members. */
  predicate Replayed(s: State, saved: seq<Id>, id: Id) {
    id in s.log && saved != [] && id > saved[0] && id !in saved
  }

  /** The flushed set a crash leaves on disk: as it was at some earlier moment, or from before the session. */
  ghost predicate Saved(s: State, evs: seq<Event>, mark: Id, saved: seq<Id>)
    requires s.tables != []
  {
    saved != [] &&
    ((exists n :: 0 <= n <= |evs| && saved == Run(s, evs[..n]).flushed) || (forall x :: x in saved ==> x <= mark))
  }

  lemma {:induction false} RunSplit(s: State, evs: seq<Event>, n: nat)
    requires Legal(s, evs) && n <= |evs|
    ensures Legal(s, evs[..n]) && Legal(Run(s, evs[..n]), evs[n..])
    ensures Run(Run(s, evs[..n]), evs[n..]) == Run(s, evs)
    decreases n
  {
    hide Next, Enabled;
    if n == 0 {
      assert evs[..0] == [] && evs[0..] == evs;
    } else {
      RunSplit(Next(s, evs[0]), evs[1..], n - 1);
      assert evs[..n][1..] == evs[1..][..n - 1] && evs[..n][0] == evs[0];
      assert evs[1..][n - 1..] == evs[n..];
    }
  }

  lemma {:induction false} RunKeepsSettled(s: State, evs: seq<Event>, mark: Id, id: Id)
    requires Inv(s, mark) && Legal(s, evs) && Settled(s, id)
    ensures Settled(Run(s, evs), id)
    decreases |evs|
  {
    hide Tracked, Reported, Enabled, Next, Settled;
    if evs != [] {
      SettledStays(s, evs[0], mark, id);
      NextKeepsTracked(s, evs[0], mark);
      NextKeepsReported(s, evs[0], mark);
      RunKeepsSettled(Next(s, evs[0]), evs[1..], mark, id);
    }
  }

  lemma SettledIsOnDisk(s: State, mark: Id, id: Id, k: Key)
    requires Inv(s, mark) && Settled(s, id) && id in s.log && k in s.log[id]
    ensures Entry(k, s.log[id][k], id) in s.disk
  {
    hide Reported;
    assert Held(s, Entry(k, s.log[id][k], id));
  }

  /**
   After a crash in any reachable state, every committed write is on disk or is replayed, however old
   the flushed set is that recovery finds.
   */
  lemma NoCommittedWriteLost(s: State, evs: seq<Event>, mark: Id, saved: seq<Id>, id: Id, k: Key)
    requires Starts(s, mark) && Legal(s, evs) && Saved(s, evs, mark, saved) && id > mark
    requires id in Run(s, evs).log && k in Run(s, evs).log[id]
    ensures var now := Run(s, evs);
            Replayed(now, saved, id) || Entry(k, now.log[id][k], id) in now.disk
  {
    hide Legal, Run, Settled;
    var now := Run(s, evs);
    StartKeepsInv(s, mark);
    RunKeepsInv(s, evs, mark);
    assert saved[0] in saved;
    if !Replayed(now, saved, id) && exists n :: 0 <= n <= |evs| && saved == Run(s, evs[..n]).flushed {
      var n :| 0 <= n <= |evs| && saved == Run(s, evs[..n]).flushed;
      RunSplit(s, evs, n);
      RunKeepsInv(s, evs[..n], mark);
      RunKeepsSettled(Run(s, evs[..n]), evs[n..], mark, id);
      SettledIsOnDisk(now, mark, id, k);
    }
  }
}
