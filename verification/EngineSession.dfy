/**
 The steps of the engine and of its transactions as events of a session: each method below takes one
 step of the code and shows which event it is, so that what holds of every session holds of the engine.
 */
module EngineSessions {
  import opened Versions
  import opened Histories
  import opened Engines
  import opened FlushedIds
  import opened Widths
  import Commits
  import Levels
  import Readers
  import Sessions
  import Transactions
  import MemTables
  import Wals

  function Members(s: seq<Entry>): set<Entry> {
    set e | e in s
  }

  function Sets(tables: seq<seq<Entry>>): (r: seq<set<Entry>>)
    ensures |r| == |tables| && forall i :: 0 <= i < |r| ==> r[i] == Members(tables[i])
  {
    seq(|tables|, i requires 0 <= i < |tables| => Members(tables[i]))
  }

  /** The session's memory and disk are those of the engine. */
  ghost predicate Shown(tables: seq<seq<Entry>>, disk: seq<Entry>, s: Sessions.State) {
    s.tables == Sets(tables) && s.disk == Members(disk) && tables != []
  }

  ghost predicate Shows(engine: LSMEngine, s: Sessions.State)
    reads engine, engine.mem, engine.mem.Repr
  {
    Shown(engine.Memory(), Levels.DiskRun(engine.OnDisk()), s)
  }

  // ---------- events on tables ----------

  lemma WriteIsEvent(tables: seq<seq<Entry>>, disk: seq<Entry>, s: Sessions.State, e: Entry)
    requires Shown(tables, disk, s) && Sorted(tables[0])
    ensures Shown(tables[0 := Upsert(tables[0], e)], disk, Sessions.Next(s, Sessions.Write(e)))
  {
    hide Sorted, Upsert;
    UpsertMembers(tables[0], e);
    assert Members(Upsert(tables[0], e)) == Sessions.Put(Members(tables[0]), {e});
  }

  lemma FreezeIsEvent(tables: seq<seq<Entry>>, disk: seq<Entry>, s: Sessions.State)
    requires Shown(tables, disk, s)
    ensures Shown([[]] + tables, disk, Sessions.Next(s, Sessions.FreezeTable))
  {
    assert Members([]) == {};
    assert Sets([[]] + tables) == [{}] + Sets(tables);
  }

  lemma ApplyIsEvent(tables: seq<seq<Entry>>, disk: seq<Entry>, s: Sessions.State, es: seq<Entry>,
                     temp: map<Key, Value>, id: Id)
    requires Shown(tables, disk, s) && Sorted(tables[0]) && Transactions.Lists(es, temp, id)
    requires id in s.log && s.log[id] == temp
    ensures Shown(tables[0 := Commits.UpsertAll(tables[0], es)], disk, Sessions.Next(s, Sessions.ApplyBuffered(id)))
  {
    hide Sorted, Commits.UpsertAll;
    Commits.UpsertAllMembers(tables[0], es);
    var added := Sessions.Writes(temp, id) + {Sessions.Marker(id)};
    assert Members(es) == added;
    forall f
      ensures Commits.Replaces(es, f) <==> exists e :: e in added && SameVersion(e, f)
    {
    }
    assert Members(Commits.UpsertAll(tables[0], es)) == Sessions.Put(Members(tables[0]), added);
  }

  lemma FlushIsEvent(tables: seq<seq<Entry>>, tables': seq<seq<Entry>>, table: seq<Entry>, disk: seq<Entry>,
                     s: Sessions.State, markers: seq<Id>)
    requires Shown(tables, disk, s) && forall x :: x in markers <==> Entry([], [], x) in table
    requires if |tables| == 1 then tables == [table] && tables' == [[]]
             else tables' != [] && tables == tables' + [table]
    ensures Sessions.Enabled(s, Sessions.FlushOldest(markers))
    ensures Shown(tables', table + disk, Sessions.Next(s, Sessions.FlushOldest(markers)))
  {
    assert tables[|tables| - 1] == table && Sessions.Oldest(s) == Members(table);
    assert Members(table + disk) == Members(disk) + Members(table);
    if |tables| == 1 {
      assert Members([]) == {};
    } else {
      assert Sets(tables)[..|tables| - 1] == Sets(tables');
    }
  }

  // ---------- steps of the engine ----------

  /** What the engine's soundness says of memory. */
  lemma MemorySorted(engine: LSMEngine)
    requires engine.Valid()
    ensures engine.Memory() != [] && Sorted(engine.Memory()[0])
  {
    hide Levels.DiskOk, Levels.DirOk, Levels.DiskRun, AgeOrdered, Represents, Flat, Levels.DiskFits, Roomy,
         MemTables.MemTable.Owns, Sorted;
    engine.mem.TablesAre();
    engine.mem.TablesSorted();
  }

  /** A write into memory is a write event, and a freeze event if the table was full. */
  method WriteStep(engine: LSMEngine, key: Key, value: Value, t: Id, ghost s: Sessions.State)
    returns (ghost evs: seq<Sessions.Event>)
    requires engine.Valid() && Fresh(engine.Older(), Entry(key, value, t)) && Shows(engine, s)
    requires Roomy(engine.All() + [Entry(key, value, t)], engine.blockSize) && key != [] && t !in s.log
    modifies engine`history, engine.mem.Repr
    ensures engine.Valid() && Sessions.Legal(s, evs) && Shows(engine, Sessions.Run(s, evs))
    ensures evs == [Sessions.Write(Entry(key, value, t))]
            || evs == [Sessions.Write(Entry(key, value, t)), Sessions.FreezeTable]
  {
    hide Engines.LSMEngine.Valid, Engines.LSMEngine.Older, Engines.LSMEngine.All, Roomy, Fresh, Readers.Moves,
         Engines.LSMEngine.Store, Engines.LSMEngine.Memory, Levels.DiskRun, Shown, Upsert, Sorted;
    ghost var tables, disk, e := engine.Memory(), Levels.DiskRun(engine.OnDisk()), Entry(key, value, t);
    MemorySorted(engine);
    var _ := engine.WriteMem(key, value, t);
    evs := WriteEvents(tables, engine.Memory(), disk, s, e);
  }

  lemma WriteEvents(tables: seq<seq<Entry>>, tables': seq<seq<Entry>>, disk: seq<Entry>, s: Sessions.State, e: Entry)
    returns (evs: seq<Sessions.Event>)
    requires WroteTo(tables, tables', e) && Shown(tables, disk, s) && Sorted(tables[0]) && e.key != [] && e.id !in s.log
    ensures evs == [Sessions.Write(e)] || evs == [Sessions.Write(e), Sessions.FreezeTable]
    ensures Sessions.Legal(s, evs) && Shown(tables', disk, Sessions.Run(s, evs))
  {
    hide Sorted, Upsert;
    var written := tables[0 := Upsert(tables[0], e)];
    var s1 := Sessions.Next(s, Sessions.Write(e));
    WriteIsEvent(tables, disk, s, e);
    if tables' == written {
      evs := [Sessions.Write(e)];
      OneEvent(s, evs[0]);
    } else {
      evs := [Sessions.Write(e), Sessions.FreezeTable];
      FreezeIsEvent(written, disk, s1);
      TwoEvents(s, evs[0], evs[1]);
    }
  }

  lemma OneEvent(s: Sessions.State, a: Sessions.Event)
    requires s.tables != [] && Sessions.Enabled(s, a) && Sessions.Next(s, a).tables != []
    ensures Sessions.Legal(s, [a]) && Sessions.Run(s, [a]) == Sessions.Next(s, a)
  {
    hide Sessions.Next, Sessions.Enabled;
    assert [a][1..] == [];
  }

  lemma TwoEvents(s: Sessions.State, a: Sessions.Event, b: Sessions.Event)
    requires s.tables != [] && Sessions.Enabled(s, a) && Sessions.Next(s, a).tables != []
    requires Sessions.Enabled(Sessions.Next(s, a), b) && Sessions.Next(Sessions.Next(s, a), b).tables != []
    ensures Sessions.Legal(s, [a, b]) && Sessions.Run(s, [a, b]) == Sessions.Next(Sessions.Next(s, a), b)
  {
    hide Sessions.Next, Sessions.Enabled;
    OneEvent(Sessions.Next(s, a), b);
    assert [a, b][1..] == [b];
  }

  /** Flushing the oldest memory table is one event, with the markers it reports. */
  method FlushStep(engine: LSMEngine, ghost s: Sessions.State) returns (markers: seq<Id>)
    requires engine.Valid() && |Levels.Ids(engine.OnDisk(), 0)| < engine.ratio && Flat(engine.Memory()) != []
    requires Shows(engine, s)
    modifies engine, engine.mem.Repr
    ensures engine.Valid() && Sessions.Enabled(s, Sessions.FlushOldest(markers))
    ensures Shows(engine, Sessions.Next(s, Sessions.FlushOldest(markers)))
  {
    hide Engines.LSMEngine.Valid, Engines.LSMEngine.All, Readers.Moves, Engines.LSMEngine.Store,
         Engines.LSMEngine.Memory, Levels.DiskRun, Shown, Flat, Levels.Clean;
    ghost var tables, disk := engine.Memory(), Levels.DiskRun(engine.OnDisk());
    ghost var table, moves;
    markers, table, moves := engine.WriteOldest();
    FlushIsEvent(tables, engine.Memory(), table, disk, s, markers);
  }

  /** Compaction is no event: what is on disk stays on disk. */
  method CompactStep(engine: LSMEngine, ghost s: Sessions.State) returns (thrown: bool)
    requires engine.Valid() && Shows(engine, s)
    modifies engine`levelIds, engine`ssts, engine`nextId, engine`maxLevel, engine`files
    ensures engine.Valid() && Shows(engine, s)
  {
    hide Engines.LSMEngine.Valid, Engines.LSMEngine.All, Readers.Moves, Engines.LSMEngine.Store,
         Engines.LSMEngine.Memory, Levels.DiskRun, Flat, Levels.Clean, Engines.LSMEngine.Stuck, SameVersions;
    ghost var disk := Levels.DiskRun(engine.OnDisk());
    ghost var moves;
    thrown, moves := engine.MakeRoom();
    SameVersionsSameMembers(Levels.DiskRun(engine.OnDisk()), disk);
    assert Members(Levels.DiskRun(engine.OnDisk())) == Members(disk);
  }

  /** Log, apply and report for a commit that succeeds; abort and report for one that does not. */
  function CommitTrace(id: Id, temp: map<Key, Value>, committed: bool): seq<Sessions.Event> {
    if committed then [Sessions.Log(id, temp), Sessions.ApplyBuffered(id), Sessions.MarkReady(id, OpCommitted)]
    else [Sessions.Abort(id), Sessions.MarkReady(id, Aborted)]
  }

  /** A commit, successful or not, is a run of session events on the engine and the manager. */
  method CommitStep(tx: Transactions.TranContext, ghost s: Sessions.State)
    returns (committed: bool, ghost evs: seq<Sessions.Event>)
    requires tx.Valid() && tx.engine.Valid() && tx.manager.Valid() && tx.wal.Valid()
    requires tx !in tx.engine.mem.Repr && tx.manager !in tx.engine.mem.Repr && tx.wal !in tx.engine.mem.Repr
    requires Transactions.CommitRoom(tx.engine.All(), tx.temp, tx.id, tx.engine.blockSize)
    requires Shows(tx.engine, s) && s.ready == tx.manager.ready
    requires tx.id !in s.log && tx.id !in s.applied && tx.id !in s.aborted
    modifies tx, tx.engine`history, tx.engine.mem.Repr, tx.manager`ready
    modifies tx.wal`buffer, tx.wal`names, tx.wal`files, tx.wal`active, tx.wal`content
    ensures Sessions.Legal(s, evs) && Shows(tx.engine, Sessions.Run(s, evs))
    ensures Sessions.Run(s, evs).ready == tx.manager.ready
    ensures evs == CommitTrace(tx.id, tx.temp, committed)
  {
    hide Engines.LSMEngine.Valid, Engines.LSMEngine.All, Engines.LSMEngine.Memory, Levels.DiskRun, Shown, Assigned,
         Transactions.Lists, Transactions.CommitRoom, Transactions.Effects, Sessions.Legal, Sessions.Run,
         Wals.WAL.Valid, Transactions.MemoryConflict, Transactions.FreshAll, Engines.LSMEngine.Older,
         Engines.Applied, Sorted;
    ghost var tables, disk := tx.engine.Memory(), Levels.DiskRun(tx.engine.OnDisk());
    MemorySorted(tx.engine);
    ghost var es;
    committed, es := tx.Commit();
    evs := CommitEvents(tables, tx.engine.Memory(), disk, s, es, tx.temp, tx.id, committed);
  }

  lemma CommitEvents(tables: seq<seq<Entry>>, tables': seq<seq<Entry>>, disk: seq<Entry>, s: Sessions.State,
                     es: seq<Entry>, temp: map<Key, Value>, id: Id, committed: bool)
    returns (evs: seq<Sessions.Event>)
    requires Shown(tables, disk, s) && Sorted(tables[0]) && [] !in temp
    requires id !in s.log && id !in s.applied && id !in s.aborted
    requires if committed then Transactions.Lists(es, temp, id) && Applied(tables, tables', es) else tables' == tables
    ensures evs == CommitTrace(id, temp, committed)
    ensures Sessions.Legal(s, evs) && Shown(tables', disk, Sessions.Run(s, evs))
    ensures Sessions.Run(s, evs).ready == Assigned(s.ready, id, if committed then OpCommitted else Aborted)
  {
    hide Sorted, Assigned, Transactions.Lists, Commits.UpsertAll;
    if committed {
      var log, apply, report := Sessions.Log(id, temp), Sessions.ApplyBuffered(id), Sessions.MarkReady(id, OpCommitted);
      evs := [log, apply, report];
      var s1 := Sessions.Next(s, log);
      ApplyIsEvent(tables, disk, s1, es, temp, id);
      TwoEvents(s1, apply, report);
      assert evs[1..] == [apply, report];
    } else {
      var abort, report := Sessions.Abort(id), Sessions.MarkReady(id, Aborted);
      evs := [abort, report];
      TwoEvents(s, abort, report);
    }
  }

  /** Reporting a marker to the manager is the report event of the session. */
  method ReportStep(manager: TranManager, id: Id, ghost s: Sessions.State)
    requires manager.Valid() && s.ready == manager.ready && s.flushed == manager.flushed
    requires s.tables != [] && s.queue != [] && s.queue[0] == id
    modifies manager`ready, manager`flushed
    ensures manager.Valid() && Sessions.Enabled(s, Sessions.ReportFlushed)
    ensures Sessions.Next(s, Sessions.ReportFlushed).ready == manager.ready
    ensures Sessions.Next(s, Sessions.ReportFlushed).flushed == manager.flushed
  {
    hide Settles, Without, AfterMarker;
    manager.AddFlushedTrancId(id);
  }
}
