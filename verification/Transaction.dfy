/** Transactions that buffer their writes until commit (every level above read-uncommitted). */
module Transactions {
  import opened Versions
  import opened Histories
  import opened Records
  import opened Wals
  import opened FlushedIds
  import opened Engines
  import opened Widths
  import MemTables
  import Commits
  import Levels

  datatype Isolation = ReadCommitted | RepeatableRead | Serializable

  /** A first read is kept and repeated at these levels, and commits are validated. */
  predicate Repeats(level: Isolation) {
    level != ReadCommitted
  }

  type Query = Option<(Value, Id)>

  function ValueOf(q: Query): Option<Value> {
    if q.Some? then Some(q.value.0) else None
  }

  /** The state of one transaction. */
  datatype Tx = Tx(id: Id, level: Isolation, ops: seq<Record>, temp: map<Key, Value>, kept: map<Key, Query>)

  function Begun(id: Id, level: Isolation): Tx {
    Tx(id, level, [Create(id)], map[], map[])
  }

  function BufferPut(tx: Tx, key: Key, value: Value): Tx {
    tx.(ops := tx.ops + [Record.Put(tx.id, key, value)], temp := tx.temp[key := value])
  }

  function BufferRemove(tx: Tx, key: Key): Tx {
    tx.(ops := tx.ops + [Record.Delete(tx.id, key)], temp := tx.temp[key := []])
  }

  /** The engine is asked only when neither the buffer nor a kept read answers. */
  predicate Asks(tx: Tx, key: Key) {
    key !in tx.temp && !(Repeats(tx.level) && key in tx.kept)
  }

  /** What a read returns, given what the engine would answer now. A buffered removal reads as an empty value. */
  function Lookup(tx: Tx, key: Key, q: Query): Option<Value> {
    if key in tx.temp then Some(tx.temp[key])
    else if Repeats(tx.level) && key in tx.kept then ValueOf(tx.kept[key])
    else ValueOf(q)
  }

  function Remember(tx: Tx, key: Key, q: Query): Tx {
    if Asks(tx, key) && Repeats(tx.level) then tx.(kept := tx.kept[key := q]) else tx
  }

  /** The abstract store with the transaction's own writes added under its id. */
  function WithOwnWrites(h: History, tx: Tx): History {
    h + map k | k in tx.temp :: (k, tx.id) := tx.temp[k]
  }

  /** A key the transaction has removed reads as present and empty. */
  lemma RemovedReadsEmpty(tx: Tx, key: Key, q: Query)
    ensures Lookup(BufferRemove(tx, key), key, q) == Some([])
  {
  }

  /**
   A transaction reads its snapshot with its own writes on top, if and only if it has not buffered an
   empty value for the key. `q` is what the engine answers, or answered when the read was first kept.
   */
  lemma ReadsOwnWrites(tx: Tx, h: History, key: Key, q: Query)
    requires tx.id > 0
    requires key !in tx.temp ==> ValueOf(if Asks(tx, key) then q else tx.kept[key]) == Read(h, key, tx.id)
    ensures Lookup(tx, key, q) == Read(WithOwnWrites(h, tx), key, tx.id) <==> !(key in tx.temp && tx.temp[key] == [])
  {
    var h' := WithOwnWrites(h, tx);
    if key in tx.temp {
      assert (key, tx.id) in h' && h'[(key, tx.id)] == tx.temp[key];
      assert NewestIn(h', key, tx.id, tx.id);
      assert forall id :: NewestIn(h', key, tx.id, id) ==> id == tx.id;
    } else {
      assert forall id :: (key, id) in h' <==> (key, id) in h;
      assert forall id :: (key, id) in h ==> h'[(key, id)] == h[(key, id)];
      assert forall id :: NewestIn(h', key, tx.id, id) <==> NewestIn(h, key, tx.id, id);
    }
  }

  /** What a list of logged operations does to the keys, the last one winning. */
  function Effects(ops: seq<Record>): map<Key, Value> {
    if ops == [] then map[]
    else
      var before, r := Effects(ops[..|ops| - 1]), ops[|ops| - 1];
      if r.Put? then before[r.key := r.value] else if r.Delete? then before[r.key := []] else before
  }

  lemma EffectsLast(ops: seq<Record>, r: Record)
    ensures r.Put? ==> Effects(ops + [r]) == Effects(ops)[r.key := r.value]
    ensures r.Delete? ==> Effects(ops + [r]) == Effects(ops)[r.key := []]
    ensures !r.Put? && !r.Delete? ==> Effects(ops + [r]) == Effects(ops)
  {
    assert (ops + [r])[..|ops|] == ops;
  }

  /** Replaying logged operations one by one writes the same versions as the commit did. */
  function ReplayOps(h: History, ops: seq<Record>, id: Id): History {
    if ops == [] then h
    else
      var before, r := ReplayOps(h, ops[..|ops| - 1], id), ops[|ops| - 1];
      if r.Put? then before[(r.key, id) := r.value] else if r.Delete? then before[(r.key, id) := []] else before
  }

  lemma {:induction false} ReplayIsEffects(h: History, ops: seq<Record>, id: Id)
    ensures forall k, i :: (k, i) in ReplayOps(h, ops, id) <==> (k, i) in h || (i == id && k in Effects(ops))
    ensures forall k, i :: (k, i) in ReplayOps(h, ops, id) ==>
              ReplayOps(h, ops, id)[(k, i)] == if i == id && k in Effects(ops) then Effects(ops)[k] else h[(k, i)]
  {
    if ops != [] {
      ReplayIsEffects(h, ops[..|ops| - 1], id);
    }
  }

  /** The versions a commit writes: one per buffered key, and the marker. */
  ghost predicate Lists(es: seq<Entry>, temp: map<Key, Value>, id: Id) {
    && DistinctVersions(es)
    && forall e :: e in es <==>
                   e.id == id && ((e.key in temp && e.value == temp[e.key]) || (e.key == [] && e.value == []))
  }

  lemma ListsFacts(es: seq<Entry>, temp: map<Key, Value>, id: Id, older: seq<Entry>)
    requires Lists(es, temp, id)
    ensures DistinctVersions(es)
    ensures (forall e :: e in es ==> Fresh(older, e)) <==> FreshAll(older, temp, id)
  {
    hide Fresh;
    forall k | k in temp
      ensures Entry(k, temp[k], id) in es
    {
    }
    assert forall e: Entry :: e.key == [] ==> Fresh(older, e) by { MarkersPass(older); }
  }

  lemma MarkersPass(older: seq<Entry>)
    ensures forall e: Entry :: e.key == [] ==> Fresh(older, e)
  {
  }

  /** The buffered writes and the marker have room in the file format beside what is stored. */
  ghost predicate CommitRoom(all: seq<Entry>, temp: map<Key, Value>, id: Id, capacity: nat) {
    forall es :: Lists(es, temp, id) ==> Roomy(all + es, capacity)
  }

  /** Every buffered write would be newer than what older places hold for its key. */
  ghost predicate FreshAll(older: seq<Entry>, temp: map<Key, Value>, id: Id) {
    forall k :: k in temp ==> Fresh(older, Entry(k, temp[k], id))
  }

  /** A newer committed version of a buffered key is still in memory. */
  ghost predicate MemoryConflict(tables: seq<seq<Entry>>, temp: map<Key, Value>, id: Id) {
    exists k :: k in temp && KeyConflict(tables, k, id)
  }

  ghost predicate KeyConflict(tables: seq<seq<Entry>>, k: Key, id: Id) {
    First(Flat(tables), k, 0).Some? && First(Flat(tables), k, 0).value.id > id
  }

  class TranContext {
    const id: Id
    const level: Isolation
    const engine: LSMEngine
    const manager: TranManager
    const wal: WAL

    var operations: seq<Record>
    var temp: map<Key, Value>
    var kept: map<Key, Query>
    var isCommitted: bool
    var isAborted: bool

    function View(): Tx
      reads this
    {
      Tx(id, level, operations, temp, kept)
    }

    /** The buffer is what the recorded operations amount to. */
    ghost predicate Valid()
      reads this
    {
      temp == Effects(operations) && AllFit(operations) && [] !in temp && id < 0x1_0000_0000_0000_0000
    }

    constructor (id: Id, level: Isolation, engine: LSMEngine, manager: TranManager, wal: WAL)
      requires id < 0x1_0000_0000_0000_0000
      ensures Valid() && View() == Begun(id, level) && !isCommitted && !isAborted
      ensures this.engine == engine && this.manager == manager && this.wal == wal
    {
      this.id, this.level, this.engine, this.manager, this.wal := id, level, engine, manager, wal;
      operations, temp, kept, isCommitted, isAborted := [Create(id)], map[], map[], false, false;
      new;
      EffectsLast([], Create(id));
      assert [] + [Create(id)] == [Create(id)];
    }

    method Put(key: Key, value: Value)
      requires Valid() && key != [] && Fits(Record.Put(id, key, value))
      modifies this`operations, this`temp
      ensures Valid() && View() == BufferPut(old(View()), key, value)
    {
      hide Effects, Fits;
      EffectsLast(operations, Record.Put(id, key, value));
      operations := operations + [Record.Put(id, key, value)];
      temp := temp[key := value];
    }

    method Remove(key: Key)
      requires Valid() && key != [] && Fits(Record.Delete(id, key))
      modifies this`operations, this`temp
      ensures Valid() && View() == BufferRemove(old(View()), key)
    {
      hide Effects, Fits;
      EffectsLast(operations, Record.Delete(id, key));
      operations := operations + [Record.Delete(id, key)];
      temp := temp[key := []];
    }

    /** The buffer first, then a kept read, then a snapshot read of the engine as of this transaction. */
    method Get(key: Key) returns (r: Option<Value>, ghost q: Query)
      requires Valid() && engine.Valid() && key != [] && this !in engine.mem.Repr
      modifies this`kept
      ensures Valid() && engine.Valid() && engine.history == old(engine.history)
      ensures r == Lookup(old(View()), key, q) && View() == Remember(old(View()), key, q)
      ensures Asks(old(View()), key) ==> r == Read(engine.history, key, id)
    {
      hide Engines.LSMEngine.Valid, Read, Effects;
      q := None;
      if key in temp {
        return Some(temp[key]), None;
      }
      var query: Query;
      if Repeats(level) && key in kept {
        query := kept[key];
      } else {
        query := engine.Get(key, id);
        if Repeats(level) {
          kept := kept[key := query];
        }
      }
      q := query;
      r := ValueOf(query);
    }

    /** Validate each buffered key, in any order, against memory and then against the disk. */
    method Validate() returns (conflict: bool)
      requires Valid() && engine.Valid() && manager.Valid()
      ensures engine.Valid()
      ensures conflict <==> MemoryConflict(engine.mem.Tables(), temp, id)
    {
      hide Levels.DiskOk, Levels.DiskRun, AgeOrdered, Represents, MemTables.MemTable.Owns, MemTables.MemTable.Tables,
           KeyConflict, Effects;
      var todo := temp.Keys;
      conflict := false;
      while todo != {} && !conflict
        invariant todo <= temp.Keys && engine.Valid()
        invariant conflict ==> MemoryConflict(engine.mem.Tables(), temp, id)
        invariant !conflict ==> forall k :: k in temp && k !in todo ==> !KeyConflict(engine.mem.Tables(), k, id)
        decreases todo
      {
        var k :| k in todo;
        todo := todo - {k};
        conflict := ValidateKey(k);
      }
    }

    method ValidateKey(k: Key) returns (conflict: bool)
      requires engine.Valid() && manager.Valid() && k != []
      ensures engine.Valid()
      ensures conflict <==> KeyConflict(engine.mem.Tables(), k, id)
    {
      hide Levels.DiskOk, Levels.DiskRun, Flat, AgeOrdered, Represents, First;
      var inMemory := engine.mem.Get(k, 0);
      conflict := inMemory.Some? && inMemory.value.id > id;
      if !conflict && manager.flushed[|manager.flushed| - 1] > id {
        var onDisk := engine.SstGet(k, 0);
        conflict := onDisk.Some? && onDisk.value.1 > id;
      }
    }

    /** The buffered writes in some order, then the marker. */
    method ListWrites() returns (es: seq<Entry>)
      requires Valid()
      ensures Lists(es, temp, id)
    {
      hide Effects;
      var todo := temp.Keys;
      es := [];
      while todo != {}
        invariant todo <= temp.Keys && DistinctVersions(es)
        invariant forall e :: e in es <==> e.id == id && e.key in temp && e.key !in todo && e.value == temp[e.key]
        decreases todo
      {
        var k :| k in todo;
        todo := todo - {k};
        assert forall i :: 0 <= i < |es| ==> es[i] in es;
        es := es + [Entry(k, temp[k], id)];
      }
      assert forall i :: 0 <= i < |es| ==> es[i] in es;
      es := es + [Entry([], [], id)];
    }

    /**
     Commit: validate, log, then put the writes and the marker in memory. It fails exactly when
     memory holds a newer version of a buffered key - the disk check cannot see one - and the store
     stays sound exactly when no older place holds a newer version of a buffered key, whatever
     order the markers come in.
     */
    method Commit() returns (committed: bool, ghost es: seq<Entry>)
      requires Valid() && engine.Valid() && manager.Valid() && wal.Valid()
      requires this !in engine.mem.Repr && manager !in engine.mem.Repr && wal !in engine.mem.Repr
      requires CommitRoom(engine.All(), temp, id, engine.blockSize)
      modifies this, engine`history, engine.mem.Repr, manager`ready
      modifies wal`buffer, wal`names, wal`files, wal`active, wal`content
      ensures fresh(engine.mem.Repr - old(engine.mem.Repr))
      ensures committed <==> !(Repeats(level) && MemoryConflict(old(engine.mem.Tables()), old(temp), id))
      ensures manager.Valid() && wal.Valid() && Effects(operations) == old(temp) && temp == old(temp)
      ensures !committed ==> engine.Valid() && engine.history == old(engine.history) && isAborted
      ensures engine.OnDisk() == old(engine.OnDisk()) && (!committed ==> engine.Memory() == old(engine.Memory()))
      ensures !committed ==>
                manager.ready == Assigned(old(manager.ready), id, Aborted) && wal.Logged() == old(wal.Logged())
      ensures committed ==>
                Lists(es, temp, id) && engine.history == Commits.AddAll(old(engine.history), es) && isCommitted
      ensures committed ==> Applied(old(engine.Memory()), engine.Memory(), es)
      ensures committed ==> (engine.Valid() <==> FreshAll(old(engine.Older()), temp, id))
      ensures committed ==> manager.ready == Assigned(old(manager.ready), id, OpCommitted)
      ensures committed ==> wal.buffer == [] && operations == old(operations) + [Record.Commit(id)]
                            && wal.Logged() == old(wal.Logged() + wal.buffer) + operations
    {
      hide Engines.LSMEngine.Valid, Effects, Wals.WAL.Valid, FlushedIds.TranManager.Valid, Assigned, Lists, FreshAll,
           Engines.LSMEngine.Older, Engines.LSMEngine.All, MemoryConflict, CommitRoom, Engines.LSMEngine.Memory,
           Applied;
      es := [];
      var conflict := false;
      if Repeats(level) {
        conflict := Validate();
      }
      if conflict {
        Abort();
        return false, [];
      }
      es := Accept();
      committed := true;
    }

    /** Log, publish, and report the transaction as committed. */
    method Accept() returns (ghost es: seq<Entry>)
      requires Valid() && engine.Valid() && manager.Valid() && wal.Valid()
      requires this !in engine.mem.Repr && manager !in engine.mem.Repr && wal !in engine.mem.Repr
      requires CommitRoom(engine.All(), temp, id, engine.blockSize)
      modifies this`operations, this`isCommitted, engine`history, engine.mem.Repr, manager`ready
      modifies wal`buffer, wal`names, wal`files, wal`active, wal`content
      ensures fresh(engine.mem.Repr - old(engine.mem.Repr))
      ensures Valid() && manager.Valid() && wal.Valid() && isCommitted
      ensures Lists(es, temp, id) && engine.history == Commits.AddAll(old(engine.history), es)
      ensures Applied(old(engine.Memory()), engine.Memory(), es) && engine.OnDisk() == old(engine.OnDisk())
      ensures engine.Valid() <==> FreshAll(old(engine.Older()), temp, id)
      ensures manager.ready == Assigned(old(manager.ready), id, OpCommitted)
      ensures wal.buffer == [] && operations == old(operations) + [Record.Commit(id)]
      ensures wal.Logged() == old(wal.Logged() + wal.buffer) + operations
    {
      hide Engines.LSMEngine.Valid, Effects, Wals.WAL.Valid, FlushedIds.TranManager.Valid, Assigned, Lists, FreshAll,
           CommitRoom, Engines.LSMEngine.Older, Engines.LSMEngine.All, Engines.LSMEngine.Memory, Applied;
      LogOperations();
      es := Publish();
      isCommitted := true;
      manager.AddReadyToFlushTrancId(id, OpCommitted);
    }

    /** Close the record of operations and force it to the log. */
    method LogOperations()
      requires Valid() && wal.Valid()
      modifies this`operations, wal`buffer, wal`names, wal`files, wal`active, wal`content
      ensures Valid() && wal.Valid() && wal.buffer == [] && operations == old(operations) + [Record.Commit(id)]
      ensures wal.Logged() == old(wal.Logged() + wal.buffer) + operations
    {
      hide Effects, Wals.WAL.Valid;
      EffectsLast(operations, Record.Commit(id));
      operations := operations + [Record.Commit(id)];
      wal.Log(operations, true);
    }

    /** Put the buffered writes and the marker in memory. */
    method Publish() returns (ghost es: seq<Entry>)
      requires Valid() && engine.Valid() && this !in engine.mem.Repr
      requires CommitRoom(engine.All(), temp, id, engine.blockSize)
      modifies engine`history, engine.mem.Repr
      ensures Lists(es, temp, id) && engine.history == Commits.AddAll(old(engine.history), es)
      ensures Applied(old(engine.Memory()), engine.Memory(), es) && engine.OnDisk() == old(engine.OnDisk())
      ensures fresh(engine.mem.Repr - old(engine.mem.Repr))
      ensures engine.Valid() <==> FreshAll(old(engine.Older()), temp, id)
    {
      hide Levels.DiskOk, Levels.DirOk, Levels.DiskRun, AgeOrdered, Represents, Flat, MemTables.MemTable.Owns,
           Effects, Fresh, Engines.LSMEngine.Older, Lists, FreshAll, DistinctVersions, Engines.LSMEngine.Memory,
           Applied;
      var writes := ListWrites();
      ListsFacts(writes, temp, id, engine.Older());
      es := writes;
      engine.ApplyRaw(writes);
    }

    /** Aborting drops the buffer: nothing of it has reached the store. */
    method Abort()
      requires manager.Valid()
      modifies this`isAborted, manager`ready
      ensures manager.Valid() && manager.ready == Assigned(old(manager.ready), id, Aborted)
      ensures isAborted && View() == old(View())
    {
      isAborted := true;
      manager.AddReadyToFlushTrancId(id, Aborted);
    }
  }
}
