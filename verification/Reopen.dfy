/**
 Closing a store and opening it again, any number of times: memory is flushed, and the next session
 rebuilds its index from nothing but the bytes of the files, listed in any order.
 */
module Reopens {
  import opened Versions
  import opened Histories
  import opened Levels
  import opened Reloads
  import opened ByteReloads
  import opened Engines
  import opened Widths
  import Blooms
  import BloomCodecs
  import Readers
  import TailBuilds

  // ---------- one restart ----------

  /** The directory as the next session finds it: every file, in any order. */
  method ListDirectory(files: set<FileEntry>) returns (raw: seq<RawFile>, ghost dir: seq<FileEntry>)
    ensures Enumerates(dir, files) && Shows(raw, dir)
  {
    hide Raw;
    var todo := files;
    raw, dir := [], [];
    while todo != {}
      invariant todo <= files && Enumerates(dir, files - todo) && Shows(raw, dir)
      decreases todo
    {
      var f :| f in todo;
      EnumeratesMore(dir, files - todo, f);
      assert files - (todo - {f}) == (files - todo) + {f};
      todo := todo - {f};
      raw, dir := raw + [Raw(f)], dir + [f];
    }
    assert files - {} == files;
  }

  lemma EnumeratesMore(dir: seq<FileEntry>, files: set<FileEntry>, f: FileEntry)
    requires Enumerates(dir, files) && f !in files
    ensures Enumerates(dir + [f], files + {f})
  {
    assert forall i :: 0 <= i < |dir| ==> dir[i] in dir;
  }

  /** Two engines of one configuration. */
  predicate Alike(a: LSMEngine, b: LSMEngine) {
    && a.ratio == b.ratio && a.blockSize == b.blockSize && a.perMem == b.perMem && a.totalMem == b.totalMem
    && a.bloom == b.bloom
  }

  /**
   Close a store that has never thrown and open its directory again: either closing throws, or the
   new engine, built from the bytes alone, is sound and holds every version written before.
   */
  method Restart(engine: LSMEngine) returns (thrown: bool, next: LSMEngine)
    requires engine.Valid() && Clean(engine.OnDisk())
    modifies engine, engine.mem.Repr
    ensures !thrown ==> next.Valid() && fresh(next) && fresh(next.mem.Repr) && Clean(next.OnDisk())
    ensures !thrown ==> next.history == old(engine.history)
    ensures !thrown ==> SameVersions(next.All(), old(engine.All())) && Alike(next, engine)
    ensures engine.Small(old(engine.All())) ==> !thrown
  {
    hide Engines.LSMEngine.Small, Engines.LSMEngine.Valid, Engines.LSMEngine.All, Engines.LSMEngine.Stuck, SameVersions,
         Clean, DiskRun, Engines.LSMEngine.Memory, Flat;
    next := engine;
    thrown := engine.FlushAll();
    if !thrown {
      engine.Facts();
      next := Reopen(engine, engine.history);
    }
  }

  /** Open the directory an engine leaves behind; what was in memory is gone. */
  method Reopen(engine: LSMEngine, ghost h: History) returns (next: LSMEngine)
    requires engine.Valid() && Clean(engine.OnDisk()) && Represents(DiskRun(engine.OnDisk()), h)
    ensures next.Valid() && fresh(next) && fresh(next.mem.Repr) && Clean(next.OnDisk())
    ensures next.history == h && Alike(next, engine) && next.All() == DiskRun(engine.OnDisk())
  {
    hide DiskOk, DirOk, DiskFits, DiskRun, AgeOrdered, Represents, Roomy, Clean, Enumerates, Shows,
         Engines.LSMEngine.Memory, Flat, Engines.LSMEngine.Valid, Engines.LSMEngine.All;
    engine.Facts();
    engine.DiskFacts();
    var raw, dir := ListDirectory(engine.files);
    var d := ReloadBytes(raw, dir, engine.OnDisk());
    SameFilesFit(engine.OnDisk(), d.value);
    next := new LSMEngine.Over(d.value, h, engine.ratio, engine.blockSize, engine.perMem, engine.totalMem,
                               engine.bloom);
  }

  /** The versions of the store that a layout holds. */
  ghost function Surviving(h: History, s: seq<Entry>): History {
    map v | v in h && Stored(s, v.0, v.1) :: h[v]
  }

  ghost predicate Stored(s: seq<Entry>, k: Key, id: Id) {
    exists e :: e in s && e.key == k && e.id == id
  }

  lemma SurvivingRepresents(all: seq<Entry>, s: seq<Entry>, h: History)
    requires Represents(all, h) && forall e :: e in s ==> e in all
    ensures Represents(s, Surviving(h, s))
  {
    var h' := Surviving(h, s);
    forall e: Entry | e.key != []
      ensures e in s <==> (e.key, e.id) in h' && h'[(e.key, e.id)] == e.value
    {
      if e in s {
        assert Stored(s, e.key, e.id);
      }
      if (e.key, e.id) in h' && h'[(e.key, e.id)] == e.value {
        var f :| f in s && f.key == e.key && f.id == e.id;
        assert f in all && f == e;
      }
    }
    forall id: Id
      ensures ([], id) in h' <==> Marked(s, id)
    {
      if Marked(s, id) {
        var e :| e in s && e.key == [] && e.id == id;
        assert e in all && Marked(all, id) && Stored(s, [], id);
      }
    }
  }

  /** A crash loses memory: the next engine holds exactly the versions on disk. */
  method Crash(engine: LSMEngine) returns (next: LSMEngine)
    requires engine.Valid() && Clean(engine.OnDisk())
    ensures next.Valid() && fresh(next) && fresh(next.mem.Repr) && Clean(next.OnDisk()) && Alike(next, engine)
    ensures next.history == Surviving(engine.history, DiskRun(engine.OnDisk()))
    ensures next.All() == DiskRun(engine.OnDisk())
  {
    hide Clean, DiskRun, Represents, Engines.LSMEngine.Valid, Engines.LSMEngine.All, Surviving, DiskOk, DirOk, DiskFits,
         AgeOrdered, Roomy;
    engine.Facts();
    engine.DiskFacts();
    SurvivingRepresents(engine.All(), DiskRun(engine.OnDisk()), engine.history);
    next := Reopen(engine, Surviving(engine.history, DiskRun(engine.OnDisk())));
  }

  lemma SameFilesFit(was: Disk, d: Disk)
    requires DiskFits(was) && d.files == was.files
    ensures DiskFits(d)
  {
  }

  // ---------- any number of sessions ----------

  function Joined(sessions: seq<seq<Op>>): seq<Op> {
    if sessions == [] then [] else sessions[0] + Joined(sessions[1..])
  }

  /** The bound on ids after a run. */
  function Next(ops: seq<Op>, bound: Id): Id
    decreases |ops|
  {
    if ops == [] then bound else Next(ops[1..], if IsWrite(ops[0]) then ops[0].id + 1 else bound)
  }

  lemma {:induction false} IncreasingSplit(a: seq<Op>, b: seq<Op>, bound: Id)
    requires Increasing(a + b, bound)
    ensures Increasing(a, bound) && Increasing(b, Next(a, bound))
    decreases |a|
  {
    if a == [] {
      assert a + b == b;
    } else {
      assert (a + b)[0] == a[0] && (a + b)[1..] == a[1..] + b;
      IncreasingSplit(a[1..], b, if IsWrite(a[0]) then a[0].id + 1 else bound);
    }
  }

  lemma {:induction false} BelowAfter(h: History, ops: seq<Op>, bound: Id)
    requires Below(h, bound) && Increasing(ops, bound)
    ensures Below(Replay(h, ops), Next(ops, bound))
    decreases |ops|
  {
    if ops != [] {
      BelowAfter(Apply(h, ops[0]), ops[1..], if IsWrite(ops[0]) then ops[0].id + 1 else bound);
    }
  }

  lemma {:induction false} ReplayConcat(h: History, a: seq<Op>, b: seq<Op>)
    ensures Replay(h, a + b) == Replay(Replay(h, a), b)
    decreases |a|
  {
    if a == [] {
      assert a + b == b;
    } else {
      assert (a + b)[0] == a[0] && (a + b)[1..] == a[1..] + b;
      ReplayConcat(Apply(h, a[0]), a[1..], b);
    }
  }

  lemma {:induction false} WrittenConcat(a: seq<Op>, b: seq<Op>)
    ensures WrittenBy(a + b) == WrittenBy(a) + WrittenBy(b)
    decreases |a|
  {
    if a == [] {
      assert a + b == b;
    } else {
      assert (a + b)[0] == a[0] && (a + b)[1..] == a[1..] + b;
      WrittenConcat(a[1..], b);
    }
  }

  /** Before a session: what is stored, what is still to come, and where the ids stand. */
  ghost predicate Pending(engine: LSMEngine, rest: seq<Op>, bound: Id, all: seq<Op>)
    reads engine, engine.mem, engine.mem.Repr
  {
    && engine.Valid() && Clean(engine.OnDisk()) && Below(engine.history, bound) && Increasing(rest, bound)
    && Replay(engine.history, rest) == Replay(map[], all)
    && multiset(engine.All()) + multiset(WrittenBy(rest)) <= multiset(WrittenBy(all))
  }

  /** One session and the restart after it. */
  method Session(engine: LSMEngine, ops: seq<Op>, ghost rest: seq<Op>, bound: Id, ghost all: seq<Op>)
    returns (thrown: bool, next: LSMEngine)
    requires Pending(engine, ops + rest, bound, all) && Roomy(WrittenBy(all), engine.blockSize)
    modifies engine, engine.mem.Repr
    ensures !thrown ==> fresh(next) && fresh(next.mem.Repr) && Alike(next, engine)
    ensures !thrown ==> Pending(next, rest, Next(ops, bound), all)
    ensures engine.Small(WrittenBy(all)) ==> !thrown
  {
    hide Engines.LSMEngine.Small, Engines.LSMEngine.Valid, Engines.LSMEngine.All, Engines.LSMEngine.Stuck, SameVersions,
         Clean, Roomy, WrittenBy, Increasing, Replay, Readers.Moves, Readers.Linearizable, Engines.LSMEngine.Store,
         Below, Next;
    next := engine;
    IncreasingSplit(ops, rest, bound);
    WrittenConcat(ops, rest);
    ReplayConcat(engine.history, ops, rest);
    BelowAfter(engine.history, ops, bound);
    RoomyPart(engine.All() + WrittenBy(ops), WrittenBy(all), engine.blockSize);
    ghost var before := engine.All();
    SmallPart(engine, before + WrittenBy(ops), WrittenBy(all));
    ghost var evs;
    thrown, evs := engine.Run(ops, bound);
    if thrown {
      return;
    }
    SmallPart(engine, engine.All(), WrittenBy(all));
    ghost var mid := engine.All();
    thrown, next := Restart(engine);
    if !thrown {
      SameMultisets(next.All(), mid);
    }
  }

  lemma SmallPart(engine: LSMEngine, x: seq<Entry>, s: seq<Entry>)
    requires multiset(x) <= multiset(s)
    ensures engine.Small(s) ==> engine.Small(x)
  {
    TailBuilds.StreamPart(x, s);
  }

  /**
   End to end: sessions of writes with increasing ids, freezes and flushes, each closed and reopened
   from the bytes on disk. Unless a compaction throws, and none does while all that is written would
   not fill a table of level 1, a snapshot read afterwards returns the last write it may see.
   */
  method ReadAfterSessions(sessions: seq<seq<Op>>, from: Id, key: Key, t: Id, ratio: nat, blockSize: nat, perMem: nat,
                           totalMem: nat, bloom: Blooms.Bloom)
    returns (thrown: bool, r: Option<Value>)
    requires Increasing(Joined(sessions), from) && key != [] && ratio >= 1
    requires Blooms.Valid(bloom) && BloomCodecs.Fits(bloom) && Roomy(WrittenBy(Joined(sessions)), blockSize)
    ensures !thrown ==> r == LastWrite(Joined(sessions), key, t)
    ensures TailBuilds.StreamBytes(WrittenBy(Joined(sessions))) < perMem * ratio ==> !thrown
  {
    hide Pending, Increasing, LastWrite, Read, Replay, Roomy, WrittenBy, Joined, TailBuilds.StreamBytes, Next;
    ghost var all := Joined(sessions);
    RoomyCapacity(WrittenBy(all), blockSize);
    var engine := new LSMEngine(ratio, blockSize, perMem, totalMem, bloom);
    var bound := from;
    StartsPending(engine, all, from);
    thrown, r := false, None;
    assert sessions[0..] == sessions;
    for i := 0 to |sessions|
      invariant fresh(engine) && fresh(engine.mem.Repr) && Pending(engine, Joined(sessions[i..]), bound, all) && !thrown
      invariant engine.blockSize == blockSize && engine.perMem == perMem && engine.ratio == ratio
    {
      JoinedFirst(sessions[i..]);
      assert sessions[i..][1..] == sessions[i + 1..];
      ghost var rest := Joined(sessions[i + 1..]);
      var next;
      thrown, next := Session(engine, sessions[i], rest, bound, all);
      if thrown {
        return;
      }
      bound := Next(sessions[i], bound);
      engine := next;
    }
    r := Lookup(engine, key, t, bound, all);
    RunReadsLastWrite(all, from, key, t);
  }

  lemma JoinedFirst(sessions: seq<seq<Op>>)
    requires sessions != []
    ensures Joined(sessions) == sessions[0] + Joined(sessions[1..])
  {
  }

  lemma StartsPending(engine: LSMEngine, all: seq<Op>, from: Id)
    requires engine.Valid() && Clean(engine.OnDisk()) && engine.history == map[] && engine.All() == []
    requires Increasing(all, from)
    ensures Pending(engine, all, from, all)
  {
    hide Engines.LSMEngine.Valid, Engines.LSMEngine.All, Clean, Increasing, Replay, WrittenBy;
  }

  /** A read once nothing is pending. */
  method Lookup(engine: LSMEngine, key: Key, t: Id, bound: Id, ghost all: seq<Op>) returns (r: Option<Value>)
    requires Pending(engine, Joined([]), bound, all) && key != []
    ensures r == Read(Replay(map[], all), key, t)
  {
    hide Engines.LSMEngine.Valid, Engines.LSMEngine.All, Read, Flat;
    var hit := engine.Get(key, t);
    r := if hit.Some? then Some(hit.value.0) else None;
  }
}
