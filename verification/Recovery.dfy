/**
 Recovery after a crash: the reopened disk, and the logged transactions that are not known to be
 flushed put again one by one. The flushed set may be out of date, so that versions already on disk
 are put a second time.
 */
module Recoveries {
  import opened Versions
  import opened Histories
  import opened Records
  import opened IdLists
  import opened Engines
  import opened Widths
  import Commits
  import Transactions
  import Sessions
  import Readers
  import Levels
  import Reopens

  // ---------- what replay writes ----------

  function WriteOf(r: Record, id: Id): seq<Entry> {
    if r.Put? then [Entry(r.key, r.value, id)] else if r.Delete? then [Entry(r.key, [], id)] else []
  }

  /** The writes of one transaction's records, in order. */
  function Writes(ops: seq<Record>, id: Id): seq<Entry> {
    if ops == [] then [] else Writes(ops[..|ops| - 1], id) + WriteOf(ops[|ops| - 1], id)
  }

  /** The writes of the transactions outside the saved set, by rising id. */
  function ReplayWrites(ids: seq<Id>, log: map<Id, seq<Record>>, saved: seq<Id>): seq<Entry>
    requires forall id :: id in ids ==> id in log
  {
    if ids == [] then []
    else
      var n := |ids| - 1;
      ReplayWrites(ids[..n], log, saved) + (if ids[n] in saved then [] else Writes(log[ids[n]], ids[n]))
  }

  lemma {:induction false} AddAllConcat(h: History, a: seq<Entry>, b: seq<Entry>)
    ensures Commits.AddAll(h, a + b) == Commits.AddAll(Commits.AddAll(h, a), b)
  {
    hide Commits.AddAll;
    Commits.AddAllUnfold(Commits.AddAll(h, a), b);
    if b == [] {
      assert a + b == a;
    } else {
      var n := |b| - 1;
      Commits.AddAllUnfold(h, a + b);
      assert (a + b)[..|a + b| - 1] == a + b[..n] && (a + b)[|a + b| - 1] == b[n];
      AddAllConcat(h, a, b[..n]);
    }
  }

  /** Putting the logged writes of one transaction gives the store the commit gave. */
  lemma {:induction false} WritesReplay(h: History, ops: seq<Record>, id: Id)
    ensures Commits.AddAll(h, Writes(ops, id)) == Transactions.ReplayOps(h, ops, id)
  {
    hide Commits.AddAll;
    if ops == [] {
      Commits.AddAllUnfold(h, []);
    } else {
      var init, last := ops[..|ops| - 1], WriteOf(ops[|ops| - 1], id);
      WritesReplay(h, init, id);
      AddAllConcat(h, Writes(init, id), last);
      Commits.AddAllUnfold(Commits.AddAll(h, Writes(init, id)), last);
      Commits.AddAllUnfold(Commits.AddAll(h, Writes(init, id)), []);
      assert last != [] ==> last[..0] == [];
    }
  }

  /** A replayed transaction's last write of a key is in the store afterwards; other versions are as before. */
  lemma {:induction false} ReplayHolds(h: History, ids: seq<Id>, log: map<Id, seq<Record>>, saved: seq<Id>, id: Id,
                                       k: Key)
    requires Ascending(ids) && forall i :: i in ids ==> i in log
    ensures var h' := Commits.AddAll(h, ReplayWrites(ids, log, saved));
            if id in ids && id !in saved && k in Transactions.Effects(log[id])
            then (k, id) in h' && h'[(k, id)] == Transactions.Effects(log[id])[k]
            else ((k, id) in h' <==> (k, id) in h) && ((k, id) in h ==> h'[(k, id)] == h[(k, id)])
  {
    hide Commits.AddAll, Transactions.Effects, Transactions.ReplayOps;
    if ids == [] {
      Commits.AddAllUnfold(h, []);
    } else {
      var n := |ids| - 1;
      var init, last := ids[..n], ids[n];
      assert ids == init + [last] && last !in init;
      ReplayHolds(h, init, log, saved, id, k);
      var before := ReplayWrites(init, log, saved);
      if last in saved {
        assert before + [] == before;
      } else {
        AddAllConcat(h, before, Writes(log[last], last));
        WritesReplay(Commits.AddAll(h, before), log[last], last);
        Transactions.ReplayIsEffects(Commits.AddAll(h, before), log[last], last);
      }
    }
  }

  // ---------- when replay keeps a store sound ----------

  /** No version stored for the key is newer than this one, and the same version has the same value. */
  ghost predicate FreshIn(h: History, e: Entry) {
    e.key != [] ==> forall i :: (e.key, i) in h ==> i < e.id || (i == e.id && h[(e.key, i)] == e.value)
  }

  /** Each write in turn is fresh in the store the writes before it have made. */
  ghost predicate FreshRun(h: History, es: seq<Entry>) {
    forall n :: 0 <= n < |es| ==> FreshIn(Commits.AddAll(h, es[..n]), es[n])
  }

  ghost predicate Rising(es: seq<Entry>) {
    forall i, j :: 0 <= i < j < |es| ==> es[i].id <= es[j].id
  }

  /** No version is written with two values. */
  ghost predicate OneValueEach(es: seq<Entry>) {
    forall i, j :: 0 <= i < j < |es| && es[i].key != [] && SameVersion(es[i], es[j]) ==> es[i].value == es[j].value
  }

  /** Every version in the store was there before or has been written. */
  lemma {:induction false} AddAllFrom(h: History, es: seq<Entry>, k: Key, i: Id)
    ensures var h' := Commits.AddAll(h, es);
            (k, i) in h' ==> ((k, i) in h && h'[(k, i)] == h[(k, i)]) || Entry(k, h'[(k, i)], i) in es
  {
    hide Commits.AddAll;
    Commits.AddAllUnfold(h, es);
    if es != [] {
      var n := |es| - 1;
      AddAllFrom(h, es[..n], k, i);
      assert es == es[..n] + [es[n]];
    }
  }

  /** Writes with rising ids are fresh throughout exactly when each is fresh at the start and none has two values. */
  lemma FreshRunIff(h: History, es: seq<Entry>)
    requires Rising(es)
    ensures FreshRun(h, es) <==> OneValueEach(es) && forall e :: e in es ==> FreshIn(h, e)
  {
    hide Commits.AddAll;
    if FreshRun(h, es) {
      forall n | 0 <= n < |es|
        ensures FreshIn(h, es[n])
      {
        FreshFromStart(h, es, n);
      }
      forall i, j | 0 <= i < j < |es| && es[i].key != [] && SameVersion(es[i], es[j])
        ensures es[i].value == es[j].value
      {
        OneValueSoFar(h, es, i, j);
      }
    }
    if OneValueEach(es) && forall e :: e in es ==> FreshIn(h, e) {
      forall n | 0 <= n < |es|
        ensures FreshIn(Commits.AddAll(h, es[..n]), es[n])
      {
        StaysFresh(h, es, n);
      }
    }
  }

  /** The ids of the replayed writes rise, because transactions are replayed in order. */
  lemma {:induction false} ReplayRises(ids: seq<Id>, log: map<Id, seq<Record>>, saved: seq<Id>)
    requires Ascending(ids) && forall id :: id in ids ==> id in log
    ensures Rising(ReplayWrites(ids, log, saved)) && forall e :: e in ReplayWrites(ids, log, saved) ==> e.id in ids
  {
    if ids != [] {
      var n := |ids| - 1;
      var init, last := ids[..n], ids[n];
      assert ids == init + [last];
      ReplayRises(init, log, saved);
      WritesUnder(log[last], last);
      var before := ReplayWrites(init, log, saved);
      assert forall i :: 0 <= i < |before| ==> before[i] in before;
    }
  }

  lemma {:induction false} WritesUnder(ops: seq<Record>, id: Id)
    ensures forall e :: e in Writes(ops, id) ==> e.id == id
    ensures Rising(Writes(ops, id))
  {
    if ops != [] {
      WritesUnder(ops[..|ops| - 1], id);
    }
  }

  /** So a recovery can tell from the log and the store before it whether it stays sound. */
  lemma ReplayFreshIff(h: History, ids: seq<Id>, log: map<Id, seq<Record>>, saved: seq<Id>)
    requires Ascending(ids) && forall id :: id in ids ==> id in log
    ensures var es := ReplayWrites(ids, log, saved);
            FreshRun(h, es) <==> OneValueEach(es) && forall e :: e in es ==> FreshIn(h, e)
  {
    hide FreshRun, OneValueEach, FreshIn, Rising, ReplayWrites;
    ReplayRises(ids, log, saved);
    FreshRunIff(h, ReplayWrites(ids, log, saved));
  }

  lemma StaysFresh(h: History, es: seq<Entry>, n: nat)
    requires n < |es| && Rising(es) && OneValueEach(es) && FreshIn(h, es[n])
    ensures FreshIn(Commits.AddAll(h, es[..n]), es[n])
  {
    hide Commits.AddAll;
    var e, h' := es[n], Commits.AddAll(h, es[..n]);
    forall i | e.key != [] && (e.key, i) in h'
      ensures i < e.id || (i == e.id && h'[(e.key, i)] == e.value)
    {
      AddAllFrom(h, es[..n], e.key, i);
      if Entry(e.key, h'[(e.key, i)], i) in es[..n] {
        var j :| 0 <= j < n && es[j] == Entry(e.key, h'[(e.key, i)], i);
      }
    }
  }

  lemma OneValueSoFar(h: History, es: seq<Entry>, i: nat, j: nat)
    requires i < j < |es| && FreshRun(h, es) && es[i].key != [] && SameVersion(es[i], es[j])
    ensures es[i].value == es[j].value
  {
    hide Commits.AddAll;
    assert FreshIn(Commits.AddAll(h, es[..j]), es[j]);
    LastValue(h, es, i, j);
  }

  /** Up to n the version of write i keeps the value of write i. */
  lemma {:induction false} LastValue(h: History, es: seq<Entry>, i: nat, n: nat)
    requires i < n <= |es| && FreshRun(h, es) && es[i].key != []
    ensures var h' := Commits.AddAll(h, es[..n]);
            (es[i].key, es[i].id) in h' && h'[(es[i].key, es[i].id)] == es[i].value
    decreases n
  {
    hide Commits.AddAll;
    Commits.AddAllUnfold(h, es[..n]);
    assert es[..n][..n - 1] == es[..n - 1] && es[..n][n - 1] == es[n - 1];
    if n - 1 > i {
      LastValue(h, es, i, n - 1);
      assert FreshIn(Commits.AddAll(h, es[..n - 1]), es[n - 1]);
    }
  }

  lemma FreshFromStart(h: History, es: seq<Entry>, n: nat)
    requires n < |es| && FreshRun(h, es)
    ensures FreshIn(h, es[n])
  {
    hide Commits.AddAll;
    var e, h' := es[n], Commits.AddAll(h, es[..n]);
    assert FreshIn(h', e);
    forall i | e.key != [] && (e.key, i) in h
      ensures i < e.id || (i == e.id && h[(e.key, i)] == e.value)
    {
      StartValue(h, es, n, e.key, i);
    }
  }

  /** A version stored before the replay keeps its value throughout. */
  lemma {:induction false} StartValue(h: History, es: seq<Entry>, n: nat, k: Key, i: Id)
    requires n <= |es| && FreshRun(h, es) && k != [] && (k, i) in h
    ensures (k, i) in Commits.AddAll(h, es[..n]) && Commits.AddAll(h, es[..n])[(k, i)] == h[(k, i)]
  {
    hide Commits.AddAll;
    Commits.AddAllUnfold(h, es[..n]);
    if n > 0 {
      assert es[..n][..n - 1] == es[..n - 1] && es[..n][n - 1] == es[n - 1];
      StartValue(h, es, n - 1, k, i);
      assert FreshIn(Commits.AddAll(h, es[..n - 1]), es[n - 1]);
    }
  }

  lemma FreshInLayout(s: seq<Entry>, h: History, older: seq<Entry>, e: Entry)
    requires Represents(s, h) && FreshIn(h, e) && forall f :: f in older ==> f in s
    ensures Fresh(older, e)
  {
    hide Marked;
    forall f | f in older && f.key == e.key && e.key != []
      ensures Supersedes(e, f)
    {
      assert f in s && (f.key, f.id) in h && h[(f.key, f.id)] == f.value;
    }
  }

  // ---------- replaying into an engine ----------

  /** n of the writes es have been put into the engine, which held h before. */
  ghost predicate At(engine: LSMEngine, h: History, es: seq<Entry>, n: nat)
    reads engine, engine.mem, engine.mem.Repr
  {
    && engine.Valid() && n <= |es| && FreshRun(h, es) && engine.history == Commits.AddAll(h, es[..n])
    && Roomy(engine.All() + es[n..], engine.blockSize)
  }

  lemma AtFresh(engine: LSMEngine, h: History, es: seq<Entry>, n: nat)
    requires At(engine, h, es, n) && n < |es|
    ensures Fresh(engine.Older(), es[n]) && Roomy(engine.All() + [es[n]], engine.blockSize)
  {
    hide Engines.LSMEngine.Valid, Engines.LSMEngine.Older, Engines.LSMEngine.All, Roomy, Fresh, FreshIn, Commits.AddAll;
    engine.Facts();
    engine.OlderIsPart();
    FreshInLayout(engine.All(), engine.history, engine.Older(), es[n]);
    assert es[n..] == [es[n]] + es[n + 1..];
    RoomyPart(engine.All() + [es[n]], engine.All() + es[n..], engine.blockSize);
  }

  lemma AtNext(engine: LSMEngine, h: History, es: seq<Entry>, n: nat, before: seq<Entry>)
    requires engine.Valid() && n < |es| && FreshRun(h, es) && Roomy(before + es[n..], engine.blockSize)
    requires multiset(engine.All()) <= multiset(before) + multiset{es[n]}
    requires engine.history == Commits.AddAll(h, es[..n])[(es[n].key, es[n].id) := es[n].value]
    ensures At(engine, h, es, n + 1)
  {
    hide Engines.LSMEngine.Valid, Engines.LSMEngine.All, Roomy, FreshRun, Commits.AddAll;
    assert es[n..] == [es[n]] + es[n + 1..];
    RunRoom(engine.All(), before, [es[n]], es[n + 1..], engine.blockSize);
    Commits.AddAllUnfold(h, es[..n + 1]);
    assert es[..n + 1][..n] == es[..n];
  }

  /** Replay one record: a put or a removal under the transaction's id. */
  method ReplayRecord(engine: LSMEngine, r: Record, id: Id, ghost h: History, ghost es: seq<Entry>, ghost n: nat)
    returns (thrown: bool)
    requires At(engine, h, es, n) && WriteOf(r, id) <= es[n..]
    modifies engine, engine.mem.Repr
    ensures At(engine, h, es, n + |WriteOf(r, id)|) && fresh(engine.mem.Repr - old(engine.mem.Repr))
    ensures Levels.Clean(engine.OnDisk()) <==> Levels.Clean(old(engine.OnDisk())) && !thrown
  {
    hide Engines.LSMEngine.Valid, Engines.LSMEngine.Older, Engines.LSMEngine.All, Roomy, Fresh, FreshRun,
         Commits.AddAll, Levels.Clean, Readers.Moves, Engines.LSMEngine.Store, Engines.LSMEngine.Stuck;
    thrown := false;
    ghost var before := engine.All();
    if r.Put? || r.Delete? {
      assert es[n] == WriteOf(r, id)[0];
      AtFresh(engine, h, es, n);
    }
    if r.Put? {
      var _, threw, _ := engine.Put(r.key, r.value, id);
      thrown := threw;
      AtNext(engine, h, es, n, before);
    } else if r.Delete? {
      var _, threw, _ := engine.Remove(r.key, id);
      thrown := threw;
      AtNext(engine, h, es, n, before);
    }
  }

  lemma {:induction false} WritesPrefix(ops: seq<Record>, id: Id, j: nat)
    requires j <= |ops|
    ensures Writes(ops[..j], id) <= Writes(ops, id)
    decreases |ops| - j
  {
    if j == |ops| {
      assert ops[..j] == ops;
    } else {
      WritesPrefix(ops, id, j + 1);
      WritesNext(ops, id, j);
    }
  }

  lemma WritesNext(ops: seq<Record>, id: Id, j: nat)
    requires j < |ops|
    ensures Writes(ops[..j + 1], id) == Writes(ops[..j], id) + WriteOf(ops[j], id)
  {
    assert ops[..j + 1][..j] == ops[..j];
  }

  /** Replay the records of one transaction in order. */
  method ReplayTransaction(engine: LSMEngine, ops: seq<Record>, id: Id, ghost h: History, ghost es: seq<Entry>,
                           ghost n: nat)
    returns (thrown: bool, ghost done: nat)
    requires At(engine, h, es, n) && Writes(ops, id) <= es[n..]
    modifies engine, engine.mem.Repr
    ensures At(engine, h, es, done) && fresh(engine.mem.Repr - old(engine.mem.Repr))
    ensures !thrown ==> done == n + |Writes(ops, id)|
    ensures Levels.Clean(engine.OnDisk()) <==> Levels.Clean(old(engine.OnDisk())) && !thrown
  {
    hide At, Levels.Clean, Writes, WriteOf;
    thrown, done := false, n;
    AtBound(engine, h, es, n);
    NoWrites(id);
    for j := 0 to |ops|
      invariant At(engine, h, es, done) && fresh(engine.mem.Repr - old(engine.mem.Repr)) && !thrown
      invariant done == n + |Writes(ops[..j], id)|
      invariant Levels.Clean(engine.OnDisk()) <==> Levels.Clean(old(engine.OnDisk()))
    {
      WritesNext(ops, id, j);
      WritesPrefix(ops, id, j + 1);
      Continues(Writes(ops[..j], id), WriteOf(ops[j], id), Writes(ops, id), es[n..]);
      assert es[n..][|Writes(ops[..j], id)|..] == es[done..];
      var threw := ReplayRecord(engine, ops[j], id, h, es, done);
      done := n + |Writes(ops[..j + 1], id)|;
      if threw {
        return true, done;
      }
    }
    assert ops[..|ops|] == ops;
  }

  lemma AtBound(engine: LSMEngine, h: History, es: seq<Entry>, n: nat)
    requires At(engine, h, es, n)
    ensures n <= |es|
  {
  }

  lemma NoWrites(id: Id)
    ensures Writes([], id) == []
  {
  }

  /** Of a prefix in two parts the second continues where the first ends. */
  lemma Continues(a: seq<Entry>, b: seq<Entry>, whole: seq<Entry>, es: seq<Entry>)
    requires a + b <= whole <= es
    ensures b <= es[|a|..]
  {
    assert es[..|a + b|] == a + b;
    forall i | 0 <= i < |b|
      ensures b[i] == es[|a|..][i]
    {
      assert (a + b)[|a| + i] == b[i];
    }
  }

  lemma ReplayNext(ids: seq<Id>, log: map<Id, seq<Record>>, saved: seq<Id>, i: nat)
    requires i < |ids| && forall id :: id in ids ==> id in log
    ensures ReplayWrites(ids[..i + 1], log, saved) ==
            ReplayWrites(ids[..i], log, saved) + if ids[i] in saved then [] else Writes(log[ids[i]], ids[i])
  {
    assert ids[..i + 1][..i] == ids[..i];
  }

  lemma {:induction false} ReplayPrefix(ids: seq<Id>, log: map<Id, seq<Record>>, saved: seq<Id>, i: nat)
    requires i <= |ids| && forall id :: id in ids ==> id in log
    ensures ReplayWrites(ids[..i], log, saved) <= ReplayWrites(ids, log, saved)
    decreases |ids| - i
  {
    if i == |ids| {
      assert ids[..i] == ids;
    } else {
      ReplayPrefix(ids, log, saved, i + 1);
      ReplayNext(ids, log, saved, i);
    }
  }

  /**
   Replay the logged transactions by rising id, all but the saved ones. The replay may put versions
   again that are on disk already; as long as each write is fresh the store stays sound throughout,
   through every freeze, flush and compaction on the way, and gains exactly the replayed versions. A
   compaction that throws ends it.
   */
  method ReplayLog(engine: LSMEngine, ids: seq<Id>, log: map<Id, seq<Record>>, saved: seq<Id>)
    returns (thrown: bool, ghost done: nat)
    requires engine.Valid() && forall id :: id in ids ==> id in log
    requires FreshRun(engine.history, ReplayWrites(ids, log, saved))
    requires Roomy(engine.All() + ReplayWrites(ids, log, saved), engine.blockSize)
    modifies engine, engine.mem.Repr
    ensures engine.Valid() && fresh(engine.mem.Repr - old(engine.mem.Repr)) && done <= |ReplayWrites(ids, log, saved)|
    ensures engine.history == Commits.AddAll(old(engine.history), ReplayWrites(ids, log, saved)[..done])
    ensures !thrown ==> done == |ReplayWrites(ids, log, saved)|
    ensures Levels.Clean(engine.OnDisk()) <==> Levels.Clean(old(engine.OnDisk())) && !thrown
  {
    hide Engines.LSMEngine.Valid, Engines.LSMEngine.All, Roomy, FreshRun, Commits.AddAll, Levels.Clean, ReplayWrites,
         Writes;
    ghost var h, es := engine.history, ReplayWrites(ids, log, saved);
    thrown, done := false, 0;
    Commits.AddAllUnfold(h, es[..0]);
    assert es[0..] == es;
    NoReplay(log, saved);
    for i := 0 to |ids|
      invariant At(engine, h, es, done) && fresh(engine.mem.Repr - old(engine.mem.Repr)) && !thrown
      invariant done == |ReplayWrites(ids[..i], log, saved)|
      invariant Levels.Clean(engine.OnDisk()) <==> Levels.Clean(old(engine.OnDisk()))
    {
      hide At;
      ReplayNext(ids, log, saved, i);
      if ids[i] !in saved {
        ReplayPrefix(ids, log, saved, i + 1);
        Continues(ReplayWrites(ids[..i], log, saved), Writes(log[ids[i]], ids[i]), es, es);
        thrown, done := ReplayTransaction(engine, log[ids[i]], ids[i], h, es, done);
        if thrown {
          break;
        }
      }
    }
    assert ids[..|ids|] == ids;
  }

  lemma NoReplay(log: map<Id, seq<Record>>, saved: seq<Id>)
    ensures ReplayWrites([], log, saved) == []
  {
  }

  // ---------- out-of-date flushed sets ----------

  /** A version both in memory and on disk has one value. */
  ghost predicate Agree(mem: seq<Entry>, disk: seq<Entry>) {
    forall e, f :: e in mem && f in disk && e.key != [] && SameVersion(e, f) ==> e == f
  }

  /** The replayed tables over the disk are sound if and only if no replayed key has a strictly newer version there. */
  lemma ReplaySoundIff(mem: seq<Entry>, disk: seq<Entry>)
    requires AgeOrdered(mem) && AgeOrdered(disk) && Agree(mem, disk)
    ensures AgeOrdered(mem + disk) <==>
            forall e, f :: e in mem && f in disk && e.key != [] && f.key == e.key ==> f.id <= e.id
  {
    hide AgeOrdered;
    if AgeOrdered(mem + disk) {
      AgeOrderedParts(mem, disk);
    }
    if forall e, f :: e in mem && f in disk && e.key != [] && f.key == e.key ==> f.id <= e.id {
      AgeOrderedJoin(mem, disk);
    }
  }

  ghost predicate ReadsNewest(s: seq<Entry>, k: Key, t: Id) {
    forall g :: g in s && Hit(g, k, t) ==> First(s, k, t).Some? && g.id <= First(s, k, t).value.id
  }

  /** Every version on disk that is newer than a replayed one of its key has been replayed itself. */
  ghost predicate NewerReplayed(mem: seq<Entry>, disk: seq<Entry>) {
    forall e, f :: e in mem && f in disk && e.key != [] && f.key == e.key && f.id > e.id ==> f in mem
  }

  /** Reads need less: they are right, sound order or not, if and only if what is newer on disk was replayed too. */
  lemma ReplayReadsIff(mem: seq<Entry>, disk: seq<Entry>)
    requires AgeOrdered(mem) && AgeOrdered(disk) && Agree(mem, disk)
    ensures NewerReplayed(mem, disk) <==> forall k: Key, t: Id :: k != [] ==> ReadsNewest(mem + disk, k, t)
  {
    hide AgeOrdered, First, ReadsNewest;
    if NewerReplayed(mem, disk) {
      forall k: Key, t: Id | k != []
        ensures ReadsNewest(mem + disk, k, t)
      {
        ReadsRight(mem, disk, k, t);
      }
    }
    if forall k: Key, t: Id :: k != [] ==> ReadsNewest(mem + disk, k, t) {
      forall e, f | e in mem && f in disk && e.key != [] && f.key == e.key && f.id > e.id
        ensures f in mem
      {
        assert ReadsNewest(mem + disk, f.key, f.id);
        ReadFound(mem, disk, e, f);
      }
    }
  }

  lemma ReadsRight(mem: seq<Entry>, disk: seq<Entry>, k: Key, t: Id)
    requires AgeOrdered(mem) && AgeOrdered(disk) && NewerReplayed(mem, disk) && k != []
    ensures ReadsNewest(mem + disk, k, t)
  {
    hide AgeOrdered, First;
    FirstConcat(mem, disk, k, t);
    var r := First(mem + disk, k, t);
    if First(mem, k, t).Some? {
      FirstIsNewest(mem, k, t, r.value);
    } else if r.Some? {
      FirstIsNewest(disk, k, t, r.value);
    }
  }

  /** A read as of the newer version on disk stops in memory, and is right only if it finds that version there. */
  lemma ReadFound(mem: seq<Entry>, disk: seq<Entry>, e: Entry, f: Entry)
    requires Agree(mem, disk) && ReadsNewest(mem + disk, f.key, f.id)
    requires e in mem && f in disk && e.key != [] && f.key == e.key && f.id > e.id
    ensures f in mem
  {
    hide First;
    FirstConcat(mem, disk, f.key, f.id);
    assert f in mem + disk && Hit(f, f.key, f.id) && Hit(e, f.key, f.id);
  }

  /** One replayed write over a newer version that is on disk and not replayed: the read returns the older value. */
  lemma StaleReplayHides(k: Key, v: Value, w: Value, i: Id, j: Id)
    requires k != [] && i < j
    ensures var mem, disk := [Entry(k, v, i)], [Entry(k, w, j)];
            && AgeOrdered(mem) && AgeOrdered(disk) && Agree(mem, disk) && !NewerReplayed(mem, disk)
            && First(mem + disk, k, 0) == Some(Entry(k, v, i))
  {
    var mem, disk := [Entry(k, v, i)], [Entry(k, w, j)];
    assert mem[0] in mem && disk[0] in disk;
    OneOrdered(mem[0]);
    OneOrdered(disk[0]);
  }

  lemma OneOrdered(e: Entry)
    ensures AgeOrdered([e])
  {
    forall k: Key
      ensures |ForKey([e], k)| <= 1
    {
      assert [e][1..] == [];
    }
  }

  // ---------- a crash and the recovery after it ----------

  /**
   A session runs, and crashes in any reachable state. The engine holds what the disk held then, and
   the log the operations of every committed transaction above the smallest saved id. However old the
   saved set is, after the replay every committed write of the session is in the store.
   */
  method Recover(engine: LSMEngine, ids: seq<Id>, log: map<Id, seq<Record>>, saved: seq<Id>, ghost s: Sessions.State,
                 ghost evs: seq<Sessions.Event>, ghost mark: Id)
    returns (thrown: bool)
    requires Sessions.Starts(s, mark) && Sessions.Legal(s, evs) && Sessions.Saved(s, evs, mark, saved)
    requires engine.Valid() && Left(Sessions.Run(s, evs), engine.All(), ids, log, saved)
    requires FreshRun(engine.history, ReplayWrites(ids, log, saved))
    requires Roomy(engine.All() + ReplayWrites(ids, log, saved), engine.blockSize)
    modifies engine, engine.mem.Repr
    ensures engine.Valid() && fresh(engine.mem.Repr - old(engine.mem.Repr))
    ensures !thrown ==> AllCommitted(Sessions.Run(s, evs), mark, engine.history)
  {
    hide Engines.LSMEngine.Valid, Engines.LSMEngine.All, Roomy, FreshRun, Commits.AddAll, ReplayWrites, Levels.Clean,
         Sessions.Legal, Sessions.Saved, Sessions.Run, AllCommitted, Represents;
    ghost var h, es, now := engine.history, ReplayWrites(ids, log, saved), Sessions.Run(s, evs);
    engine.Facts();
    ghost var all := engine.All();
    ghost var done;
    thrown, done := ReplayLog(engine, ids, log, saved);
    if !thrown {
      assert es[..done] == es;
      KeysCommitted(s, evs, mark);
      forall id, k | id in now.log && id > mark && k in now.log[id]
        ensures Holds(engine.history, k, id, now.log[id][k])
      {
        Sessions.NoCommittedWriteLost(s, evs, mark, saved, id, k);
        CommittedHeld(h, all, ids, log, saved, now, id, k);
      }
      CommittedAll(now, mark, engine.history);
    }
  }

  /** What a crash leaves: the disk, and the log above the smallest saved id. */
  ghost predicate Left(now: Sessions.State, disk: seq<Entry>, ids: seq<Id>, log: map<Id, seq<Record>>, saved: seq<Id>) {
    && (forall e :: e in now.disk ==> e in disk)
    && Ascending(ids) && (forall id :: id in ids <==> id in log) && saved != []
    && (forall id :: id in log <==> id in now.log && id > saved[0])
    && (forall id :: id in log ==> Transactions.Effects(log[id]) == now.log[id])
  }

  ghost predicate Holds(h: History, k: Key, id: Id, v: Value) {
    (k, id) in h && h[(k, id)] == v
  }

  ghost predicate AllCommitted(now: Sessions.State, mark: Id, h: History) {
    forall id, k :: id in now.log && id > mark && k in now.log[id] ==> Holds(h, k, id, now.log[id][k])
  }

  lemma CommittedAll(now: Sessions.State, mark: Id, h: History)
    requires forall id, k :: id in now.log && id > mark && k in now.log[id] ==> Holds(h, k, id, now.log[id][k])
    ensures AllCommitted(now, mark, h)
  {
  }

  lemma KeysCommitted(s: Sessions.State, evs: seq<Sessions.Event>, mark: Id)
    requires Sessions.Starts(s, mark) && Sessions.Legal(s, evs)
    ensures forall id :: id in Sessions.Run(s, evs).log ==> [] !in Sessions.Run(s, evs).log[id]
  {
    hide Sessions.Legal, Sessions.Run, Sessions.Reported;
    Sessions.StartKeepsInv(s, mark);
    Sessions.RunKeepsInv(s, evs, mark);
  }

  lemma CommittedHeld(h: History, all: seq<Entry>, ids: seq<Id>, log: map<Id, seq<Record>>, saved: seq<Id>,
                      now: Sessions.State, id: Id, k: Key)
    requires Represents(all, h) && Left(now, all, ids, log, saved) && id in now.log && k in now.log[id] && k != []
    requires Sessions.Replayed(now, saved, id) || Entry(k, now.log[id][k], id) in now.disk
    ensures Holds(Commits.AddAll(h, ReplayWrites(ids, log, saved)), k, id, now.log[id][k])
  {
    hide Commits.AddAll, ReplayWrites, Transactions.Effects, Marked;
    ReplayHolds(h, ids, log, saved, id, k);
  }

  /** From the crash to the recovered store, through the bytes of the files. */
  method CrashAndRecover(engine: LSMEngine, ids: seq<Id>, log: map<Id, seq<Record>>, saved: seq<Id>,
                         ghost s: Sessions.State, ghost evs: seq<Sessions.Event>, ghost mark: Id)
    returns (thrown: bool, next: LSMEngine)
    requires engine.Valid() && Levels.Clean(engine.OnDisk())
    requires Sessions.Starts(s, mark) && Sessions.Legal(s, evs) && Sessions.Saved(s, evs, mark, saved)
    requires Left(Sessions.Run(s, evs), Levels.DiskRun(engine.OnDisk()), ids, log, saved)
    requires FreshRun(Reopens.Surviving(engine.history, Levels.DiskRun(engine.OnDisk())), ReplayWrites(ids, log, saved))
    requires Roomy(Levels.DiskRun(engine.OnDisk()) + ReplayWrites(ids, log, saved), engine.blockSize)
    ensures next.Valid() && fresh(next) && fresh(next.mem.Repr)
    ensures !thrown ==> AllCommitted(Sessions.Run(s, evs), mark, next.history)
  {
    hide Engines.LSMEngine.Valid, Engines.LSMEngine.All, Roomy, FreshRun, ReplayWrites, Levels.Clean, Levels.DiskRun,
         Sessions.Legal, Sessions.Saved, Sessions.Run, AllCommitted, Left, Reopens.Surviving;
    LeftLog(Sessions.Run(s, evs), Levels.DiskRun(engine.OnDisk()), ids, log, saved);
    next := Reopens.Crash(engine);
    thrown := Recover(next, ids, log, saved, s, evs, mark);
  }

  lemma LeftLog(now: Sessions.State, disk: seq<Entry>, ids: seq<Id>, log: map<Id, seq<Record>>, saved: seq<Id>)
    requires Left(now, disk, ids, log, saved)
    ensures forall id :: id in ids ==> id in log
  {
  }
}
