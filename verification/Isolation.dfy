/**
 Many transactions over one store, interleaved in any way. Reads repeat, buffered writes stay
 private until commit, and a validated commit keeps age order exactly when the disk holds nothing
 newer for the keys it writes.
 */
module Isolations {
  import opened Versions
  import opened Histories
  import opened Records
  import opened Transactions
  import Commits

  datatype World = World(cur: seq<Entry>, frozen: seq<seq<Entry>>, disk: seq<Entry>, txs: map<Id, Tx>)

  datatype Event =
    | Begin(tx: Id, level: Isolation)
    | TxPut(tx: Id, key: Key, value: Value)
    | TxRemove(tx: Id, key: Key)
    | TxGet(tx: Id, key: Key)
    | TxCommit(tx: Id, es: seq<Entry>)
    | TxAbort(tx: Id)
    | PlainPut(e: Entry)
    | PlainGet(key: Key, t: Id)
    | FreezeTable
    | FlushTable
    | Compact(run: seq<Entry>)
    | Skip

  datatype Out = Silent | Got(value: Option<Value>) | Decided(ok: bool)

  function Memory(w: World): seq<seq<Entry>> {
    [w.cur] + w.frozen
  }

  function Found(r: Option<Entry>, id: Id): Query {
    if r.Some? && r.value.value != [] then Some((r.value.value, id)) else None
  }

  /** The engine's answer: memory with the version's id, then disk with the query's. */
  function EngineGet(w: World, k: Key, t: Id): Query {
    var m := First(Flat(Memory(w)), k, t);
    if m.Some? then Found(m, m.value.id) else Found(First(w.disk, k, t), t)
  }

  ghost function StepTx(w: World, tx: Tx, ev: Event): (World, Out) {
    match ev
    case TxPut(_, k, v) => (w.(txs := w.txs[tx.id := BufferPut(tx, k, v)]), Silent)
    case TxRemove(_, k) => (w.(txs := w.txs[tx.id := BufferRemove(tx, k)]), Silent)
    case TxGet(_, k) =>
      var q := EngineGet(w, k, tx.id);
      (w.(txs := w.txs[tx.id := Remember(tx, k, q)]), Got(Lookup(tx, k, q)))
    case TxCommit(_, es) =>
      if Lists(es, tx.temp, tx.id) && !(Repeats(tx.level) && MemoryConflict(Memory(w), tx.temp, tx.id))
      then (w.(cur := Commits.UpsertAll(w.cur, es)), Decided(true))
      else (w, Decided(false))
    case _ => (w, Silent)
  }

  ghost function Step(w: World, ev: Event): (World, Out) {
    match ev
    case Begin(id, level) => (if id in w.txs then w else w.(txs := w.txs[id := Begun(id, level)]), Silent)
    case PlainPut(e) => (w.(cur := Upsert(w.cur, e)), Silent)
    case PlainGet(k, t) => (w, Got(ValueOf(EngineGet(w, k, t))))
    case FreezeTable => (w.(cur := [], frozen := [w.cur] + w.frozen), Silent)
    case FlushTable =>
      if w.frozen == [] then (w.(cur := [], disk := w.cur + w.disk), Silent)
      else
        var last := |w.frozen| - 1;
        (w.(frozen := w.frozen[..last], disk := w.frozen[last] + w.disk), Silent)
    case Compact(run) => (if SameVersions(run, w.disk) then w.(disk := run) else w, Silent)
    case Skip => (w, Silent)
    case _ => if ev.tx in w.txs && w.txs[ev.tx].id == ev.tx then StepTx(w, w.txs[ev.tx], ev) else (w, Silent)
  }

  /** The world after the first n events, and what event i returns. */
  ghost function After(w: World, evs: seq<Event>, n: nat): World
    requires n <= |evs|
  {
    if n == 0 then w else Step(After(w, evs, n - 1), evs[n - 1]).0
  }

  ghost function OutAt(w: World, evs: seq<Event>, i: nat): Out
    requires i < |evs|
  {
    Step(After(w, evs, i), evs[i]).1
  }

  predicate ByTx(ev: Event, t: Id) {
    TxEvent(ev) && ev.tx == t
  }

  predicate Buffers(ev: Event, t: Id) {
    (ev.TxPut? || ev.TxRemove?) && ev.tx == t
  }

  // ---------- buffered writes are private ----------

  /** The same run with the buffered writes of t taken out. */
  function Erased(evs: seq<Event>, t: Id): (r: seq<Event>)
    ensures |r| == |evs| && forall i :: 0 <= i < |evs| ==> r[i] == if Buffers(evs[i], t) then Skip else evs[i]
  {
    seq(|evs|, i requires 0 <= i < |evs| => if Buffers(evs[i], t) then Skip else evs[i])
  }

  /** Equal but for what t has buffered and kept. */
  ghost predicate SameBut(a: World, b: World, t: Id) {
    && a.cur == b.cur && a.frozen == b.frozen && a.disk == b.disk && a.txs.Keys == b.txs.Keys
    && (forall id :: id in a.txs && id != t ==> a.txs[id] == b.txs[id])
    && (t in a.txs ==> a.txs[t].id == b.txs[t].id)
  }

  predicate TxEvent(ev: Event) {
    ev.TxPut? || ev.TxRemove? || ev.TxGet? || ev.TxCommit? || ev.TxAbort?
  }

  /** Worlds with one store give one answer. */
  lemma SameAnswer(a: World, b: World, k: Key, t: Id)
    requires a.cur == b.cur && a.frozen == b.frozen && a.disk == b.disk
    ensures EngineGet(a, k, t) == EngineGet(b, k, t) && Memory(a) == Memory(b)
  {
  }

  lemma OthersStore(a: World, b: World, ev: Event, t: Id)
    requires SameBut(a, b, t) && !TxEvent(ev)
    ensures SameBut(Step(a, ev).0, Step(b, ev).0, t) && Step(a, ev).1 == Step(b, ev).1
  {
    hide EngineGet, Upsert, SameVersions, StepTx;
    if ev.PlainGet? {
      SameAnswer(a, b, ev.key, ev.t);
    }
  }

  lemma OthersBuffer(a: World, b: World, ev: Event, t: Id)
    requires SameBut(a, b, t) && (ev.TxPut? || ev.TxRemove? || ev.TxAbort?) && ev.tx != t
    ensures SameBut(Step(a, ev).0, Step(b, ev).0, t) && Step(a, ev).1 == Step(b, ev).1
  {
  }

  lemma OthersGet(a: World, b: World, id: Id, k: Key, t: Id)
    requires SameBut(a, b, t) && id != t
    ensures SameBut(Step(a, TxGet(id, k)).0, Step(b, TxGet(id, k)).0, t)
    ensures Step(a, TxGet(id, k)).1 == Step(b, TxGet(id, k)).1
  {
    hide EngineGet, Remember, Lookup;
    SameAnswer(a, b, k, id);
    if id in a.txs && a.txs[id].id == id {
      RememberId(a.txs[id], k, EngineGet(a, k, id));
    }
  }

  lemma RememberId(tx: Tx, k: Key, q: Query)
    ensures Remember(tx, k, q).id == tx.id
  {
  }

  lemma OthersCommit(a: World, b: World, id: Id, es: seq<Entry>, t: Id)
    requires SameBut(a, b, t) && id != t
    ensures SameBut(Step(a, TxCommit(id, es)).0, Step(b, TxCommit(id, es)).0, t)
    ensures Step(a, TxCommit(id, es)).1 == Step(b, TxCommit(id, es)).1
  {
    hide Commits.UpsertAll, Lists, MemoryConflict;
    SameAnswer(a, b, [], 0);
  }

  /** A step of anyone else looks the same from both worlds and keeps them alike. */
  lemma StepOthers(a: World, b: World, ev: Event, t: Id)
    requires SameBut(a, b, t) && !ByTx(ev, t)
    ensures SameBut(Step(a, ev).0, Step(b, ev).0, t) && Step(a, ev).1 == Step(b, ev).1
  {
    hide Step, SameBut;
    match ev
    case TxGet(id, k) => OthersGet(a, b, id, k, t);
    case TxCommit(id, es) => OthersCommit(a, b, id, es, t);
    case TxPut(_, _, _) => OthersBuffer(a, b, ev, t);
    case TxRemove(_, _) => OthersBuffer(a, b, ev, t);
    case TxAbort(_) => OthersBuffer(a, b, ev, t);
    case _ => OthersStore(a, b, ev, t);
  }

  lemma StepOwn(a: World, b: World, ev: Event, t: Id)
    requires SameBut(a, b, t) && ByTx(ev, t) && !ev.TxCommit?
    ensures SameBut(Step(a, ev).0, Step(b, if Buffers(ev, t) then Skip else ev).0, t)
  {
    hide First, Flat, Upsert, SameVersions, Commits.UpsertAll, Lists, MemoryConflict;
  }

  lemma {:induction false} ErasedRunsAlike(w: World, evs: seq<Event>, t: Id, n: nat)
    requires n <= |evs| && forall i :: 0 <= i < n ==> !(evs[i].TxCommit? && evs[i].tx == t)
    ensures SameBut(After(w, evs, n), After(w, Erased(evs, t), n), t)
  {
    hide Step, SameBut;
    if n == 0 {
      SameAsItself(w, t);
    } else {
      ErasedRunsAlike(w, evs, t, n - 1);
      var ev, a, b := evs[n - 1], After(w, evs, n - 1), After(w, Erased(evs, t), n - 1);
      if ByTx(ev, t) {
        StepOwn(a, b, ev, t);
      } else {
        StepOthers(a, b, ev, t);
      }
    }
  }

  lemma SameAsItself(w: World, t: Id)
    ensures SameBut(w, w, t)
  {
  }

  /**
   Until a transaction commits, nobody else can tell whether it buffered anything: every read and
   every commit decision of the others comes out the same.
   */
  lemma BufferedWritesInvisible(w: World, evs: seq<Event>, t: Id, i: nat)
    requires i < |evs| && !ByTx(evs[i], t)
    requires forall j :: 0 <= j < i ==> !(evs[j].TxCommit? && evs[j].tx == t)
    ensures OutAt(w, evs, i) == OutAt(w, Erased(evs, t), i)
  {
    hide Step, SameBut;
    ErasedRunsAlike(w, evs, t, i);
    StepOthers(After(w, evs, i), After(w, Erased(evs, t), i), evs[i], t);
  }

  // ---------- reads repeat ----------

  predicate Writes(ev: Event, t: Id, k: Key) {
    Buffers(ev, t) && ev.key == k
  }

  /** t has read k, keeps the answer q, and has not written k. */
  ghost predicate Keeps(w: World, t: Id, k: Key, q: Query) {
    && t in w.txs && w.txs[t].id == t && Repeats(w.txs[t].level)
    && k !in w.txs[t].temp && k in w.txs[t].kept && w.txs[t].kept[k] == q
  }

  lemma StepKeeps(w: World, ev: Event, t: Id, k: Key, q: Query)
    requires Keeps(w, t, k, q) && !Writes(ev, t, k)
    ensures Keeps(Step(w, ev).0, t, k, q)
    ensures ev == TxGet(t, k) ==> Step(w, ev).1 == Got(ValueOf(q))
  {
    hide First, Flat, Upsert, SameVersions, Commits.UpsertAll, Lists, MemoryConflict;
  }

  lemma {:induction false} RunKeeps(w: World, evs: seq<Event>, t: Id, k: Key, q: Query, i: nat, n: nat)
    requires i <= n <= |evs| && Keeps(After(w, evs, i), t, k, q)
    requires forall j :: i <= j < n ==> !Writes(evs[j], t, k)
    ensures Keeps(After(w, evs, n), t, k, q)
  {
    hide Step, Keeps;
    if i < n {
      RunKeeps(w, evs, t, k, q, i, n - 1);
      StepKeeps(After(w, evs, n - 1), evs[n - 1], t, k, q);
    }
  }

  /** A transaction that repeats reads is running and has not written k. */
  ghost predicate ReadsOnly(w: World, t: Id, k: Key) {
    t in w.txs && w.txs[t].id == t && Repeats(w.txs[t].level) && k !in w.txs[t].temp
  }

  lemma FirstReadKeeps(w: World, t: Id, k: Key) returns (q: Query)
    requires ReadsOnly(w, t, k)
    ensures Keeps(Step(w, TxGet(t, k)).0, t, k, q) && Step(w, TxGet(t, k)).1 == Got(ValueOf(q))
  {
    hide First, Flat;
    q := if k in w.txs[t].kept then w.txs[t].kept[k] else EngineGet(w, k, t);
  }

  /** Two reads of a key the transaction has not written agree, whatever ran in between. */
  lemma ReadsRepeat(w: World, evs: seq<Event>, t: Id, k: Key, i: nat, j: nat)
    requires i < j < |evs| && evs[i] == TxGet(t, k) && evs[j] == TxGet(t, k)
    requires ReadsOnly(After(w, evs, i), t, k)
    requires forall n :: i < n < j ==> !Writes(evs[n], t, k)
    ensures OutAt(w, evs, i) == OutAt(w, evs, j)
  {
    hide Step, Keeps;
    var q := FirstReadKeeps(After(w, evs, i), t, k);
    assert After(w, evs, i + 1) == Step(After(w, evs, i), evs[i]).0;
    RunKeeps(w, evs, t, k, q, i + 1, j);
    StepKeeps(After(w, evs, j), evs[j], t, k, q);
  }

  // ---------- validated commits ----------

  /**
   A commit that passes memory validation keeps the age order of a key exactly when the disk holds
   no newer version of it, or the transaction does not write it.
   */
  lemma ValidatedCommit(cur: seq<Entry>, frozen: seq<seq<Entry>>, disk: seq<Entry>, temp: map<Key, Value>, id: Id,
                        es: seq<Entry>, k: Key)
    requires Sorted(cur) && Lists(es, temp, id) && k != []
    requires !MemoryConflict([cur] + frozen, temp, id)
    requires Descending(ForKey(cur + (Flat(frozen) + disk), k))
    requires forall f :: f in Flat(frozen) + disk && f.key == k ==> f.id != id
    ensures Descending(ForKey(Commits.UpsertAll(cur, es) + (Flat(frozen) + disk), k)) <==>
            (k in temp ==> forall f :: f in disk && f.key == k ==> f.id < id)
  {
    hide Sorted, ForKey, Descending, Flat, First, Commits.UpsertAll, DistinctVersions;
    var older := Flat(frozen) + disk;
    Commits.CommitKeepsKey(cur, older, es, k);
    if k in temp {
      assert !KeyConflict([cur] + frozen, k, id);
      MemoryIsOlder(cur, frozen, disk, id, k);
      var e := Entry(k, temp[k], id);
      assert e in es;
      assert forall f :: f in es && f.key == k ==> f == e;
    } else {
      assert forall f :: f in es ==> f.key != k;
    }
  }

  /** Validation sees the newest version in memory, so every version there is at most as new. */
  lemma MemoryIsOlder(cur: seq<Entry>, frozen: seq<seq<Entry>>, disk: seq<Entry>, id: Id, k: Key)
    requires Descending(ForKey(cur + (Flat(frozen) + disk), k)) && !KeyConflict([cur] + frozen, k, id)
    ensures forall f :: f in Flat(frozen) && f.key == k ==> f.id <= id
  {
    hide ForKey, Descending, Flat, First;
    var m := cur + Flat(frozen);
    FlatConcat([cur], frozen);
    FlatOne(cur);
    assert cur + (Flat(frozen) + disk) == m + disk;
    KeyOrder(m, disk, k);
    forall f | f in Flat(frozen) && f.key == k
      ensures f.id <= id
    {
      assert f in m && Hit(f, k, 0);
      FirstIsNewestFor(m, k, 0, First(m, k, 0).value);
    }
  }

  /**
   Without the condition on the disk the property fails: a transaction that commits after a newer one
   has been flushed passes validation, and the newest read then returns the older value.
   */
  lemma DiskConflictUnseen()
    ensures var newer := Entry([1], [9], 7);
            var es := [Entry([1], [8], 5), Entry([], [], 5)];
            && AgeOrdered([] + [newer]) && Lists(es, map[[1] := [8]], 5)
            && !MemoryConflict([[]], map[[1] := [8]], 5)
            && First([] + [newer], [1], 0) == Some(newer)
            && First(Commits.UpsertAll([], es) + [newer], [1], 0) == Some(Entry([1], [8], 5))
  {
    var newer := Entry([1], [9], 7);
    var a, b := Entry([1], [8], 5), Entry([], [], 5);
    var es := [a, b];
    assert ([] + [newer]) == [newer];
    forall k: Key | k != []
      ensures Descending(ForKey([newer], k))
    {
      ForKeySame([newer], k);
    }
    FlatOne([]);
    Commits.UpsertAllUnfold([], es);
    assert es[..1] == [a];
    Commits.UpsertAllUnfold([], [a]);
    assert [a][..0] == [];
    Commits.UpsertAllUnfold([], []);
    assert Less([], [1]) && !Before(a, b);
    UpsertPlaced([], a, 0);
    UpsertPlaced([a], b, 0);
    assert Commits.UpsertAll([], es) == [b, a];
    FirstAt([newer], 0, [1], 0);
    FirstAt([b, a] + [newer], 1, [1], 0);
  }

  /**
   The marker key is not validated at all: two transactions that commit in reverse id order, with a
   freeze in between, leave the empty key out of id order. Every other key keeps its order.
   */
  lemma MarkersCanBeOutOfOrder()
    ensures var seven, five := Entry([], [], 7), Entry([], [], 5);
            && Descending(ForKey([] + [seven], [])) && !Descending(ForKey(Commits.UpsertAll([], [five]) + [seven], []))
            && AgeOrdered(Commits.UpsertAll([], [five]) + [seven])
  {
    var seven, five := Entry([], [], 7), Entry([], [], 5);
    assert [] + [seven] == [seven];
    ForKeySame([seven], []);
    assert Descending([seven]);
    assert Sorted([]) && DistinctVersions([five]);
    Commits.CommitKeepsKey([], [seven], [five], []);
    assert five in [five] && seven in [seven];
    forall k: Key | k != []
      ensures Descending(ForKey([] + [seven], k))
    {
      ForKeySame([seven], k);
    }
    Commits.CommitKeepsAgeOrder([], [seven], [five]);
  }
}
