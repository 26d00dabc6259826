/**
 A point read under concurrency. The read takes one lock at a time - the current table, the frozen
 tables, the tables on disk - and any writes, freezes, flushes and compactions may run in between.
 Steps are atomic at lock granularity.
 */
module Readers {
  import opened Versions
  import opened Histories

  /** `moving` is the table a flush has popped but not yet indexed; it holds the disk lock meanwhile. */
  datatype Store = Store(current: seq<Entry>, frozen: seq<seq<Entry>>, moving: Option<seq<Entry>>, disk: seq<Entry>)

  /** What a reader that has passed the frozen tables may still find. */
  function Deep(s: Store): seq<Entry> {
    (if s.moving.Some? then s.moving.value else []) + s.disk
  }

  /** What a reader that has passed the current table may still find. */
  function Behind(s: Store): seq<Entry> {
    Flat(s.frozen) + Deep(s)
  }

  function Layout(s: Store): seq<Entry> {
    s.current + Behind(s)
  }

  datatype Stage = AtCurrent | AtFrozen | AtDisk | Done(result: Option<Entry>)

  /** The store, the reader, and every answer an atomic read would have given since the read began. */
  datatype Sys = Sys(store: Store, stage: Stage, seen: set<Option<Entry>>)

  datatype Event =
    | Write(e: Entry)
    | FreezeTable
    | PopOldest
    | InsertPopped
    | Compact(disk: seq<Entry>)
    | ReaderStep

  /** One step of the writers. */
  function Change(s: Store, ev: Event): Store
    requires !ev.ReaderStep?
  {
    match ev
    case Write(e) => s.(current := Upsert(s.current, e))
    case FreezeTable => s.(current := [], frozen := [s.current] + s.frozen)
    case PopOldest =>
      if s.frozen == [] then s.(current := [], moving := Some(s.current))
      else s.(frozen := s.frozen[..|s.frozen| - 1], moving := Some(s.frozen[|s.frozen| - 1]))
    case InsertPopped => s.(moving := None, disk := Deep(s))
    case Compact(disk) => s.(disk := disk)
  }

  /** One step of the reader: look in the next place. */
  function Advance(s: Store, stage: Stage, k: UserKey, t: Id): Stage {
    match stage
    case AtCurrent =>
      var r := First(s.current, k, t);
      if r.Some? then Done(r) else AtFrozen
    case AtFrozen =>
      var r := First(Flat(s.frozen), k, t);
      if r.Some? then Done(r) else AtDisk
    case AtDisk => Done(First(s.disk, k, t))
    case Done(_) => stage
  }

  function Next(s: Sys, ev: Event, k: UserKey, t: Id): Sys {
    if ev.ReaderStep? then s.(stage := Advance(s.store, s.stage, k, t))
    else
      var store := Change(s.store, ev);
      s.(store := store, seen := s.seen + {First(Layout(store), k, t)})
  }

  /**
   When a step may happen: writes are newer than older places, a pop and a compaction take the disk
   lock, and the reader waits for that lock before it looks at the disk.
   */
  ghost predicate Enabled(s: Sys, ev: Event) {
    if ev.ReaderStep? then s.stage.AtDisk? ==> s.store.moving.None? else Allowed(s.store, ev)
  }

  ghost predicate Allowed(s: Store, ev: Event)
    requires !ev.ReaderStep?
  {
    match ev
    case Write(e) => Fresh(Behind(s), e)
    case FreezeTable => true
    case PopOldest => s.moving.None?
    case InsertPopped => s.moving.Some?
    case Compact(disk) => s.moving.None? && SameVersions(disk, s.disk)
  }

  ghost predicate Legal(s: Sys, evs: seq<Event>, k: UserKey, t: Id)
    decreases |evs|
  {
    evs == [] || (Enabled(s, evs[0]) && Legal(Next(s, evs[0], k, t), evs[1..], k, t))
  }

  function Run(s: Sys, evs: seq<Event>, k: UserKey, t: Id): Sys
    decreases |evs|
  {
    if evs == [] then s else Run(Next(s, evs[0], k, t), evs[1..], k, t)
  }

  ghost predicate Sound(s: Store) {
    Sorted(s.current) && AgeOrdered(Layout(s))
  }

  /** A read of k as of t is about to start. */
  ghost predicate Begins(s: Sys, k: UserKey, t: Id) {
    Sound(s.store) && s.stage == AtCurrent && s.seen == {First(Layout(s.store), k, t)}
  }

  // ---------- the writers keep age order and move data only backwards ----------

  lemma PoppedFlat(frozen: seq<seq<Entry>>)
    requires frozen != []
    ensures Flat(frozen) == Flat(frozen[..|frozen| - 1]) + frozen[|frozen| - 1]
  {
    var n := |frozen| - 1;
    FlatConcat(frozen[..n], [frozen[n]]);
    FlatOne(frozen[n]);
    assert frozen == frozen[..n] + [frozen[n]];
  }

  /** Every writer step but a write and a compaction leaves the layout as it was. */
  lemma MoveKeepsLayout(s: Store, ev: Event)
    requires ev.FreezeTable? || (ev.PopOldest? && s.moving.None?) || (ev.InsertPopped? && s.moving.Some?)
    ensures Layout(Change(s, ev)) == Layout(s)
  {
    hide Flat;
    var s' := Change(s, ev);
    match ev
    case FreezeTable =>
      FlatCons(s'.frozen);
      assert s'.frozen[1..] == s.frozen;
      assert [] + (s.current + Flat(s.frozen) + Deep(s)) == s.current + (Flat(s.frozen) + Deep(s));
    case PopOldest =>
      if s.frozen == [] {
        FlatCons(s.frozen);
        assert Layout(s') == s.current + s.disk == Layout(s);
      } else {
        PoppedFlat(s.frozen);
        var last := s.frozen[|s.frozen| - 1];
        assert Flat(s'.frozen) + (last + s.disk) == (Flat(s'.frozen) + last) + s.disk;
      }
    case InsertPopped =>
      assert [] + Deep(s) == Deep(s);
  }

  /** What lies behind the current table, and behind the frozen ones, only gains versions in front. */
  lemma MovesBackwards(s: Store, ev: Event) returns (a: seq<Entry>, b: seq<Entry>)
    requires ev.FreezeTable? || (ev.PopOldest? && s.moving.None?) || (ev.InsertPopped? && s.moving.Some?)
    ensures Behind(Change(s, ev)) == a + Behind(s) && Deep(Change(s, ev)) == b + Deep(s)
  {
    hide Flat;
    var s' := Change(s, ev);
    a, b := [], [];
    match ev
    case FreezeTable =>
      a := s.current;
      FlatCons(s'.frozen);
      assert s'.frozen[1..] == s.frozen;
      assert s.current + Flat(s.frozen) + Deep(s) == s.current + (Flat(s.frozen) + Deep(s));
    case PopOldest =>
      a, b := PopsBackwards(s);
    case InsertPopped =>
      assert [] + Deep(s) == Deep(s);
  }

  lemma PopsBackwards(s: Store) returns (a: seq<Entry>, b: seq<Entry>)
    requires s.moving.None?
    ensures var s' := Change(s, PopOldest); Behind(s') == a + Behind(s) && Deep(s') == b + Deep(s)
  {
    hide Flat;
    var s' := Change(s, PopOldest);
    assert Deep(s) == s.disk;
    if s.frozen == [] {
      a, b := s.current, s.current;
      FlatCons(s.frozen);
      assert Behind(s) == s.disk;
    } else {
      PoppedFlat(s.frozen);
      a, b := [], s.frozen[|s.frozen| - 1];
      assert Flat(s'.frozen) + (b + s.disk) == (Flat(s'.frozen) + b) + s.disk;
    }
  }

  lemma CompactKeeps(s: Store, disk: seq<Entry>)
    requires s.moving.None? && SameVersions(disk, s.disk)
    ensures var s' := s.(disk := disk);
            && SameVersions(Deep(s'), Deep(s)) && SameVersions(Behind(s'), Behind(s))
            && SameVersions(Layout(s'), Layout(s))
  {
    hide SameVersions, Flat;
    var s' := s.(disk := disk);
    assert Deep(s') == disk && Deep(s) == s.disk;
    SameVersionsItself(Flat(s.frozen));
    SameVersionsItself(s.current);
    SameVersionsConcat(Flat(s.frozen), disk, Flat(s.frozen), s.disk);
    SameVersionsConcat(s.current, Behind(s'), s.current, Behind(s));
  }

  lemma ChangeKeepsSound(s: Sys, ev: Event)
    requires Sound(s.store) && !ev.ReaderStep? && Enabled(s, ev)
    ensures Sound(Change(s.store, ev))
  {
    hide AgeOrdered, SameVersions, Fresh, Upsert, Flat, Sorted;
    var store := s.store;
    match ev
    case Write(e) =>
      UpsertSorted(store.current, e);
      WriteKeepsAgeOrder(store.current, Behind(store), e);
    case Compact(disk) =>
      CompactKeeps(store, disk);
      SameVersionsAgeOrdered(Layout(store.(disk := disk)), Layout(store));
    case FreezeTable =>
      MoveKeepsLayout(store, ev);
      NothingSorted();
    case PopOldest =>
      MoveKeepsLayout(store, ev);
      NothingSorted();
    case InsertPopped =>
      MoveKeepsLayout(store, ev);
  }

  // ---------- the reader loses nothing ----------

  /** The first hit in s is at least as new as the floor. */
  ghost predicate Holds(s: seq<Entry>, floor: Option<Entry>, k: UserKey, t: Id) {
    floor.Some? ==> First(s, k, t).Some? && First(s, k, t).value.id >= floor.value.id
  }

  /** Wherever the reader stands, what it may still find is no older than what was there at the start. */
  ghost predicate Ahead(s: Sys, floor: Option<Entry>, k: UserKey, t: Id) {
    match s.stage
    case AtCurrent => Holds(Layout(s.store), floor, k, t)
    case AtFrozen => Holds(Behind(s.store), floor, k, t)
    case AtDisk => Holds(Deep(s.store), floor, k, t)
    case Done(r) =>
      && (floor.Some? ==> r.Some? && r.value.id >= floor.value.id)
      && (r.Some? ==> Hit(r.value, k, t) && exists e :: e in Layout(s.store) && SameVersion(e, r.value))
  }

  /** Versions in front are newer, so putting them there keeps what was held. */
  lemma FrontHolds(a: seq<Entry>, s: seq<Entry>, floor: Option<Entry>, k: UserKey, t: Id)
    requires AgeOrdered(a + s) && Holds(s, floor, k, t)
    ensures Holds(a + s, floor, k, t)
  {
    hide AgeOrdered, First;
    FirstConcat(a, s, k, t);
    AgeOrderedParts(a, s);
  }

  lemma BehindAgeOrdered(s: Store)
    requires Sound(s)
    ensures AgeOrdered(Behind(s)) && AgeOrdered(Deep(s))
  {
    hide AgeOrdered, Flat, Sorted;
    AgeOrderedParts(s.current, Behind(s));
    AgeOrderedParts(Flat(s.frozen), Deep(s));
  }

  /** A write can only raise the newest visible version. */
  lemma WriteHolds(cur: seq<Entry>, older: seq<Entry>, e: Entry, floor: Option<Entry>, k: UserKey, t: Id)
    requires Sorted(cur) && AgeOrdered(cur + older) && Fresh(older, e) && Holds(cur + older, floor, k, t)
    ensures Holds(Upsert(cur, e) + older, floor, k, t)
  {
    hide AgeOrdered, Upsert, Sorted, First, Fresh;
    WriteKeepsAgeOrder(cur, older, e);
    UpsertMembers(cur, e);
    var s, s' := cur + older, Upsert(cur, e) + older;
    if floor.Some? {
      var f := First(s, k, t).value;
      assert f in cur || f in older;
      var g := if SameVersion(f, e) then e else f;
      assert g in s' && Hit(g, k, t);
      var r := First(s', k, t);
      FirstIsNewest(s', k, t, r.value);
    }
  }

  lemma VersionStays(s: Sys, ev: Event, v: Entry)
    requires Sound(s.store) && !ev.ReaderStep? && Enabled(s, ev)
    requires exists e :: e in Layout(s.store) && SameVersion(e, v)
    ensures exists e :: e in Layout(Change(s.store, ev)) && SameVersion(e, v)
  {
    hide AgeOrdered, SameVersions, Fresh, Upsert, Flat, Sorted;
    var store := s.store;
    var e :| e in Layout(store) && SameVersion(e, v);
    match ev
    case Write(w) =>
      UpsertMembers(store.current, w);
      var g := if SameVersion(e, w) then w else e;
      assert g in Layout(Change(store, ev));
    case Compact(disk) =>
      CompactKeeps(store, disk);
      SameVersionsSameMembers(Layout(store.(disk := disk)), Layout(store));
    case FreezeTable => MoveKeepsLayout(store, ev);
    case PopOldest => MoveKeepsLayout(store, ev);
    case InsertPopped => MoveKeepsLayout(store, ev);
  }

  lemma SameVersionsHold(a: seq<Entry>, b: seq<Entry>, floor: Option<Entry>, k: UserKey, t: Id)
    requires SameVersions(a, b) && Holds(b, floor, k, t)
    ensures Holds(a, floor, k, t)
  {
    SameVersionsSameReads(a, b, k, t);
  }

  lemma ChangeKeepsAhead(s: Sys, ev: Event, floor: Option<Entry>, k: UserKey, t: Id)
    requires Sound(s.store) && !ev.ReaderStep? && Enabled(s, ev) && Ahead(s, floor, k, t)
    ensures Ahead(Next(s, ev, k, t), floor, k, t)
  {
    hide AgeOrdered, SameVersions, Fresh, Upsert, Flat, Sorted, First, Holds, Behind, Deep;
    var store := s.store;
    var store' := Change(store, ev);
    ChangeKeepsSound(s, ev);
    if s.stage.Done? {
      if s.stage.result.Some? {
        VersionStays(s, ev, s.stage.result.value);
      }
    } else if ev.Write? {
      WriteElsewhere(store, ev.e);
      if s.stage.AtCurrent? {
        WriteHolds(store.current, Behind(store), ev.e, floor, k, t);
      }
    } else if ev.Compact? {
      CompactKeeps(store, ev.disk);
      if s.stage.AtCurrent? {
        SameVersionsHold(Layout(store'), Layout(store), floor, k, t);
      } else if s.stage.AtFrozen? {
        SameVersionsHold(Behind(store'), Behind(store), floor, k, t);
      } else {
        SameVersionsHold(Deep(store'), Deep(store), floor, k, t);
      }
    } else {
      MoveKeepsLayout(store, ev);
      BehindAgeOrdered(store');
      var a, b := MovesBackwards(store, ev);
      if s.stage.AtFrozen? {
        FrontHolds(a, Behind(store), floor, k, t);
      } else if s.stage.AtDisk? {
        FrontHolds(b, Deep(store), floor, k, t);
      }
    }
  }

  lemma WriteElsewhere(s: Store, e: Entry)
    ensures var s' := Change(s, Write(e)); Behind(s') == Behind(s) && Deep(s') == Deep(s)
  {
  }

  lemma ReaderKeepsAhead(s: Sys, floor: Option<Entry>, k: UserKey, t: Id)
    requires Sound(s.store) && Enabled(s, ReaderStep) && Ahead(s, floor, k, t)
    ensures Ahead(Next(s, ReaderStep, k, t), floor, k, t)
  {
    hide AgeOrdered, Flat, Sorted, First;
    var store := s.store;
    FirstConcat(store.current, Behind(store), k, t);
    FirstConcat(Flat(store.frozen), Deep(store), k, t);
    assert s.stage.AtDisk? ==> Deep(store) == store.disk;
    var stage' := Advance(store, s.stage, k, t);
    if stage'.Done? && !s.stage.Done? && stage'.result.Some? {
      var e := stage'.result.value;
      assert e in Layout(store) && SameVersion(e, e);
    }
  }

  /**
   Whatever runs in between, the read returns a visible version no older than the newest visible
   one present when it began, and finds nothing only if there was nothing then.
   */
  lemma {:induction false} ReadIsRecent(s: Sys, evs: seq<Event>, floor: Option<Entry>, k: UserKey, t: Id)
    requires Sound(s.store) && Ahead(s, floor, k, t) && Legal(s, evs, k, t)
    ensures Sound(Run(s, evs, k, t).store) && Ahead(Run(s, evs, k, t), floor, k, t)
    decreases |evs|
  {
    hide Ahead, Sound, Enabled;
    if evs != [] {
      if evs[0].ReaderStep? {
        ReaderKeepsAhead(s, floor, k, t);
      } else {
        ChangeKeepsSound(s, evs[0]);
        ChangeKeepsAhead(s, evs[0], floor, k, t);
      }
      ReadIsRecent(Next(s, evs[0], k, t), evs[1..], floor, k, t);
    }
  }

  lemma SnapshotRead(s: Sys, evs: seq<Event>, k: UserKey, t: Id)
    requires Begins(s, k, t) && Legal(s, evs, k, t) && Run(s, evs, k, t).stage.Done?
    ensures var r, atStart := Run(s, evs, k, t).stage.result, First(Layout(s.store), k, t);
            && (r.Some? ==> Hit(r.value, k, t))
            && (atStart.Some? ==> r.Some? && r.value.id >= atStart.value.id)
  {
    ReadIsRecent(s, evs, First(Layout(s.store), k, t), k, t);
  }

  // ---------- linearizability ----------

  /** Writes carry ids above every stored version of their key. */
  ghost predicate Growing(s: Sys, evs: seq<Event>, k: UserKey, t: Id)
    decreases |evs|
  {
    evs == [] ||
    ((evs[0].Write? ==> Fresh(Layout(s.store), evs[0].e)) && Growing(Next(s, evs[0], k, t), evs[1..], k, t))
  }

  /** Every visible version no older than the floor was, at some moment, the atomic answer. */
  ghost predicate Witnessed(s: Sys, floor: Option<Entry>, k: UserKey, t: Id) {
    && floor in s.seen
    && (forall e :: e in Layout(s.store) && Hit(e, k, t) && (floor.Some? ==> e.id >= floor.value.id) ==>
                      Some(e) in s.seen)
    && (s.stage.Done? ==> s.stage.result in s.seen)
  }

  lemma NewestAnswers(s: Store, e: Entry, k: UserKey, t: Id)
    requires Sound(s) && Fresh(Layout(s), e) && Hit(e, k, t)
    ensures First(Layout(Change(s, Write(e))), k, t) == Some(e)
  {
    hide AgeOrdered, Upsert, Sorted, First, Behind;
    var s' := Layout(Change(s, Write(e)));
    WriteElsewhere(s, e);
    assert Fresh(Behind(s), e);
    WriteKeepsAgeOrder(s.current, Behind(s), e);
    UpsertMembers(s.current, e);
    assert e in s';
    FirstIsNewest(s', k, t, e);
  }

  lemma ChangeKeepsWitnessed(s: Sys, ev: Event, floor: Option<Entry>, k: UserKey, t: Id)
    requires Sound(s.store) && !ev.ReaderStep? && Enabled(s, ev) && Witnessed(s, floor, k, t)
    requires ev.Write? ==> Fresh(Layout(s.store), ev.e)
    ensures Witnessed(Next(s, ev, k, t), floor, k, t)
  {
    hide AgeOrdered, SameVersions, Fresh, Upsert, Flat, Sorted, First, Behind;
    var store := s.store;
    var store' := Change(store, ev);
    if ev.Write? {
      UpsertMembers(store.current, ev.e);
      WriteElsewhere(store, ev.e);
      if Hit(ev.e, k, t) {
        NewestAnswers(store, ev.e, k, t);
      }
    } else if ev.Compact? {
      CompactKeeps(store, ev.disk);
      SameVersionsSameMembers(Layout(store'), Layout(store));
    } else {
      MoveKeepsLayout(store, ev);
    }
  }

  lemma ReaderKeepsWitnessed(s: Sys, floor: Option<Entry>, k: UserKey, t: Id)
    requires Sound(s.store) && Enabled(s, ReaderStep) && Ahead(s, floor, k, t) && Witnessed(s, floor, k, t)
    ensures Witnessed(Next(s, ReaderStep, k, t), floor, k, t)
  {
    hide AgeOrdered, Flat, Sorted, First;
    ReaderKeepsAhead(s, floor, k, t);
    var stage' := Advance(s.store, s.stage, k, t);
    if stage'.Done? && !s.stage.Done? {
      if stage'.result.Some? {
        var e := stage'.result.value;
        assert e in Layout(s.store);
      } else {
        assert floor == None;
      }
    }
  }

  lemma {:induction false} RunKeepsWitnessed(s: Sys, evs: seq<Event>, floor: Option<Entry>, k: UserKey, t: Id)
    requires Sound(s.store) && Ahead(s, floor, k, t) && Witnessed(s, floor, k, t)
    requires Legal(s, evs, k, t) && Growing(s, evs, k, t)
    ensures Witnessed(Run(s, evs, k, t), floor, k, t)
    decreases |evs|
  {
    hide Ahead, Sound, Enabled, Witnessed, Fresh;
    if evs != [] {
      if evs[0].ReaderStep? {
        ReaderKeepsAhead(s, floor, k, t);
        ReaderKeepsWitnessed(s, floor, k, t);
      } else {
        ChangeKeepsSound(s, evs[0]);
        ChangeKeepsAhead(s, evs[0], floor, k, t);
        ChangeKeepsWitnessed(s, evs[0], floor, k, t);
      }
      RunKeepsWitnessed(Next(s, evs[0], k, t), evs[1..], floor, k, t);
    }
  }

  /**
   When the ids of writes grow, the read is linearizable: its result is what one atomic read of the
   whole store would have returned at some moment between its start and its end.
   */
  lemma ReadIsLinearizable(s: Sys, evs: seq<Event>, k: UserKey, t: Id)
    requires Begins(s, k, t) && Legal(s, evs, k, t) && Growing(s, evs, k, t)
    ensures var end := Run(s, evs, k, t); end.stage.Done? ==> end.stage.result in end.seen
  {
    hide AgeOrdered, Sorted, First;
    var floor := First(Layout(s.store), k, t);
    forall e | e in Layout(s.store) && Hit(e, k, t) && (floor.Some? ==> e.id >= floor.value.id)
      ensures Some(e) in s.seen
    {
      FirstIsNewest(Layout(s.store), k, t, floor.value);
      FirstIsNewest(Layout(s.store), k, t, e);
    }
    RunKeepsWitnessed(s, evs, floor, k, t);
  }

  // ---------- a read beside a run of writer steps ----------

  /** These writer steps lead from a to b; when rising, each write is newer than everything stored before it. */
  ghost predicate Moves(a: Store, evs: seq<Event>, b: Store, rising: bool)
    decreases |evs|
  {
    if evs == [] then a == b
    else
      && !evs[0].ReaderStep? && Allowed(a, evs[0])
      && (rising && evs[0].Write? ==> Fresh(Layout(a), evs[0].e))
      && Moves(Change(a, evs[0]), evs[1..], b, rising)
  }

  lemma {:induction false} MovesJoin(a: Store, x: seq<Event>, b: Store, y: seq<Event>, c: Store, rising: bool)
    requires Moves(a, x, b, rising) && Moves(b, y, c, rising)
    ensures Moves(a, x + y, c, rising)
    decreases |x|
  {
    hide Allowed, Fresh, Layout, Change;
    if x == [] {
      assert x + y == y;
    } else {
      MovesJoin(Change(a, x[0]), x[1..], b, y, c, rising);
      assert (x + y)[1..] == x[1..] + y;
    }
  }

  /** The writer steps of a run, in order. */
  function Writers(evs: seq<Event>): seq<Event> {
    if evs == [] then [] else (if evs[0].ReaderStep? then [] else [evs[0]]) + Writers(evs[1..])
  }

  /** The reader takes its step on the disk only while no table is being moved there. */
  ghost predicate Waits(s: Sys, evs: seq<Event>, k: UserKey, t: Id)
    decreases |evs|
  {
    evs == [] ||
    ((evs[0].ReaderStep? && s.stage.AtDisk? ==> s.store.moving.None?) && Waits(Next(s, evs[0], k, t), evs[1..], k, t))
  }

  lemma {:induction false} InterleavedLegal(s: Sys, evs: seq<Event>, b: Store, k: UserKey, t: Id)
    requires Moves(s.store, Writers(evs), b, true) && Waits(s, evs, k, t)
    ensures Legal(s, evs, k, t) && Growing(s, evs, k, t) && Run(s, evs, k, t).store == b
    decreases |evs|
  {
    hide Allowed, Fresh, Layout, Advance, Change;
    if evs != [] {
      var w := Writers(evs);
      if evs[0].ReaderStep? {
        assert w == Writers(evs[1..]);
      } else {
        assert w[0] == evs[0] && w[1..] == Writers(evs[1..]);
      }
      InterleavedLegal(Next(s, evs[0], k, t), evs[1..], b, k, t);
    }
  }

  function After(a: Store, evs: seq<Event>): Store
    requires forall i :: 0 <= i < |evs| ==> !evs[i].ReaderStep?
    decreases |evs|
  {
    if evs == [] then a else After(Change(a, evs[0]), evs[1..])
  }

  lemma {:induction false} MovesSplit(a: Store, evs: seq<Event>, b: Store, n: nat, rising: bool)
    requires Moves(a, evs, b, rising) && n <= |evs|
    ensures forall i :: 0 <= i < |evs| ==> !evs[i].ReaderStep?
    ensures Moves(a, evs[..n], After(a, evs[..n]), rising) && Moves(After(a, evs[..n]), evs[n..], b, rising)
    decreases |evs|
  {
    hide Allowed, Fresh, Layout, Change;
    if evs != [] {
      MovesSplit(Change(a, evs[0]), evs[1..], b, if n == 0 then 0 else n - 1, rising);
      assert forall i :: 1 <= i < |evs| ==> evs[i] == evs[1..][i - 1];
    }
    if n == 0 {
      assert evs[..0] == [] && evs[0..] == evs;
    } else {
      assert evs[..n][1..] == evs[1..][..n - 1] && evs[..n][0] == evs[0];
      assert evs[1..][n - 1..] == evs[n..];
    }
  }

  lemma {:induction false} MovesKeepSound(a: Store, evs: seq<Event>, b: Store, rising: bool)
    requires Moves(a, evs, b, rising) && Sound(a)
    ensures Sound(b)
    decreases |evs|
  {
    hide Allowed, Fresh, Layout, Change, Sound;
    if evs != [] {
      ChangeKeepsSound(Sys(a, AtCurrent, {}), evs[0]);
      MovesKeepSound(Change(a, evs[0]), evs[1..], b, rising);
    }
  }

  /** A read takes its steps anywhere between the writer steps from number n to number m. */
  ghost predicate Beside(s: Sys, evs: seq<Event>, a: Store, writers: seq<Event>, n: nat, m: nat, k: UserKey, t: Id)
    requires forall i :: 0 <= i < |writers| ==> !writers[i].ReaderStep?
  {
    && n <= m <= |writers| && s.store == After(a, writers[..n]) && Writers(evs) == writers[n..m]
    && s.stage == AtCurrent && s.seen == {First(Layout(s.store), k, t)} && Waits(s, evs, k, t)
  }

  /** Every read beside these writer steps, whenever it starts and ends, is linearizable. */
  ghost predicate Linearizable(a: Store, writers: seq<Event>) {
    && (forall i :: 0 <= i < |writers| ==> !writers[i].ReaderStep?)
    && forall s: Sys, evs, n: nat, m: nat, k: UserKey, t: Id ::
         Beside(s, evs, a, writers, n, m, k, t) ==> Answered(s, evs, k, t)
  }

  /** If the read is done, it returned what one atomic read would have returned at some moment since it began. */
  ghost predicate Answered(s: Sys, evs: seq<Event>, k: UserKey, t: Id) {
    Run(s, evs, k, t).stage.Done? ==> Run(s, evs, k, t).stage.result in Run(s, evs, k, t).seen
  }

  lemma MovesLinearizable(a: Store, writers: seq<Event>, b: Store)
    requires Moves(a, writers, b, true) && Sound(a)
    ensures Linearizable(a, writers)
  {
    hide Sound, Waits, Moves, Legal, Growing, Run, First, Layout;
    MovesSplit(a, writers, b, 0, true);
    forall s: Sys, evs, n: nat, m: nat, k: UserKey, t: Id | Beside(s, evs, a, writers, n, m, k, t)
      ensures Answered(s, evs, k, t)
    {
      MovesSplit(a, writers, b, n, true);
      MovesSplit(s.store, writers[n..], b, m - n, true);
      assert writers[n..][..m - n] == writers[n..m];
      MovesKeepSound(a, writers[..n], s.store, true);
      InterleavedLegal(s, evs, After(s.store, writers[n..m]), k, t);
      ReadIsLinearizable(s, evs, k, t);
    }
  }

  // ---------- memory tables and a disk ----------

  /** The store whose current table is the first of these, with no table on the move. */
  function StoreOf(tables: seq<seq<Entry>>, disk: seq<Entry>): Store {
    if tables == [] then Store([], [], None, disk) else Store(tables[0], tables[1..], None, disk)
  }

  lemma StoreLayout(tables: seq<seq<Entry>>, disk: seq<Entry>)
    requires tables != []
    ensures Layout(StoreOf(tables, disk)) == Flat(tables) + disk
    ensures Behind(StoreOf(tables, disk)) == Flat(tables[1..]) + disk
  {
    hide Flat;
    FlatCons(tables);
    assert [] + disk == disk;
    assert tables[0] + (Flat(tables[1..]) + disk) == (tables[0] + Flat(tables[1..])) + disk;
  }

  lemma NoMoves(a: Store)
    ensures Moves(a, [], a, true)
  {
  }

  lemma MovesOne(a: Store, ev: Event, rising: bool)
    requires !ev.ReaderStep? && Allowed(a, ev) && (rising && ev.Write? ==> Fresh(Layout(a), ev.e))
    ensures Moves(a, [ev], Change(a, ev), rising)
  {
    hide Allowed, Fresh, Layout, Change;
    assert [ev][1..] == [];
  }

  lemma {:induction false} MovesAnyway(a: Store, evs: seq<Event>, b: Store, rising: bool)
    requires Moves(a, evs, b, true)
    ensures Moves(a, evs, b, rising)
    decreases |evs|
  {
    hide Allowed, Fresh, Layout, Change;
    if evs != [] {
      MovesAnyway(Change(a, evs[0]), evs[1..], b, rising);
    }
  }

  /** A write into the current table is a write event. */
  lemma WriteMoves(tables: seq<seq<Entry>>, disk: seq<Entry>, e: Entry, rising: bool)
    requires tables != [] && Fresh(Flat(tables[1..]) + disk, e) && (rising ==> Fresh(Flat(tables) + disk, e))
    ensures Moves(StoreOf(tables, disk), [Write(e)], StoreOf(tables[0 := Upsert(tables[0], e)], disk), rising)
  {
    hide Fresh, Flat, Upsert, Layout, Behind;
    StoreLayout(tables, disk);
    MovesOne(StoreOf(tables, disk), Write(e), rising);
  }

  lemma FreezeMoves(tables: seq<seq<Entry>>, disk: seq<Entry>, rising: bool)
    requires tables != []
    ensures Moves(StoreOf(tables, disk), [FreezeTable], StoreOf([[]] + tables, disk), rising)
  {
    MovesOne(StoreOf(tables, disk), FreezeTable, rising);
    assert ([[]] + tables)[1..] == tables == [tables[0]] + tables[1..];
  }

  lemma CompactMoves(tables: seq<seq<Entry>>, disk: seq<Entry>, disk': seq<Entry>, rising: bool)
    requires SameVersions(disk', disk)
    ensures Moves(StoreOf(tables, disk), [Compact(disk')], StoreOf(tables, disk'), rising)
  {
    hide SameVersions;
    MovesOne(StoreOf(tables, disk), Compact(disk'), rising);
  }

  /** Taking the oldest table out of memory and listing it on disk are two events. */
  lemma FlushMoves(tables: seq<seq<Entry>>, tables': seq<seq<Entry>>, table: seq<Entry>, disk: seq<Entry>, rising: bool)
    requires if |tables| == 1 then tables == [table] && tables' == [[]]
             else tables' != [] && tables == tables' + [table]
    ensures Moves(StoreOf(tables, disk), [PopOldest, InsertPopped], StoreOf(tables', table + disk), rising)
  {
    hide Moves;
    var a := StoreOf(tables, disk);
    var b := Change(a, PopOldest);
    MovesOne(a, PopOldest, rising);
    MovesOne(b, InsertPopped, rising);
    MovesJoin(a, [PopOldest], b, [InsertPopped], Change(b, InsertPopped), rising);
    assert [PopOldest] + [InsertPopped] == [PopOldest, InsertPopped];
    if |tables| > 1 {
      var n := |tables| - 2;
      assert tables[1..][n] == table && tables[1..][..n] == tables'[1..];
    } else {
      assert tables[1..] == [] == tables'[1..];
    }
  }
}
