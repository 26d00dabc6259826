/**
 The memory part of the store: the skip list being written, and the frozen skip lists waiting
 to be flushed, newest first.
 */
module MemTables {
  import opened Versions
  import opened SkipLists
  import opened Ssts
  import Blooms

  function SumBytes(tables: seq<seq<Entry>>): nat {
    if tables == [] then 0 else SizeOf(tables[0]) + SumBytes(tables[1..])
  }

  lemma {:induction false} SumBytesLast(tables: seq<seq<Entry>>)
    requires tables != []
    ensures SumBytes(tables) == SumBytes(tables[..|tables| - 1]) + SizeOf(tables[|tables| - 1])
  {
    if |tables| > 1 {
      SumBytesLast(tables[1..]);
      assert tables[1..][..|tables| - 2] == tables[..|tables| - 1][1..];
    }
  }

  lemma SizeZero(s: seq<Entry>)
    ensures SizeOf(s) == 0 <==> s == []
  {
  }

  lemma {:induction false} SumBytesZero(tables: seq<seq<Entry>>)
    ensures SumBytes(tables) == 0 <==> forall i :: 0 <= i < |tables| ==> tables[i] == []
  {
    hide SizeOf;
    if tables != [] {
      SizeZero(tables[0]);
      SumBytesZero(tables[1..]);
      assert forall i :: 0 < i < |tables| ==> tables[i] == tables[1..][i - 1];
      assert forall i :: 0 <= i < |tables[1..]| ==> tables[1..][i] == tables[i + 1];
    }
  }

  /** No table behind the first is empty. */
  ghost predicate Full(tables: seq<seq<Entry>>) {
    forall i :: 1 <= i < |tables| ==> tables[i] != []
  }

  class MemTable {
    const limit: nat
    const levels: nat
    var current: SkipList
    var frozen: seq<SkipList>
    var frozenBytes: nat
    ghost var Repr: set<object>

    /** Every table is sound and owns its nodes alone. */
    ghost predicate Owns()
      reads this, Repr
    {
      && this in Repr && levels >= 1
      && current in Repr && current.Repr <= Repr && this !in current.Repr
      && (forall i :: 0 <= i < |frozen| ==> frozen[i] in Repr && frozen[i].Repr <= Repr && this !in frozen[i].Repr)
      && (forall i :: 0 <= i < |frozen| ==> frozen[i].Repr !! current.Repr)
      && (forall i, j :: 0 <= i < j < |frozen| ==> frozen[i].Repr !! frozen[j].Repr)
      && current.Valid() && (forall i :: 0 <= i < |frozen| ==> frozen[i].Valid())
    }

    ghost function Frozen(): (f: seq<seq<Entry>>)
      requires Owns()
      reads this, Repr
      ensures |f| == |frozen| && forall i :: 0 <= i < |frozen| ==> f[i] == frozen[i].Contents()
    {
      seq(|frozen|, i requires 0 <= i < |frozen| && Owns() reads this, Repr => frozen[i].Contents())
    }

    ghost predicate Valid()
      reads this, Repr
      ensures Valid() ==> this in Repr
    {
      Owns() && frozenBytes == SumBytes(Frozen())
    }

    /** The places of the memory store, newest first. */
    ghost function Tables(): seq<seq<Entry>>
      requires Owns()
      reads this, Repr
    {
      [current.Contents()] + Frozen()
    }

    lemma TablesAre()
      requires Owns()
      ensures Tables() == [current.Contents()] + Frozen() && Tables()[0] == current.Contents()
      ensures |Tables()| == 1 + |frozen|
    {
    }

    lemma TablesSorted()
      requires Owns()
      ensures forall i :: 0 <= i < |Tables()| ==> Sorted(Tables()[i])
    {
      hide SkipLists.SkipList.Valid, SkipLists.SkipList.Contents, Sorted;
      current.ContentsSorted();
      forall i | 0 <= i < |frozen|
        ensures Sorted(frozen[i].Contents())
      {
        frozen[i].ContentsSorted();
      }
    }

    constructor (limit: nat, levels: nat)
      requires levels >= 1
      ensures Valid() && fresh(Repr) && Tables() == [[]]
      ensures this.limit == limit
    {
      this.limit, this.levels, frozen, frozenBytes := limit, levels, [], 0;
      current := new SkipList(levels);
      new;
      Repr := {this} + current.Repr;
    }

    /** Write one version into the current table, without a size check. */
    method PutRaw(key: Key, value: Value, id: Id)
      requires Valid()
      modifies Repr
      ensures Valid() && fresh(Repr - old(Repr))
      ensures current == old(current) && frozen == old(frozen)
      ensures Tables() == old(Tables())[0 := Upsert(old(current.Contents()), Entry(key, value, id))]
    {
      hide SkipLists.SkipList.Valid, SkipLists.SkipList.Contents, Upsert, SumBytes;
      current.Put(key, value, id);
      Repr := Repr + current.Repr;
      assert Frozen() == old(Frozen());
    }

    /** Put the current table in front of the frozen ones and start an empty one. */
    method Freeze()
      requires Valid()
      modifies Repr
      ensures Valid() && fresh(Repr - old(Repr))
      ensures Tables() == [[]] + old(Tables())
    {
      hide SkipLists.SkipList.Valid, SkipLists.SkipList.Contents;
      ghost var tables := Tables();
      CurrentBytes();
      var full := current;
      frozenBytes := frozenBytes + full.sizeBytes;
      frozen := [full] + frozen;
      current := new SkipList(levels);
      Repr := Repr + current.Repr;
      assert Frozen() == tables;
    }

    lemma CurrentBytes()
      requires Valid()
      ensures current.sizeBytes == SizeOf(current.Contents())
      ensures forall i :: 0 <= i < |frozen| ==> frozen[i].sizeBytes == SizeOf(frozen[i].Contents())
    {
      hide SkipLists.SkipList.Links, SkipLists.SkipList.Shape, SumBytes;
    }

    /** Write one version, then freeze the table if it has outgrown the limit. */
    method Put(key: Key, value: Value, id: Id) returns (froze: bool)
      requires Valid()
      modifies Repr
      ensures Valid() && fresh(Repr - old(Repr))
      ensures var written := old(Tables())[0 := Upsert(old(current.Contents()), Entry(key, value, id))];
              Tables() == if froze then [[]] + written else written
      ensures froze <==> SizeOf(Upsert(old(current.Contents()), Entry(key, value, id))) > limit
      ensures Full(old(Tables())) ==> Full(Tables())
    {
      hide SkipLists.SkipList.Valid, SkipLists.SkipList.Contents, Upsert, SumBytes;
      PutRaw(key, value, id);
      CurrentBytes();
      assert Tables()[0] == current.Contents();
      froze := current.sizeBytes > limit;
      if froze {
        SizeZero(current.Contents());
        Freeze();
      }
    }

    /** A deletion is a version with an empty value. */
    method Remove(key: Key, id: Id) returns (froze: bool)
      requires Valid()
      modifies Repr
      ensures Valid() && fresh(Repr - old(Repr))
      ensures var written := old(Tables())[0 := Upsert(old(current.Contents()), Entry(key, [], id))];
              Tables() == if froze then [[]] + written else written
      ensures froze <==> SizeOf(Upsert(old(current.Contents()), Entry(key, [], id))) > limit
      ensures Full(old(Tables())) ==> Full(Tables())
    {
      froze := Put(key, [], id);
    }

    /** The current table, then the frozen ones newest first; the first hit wins. An empty key is never valid. */
    method Get(key: Key, t: Id) returns (r: Option<Entry>)
      requires Valid()
      ensures r == if key == [] then None else First(Flat(Tables()), key, t)
    {
      hide SkipLists.SkipList.Valid, SkipLists.SkipList.Contents, SumBytes, First, Flat;
      ghost var tables := Tables();
      FlatCons(tables);
      assert tables[1..] == Frozen();
      FirstConcat(tables[0], Flat(Frozen()), key, t);
      var n := current.Get(key, t);
      if n != null && n.key != [] {
        FoundKey(tables[0], key, t);
        return Some(Entry(n.key, n.value, n.id));
      }
      for i := 0 to |frozen|
        invariant key != [] ==> First(Flat(tables), key, t) == First(Flat(Frozen()[i..]), key, t)
      {
        FlatCons(Frozen()[i..]);
        assert Frozen()[i..][1..] == Frozen()[i + 1..];
        FirstConcat(Frozen()[i], Flat(Frozen()[i + 1..]), key, t);
        n := frozen[i].Get(key, t);
        if n != null && n.key != [] {
          FoundKey(Frozen()[i], key, t);
          return Some(Entry(n.key, n.value, n.id));
        }
      }
      FlatCons(Frozen()[|frozen|..]);
      FirstNone([], key, t);
      return None;
    }

    method CurrentSize() returns (n: nat)
      requires Valid()
      ensures n == SizeOf(current.Contents()) && (n == 0 <==> current.Contents() == [])
    {
      hide SkipLists.SkipList.Valid, SkipLists.SkipList.Contents, SizeOf;
      CurrentBytes();
      SizeZero(current.Contents());
      n := current.sizeBytes;
    }

    /** The bytes of all tables; zero exactly when nothing is stored. */
    method TotalSize() returns (n: nat)
      requires Valid()
      ensures n == SumBytes(Tables()) && (n == 0 <==> forall i :: 0 <= i < |Tables()| ==> Tables()[i] == [])
    {
      hide SkipLists.SkipList.Valid, SkipLists.SkipList.Contents, SizeOf;
      CurrentBytes();
      SumBytesZero(Tables());
      assert Tables()[1..] == Frozen();
      n := frozenBytes + current.sizeBytes;
    }

    /**
     Take the oldest table out (freezing the current one if none is frozen) and feed it to the
     builder; the ids of the commit markers it holds are reported.
     */
    method FlushLast(builder: Builder) returns (filled: Builder, markers: seq<Id>, table: seq<Entry>)
      requires Valid() && Blooms.Valid(builder.bloom)
      modifies Repr
      ensures Valid() && fresh(Repr - old(Repr))
      ensures if old(frozen) == [] then old(Tables()) == [table] && Tables() == [[]]
              else old(Tables()) == Tables() + [table]
      ensures filled == AddAll(builder, table)
      ensures forall x :: x in markers <==> Entry([], [], x) in table
      ensures Full(old(Tables())) ==> Full(Tables()) && (old(current.Contents() != [] || frozen != []) ==> table != [])
    {
      hide SkipLists.SkipList.Valid, SkipLists.SkipList.Contents, AddAll, SumBytes;
      ghost var was := Tables();
      if frozen == [] {
        Freeze();
      }
      ghost var tables := Tables();
      table := TakeOldest();
      assert table == tables[|tables| - 1] && Tables() == tables[..|tables| - 1];
      assert Full(was) && |was| > 1 ==>
                was[|was| - 1] != [] && forall i :: 1 <= i < |was| - 1 ==> Tables()[i] == was[i];
      filled, markers := Feed(builder, table);
    }

    method TakeOldest() returns (data: seq<Entry>)
      requires Valid() && frozen != []
      modifies this
      ensures Valid() && Repr == old(Repr)
      ensures old(Tables()) == Tables() + [data]
    {
      hide SkipLists.SkipList.Valid, SkipLists.SkipList.Contents, SizeOf;
      CurrentBytes();
      ghost var tables := Frozen();
      SumBytesLast(tables);
      var last := |frozen| - 1;
      var oldest := frozen[last];
      data := oldest.Flush();
      frozenBytes := frozenBytes - oldest.sizeBytes;
      frozen := frozen[..last];
      assert Frozen() == tables[..last];
      assert tables == tables[..last] + [data];
    }
  }

  /** Add every version of a flushed table to the builder and collect its commit markers. */
  method Feed(builder: Builder, data: seq<Entry>) returns (filled: Builder, markers: seq<Id>)
    requires Blooms.Valid(builder.bloom)
    ensures filled == AddAll(builder, data)
    ensures forall x :: x in markers <==> Entry([], [], x) in data
  {
    hide Add;
    filled, markers := builder, [];
    for i := 0 to |data|
      invariant Blooms.Valid(filled.bloom) && filled == AddAll(builder, data[..i])
      invariant forall x :: x in markers <==> Entry([], [], x) in data[..i]
    {
      assert data[..i + 1] == data[..i] + [data[i]] && data[..i + 1][..i] == data[..i];
      if data[i].key == [] && data[i].value == [] {
        markers := markers + [data[i].id];
      }
      filled := Add(filled, data[i]);
    }
    assert data[..|data|] == data;
  }

  lemma FoundKey(s: seq<Entry>, key: Key, t: Id)
    ensures First(s, key, t).Some? ==> First(s, key, t).value.key == key
  {
  }
}
