/** The write-ahead log: numbered files of records, appended to, rotated, cleaned and read back. */
module Wals {
  import opened Versions
  import opened ByteCodec
  import opened Records
  import opened IdLists

  predicate AllFit(rs: seq<Record>) {
    forall i :: 0 <= i < |rs| ==> Fits(rs[i])
  }

  /** The records of one transaction, in order. */
  function ForId(rs: seq<Record>, id: Id): seq<Record> {
    if rs == [] then []
    else if rs[0].id == id then [rs[0]] + ForId(rs[1..], id)
    else ForId(rs[1..], id)
  }

  lemma {:induction false} ForIdConcat(a: seq<Record>, b: seq<Record>, id: Id)
    ensures ForId(a + b, id) == ForId(a, id) + ForId(b, id)
  {
    if a == [] {
      assert a + b == b;
    } else {
      assert (a + b)[1..] == a[1..] + b;
      ForIdConcat(a[1..], b, id);
    }
  }

  lemma {:induction false} ForIdNone(rs: seq<Record>, id: Id)
    requires forall i :: 0 <= i < |rs| ==> rs[i].id != id
    ensures ForId(rs, id) == []
  {
    if rs != [] {
      ForIdNone(rs[1..], id);
    }
  }

  lemma {:induction false} EncodedAllConcat(a: seq<Record>, b: seq<Record>)
    ensures EncodedAll(a + b) == EncodedAll(a) + EncodedAll(b)
  {
    hide Encoded;
    if a == [] {
      assert a + b == b;
    } else {
      assert (a + b)[1..] == a[1..] + b;
      EncodedAllConcat(a[1..], b);
    }
  }

  lemma EncodedOne(r: Record)
    ensures EncodedAll([r]) == Encoded(r)
  {
    assert EncodedAll([]) == [];
  }

  // ---------- walking a file by record lengths ----------

  /** Where each record starts. */
  function RecordStarts(rs: seq<Record>, from: nat): seq<nat> {
    if rs == [] then [] else [from] + RecordStarts(rs[1..], from + Len(rs[0]))
  }

  /**
   Follow the record lengths through a file of records. The offsets visited are record starts, all
   of them unless a record newer than the checkpoint stops the walk.
   */
  method HasUnfinished(file: Bytes, checkpoint: Id, ghost rs: seq<Record>)
    returns (unfinished: bool, ghost visited: seq<nat>)
    requires file == EncodedAll(rs) && AllFit(rs)
    ensures unfinished <==> exists i :: 0 <= i < |rs| && rs[i].id > checkpoint
    ensures visited <= RecordStarts(rs, 0) && (!unfinished ==> visited == RecordStarts(rs, 0))
  {
    hide EncodedAll, Encoded, At, RecordStarts;
    var offset: nat := 0;
    unfinished, visited := false, [];
    ghost var i := 0;
    assert rs[0..] == rs && file[0..] == file;
    while offset + 2 < |file|
      invariant 0 <= i <= |rs| && offset <= |file| && file[offset..] == EncodedAll(rs[i..])
      invariant forall j :: 0 <= j < i ==> rs[j].id <= checkpoint
      invariant visited + RecordStarts(rs[i..], offset) == RecordStarts(rs, 0)
      decreases |rs| - i
    {
      NextRecord(file, offset, rs[i..]);
      assert rs[i..][0] == rs[i] && rs[i..][1..] == rs[i + 1..];
      var recordSize := At(file, offset, 2);
      var id := At(file, offset + 2, 8);
      StartsCons(rs[i..], offset);
      visited := visited + [offset];
      if id > checkpoint {
        unfinished := true;
        break;
      }
      offset := offset + recordSize;
      i := i + 1;
    }
    EncodedAllCons(rs[i..]);
    StartsCons(rs[i..], offset);
  }

  lemma StartsCons(rs: seq<Record>, from: nat)
    ensures rs == [] ==> RecordStarts(rs, from) == []
    ensures rs != [] ==> RecordStarts(rs, from) == [from] + RecordStarts(rs[1..], from + Len(rs[0]))
  {
  }

  /** At a record start, the length field leads to the next start. */
  lemma NextRecord(file: Bytes, offset: nat, rs: seq<Record>)
    requires offset + 2 < |file| && file[offset..] == EncodedAll(rs) && AllFit(rs)
    ensures rs != [] && offset + Len(rs[0]) <= |file| && offset + HEAD <= |file|
    ensures At(file, offset, 2) == Len(rs[0]) && At(file, offset + 2, 8) == rs[0].id
    ensures file[offset + Len(rs[0])..] == EncodedAll(rs[1..])
  {
    hide EncodedAll, At, Head;
    EncodedAllCons(rs);
    var r := rs[0];
    assert file[offset..][..Len(r)] == Encoded(r) == file[offset..offset + Len(r)];
    assert Lies(file, offset, Head(r)) by {
      LiesConcat(file, offset, Head(r), Body(r));
    }
    HeadParses(file, offset, r);
    assert file[offset + Len(r)..] == file[offset..][Len(r)..];
  }

  // ---------- the directory of log files ----------

  /** The records of the listed files, in file order. */
  ghost function Gather(names: seq<nat>, content: map<nat, seq<Record>>): seq<Record>
    requires forall n :: n in names ==> n in content
  {
    if names == [] then [] else content[names[0]] + Gather(names[1..], content)
  }

  /** Every listed file holds the encoding of its records. */
  ghost predicate Holds(names: seq<nat>, files: map<nat, Bytes>, content: map<nat, seq<Record>>) {
    forall n :: n in names ==>
                  n in files && n in content && AllFit(content[n]) && files[n] == EncodedAll(content[n])
  }

  lemma {:induction false} GatherConcat(a: seq<nat>, b: seq<nat>, content: map<nat, seq<Record>>)
    requires (forall n :: n in a ==> n in content) && (forall n :: n in b ==> n in content)
    ensures Gather(a + b, content) == Gather(a, content) + Gather(b, content)
  {
    if a == [] {
      assert a + b == b;
    } else {
      assert (a + b)[1..] == a[1..] + b;
      GatherConcat(a[1..], b, content);
    }
  }

  lemma {:induction false} GatherSame(names: seq<nat>, c: map<nat, seq<Record>>, c': map<nat, seq<Record>>)
    requires forall n :: n in names ==> n in c && n in c' && c[n] == c'[n]
    ensures Gather(names, c) == Gather(names, c')
  {
    if names != [] {
      assert names[0] in names;
      GatherSame(names[1..], c, c');
    }
  }

  function Keep(names: seq<nat>, gone: set<nat>): seq<nat> {
    if names == [] then []
    else if names[0] in gone then Keep(names[1..], gone)
    else [names[0]] + Keep(names[1..], gone)
  }

  lemma {:induction false} KeepIs(names: seq<nat>, gone: set<nat>)
    requires Ascending(names)
    ensures Ascending(Keep(names, gone)) && forall n :: n in Keep(names, gone) <==> n in names && n !in gone
    ensures names != [] && names[|names| - 1] !in gone ==>
              Keep(names, gone) != [] && Keep(names, gone)[|Keep(names, gone)| - 1] == names[|names| - 1]
  {
    if names != [] {
      HeadAndTail(names);
      KeepIs(names[1..], gone);
      if names[0] !in gone {
        PrependAscending(names[0], Keep(names[1..], gone));
      }
    }
  }

  /** Dropping files without records of a transaction leaves that transaction's records alone. */
  lemma {:induction false} KeepForId(names: seq<nat>, gone: set<nat>, content: map<nat, seq<Record>>, id: Id)
    requires (forall n :: n in names ==> n in content) && (forall n :: n in Keep(names, gone) ==> n in content)
    requires forall n :: n in names && n in gone ==> ForId(content[n], id) == []
    ensures ForId(Gather(names, content), id) == ForId(Gather(Keep(names, gone), content), id)
  {
    hide ForId;
    if names != [] {
      var n := names[0];
      assert n in names;
      KeepForId(names[1..], gone, content, id);
      ForIdConcat(content[n], Gather(names[1..], content), id);
      if n !in gone {
        assert Keep(names, gone)[0] == n && Keep(names, gone)[1..] == Keep(names[1..], gone);
        ForIdConcat(content[n], Gather(Keep(names[1..], gone), content), id);
      }
    }
  }

  // ---------- recovery ----------

  /** Per transaction above the checkpoint, its logged records in order. */
  ghost predicate IsRecovery(m: map<Id, seq<Record>>, rs: seq<Record>, checkpoint: Id) {
    && (forall id :: id in m <==> id > checkpoint && ForId(rs, id) != [])
    && (forall id :: id in m ==> m[id] == ForId(rs, id))
  }

  /** The recovered map is determined by the records of the transactions above the checkpoint. */
  lemma SameRecovery(m: map<Id, seq<Record>>, a: seq<Record>, b: seq<Record>, checkpoint: Id)
    requires forall id :: id > checkpoint ==> ForId(a, id) == ForId(b, id)
    ensures IsRecovery(m, a, checkpoint) <==> IsRecovery(m, b, checkpoint)
  {
    hide ForId;
  }

  lemma RecoverOne(m: map<Id, seq<Record>>, rs: seq<Record>, r: Record, checkpoint: Id)
    requires IsRecovery(m, rs, checkpoint)
    ensures var m' := if r.id > checkpoint then m[r.id := (if r.id in m then m[r.id] else []) + [r]] else m;
            IsRecovery(m', rs + [r], checkpoint)
  {
    hide ForId;
    forall id
      ensures ForId(rs + [r], id) == ForId(rs, id) + (if r.id == id then [r] else [])
    {
      ForIdConcat(rs, [r], id);
      ForIdOne(r, id);
    }
  }

  lemma ForIdOne(r: Record, id: Id)
    ensures ForId([r], id) == if r.id == id then [r] else []
  {
    assert ForId([], id) == [];
  }

  /** Collect one file's records. */
  method RecoverFile(records: seq<Record>, checkpoint: Id, m: map<Id, seq<Record>>, ghost before: seq<Record>)
    returns (m': map<Id, seq<Record>>)
    requires IsRecovery(m, before, checkpoint)
    ensures IsRecovery(m', before + records, checkpoint)
  {
    hide IsRecovery;
    m' := m;
    assert before + records[..0] == before;
    for i := 0 to |records|
      invariant IsRecovery(m', before + records[..i], checkpoint)
    {
      var r := records[i];
      RecoverOne(m', before + records[..i], r, checkpoint);
      assert before + records[..i] + [r] == before + records[..i + 1];
      if r.id > checkpoint {
        m' := m'[r.id := (if r.id in m' then m'[r.id] else []) + [r]];
      }
    }
    assert records[..|records|] == records;
  }

  /**
   Read every log file found, in any enumeration order, and group the records above the
   checkpoint by transaction.
   */
  method Recover(dir: seq<nat>, files: map<nat, Bytes>, checkpoint: Id, ghost content: map<nat, seq<Record>>)
    returns (m: map<Id, seq<Record>>)
    requires Distinct(dir) && Holds(dir, files, content)
    ensures Holds(SortIds(dir), files, content) && IsRecovery(m, Gather(SortIds(dir), content), checkpoint)
  {
    hide IsRecovery, SortIds, Ascending, Gather, EncodedAll, AllFit;
    SortIdsSorts(dir);
    var names := SortIds(dir);
    m := map[];
    NoRecords(checkpoint);
    GatherNone(content);
    for i := 0 to |names|
      invariant IsRecovery(m, Gather(names[..i], content), checkpoint)
    {
      var n := names[i];
      assert n in names;
      var decoded := Decode(files[n]);
      assert decoded.Parsed? && decoded.value == content[n] by { FitEach(content[n]); }
      m := RecoverFile(decoded.value, checkpoint, m, Gather(names[..i], content));
      GatherSnoc(names, i, content);
    }
    assert names[..|names|] == names;
  }

  lemma FitEach(rs: seq<Record>)
    requires AllFit(rs)
    ensures forall i :: 0 <= i < |rs| ==> Fits(rs[i])
  {
  }

  lemma NoRecords(checkpoint: Id)
    ensures IsRecovery(map[], [], checkpoint)
  {
  }

  lemma GatherNone(content: map<nat, seq<Record>>)
    ensures Gather([], content) == []
  {
  }

  lemma GatherSnoc(names: seq<nat>, i: nat, content: map<nat, seq<Record>>)
    requires i < |names| && forall n :: n in names ==> n in content
    ensures Gather(names[..i + 1], content) == Gather(names[..i], content) + content[names[i]]
  {
    assert names[..i + 1] == names[..i] + [names[i]];
    GatherConcat(names[..i], [names[i]], content);
    assert Gather([names[i]], content) == content[names[i]] + Gather([], content);
  }

  // ---------- the log ----------

  class WAL {
    const bufferSize: nat
    const sizeLimit: nat
    var checkpoint: Id
    var buffer: seq<Record>
    var names: seq<nat>
    var files: map<nat, Bytes>
    var active: nat
    ghost var content: map<nat, seq<Record>>

    ghost predicate Valid()
      reads this
    {
      && Ascending(names) && names != [] && names[|names| - 1] == active
      && Holds(names, files, content) && AllFit(buffer)
    }

    /** Every record in the files, oldest first. */
    ghost function Logged(): seq<Record>
      requires Valid()
      reads this
    {
      Gather(names, content)
    }

    constructor (bufferSize: nat, checkpoint: Id, sizeLimit: nat)
      ensures Valid() && Logged() == [] && buffer == [] && this.checkpoint == checkpoint
    {
      this.bufferSize, this.checkpoint, this.sizeLimit := bufferSize, checkpoint, sizeLimit;
      buffer, names, files, active, content := [], [0], map[0 := []], 0, map[0 := []];
      new;
      assert Gather([0], content) == content[0] + Gather([], content);
    }

    /** Buffer records, and write the buffer out when it is full or the caller insists. */
    method Log(records: seq<Record>, forceFlush: bool)
      requires Valid() && AllFit(records)
      modifies this`buffer, this`names, this`files, this`active, this`content
      ensures Valid()
      ensures Logged() + buffer == old(Logged() + buffer) + records
      ensures buffer == [] || (!forceFlush && Logged() == old(Logged()))
      ensures forceFlush ==> buffer == []
    {
      hide Gather, Holds, Ascending;
      buffer := buffer + records;
      if |buffer| < bufferSize && !forceFlush {
        return;
      }
      var pending := buffer;
      buffer := [];
      AppendAll(pending);
      if |files[active]| > sizeLimit {
        ResetFile();
      }
    }

    /** Append records to the active file one by one. */
    method AppendAll(records: seq<Record>)
      requires Valid() && AllFit(records)
      modifies this`files, this`content
      ensures Valid() && Logged() == old(Logged()) + records
      ensures active in files
    {
      hide Gather, Ascending, EncodedAll;
      assert names[|names| - 1] in names;
      assert Logged() + records[..0] == Logged();
      for i := 0 to |records|
        invariant Valid() && Logged() == old(Logged()) + records[..i]
      {
        assert names[|names| - 1] in names;
        var bytes := Encode(records[i]);
        EncodedAllConcat(content[active], [records[i]]);
        EncodedOne(records[i]);
        GatherAppend(names, content, records[i]);
        files := files[active := files[active] + bytes];
        content := content[active := content[active] + [records[i]]];
        assert old(Logged()) + records[..i] + [records[i]] == old(Logged()) + records[..i + 1];
      }
      assert records[..|records|] == records;
    }

    /** Start the next file. */
    method ResetFile()
      requires Valid()
      modifies this`names, this`files, this`active, this`content
      ensures Valid() && Logged() == old(Logged()) && active == old(active) + 1
    {
      hide Gather;
      var next := active + 1;
      assert next !in names;
      GatherSame(names, content, content[next := []]);
      GatherConcat(names, [next], content[next := []]);
      GatherOne(next, content[next := []]);
      active := next;
      names, files, content := names + [next], files[next := []], content[next := []];
    }

    /**
     Delete every file but the newest whose transactions are all at or below the checkpoint.
     Recovery from any checkpoint at or above the cleaner's finds the same.
     */
    method CleanWALFile()
      requires Valid()
      modifies this`names, this`files
      ensures Valid() && buffer == old(buffer) && content == old(content)
      ensures forall n :: n in names <==> n in old(names) && (n == active || Unfinished(content[n], checkpoint))
      ensures forall id :: id > checkpoint ==> ForId(Logged(), id) == ForId(old(Logged()), id)
      ensures forall m, c: Id :: c >= checkpoint ==> (IsRecovery(m, Logged(), c) <==> IsRecovery(m, old(Logged()), c))
    {
      hide Gather, EncodedAll, ForId, IsRecovery, Keep;
      var gone: set<nat> := {};
      for idx := 0 to |names| - 1
        invariant names == old(names) && files == old(files)
        invariant forall n :: n in gone <==> n in names[..idx] && !Unfinished(content[n], checkpoint)
      {
        var n := names[idx];
        assert n in names && names[..idx + 1] == names[..idx] + [n];
        var unfinished, _ := HasUnfinished(files[n], checkpoint, content[n]);
        if !unfinished {
          gone := gone + {n};
        }
      }
      assert forall n :: n in gone ==> n in names;
      LastApart(names);
      KeepIs(names, gone);
      forall id | id > checkpoint
        ensures ForId(Gather(names, content), id) == ForId(Gather(Keep(names, gone), content), id)
      {
        forall n | n in names && n in gone
          ensures ForId(content[n], id) == []
        {
          ForIdNone(content[n], id);
        }
        KeepForId(names, gone, content, id);
      }
      forall m, c: Id | c >= checkpoint
        ensures IsRecovery(m, Gather(Keep(names, gone), content), c) <==> IsRecovery(m, Gather(names, content), c)
      {
        SameRecovery(m, Gather(Keep(names, gone), content), Gather(names, content), c);
      }
      names, files := Keep(names, gone), files - gone;
    }

    /** Recovery reads back exactly what was logged, whatever order the files are found in. */
    method RecoverLogged(dir: seq<nat>, from: Id) returns (m: map<Id, seq<Record>>)
      requires Valid() && Distinct(dir) && forall n :: n in dir <==> n in names
      ensures Valid() && IsRecovery(m, Logged(), from)
    {
      hide IsRecovery, Gather, SortIds;
      SortIdsSorts(dir);
      AscendingUnique(SortIds(dir), names);
      m := Recover(dir, files, from, content);
    }
  }

  predicate Unfinished(rs: seq<Record>, checkpoint: Id) {
    exists i :: 0 <= i < |rs| && rs[i].id > checkpoint
  }

  lemma LastApart(names: seq<nat>)
    requires Ascending(names) && names != []
    ensures names[|names| - 1] !in names[..|names| - 1]
    ensures forall x :: x in names <==> x == names[|names| - 1] || x in names[..|names| - 1]
  {
    assert names == names[..|names| - 1] + [names[|names| - 1]];
  }

  lemma GatherOne(n: nat, content: map<nat, seq<Record>>)
    requires n in content
    ensures Gather([n], content) == content[n]
  {
    assert Gather([n], content) == content[n] + Gather([], content);
  }

  lemma GatherAppend(names: seq<nat>, content: map<nat, seq<Record>>, r: Record)
    requires Ascending(names) && names != [] && forall n :: n in names ==> n in content
    ensures var last := names[|names| - 1];
            Gather(names, content[last := content[last] + [r]]) == Gather(names, content) + [r]
  {
    hide Gather;
    LastApart(names);
    var n := |names| - 1;
    var last, init := names[n], names[..n];
    var content' := content[last := content[last] + [r]];
    assert names == init + [last];
    GatherConcat(init, [last], content);
    GatherConcat(init, [last], content');
    GatherSame(init, content, content');
    GatherOne(last, content);
    GatherOne(last, content');
  }
}
