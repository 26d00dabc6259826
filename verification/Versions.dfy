/**
 The vocabulary every other module shares: byte strings, keys, versions, the order
 tables keep, and the meaning of a snapshot read.

 A store is at bottom one sequence of versions, newest place first. A read scans it for the
 first version of the key that the snapshot may see; the store is correct when, per key, that
 sequence has strictly falling ids (`AgeOrdered`). Moving data between structures is correct
 when it keeps every version and every key's subsequence (`SameVersions`).

 The empty key marks commits. Transactions may commit in any order of their ids, so nothing orders
 the markers by id; nothing reads them by key either. Every order below exempts that one key.
 */
module Versions {

  type Byte = x: int | 0 <= x < 256
  type Bytes = seq<Byte>
  type Key = Bytes
  type Value = Bytes
  type Id = nat

  /** A key of a client: any but the empty one, which marks commits. */
  type UserKey = k: Key | k != [] witness [0]

  datatype Option<+T> = None | Some(value: T)

  /** One version: an empty value marks a deletion, an empty key marks a commit. */
  datatype Entry = Entry(key: Key, value: Value, id: Id)

  // ---------- order on keys ----------

  /** Lexicographic order on unsigned bytes, as std::string compares. */
  predicate Less(a: Key, b: Key) {
    if b == [] then false
    else if a == [] then true
    else if a[0] != b[0] then a[0] < b[0]
    else Less(a[1..], b[1..])
  }

  predicate AtMost(a: Key, b: Key) {
    a == b || Less(a, b)
  }

  lemma {:induction false} LessTransitive(a: Key, b: Key, c: Key)
    requires Less(a, b) && Less(b, c)
    ensures Less(a, c)
  {
    if a != [] && a[0] == b[0] && b[0] == c[0] {
      LessTransitive(a[1..], b[1..], c[1..]);
    }
  }

  lemma {:induction false} LessTotal(a: Key, b: Key)
    ensures Less(a, b) || a == b || Less(b, a)
    ensures !(Less(a, b) && Less(b, a))
    ensures Less(a, b) ==> a != b
  {
    if a != [] && b != [] && a[0] == b[0] {
      LessTotal(a[1..], b[1..]);
      assert a == [a[0]] + a[1..] && b == [b[0]] + b[1..];
    }
  }

  /** A predicate that orders keys: positive left of the range, zero inside, negative right of it. */
  ghost predicate Falling(pred: Key -> int) {
    forall a, b :: Less(a, b) ==> (pred(a) <= 0 ==> pred(b) <= 0) && (pred(a) < 0 ==> pred(b) < 0)
  }

  // ---------- order on versions ----------

  /** Tables are laid out by key ascending, then by id descending. */
  predicate Before(a: Entry, b: Entry) {
    Less(a.key, b.key) || (a.key == b.key && a.id > b.id)
  }

  ghost predicate Sorted(s: seq<Entry>) {
    forall i, j :: 0 <= i < j < |s| ==> Before(s[i], s[j])
  }

  lemma NothingSorted()
    ensures Sorted([])
  {
  }

  /** Sorted runs whose every pair across the seam is ordered make one sorted run. */
  lemma SortedConcat(a: seq<Entry>, b: seq<Entry>)
    requires Sorted(a) && Sorted(b)
    requires forall i, j :: 0 <= i < |a| && 0 <= j < |b| ==> Before(a[i], b[j])
    ensures Sorted(a + b)
  {
  }

  /** What may stand in a newer place than b: a larger id, or the very same version once more. */
  predicate Supersedes(a: Entry, b: Entry) {
    a.id > b.id || a == b
  }

  /** The order of tables on disk: as `Before`, except that versions may repeat and markers stand in any order. */
  predicate InOrder(a: Entry, b: Entry) {
    Less(a.key, b.key) || (a.key == b.key && (a.key == [] || Supersedes(a, b)))
  }

  ghost predicate Ordered(s: seq<Entry>) {
    forall i, j :: 0 <= i < j < |s| ==> InOrder(s[i], s[j])
  }

  lemma SortedIsOrdered(s: seq<Entry>)
    requires Sorted(s)
    ensures Ordered(s)
  {
    hide Less;
    assert forall i, j :: 0 <= i < j < |s| ==> Before(s[i], s[j]);
  }

  lemma OrderedConcat(a: seq<Entry>, b: seq<Entry>)
    requires Ordered(a) && Ordered(b)
    requires forall i, j :: 0 <= i < |a| && 0 <= j < |b| ==> InOrder(a[i], b[j])
    ensures Ordered(a + b)
  {
    hide Less, InOrder;
  }

  lemma InOrderTransitive(a: Entry, b: Entry, c: Entry)
    requires InOrder(a, b) && InOrder(b, c)
    ensures InOrder(a, c)
  {
    if Less(a.key, b.key) && Less(b.key, c.key) {
      LessTransitive(a.key, b.key, c.key);
    }
  }

  // ---------- one key's versions ----------

  /** The versions of k in s, in the order s lists them. */
  function ForKey(s: seq<Entry>, k: Key): seq<Entry> {
    if s == [] then []
    else if s[0].key == k then [s[0]] + ForKey(s[1..], k)
    else ForKey(s[1..], k)
  }

  lemma {:induction false} ForKeyConcat(a: seq<Entry>, b: seq<Entry>, k: Key)
    ensures ForKey(a + b, k) == ForKey(a, k) + ForKey(b, k)
  {
    if a == [] {
      assert a + b == b;
    } else {
      ForKeyConcat(a[1..], b, k);
      assert (a + b)[0] == a[0] && (a + b)[1..] == a[1..] + b;
    }
  }

  lemma {:induction false} ForKeyMultiset(s: seq<Entry>, k: Key, e: Entry)
    ensures multiset(ForKey(s, k))[e] == if e.key == k then multiset(s)[e] else 0
  {
    if s != [] {
      ForKeyMultiset(s[1..], k, e);
      assert s == [s[0]] + s[1..];
    }
  }

  lemma ForKeyMembers(s: seq<Entry>, k: Key)
    ensures forall e :: e in ForKey(s, k) <==> e in s && e.key == k
  {
    forall e: Entry
      ensures e in ForKey(s, k) <==> e in s && e.key == k
    {
      ForKeyMultiset(s, k, e);
      assert e in s <==> multiset(s)[e] > 0;
      assert e in ForKey(s, k) <==> multiset(ForKey(s, k))[e] > 0;
    }
  }

  /** Ids fall; the same version may stand in several places. */
  ghost predicate Descending(s: seq<Entry>) {
    forall i, j :: 0 <= i < j < |s| ==> Supersedes(s[i], s[j])
  }

  /**
   The store invariant: for each key but the marker's, an earlier (newer) position has a larger id, or
   repeats the same version, as a replayed log does.
   */
  ghost predicate AgeOrdered(s: seq<Entry>) {
    forall k: Key :: k != [] ==> Descending(ForKey(s, k))
  }

  /** Two layouts that hold the same versions and, for each key but the marker's, in the same order. */
  ghost predicate SameVersions(a: seq<Entry>, b: seq<Entry>) {
    && multiset(a) == multiset(b)
    && forall k: Key :: k != [] ==> ForKey(a, k) == ForKey(b, k)
  }

  lemma SameVersionsItself(s: seq<Entry>)
    ensures SameVersions(s, s)
  {
  }

  lemma {:induction false} OrderedForKey(s: seq<Entry>, k: Key)
    requires Ordered(s) && k != []
    ensures Descending(ForKey(s, k))
  {
    if s != [] {
      OrderedForKey(s[1..], k);
      ForKeyMembers(s[1..], k);
      if s[0].key == k {
        forall e | e in ForKey(s[1..], k)
          ensures Supersedes(s[0], e)
        {
          var j :| 0 <= j < |s[1..]| && s[1..][j] == e;
          assert InOrder(s[0], s[j + 1]);
          LessTotal(s[0].key, e.key);
        }
      }
    }
  }

  lemma OrderedIsAgeOrdered(s: seq<Entry>)
    requires Ordered(s)
    ensures AgeOrdered(s)
  {
    forall k: Key | k != []
      ensures Descending(ForKey(s, k))
    {
      OrderedForKey(s, k);
    }
  }

  lemma SortedIsAgeOrdered(s: seq<Entry>)
    requires Sorted(s)
    ensures AgeOrdered(s)
  {
    SortedIsOrdered(s);
    OrderedIsAgeOrdered(s);
  }

  /** Within one sorted table even the markers fall. */
  lemma {:induction false} SortedForKey(s: seq<Entry>, k: Key)
    requires Sorted(s)
    ensures Descending(ForKey(s, k))
  {
    if s != [] {
      SortedForKey(s[1..], k);
      ForKeyMembers(s[1..], k);
      if s[0].key == k {
        forall e | e in ForKey(s[1..], k)
          ensures Supersedes(s[0], e)
        {
          var j :| 0 <= j < |s[1..]| && s[1..][j] == e;
          assert Before(s[0], s[j + 1]);
          LessTotal(s[0].key, e.key);
        }
      }
    }
  }

  lemma SameMultiset<T>(a: seq<T>, b: seq<T>)
    requires multiset(a) == multiset(b)
    ensures |a| == |b|
    ensures forall x :: x in a <==> x in b
  {
    assert |a| == |multiset(a)| && |b| == |multiset(b)|;
    assert forall x :: x in a <==> x in multiset(a);
    assert forall x :: x in b <==> x in multiset(b);
  }

  lemma TailMultiset<T>(a: seq<T>, b: seq<T>)
    requires multiset(a) == multiset(b)
    requires a != [] && b != [] && a[0] == b[0]
    ensures multiset(a[1..]) == multiset(b[1..])
  {
    assert a == [a[0]] + a[1..];
    assert multiset(a[1..]) == multiset(a) - multiset{a[0]};
    assert b == [b[0]] + b[1..];
    assert multiset(b[1..]) == multiset(b) - multiset{b[0]};
  }

  lemma DescendingHead(a: seq<Entry>, b: seq<Entry>)
    requires Descending(a) && Descending(b) && a != [] && b != []
    requires a[0] in b && b[0] in a
    ensures a[0] == b[0]
  {
    var i :| 0 <= i < |b| && b[i] == a[0];
    var j :| 0 <= j < |a| && a[j] == b[0];
  }

  lemma {:induction false} DescendingUnique(a: seq<Entry>, b: seq<Entry>)
    requires Descending(a) && Descending(b)
    requires multiset(a) == multiset(b)
    ensures a == b
  {
    SameMultiset(a, b);
    if a != [] {
      assert a[0] in b && b[0] in a;
      DescendingHead(a, b);
      TailMultiset(a, b);
      DescendingUnique(a[1..], b[1..]);
      assert a == [a[0]] + a[1..] && b == [b[0]] + b[1..];
    }
  }

  /**
   The heart of compaction: laying the same versions out again in table order changes no
   key's version list, provided ids already fell with age.
   */
  lemma SortedPermutationKeepsVersions(s: seq<Entry>, layout: seq<Entry>)
    requires AgeOrdered(s)
    requires Ordered(layout)
    requires multiset(layout) == multiset(s)
    ensures SameVersions(layout, s)
  {
    forall k: Key | k != []
      ensures ForKey(layout, k) == ForKey(s, k)
    {
      OrderedForKey(layout, k);
      forall e: Entry
        ensures multiset(ForKey(layout, k))[e] == multiset(ForKey(s, k))[e]
      {
        ForKeyMultiset(layout, k, e);
        ForKeyMultiset(s, k, e);
      }
      DescendingUnique(ForKey(layout, k), ForKey(s, k));
    }
  }

  lemma SameVersionsAgeOrdered(a: seq<Entry>, b: seq<Entry>)
    requires SameVersions(a, b)
    ensures AgeOrdered(a) <==> AgeOrdered(b)
  {
    hide ForKey, Descending;
    forall k: Key | k != []
      ensures Descending(ForKey(a, k)) <==> Descending(ForKey(b, k))
    {
      assert ForKey(a, k) == ForKey(b, k);
    }
  }

  lemma SameVersionsSameMembers(a: seq<Entry>, b: seq<Entry>)
    requires SameVersions(a, b)
    ensures forall e :: e in a <==> e in b
  {
    SameMultiset(a, b);
  }

  lemma SameVersionsConcat(a: seq<Entry>, b: seq<Entry>, a': seq<Entry>, b': seq<Entry>)
    requires SameVersions(a, a') && SameVersions(b, b')
    ensures SameVersions(a + b, a' + b')
  {
    forall k: Key | k != []
      ensures ForKey(a + b, k) == ForKey(a' + b', k)
    {
      ForKeyConcat(a, b, k);
      ForKeyConcat(a', b', k);
      assert ForKey(a, k) == ForKey(a', k) && ForKey(b, k) == ForKey(b', k);
    }
  }

  lemma SameVersionsTransitive(a: seq<Entry>, b: seq<Entry>, c: seq<Entry>)
    requires SameVersions(a, b) && SameVersions(b, c)
    ensures SameVersions(a, c)
  {
    forall k: Key | k != []
      ensures ForKey(a, k) == ForKey(c, k)
    {
      assert ForKey(a, k) == ForKey(b, k);
    }
  }

  lemma DescendingConcat(x: seq<Entry>, y: seq<Entry>)
    ensures Descending(x + y) <==>
            Descending(x) && Descending(y) && forall e, f :: e in x && f in y ==> Supersedes(e, f)
  {
    var s := x + y;
    assert forall i :: 0 <= i < |x| ==> s[i] == x[i];
    assert forall i :: 0 <= i < |y| ==> s[|x| + i] == y[i];
    if Descending(s) {
      forall e, f | e in x && f in y
        ensures Supersedes(e, f)
      {
        var i :| 0 <= i < |x| && x[i] == e;
        var j :| 0 <= j < |y| && y[j] == f;
        assert s[i] == e && s[|x| + j] == f;
      }
    }
    if Descending(x) && Descending(y) && forall e, f :: e in x && f in y ==> Supersedes(e, f) {
      forall i, j | 0 <= i < j < |s|
        ensures Supersedes(s[i], s[j])
      {
        if i < |x| <= j {
          assert x[i] in x && y[j - |x|] in y;
        }
      }
    }
  }

  /** Per key, a stacked layout is in order when both parts are and the front part is newer. */
  lemma KeyOrder(a: seq<Entry>, b: seq<Entry>, k: Key)
    ensures Descending(ForKey(a + b, k)) <==>
            (&& Descending(ForKey(a, k)) && Descending(ForKey(b, k))
             && forall e, f :: e in a && f in b && e.key == k && f.key == k ==> Supersedes(e, f))
  {
    hide ForKey, Descending;
    ForKeyConcat(a, b, k);
    ForKeyMembers(a, k);
    ForKeyMembers(b, k);
    DescendingConcat(ForKey(a, k), ForKey(b, k));
  }

  /** The front part of a layout is newer, key by key. */
  ghost predicate Newer(a: seq<Entry>, b: seq<Entry>) {
    forall e, f :: e in a && f in b && e.key == f.key && e.key != [] ==> Supersedes(e, f)
  }

  /** Any stretch of an age-ordered layout is age-ordered. */
  lemma AgeOrderedParts(a: seq<Entry>, b: seq<Entry>)
    requires AgeOrdered(a + b)
    ensures AgeOrdered(a) && AgeOrdered(b) && Newer(a, b)
  {
    hide ForKey, Descending;
    forall k: Key | k != []
      ensures Descending(ForKey(a, k)) && Descending(ForKey(b, k))
    {
      KeyOrder(a, b, k);
    }
    forall e, f | e in a && f in b && e.key == f.key && e.key != []
      ensures Supersedes(e, f)
    {
      KeyOrder(a, b, e.key);
    }
  }

  lemma AgeOrderedJoin(a: seq<Entry>, b: seq<Entry>)
    requires AgeOrdered(a) && AgeOrdered(b) && Newer(a, b)
    ensures AgeOrdered(a + b)
  {
    hide ForKey, Descending;
    forall k: Key | k != []
      ensures Descending(ForKey(a + b, k))
    {
      KeyOrder(a, b, k);
    }
  }

  // ---------- runs ----------

  /** Blocks of a file, files of a level or tables of a store, laid end to end. */
  function Flat(runs: seq<seq<Entry>>): seq<Entry> {
    if runs == [] then [] else runs[0] + Flat(runs[1..])
  }

  lemma FlatCons(runs: seq<seq<Entry>>)
    ensures runs == [] ==> Flat(runs) == []
    ensures runs != [] ==> Flat(runs) == runs[0] + Flat(runs[1..])
  {
  }

  lemma {:induction false} FlatConcat(a: seq<seq<Entry>>, b: seq<seq<Entry>>)
    ensures Flat(a + b) == Flat(a) + Flat(b)
  {
    hide Flat;
    FlatCons(a);
    FlatCons(a + b);
    if a == [] {
      assert a + b == b;
    } else {
      FlatConcat(a[1..], b);
      assert (a + b)[0] == a[0] && (a + b)[1..] == a[1..] + b;
    }
  }

  lemma FlatOne(run: seq<Entry>)
    ensures Flat([run]) == run
  {
    assert Flat([run]) == run + Flat([]);
  }

  lemma {:induction false} FlatHas(runs: seq<seq<Entry>>, i: nat, e: Entry)
    requires i < |runs| && e in runs[i]
    ensures e in Flat(runs)
  {
    if i > 0 {
      FlatHas(runs[1..], i - 1, e);
    }
  }

  lemma {:induction false} FlatFrom(runs: seq<seq<Entry>>, e: Entry) returns (i: nat)
    requires e in Flat(runs)
    ensures i < |runs| && e in runs[i]
  {
    if e in runs[0] {
      i := 0;
    } else {
      i := FlatFrom(runs[1..], e);
      i := i + 1;
    }
  }

  lemma FlatMembers(runs: seq<seq<Entry>>)
    ensures forall i, e :: 0 <= i < |runs| && e in runs[i] ==> e in Flat(runs)
    ensures forall e :: e in Flat(runs) ==> exists i :: 0 <= i < |runs| && e in runs[i]
  {
    hide Flat;
    forall i, e | 0 <= i < |runs| && e in runs[i]
      ensures e in Flat(runs)
    {
      FlatHas(runs, i, e);
    }
    forall e | e in Flat(runs)
      ensures exists i :: 0 <= i < |runs| && e in runs[i]
    {
      var i := FlatFrom(runs, e);
    }
  }

  lemma SplitSeq<T>(s: seq<T>, r: nat)
    requires r < |s|
    ensures s == s[..r] + [s[r]] + s[r + 1..]
  {
  }

  lemma FlatSplit(runs: seq<seq<Entry>>, r: nat)
    requires r < |runs|
    ensures Flat(runs) == Flat(runs[..r]) + runs[r] + Flat(runs[r + 1..])
  {
    hide Flat;
    SplitSeq(runs, r);
    FlatConcat(runs[..r] + [runs[r]], runs[r + 1..]);
    FlatConcat(runs[..r], [runs[r]]);
    FlatOne(runs[r]);
  }

  // ---------- reading ----------

  /** A snapshot id of 0 sees everything; any other sees ids up to itself. */
  predicate Visible(id: Id, t: Id) {
    t == 0 || id <= t
  }

  predicate Hit(e: Entry, k: Key, t: Id) {
    e.key == k && Visible(e.id, t)
  }

  /** The reference read: scan for the first version of k that t may see. */
  function First(s: seq<Entry>, k: Key, t: Id): (r: Option<Entry>)
    ensures r.Some? ==> r.value in s && Hit(r.value, k, t)
    ensures r.None? ==> forall e :: e in s ==> !Hit(e, k, t)
  {
    if s == [] then None
    else if Hit(s[0], k, t) then Some(s[0])
    else First(s[1..], k, t)
  }

  /** e is the newest version of k in s that t may see. */
  ghost predicate IsNewest(s: seq<Entry>, k: Key, t: Id, e: Entry) {
    e in s && Hit(e, k, t) && forall f :: f in s && Hit(f, k, t) ==> f.id <= e.id
  }

  lemma {:induction false} FirstConcat(a: seq<Entry>, b: seq<Entry>, k: Key, t: Id)
    ensures First(a + b, k, t) == if First(a, k, t).Some? then First(a, k, t) else First(b, k, t)
  {
    if a == [] {
      assert a + b == b;
    } else {
      assert (a + b)[1..] == a[1..] + b;
      FirstConcat(a[1..], b, k, t);
    }
  }

  lemma FirstAt(s: seq<Entry>, i: nat, k: Key, t: Id)
    requires i < |s| && Hit(s[i], k, t)
    requires forall j :: 0 <= j < i ==> !Hit(s[j], k, t)
    ensures First(s, k, t) == Some(s[i])
  {
    FirstConcat(s[..i], s[i..], k, t);
    assert s == s[..i] + s[i..];
  }

  /** A key that occurs in one run only is read from that run. */
  lemma FirstInRun(runs: seq<seq<Entry>>, r: nat, k: Key, t: Id)
    requires r < |runs|
    requires forall j, e :: 0 <= j < |runs| && e in runs[j] && e.key == k ==> j == r
    ensures First(Flat(runs), k, t) == First(runs[r], k, t)
  {
    hide Flat, First;
    FlatSplit(runs, r);
    var lo, hi := Flat(runs[..r]), Flat(runs[r + 1..]);
    FirstConcat(lo + runs[r], hi, k, t);
    FirstConcat(lo, runs[r], k, t);
    forall e | e in lo + hi
      ensures e.key != k
    {
      if e in lo {
        var j := FlatFrom(runs[..r], e);
        assert e in runs[j];
      } else {
        var j := FlatFrom(runs[r + 1..], e);
        assert e in runs[r + 1 + j];
      }
    }
    FirstNone(lo, k, t);
    FirstNone(hi, k, t);
  }

  lemma FirstNone(s: seq<Entry>, k: Key, t: Id)
    requires forall e :: e in s ==> !Hit(e, k, t)
    ensures First(s, k, t) == None
  {
  }

  /** A read looks only at its own key's versions. */
  lemma {:induction false} FirstForKey(s: seq<Entry>, k: Key, t: Id)
    ensures First(s, k, t) == First(ForKey(s, k), k, t)
  {
    if s != [] {
      FirstForKey(s[1..], k, t);
      assert s[0].key == k ==> ForKey(s, k)[1..] == ForKey(s[1..], k);
    }
  }

  lemma SameVersionsSameReads(a: seq<Entry>, b: seq<Entry>, k: Key, t: Id)
    requires SameVersions(a, b) && k != []
    ensures First(a, k, t) == First(b, k, t)
  {
    FirstForKey(a, k, t);
    FirstForKey(b, k, t);
    assert ForKey(a, k) == ForKey(b, k);
  }

  lemma {:induction false} FirstOfDescending(s: seq<Entry>, k: Key, t: Id, f: Entry)
    requires Descending(s)
    requires f in s && Hit(f, k, t)
    ensures First(s, k, t).Some? && f.id <= First(s, k, t).value.id
  {
    if Hit(s[0], k, t) {
      var j :| 0 <= j < |s| && s[j] == f;
    } else {
      assert f in s[1..] by {
        assert s == [s[0]] + s[1..];
      }
      assert Descending(s[1..]) by {
        assert forall i :: 0 <= i < |s[1..]| ==> s[1..][i] == s[i + 1];
      }
      FirstOfDescending(s[1..], k, t, f);
    }
  }

  /** In an age-ordered store the first hit is the newest visible version, and there is only one. */
  lemma FirstIsNewest(s: seq<Entry>, k: Key, t: Id, e: Entry)
    requires AgeOrdered(s) && k != []
    ensures First(s, k, t) == Some(e) <==> IsNewest(s, k, t, e)
  {
    assert Descending(ForKey(s, k));
    FirstIsNewestFor(s, k, t, e);
  }

  /** The same for one key: only that key's versions have to fall. */
  lemma FirstIsNewestFor(s: seq<Entry>, k: Key, t: Id, e: Entry)
    requires Descending(ForKey(s, k))
    ensures First(s, k, t) == Some(e) <==> IsNewest(s, k, t, e)
  {
    FirstForKey(s, k, t);
    ForKeyMembers(s, k);
    var v := ForKey(s, k);
    forall f | f in s && Hit(f, k, t)
      ensures First(v, k, t).Some? && f.id <= First(v, k, t).value.id
    {
      FirstOfDescending(v, k, t, f);
    }
    if IsNewest(s, k, t, e) {
      var r := First(v, k, t).value;
      assert r.id == e.id;
      var i :| 0 <= i < |v| && v[i] == r;
      var j :| 0 <= j < |v| && v[j] == e;
      assert r == e;
    }
  }

  // ---------- writing ----------

  predicate SameVersion(a: Entry, b: Entry) {
    a.key == b.key && a.id == b.id
  }

  /** Not two different values under one key and id. */
  predicate OneValue(a: Entry, b: Entry) {
    SameVersion(a, b) ==> a == b
  }

  /** No two entries are the same version. */
  ghost predicate DistinctVersions(s: seq<Entry>) {
    forall i, j :: 0 <= i < j < |s| ==> !SameVersion(s[i], s[j])
  }

  /** How many leading versions of s stand before e. */
  function Place(s: seq<Entry>, e: Entry): (p: nat)
    ensures p <= |s| && (p < |s| ==> !Before(s[p], e))
    ensures forall i :: 0 <= i < p ==> Before(s[i], e)
  {
    if s == [] || !Before(s[0], e) then 0 else 1 + Place(s[1..], e)
  }

  /** Insert e at its place in a sorted run, or replace the version with its key and id. */
  function Upsert(s: seq<Entry>, e: Entry): seq<Entry> {
    var p := Place(s, e);
    if p < |s| && SameVersion(s[p], e) then s[..p] + [e] + s[p + 1..] else s[..p] + [e] + s[p..]
  }

  /** Where e goes: the versions before it, the one it replaces if any, the versions after it. */
  ghost predicate Around(lo: seq<Entry>, mid: seq<Entry>, hi: seq<Entry>, e: Entry) {
    && (forall f :: f in lo ==> Before(f, e))
    && (mid == [] || (|mid| == 1 && SameVersion(mid[0], e)))
    && (forall f :: f in hi ==> Before(e, f))
  }

  lemma BeforeCompares(a: Entry, b: Entry)
    ensures Before(a, b) || Before(b, a) || SameVersion(a, b)
    ensures !(Before(a, b) && Before(b, a))
    ensures !(Before(a, b) && SameVersion(a, b))
  {
    LessTotal(a.key, b.key);
  }

  /** A sorted run is determined by the versions in it. */
  lemma {:induction false} SortedUnique(a: seq<Entry>, b: seq<Entry>)
    requires Sorted(a) && Sorted(b) && multiset(a) == multiset(b)
    ensures a == b
  {
    hide Less, Before;
    SameMultiset(a, b);
    if a != [] {
      assert a[0] in b && b[0] in a;
      SortedHead(a, b);
      TailMultiset(a, b);
      SortedUnique(a[1..], b[1..]);
      assert a == [a[0]] + a[1..] && b == [b[0]] + b[1..];
    }
  }

  lemma SortedHead(a: seq<Entry>, b: seq<Entry>)
    requires Sorted(a) && Sorted(b) && a != [] && b != []
    requires a[0] in b && b[0] in a
    ensures a[0] == b[0]
  {
    hide Less, Before;
    var i :| 0 <= i < |b| && b[i] == a[0];
    var j :| 0 <= j < |a| && a[j] == b[0];
    BeforeCompares(a[0], b[0]);
  }

  lemma BeforeTransitive(a: Entry, b: Entry, c: Entry)
    requires Before(a, b) && Before(b, c)
    ensures Before(a, c)
  {
    if Less(a.key, b.key) && Less(b.key, c.key) {
      LessTransitive(a.key, b.key, c.key);
    }
  }

  lemma BeforeFrom(a: Entry, b: Entry, c: Entry)
    requires Before(a, b) || SameVersion(a, b)
    requires Before(b, c)
    ensures Before(a, c)
  {
    if Before(a, b) {
      BeforeTransitive(a, b, c);
    }
  }

  lemma UpsertPlaced(s: seq<Entry>, e: Entry, p: nat)
    requires Place(s, e) == p
    ensures p < |s| && SameVersion(s[p], e) ==> Upsert(s, e) == s[..p] + [e] + s[p + 1..]
    ensures p == |s| || !SameVersion(s[p], e) ==> Upsert(s, e) == s[..p] + [e] + s[p..]
  {
  }

  lemma UpsertSplit(s: seq<Entry>, e: Entry) returns (lo: seq<Entry>, mid: seq<Entry>, hi: seq<Entry>)
    requires Sorted(s)
    ensures s == lo + mid + hi && Upsert(s, e) == lo + [e] + hi
    ensures Around(lo, mid, hi, e)
  {
    hide Less, Before, Upsert, Place;
    var p := Place(s, e);
    UpsertPlaced(s, e, p);
    lo := s[..p];
    if p == |s| {
      mid, hi := [], [];
    } else {
      PastPlace(s, e, p);
      if SameVersion(s[p], e) {
        mid, hi := [s[p]], s[p + 1..];
        assert forall f :: f in hi ==> Before(e, f);
      } else {
        mid, hi := [], s[p..];
        assert forall f :: f in hi ==> Before(e, f);
      }
    }
  }

  lemma PastPlace(s: seq<Entry>, e: Entry, p: nat)
    requires Sorted(s) && p < |s| && !Before(s[p], e)
    ensures forall j :: p < j < |s| ==> Before(e, s[j])
    ensures !SameVersion(s[p], e) ==> Before(e, s[p])
  {
    hide Less, Before;
    BeforeCompares(s[p], e);
    forall j | p < j < |s|
      ensures Before(e, s[j])
    {
      assert Before(s[p], s[j]);
      BeforeFrom(e, s[p], s[j]);
    }
  }

  lemma PlaceIs(s: seq<Entry>, e: Entry, p: nat)
    requires p <= |s| && (p < |s| ==> !Before(s[p], e))
    requires forall i :: 0 <= i < p ==> Before(s[i], e)
    ensures Place(s, e) == p
  {
    hide Before;
  }

  lemma UpsertJoin(lo: seq<Entry>, mid: seq<Entry>, hi: seq<Entry>, e: Entry)
    requires Around(lo, mid, hi, e)
    ensures Upsert(lo + mid + hi, e) == lo + [e] + hi
  {
    hide Less, Before, Place;
    var s := lo + mid + hi;
    if mid != [] {
      BeforeCompares(mid[0], e);
      assert s[|lo|] == mid[0] && s[|lo| + 1..] == hi;
    } else if hi != [] {
      BeforeCompares(e, hi[0]);
      assert s[|lo|] == hi[0] && s[|lo|..] == hi;
    }
    assert forall i :: 0 <= i < |lo| ==> s[i] == lo[i] && lo[i] in lo;
    PlaceIs(s, e, |lo|);
    assert s[..|lo|] == lo;
  }

  lemma UpsertMembers(s: seq<Entry>, e: Entry)
    requires Sorted(s)
    ensures forall f :: f in Upsert(s, e) <==> f == e || (f in s && !SameVersion(f, e))
  {
    hide Less;
    var lo, mid, hi := UpsertSplit(s, e);
    forall f
      ensures f in lo + [e] + hi <==> f == e || (f in lo + mid + hi && !SameVersion(f, e))
    {
      BeforeCompares(f, e);
    }
  }

  lemma UpsertSorted(s: seq<Entry>, e: Entry)
    requires Sorted(s)
    ensures Sorted(Upsert(s, e))
  {
    hide Less;
    var lo, mid, hi := UpsertSplit(s, e);
    SortedSlices(lo, mid, hi);
    SortedConcat(lo, [e]);
    SortedConcat(lo + [e], hi) by {
      forall i, j | 0 <= i < |lo + [e]| && 0 <= j < |hi|
        ensures Before((lo + [e])[i], hi[j])
      {
        if i < |lo| {
          BeforeTransitive(lo[i], e, hi[j]);
        }
      }
    }
  }

  lemma SortedSlices(lo: seq<Entry>, mid: seq<Entry>, hi: seq<Entry>)
    requires Sorted(lo + mid + hi)
    ensures Sorted(lo) && Sorted(mid) && Sorted(hi)
  {
    var s := lo + mid + hi;
    assert forall i :: 0 <= i < |lo| ==> lo[i] == s[i];
    assert forall i :: 0 <= i < |mid| ==> mid[i] == s[|lo| + i];
    assert forall i :: 0 <= i < |hi| ==> hi[i] == s[|lo| + |mid| + i];
  }

  lemma OrderedSlices(lo: seq<Entry>, mid: seq<Entry>, hi: seq<Entry>)
    requires Ordered(lo + mid + hi)
    ensures Ordered(lo) && Ordered(mid) && Ordered(hi)
  {
    var s := lo + mid + hi;
    assert forall i :: 0 <= i < |lo| ==> lo[i] == s[i];
    assert forall i :: 0 <= i < |mid| ==> mid[i] == s[|lo| + i];
    assert forall i :: 0 <= i < |hi| ==> hi[i] == s[|lo| + |mid| + i];
  }

  lemma ForKeySame(s: seq<Entry>, k: Key)
    requires |s| <= 1
    ensures ForKey(s, k) == if s != [] && s[0].key == k then s else []
  {
  }

  lemma ForKeyConcat3(a: seq<Entry>, b: seq<Entry>, c: seq<Entry>, k: Key)
    ensures ForKey(a + b + c, k) == ForKey(a, k) + ForKey(b, k) + ForKey(c, k)
  {
    hide ForKey;
    ForKeyConcat(a + b, c, k);
    ForKeyConcat(a, b, k);
  }

  /** Writing one key leaves every other key's versions alone. */
  lemma UpsertForKey(s: seq<Entry>, e: Entry, k: Key)
    requires Sorted(s)
    ensures ForKey(Upsert(s, e), k) == if k == e.key then Upsert(ForKey(s, k), e) else ForKey(s, k)
  {
    hide Less, ForKey, Upsert;
    var lo, mid, hi := UpsertSplit(s, e);
    ForKeyConcat3(lo, mid, hi, k);
    ForKeyConcat3(lo, [e], hi, k);
    ForKeySame(mid, k);
    ForKeySame([e], k);
    ForKeyMembers(lo, k);
    ForKeyMembers(hi, k);
    if k == e.key {
      UpsertJoin(ForKey(lo, k), mid, ForKey(hi, k), e);
    }
  }
}
