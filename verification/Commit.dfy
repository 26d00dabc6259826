/** What a commit does to the layout: a transaction's writes and its marker enter the current table. */
module Commits {
  import opened Versions
  import opened Histories

  function UpsertAll(s: seq<Entry>, es: seq<Entry>): seq<Entry> {
    if es == [] then s else Upsert(UpsertAll(s, es[..|es| - 1]), es[|es| - 1])
  }

  lemma UpsertAllUnfold(s: seq<Entry>, es: seq<Entry>)
    ensures es == [] ==> UpsertAll(s, es) == s
    ensures es != [] ==> UpsertAll(s, es) == Upsert(UpsertAll(s, es[..|es| - 1]), es[|es| - 1])
  {
  }

  ghost predicate Replaces(es: seq<Entry>, f: Entry) {
    exists e :: e in es && SameVersion(e, f)
  }

  /** The table afterwards: sorted, the new versions, and the old ones they do not replace. */
  lemma {:induction false} UpsertAllMembers(s: seq<Entry>, es: seq<Entry>)
    requires Sorted(s) && DistinctVersions(es)
    ensures Sorted(UpsertAll(s, es))
    ensures forall f :: f in UpsertAll(s, es) <==> f in es || (f in s && !Replaces(es, f))
  {
    hide Sorted, Upsert;
    if es != [] {
      var n := |es| - 1;
      var init, e := es[..n], es[n];
      UpsertAllMembers(s, init);
      UpsertSorted(UpsertAll(s, init), e);
      UpsertMembers(UpsertAll(s, init), e);
      assert es == init + [e];
      forall f
        ensures f in UpsertAll(s, es) <==> f in es || (f in s && !Replaces(es, f))
      {
        ReplacesLast(init, e, f);
        if f in init {
          var i :| 0 <= i < n && es[i] == f;
        }
      }
    }
  }

  lemma ReplacesLast(init: seq<Entry>, e: Entry, f: Entry)
    ensures Replaces(init + [e], f) <==> Replaces(init, f) || SameVersion(e, f)
  {
    if Replaces(init, f) {
      var g :| g in init && SameVersion(g, f);
      assert g in init + [e];
    }
    assert e in init + [e];
  }

  /**
   Key by key, the marker key included, a commit keeps a key's versions in age order exactly when
   no older place holds a version of it at or above the transaction's.
   */
  lemma CommitKeepsKey(cur: seq<Entry>, older: seq<Entry>, es: seq<Entry>, k: Key)
    requires Sorted(cur) && DistinctVersions(es) && Descending(ForKey(cur + older, k))
    ensures Descending(ForKey(UpsertAll(cur, es) + older, k)) <==>
            forall e, f :: e in es && f in older && e.key == k && f.key == k ==> Supersedes(e, f)
  {
    hide ForKey, Descending, Sorted, UpsertAll;
    UpsertAllMembers(cur, es);
    KeyOrder(cur, older, k);
    KeyOrder(UpsertAll(cur, es), older, k);
    SortedForKey(UpsertAll(cur, es), k);
  }

  lemma OrderedFor(s: seq<Entry>, k: Key)
    requires AgeOrdered(s) && k != []
    ensures Descending(ForKey(s, k))
  {
  }

  lemma CommitKeepsAgeOrder(cur: seq<Entry>, older: seq<Entry>, es: seq<Entry>)
    requires Sorted(cur) && DistinctVersions(es) && AgeOrdered(cur + older)
    ensures AgeOrdered(UpsertAll(cur, es) + older) <==> forall e :: e in es ==> Fresh(older, e)
  {
    hide Sorted, UpsertAll, ForKey, Descending;
    forall k: Key | k != []
      ensures Descending(ForKey(UpsertAll(cur, es) + older, k)) <==>
              forall e, f :: e in es && f in older && e.key == k && f.key == k ==> Supersedes(e, f)
    {
      OrderedFor(cur + older, k);
      CommitKeepsKey(cur, older, es, k);
    }
    if AgeOrdered(UpsertAll(cur, es) + older) {
      forall e | e in es && e.key != []
        ensures Fresh(older, e)
      {
        OrderedFor(UpsertAll(cur, es) + older, e.key);
      }
    }
  }

  /** The abstract store gains exactly the new versions. */
  function AddAll(h: History, es: seq<Entry>): History {
    if es == [] then h else AddAll(h, es[..|es| - 1])[(es[|es| - 1].key, es[|es| - 1].id) := es[|es| - 1].value]
  }

  lemma AddAllUnfold(h: History, es: seq<Entry>)
    ensures es == [] ==> AddAll(h, es) == h
    ensures es != [] ==> var e := es[|es| - 1]; AddAll(h, es) == AddAll(h, es[..|es| - 1])[(e.key, e.id) := e.value]
  {
  }

  lemma {:induction false} UpsertAllSorted(s: seq<Entry>, es: seq<Entry>)
    requires Sorted(s)
    ensures Sorted(UpsertAll(s, es))
  {
    hide Sorted, Upsert;
    if es != [] {
      UpsertAllSorted(s, es[..|es| - 1]);
      UpsertSorted(UpsertAll(s, es[..|es| - 1]), es[|es| - 1]);
    }
  }

  lemma {:induction false} UpsertAllPart(cur: seq<Entry>, es: seq<Entry>)
    requires Sorted(cur)
    ensures multiset(UpsertAll(cur, es)) <= multiset(cur) + multiset(es)
  {
    hide Upsert, Sorted, UpsertAll;
    UpsertAllUnfold(cur, es);
    if es != [] {
      var init, e := es[..|es| - 1], es[|es| - 1];
      UpsertAllPart(cur, init);
      UpsertAllSorted(cur, init);
      UpsertPart(UpsertAll(cur, init), e);
      assert es == init + [e];
    }
  }

  lemma {:induction false} CommitRepresents(cur: seq<Entry>, older: seq<Entry>, es: seq<Entry>, h: History)
    requires Sorted(cur) && Represents(cur + older, h) && forall e :: e in es ==> Fresh(older, e)
    ensures Represents(UpsertAll(cur, es) + older, AddAll(h, es))
  {
    hide Sorted, UpsertAll, AddAll, Represents, Fresh, Upsert;
    UpsertAllUnfold(cur, es);
    AddAllUnfold(h, es);
    if es != [] {
      var init, e := es[..|es| - 1], es[|es| - 1];
      CommitRepresents(cur, older, init, h);
      UpsertAllSorted(cur, init);
      WriteRepresents(UpsertAll(cur, init), older, e, AddAll(h, init));
    }
  }
}
