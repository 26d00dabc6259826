/** Lists of ids in order: what sorting and ordered sets guarantee. */
module IdLists {
  ghost predicate Ascending(s: seq<nat>) {
    forall i, j :: 0 <= i < j < |s| ==> s[i] < s[j]
  }

  ghost predicate DescendingIds(s: seq<nat>) {
    forall i, j :: 0 <= i < j < |s| ==> s[i] > s[j]
  }

  ghost predicate Distinct(s: seq<nat>) {
    forall i, j :: 0 <= i < j < |s| ==> s[i] != s[j]
  }

  function InsertId(x: nat, s: seq<nat>): seq<nat> {
    if s == [] || x <= s[0] then [x] + s else [s[0]] + InsertId(x, s[1..])
  }

  /** std::sort on a list of ids. */
  function SortIds(s: seq<nat>): seq<nat> {
    if s == [] then [] else InsertId(s[0], SortIds(s[1..]))
  }

  lemma {:induction false} SortAscending(s: seq<nat>)
    requires Ascending(s)
    ensures SortIds(s) == s
  {
    if s != [] {
      SortAscending(s[1..]);
      assert s == [s[0]] + s[1..];
      assert |s| > 1 ==> s[0] < s[1];
    }
  }

  lemma PrependAscending(x: nat, s: seq<nat>)
    requires Ascending(s) && forall y :: y in s ==> x < y
    ensures Ascending([x] + s) && forall y :: y in [x] + s <==> y == x || y in s
  {
    assert forall i :: 0 <= i < |s| ==> s[i] in s;
  }

  lemma {:induction false} InsertIdSorts(x: nat, s: seq<nat>)
    requires Ascending(s) && x !in s
    ensures Ascending(InsertId(x, s)) && forall y :: y in InsertId(x, s) <==> y == x || y in s
  {
    if s != [] && x > s[0] {
      HeadAndTail(s);
      InsertIdSorts(x, s[1..]);
      PrependAscending(s[0], InsertId(x, s[1..]));
    } else {
      assert forall i :: 0 <= i < |s| ==> s[i] in s;
      PrependAscending(x, s);
    }
  }

  lemma HeadAndTail(s: seq<nat>)
    requires s != []
    ensures s == [s[0]] + s[1..] && forall y :: y in s <==> y == s[0] || y in s[1..]
    ensures Ascending(s) ==> Ascending(s[1..]) && forall y :: y in s[1..] ==> s[0] < y
    ensures Distinct(s) ==> Distinct(s[1..]) && s[0] !in s[1..]
  {
    var t := s[1..];
    assert s == [s[0]] + t;
  }

  lemma {:induction false} SortIdsSorts(s: seq<nat>)
    requires Distinct(s)
    ensures Ascending(SortIds(s)) && forall y :: y in SortIds(s) <==> y in s
  {
    if s != [] {
      HeadAndTail(s);
      SortIdsSorts(s[1..]);
      InsertIdSorts(s[0], SortIds(s[1..]));
    }
  }

  /** A set of ids has one ascending listing. */
  lemma {:induction false} AscendingUnique(a: seq<nat>, b: seq<nat>)
    requires Ascending(a) && Ascending(b) && forall y :: y in a <==> y in b
    ensures a == b
  {
    if a == [] {
      assert forall i :: 0 <= i < |b| ==> b[i] in b;
    } else {
      assert a[0] in b;
      HeadAndTail(a);
      HeadAndTail(b);
      AscendingUnique(a[1..], b[1..]);
    }
  }
}
