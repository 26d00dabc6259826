/**
 Searching one block. A block is given by its entry list: position i is the entry found at
 offsets[i]. Its byte layout is the business of BlockCodec.
 */
module Blocks {
  import opened Versions

  /** The versions of the key stand by falling id: every key's do, but for markers in a merged table. */
  ghost predicate IdsFall(s: seq<Entry>, key: Key) {
    key != [] || Sorted(s)
  }

  /** Keys left of position i are at most its key, keys right of it at least. */
  lemma SortedKeys(s: seq<Entry>, i: nat, j: nat)
    requires Ordered(s) && i <= j < |s|
    ensures AtMost(s[i].key, s[j].key)
    ensures i < j && s[i].key == s[j].key && IdsFall(s, s[i].key) ==> s[i].id >= s[j].id
  {
    if i < j {
      assert InOrder(s[i], s[j]);
      assert Sorted(s) ==> Before(s[i], s[j]);
      LessTotal(s[i].key, s[j].key);
    }
  }

  /** Equal keys sit side by side. */
  lemma SameKeyBetween(s: seq<Entry>, i: nat, j: nat, m: nat)
    requires Ordered(s) && i <= m <= j < |s| && s[i].key == s[j].key
    ensures s[m].key == s[i].key
  {
    SortedKeys(s, i, m);
    SortedKeys(s, m, j);
    LessTotal(s[i].key, s[m].key);
  }

  lemma OtherKeyLeft(s: seq<Entry>, p: nat, i: nat)
    requires Ordered(s) && p <= i < |s|
    requires p > 0 ==> s[p - 1].key != s[i].key
    ensures forall j :: 0 <= j < p ==> s[j].key != s[i].key
  {
    forall j | 0 <= j < p
      ensures s[j].key != s[i].key
    {
      if s[j].key == s[i].key {
        SameKeyBetween(s, j, i, p - 1);
      }
    }
  }

  lemma OtherKeyRight(s: seq<Entry>, i: nat, n: nat)
    requires Ordered(s) && i < n <= |s|
    requires n < |s| ==> s[n].key != s[i].key
    ensures forall j :: n <= j < |s| ==> s[j].key != s[i].key
  {
    forall j | n <= j < |s|
      ensures s[j].key != s[i].key
    {
      if s[j].key == s[i].key {
        SameKeyBetween(s, i, j, n);
      }
    }
  }

  /** From any entry of a key, move to the first entry of that key the snapshot sees; -1 if none. */
  method AdjustIdx(s: seq<Entry>, idx: nat, t: Id) returns (r: int)
    requires Ordered(s)
    ensures -1 <= r < |s| && (r >= 0 ==> idx < |s| && s[r].key == s[idx].key)
    ensures idx >= |s| ==> r == -1
    ensures idx < |s| && IdsFall(s, s[idx].key) ==>
              if First(s, s[idx].key, t).None? then r == -1 else r >= 0 && First(s, s[idx].key, t) == Some(s[r])
  {
    hide Less, First, Sorted, Ordered;
    if idx >= |s| {
      return -1;
    }
    var key := s[idx].key;
    if t == 0 || s[idx].id <= t {
      var prev := idx;
      while prev > 0 && s[prev - 1].key == key
        invariant 0 <= prev <= idx && Hit(s[prev], key, t)
      {
        if t != 0 && s[prev - 1].id > t {
          forall j | 0 <= j < prev && IdsFall(s, key)
            ensures !Hit(s[j], key, t)
          {
            if s[j].key == key { SortedKeys(s, j, prev - 1); }
          }
          if IdsFall(s, key) { FirstAt(s, prev, key, t); }
          return prev;
        }
        prev := prev - 1;
      }
      OtherKeyLeft(s, prev, idx);
      FirstAt(s, prev, key, t);
      return prev;
    } else {
      assert IdsFall(s, key) ==> forall j :: 0 <= j <= idx ==> !Hit(s[j], key, t) by {
        forall j | 0 <= j <= idx && IdsFall(s, key)
          ensures !Hit(s[j], key, t)
        {
          if s[j].key == key { SortedKeys(s, j, idx); }
        }
      }
      var next := idx + 1;
      while next < |s| && s[next].key == key
        invariant idx < next <= |s|
        invariant IdsFall(s, key) ==> forall j :: 0 <= j < next ==> !Hit(s[j], key, t)
      {
        if s[next].id <= t {
          if IdsFall(s, key) { FirstAt(s, next, key, t); }
          return next;
        }
        next := next + 1;
      }
      OtherKeyRight(s, idx, next);
      if IdsFall(s, key) { FirstNone(s, key, t); }
      return -1;
    }
  }

  /** Binary search for a key, then adjustment to the version the snapshot sees. */
  method GetIdxBinary(s: seq<Entry>, key: Key, t: Id) returns (r: Option<nat>)
    requires Ordered(s)
    ensures r.Some? ==> r.value < |s| && s[r.value].key == key
    ensures IdsFall(s, key) ==>
              (r.None? <==> First(s, key, t).None?) && (r.Some? ==> First(s, key, t) == Some(s[r.value]))
  {
    hide Less, First, Sorted, Ordered;
    var left, right := 0, |s| - 1;
    while left <= right
      invariant 0 <= left && right < |s|
      invariant forall j :: 0 <= j < |s| && s[j].key == key ==> left <= j <= right
    {
      var mid := left + (right - left) / 2;
      if s[mid].key == key {
        var idx := AdjustIdx(s, mid, t);
        return if idx == -1 then None else Some(idx);
      }
      NarrowSearch(s, mid, key);
      if Less(s[mid].key, key) {
        left := mid + 1;
      } else {
        right := mid - 1;
      }
    }
    FirstNone(s, key, t);
    r := None;
  }

  lemma NarrowSearch(s: seq<Entry>, mid: nat, key: Key)
    requires Ordered(s) && mid < |s| && s[mid].key != key
    ensures Less(s[mid].key, key) ==> forall j :: 0 <= j <= mid ==> s[j].key != key
    ensures !Less(s[mid].key, key) ==> forall j :: mid <= j < |s| ==> s[j].key != key
  {
    LessTotal(s[mid].key, key);
    forall j | 0 <= j < |s| && s[j].key == key
      ensures Less(s[mid].key, key) ==> j > mid
      ensures !Less(s[mid].key, key) ==> j < mid
    {
      if j <= mid { SortedKeys(s, j, mid); } else { SortedKeys(s, mid, j); }
    }
  }
}
