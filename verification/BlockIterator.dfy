/** Walking a block: the block iterator, and the range a monotone key predicate selects. */
module BlockIterators {
  import opened Versions
  import opened Blocks

  /** The first position from i on whose entry the snapshot sees; |s| if there is none. */
  function SkipTo(s: seq<Entry>, i: nat, t: Id): (r: nat)
    requires i <= |s|
    ensures i <= r <= |s|
    ensures r < |s| ==> Visible(s[r].id, t)
    ensures forall j :: i <= j < r ==> !Visible(s[j].id, t)
    decreases |s| - i
  {
    if i < |s| && !Visible(s[i].id, t) then SkipTo(s, i + 1, t) else i
  }

  lemma SkipToFrom(s: seq<Entry>, i: nat, m: nat, t: Id)
    requires i <= |s| && i <= m <= SkipTo(s, i, t)
    ensures SkipTo(s, m, t) == SkipTo(s, i, t)
  {
  }

  class BlockIterator {
    const block: seq<Entry>
    const t: Id
    const keepAll: bool
    var idx: nat

    ghost predicate Valid()
      reads this
    {
      idx <= |block|
    }

    constructor (block: seq<Entry>, index: nat, t: Id, keepAll: bool)
      requires index <= |block|
      ensures Valid() && this.block == block && this.t == t && this.keepAll == keepAll
      ensures idx == SkipTo(block, index, t)
    {
      this.block, this.t, this.keepAll, idx := block, t, keepAll, index;
      new;
      SkipByTrancId();
    }

    /** Skip the entries the snapshot may not see. */
    method SkipByTrancId()
      requires Valid()
      modifies this
      ensures Valid() && idx == SkipTo(block, old(idx), t)
    {
      if t == 0 {
        return;
      }
      while idx < |block| && block[idx].id > t
        invariant old(idx) <= idx <= |block|
        invariant SkipTo(block, idx, t) == SkipTo(block, old(idx), t)
      {
        idx := idx + 1;
      }
    }

    predicate IsEnd()
      reads this
    {
      idx == |block|
    }

    /** Step to the next visible entry; in normal mode the rest of the current key is skipped. */
    method Next()
      requires Valid()
      modifies this
      ensures Valid() && idx >= old(idx)
      ensures old(idx) == |block| ==> idx == old(idx)
      ensures old(idx) < |block| && keepAll ==> idx == SkipTo(block, old(idx) + 1, t)
      ensures old(idx) < |block| && !keepAll ==>
                exists n :: old(idx) < n <= |block| && EndsKey(block, old(idx), n) && idx == SkipTo(block, n, t)
    {
      if idx < |block| {
        ghost var prev := idx;
        var key := block[idx].key;
        idx := idx + 1;
        if !keepAll {
          while idx < |block| && block[idx].key == key
            invariant prev < idx <= |block|
            invariant forall j :: prev <= j < idx ==> block[j].key == key
          {
            idx := idx + 1;
          }
          assert EndsKey(block, prev, idx);
        }
        SkipByTrancId();
      }
    }
  }

  /** The entries from i up to n carry one key, and n does not continue it. */
  ghost predicate EndsKey(s: seq<Entry>, i: nat, n: nat)
    requires i < |s|
  {
    && i < n <= |s|
    && (forall j :: i <= j < n ==> s[j].key == s[i].key)
    && (n < |s| ==> s[n].key != s[i].key)
  }

  /** [lo, hi) are exactly the positions whose key satisfies the predicate. */
  ghost predicate InRange(s: seq<Entry>, pred: Key -> int, lo: nat, hi: nat) {
    lo <= hi <= |s| && forall j :: 0 <= j < |s| ==> (pred(s[j].key) == 0 <==> lo <= j < hi)
  }

  lemma KeysFalling(s: seq<Entry>, pred: Key -> int)
    requires Ordered(s) && Falling(pred)
    ensures forall i, j :: 0 <= i <= j < |s| ==>
                             && (pred(s[i].key) <= 0 ==> pred(s[j].key) <= 0)
                             && (pred(s[i].key) < 0 ==> pred(s[j].key) < 0)
  {
    hide Less, Ordered;
    forall i, j | 0 <= i <= j < |s|
      ensures (pred(s[i].key) <= 0 ==> pred(s[j].key) <= 0) && (pred(s[i].key) < 0 ==> pred(s[j].key) < 0)
    {
      SortedKeys(s, i, j);
    }
  }

  /** Two binary searches give the range; each end then moves past entries the snapshot may not see. */
  method PredicateIters(s: seq<Entry>, t: Id, pred: Key -> int)
    returns (begin: BlockIterator?, end: BlockIterator?, ghost lo: nat, ghost hi: nat)
    requires Ordered(s) && Falling(pred)
    ensures InRange(s, pred, lo, hi)
    ensures begin == null <==> lo == hi
    ensures begin != null ==>
              && end != null && fresh(begin) && fresh(end) && begin != end
              && begin.block == end.block == s && begin.t == t && !begin.keepAll
              && begin.idx == SkipTo(s, lo, t) && end.idx == SkipTo(s, hi, t)
  {
    hide Less, Ordered, Falling;
    KeysFalling(s, pred);
    begin, end, lo, hi := null, null, 0, 0;
    if s == [] {
      return;
    }
    var left, right := 0, |s| - 1;
    while left <= right
      invariant 0 <= left <= right + 1 <= |s|
      invariant forall j :: 0 <= j < left ==> pred(s[j].key) > 0
      invariant forall j :: right < j < |s| ==> pred(s[j].key) <= 0
    {
      var mid := left + (right - left) / 2;
      if pred(s[mid].key) <= 0 {
        right := mid - 1;
      } else {
        left := mid + 1;
      }
    }
    if left >= |s| || pred(s[left].key) != 0 {
      return;
    }
    var first := left;
    right := |s| - 1;
    while left <= right
      invariant first <= left <= right + 1 <= |s|
      invariant forall j :: first <= j < left ==> pred(s[j].key) >= 0
      invariant forall j :: right < j < |s| ==> pred(s[j].key) < 0
    {
      var mid := left + (right - left) / 2;
      if pred(s[mid].key) < 0 {
        right := mid - 1;
      } else {
        left := mid + 1;
      }
    }
    lo, hi := first, left;
    begin := new BlockIterator(s, first, t, false);
    end := new BlockIterator(s, left, t, false);
  }

  /** Position j starts a key. */
  ghost predicate Boundary(s: seq<Entry>, j: nat) {
    j <= |s| && (0 < j < |s| ==> s[j - 1].key != s[j].key)
  }

  /** The first visible position after a key boundary is what a snapshot read of its key returns. */
  lemma FirstAfterBoundary(s: seq<Entry>, j: nat, t: Id)
    requires Ordered(s) && Boundary(s, j) && SkipTo(s, j, t) < |s|
    ensures First(s, s[SkipTo(s, j, t)].key, t) == Some(s[SkipTo(s, j, t)])
  {
    hide Less, First, Ordered, SkipTo;
    var i := SkipTo(s, j, t);
    forall m | 0 <= m < i
      ensures !Hit(s[m], s[i].key, t)
    {
      if m < j && s[m].key == s[i].key {
        SameKeyBetween(s, m, i, j - 1);
        SameKeyBetween(s, m, i, j);
      }
    }
    FirstAt(s, i, s[i].key, t);
  }

  /** What the walk owes for the positions in [lo, j): the entries a snapshot read would return. */
  ghost predicate Emitted(out: seq<Entry>, s: seq<Entry>, lo: nat, j: nat, t: Id)
    requires j <= |s|
  {
    forall e :: e in out <==> exists m :: lo <= m < j && s[m] == e && First(s, e.key, t) == Some(e)
  }

  lemma EmitStep(out: seq<Entry>, s: seq<Entry>, lo: nat, j: nat, n: nat, t: Id)
    requires Ordered(s) && Boundary(s, j) && lo <= j && SkipTo(s, j, t) < |s|
    requires EndsKey(s, SkipTo(s, j, t), n) && Emitted(out, s, lo, j, t)
    ensures Emitted(out + [s[SkipTo(s, j, t)]], s, lo, n, t)
  {
    hide Less, First, Ordered, SkipTo;
    var i := SkipTo(s, j, t);
    FirstAfterBoundary(s, j, t);
    forall e | e in out + [s[i]]
      ensures exists m :: lo <= m < n && s[m] == e && First(s, e.key, t) == Some(e)
    {
      if e in out {
        var m :| lo <= m < j && s[m] == e && First(s, e.key, t) == Some(e);
      }
    }
    forall m | lo <= m < n && First(s, s[m].key, t) == Some(s[m])
      ensures s[m] in out + [s[i]]
    {
      if m < j {
      } else if i < m {
        SortedKeys(s, i, m);
      }
    }
  }

  /** Keys already emitted stand strictly before position j. */
  lemma BoundaryLess(s: seq<Entry>, m: nat, i: nat, j: nat)
    requires Ordered(s) && m < j <= i < |s| && Boundary(s, j)
    ensures Less(s[m].key, s[i].key)
  {
    hide Ordered;
    SortedKeys(s, m, i);
    if s[m].key == s[i].key {
      SameKeyBetween(s, m, i, j - 1);
      SameKeyBetween(s, m, i, j);
    }
  }

  /**
   Stepping from the returned begin reaches the returned end exactly. It emits, in strictly rising
   key order, exactly the version a snapshot read returns for each key that satisfies the
   predicate and has a visible version.
   */
  method WalkRange(s: seq<Entry>, t: Id, pred: Key -> int) returns (out: seq<Entry>)
    requires Ordered(s) && Falling(pred)
    ensures forall e :: e in out <==> pred(e.key) == 0 && First(s, e.key, t) == Some(e)
    ensures forall i, j :: 0 <= i < j < |out| ==> Less(out[i].key, out[j].key)
  {
    hide Less, First, Ordered, SkipTo, Falling;
    out := [];
    var it, end, lo, hi := PredicateIters(s, t, pred);
    if it == null {
      return;
    }
    ghost var j := lo;
    while it.idx != end.idx
      invariant it.Valid() && it.block == s && it.t == t && !it.keepAll && end.idx == SkipTo(s, hi, t)
      invariant lo <= j <= hi && Boundary(s, j) && it.idx == SkipTo(s, j, t)
      invariant Emitted(out, s, lo, j, t)
      invariant forall a, b :: 0 <= a < b < |out| ==> Less(out[a].key, out[b].key)
      decreases |s| - it.idx
    {
      if it.idx >= hi {
        SkipToFrom(s, j, hi, t);
        assert false;
      }
      ghost var i := it.idx;
      forall e | e in out
        ensures Less(e.key, s[i].key)
      {
        var m :| lo <= m < j && s[m] == e && First(s, e.key, t) == Some(e);
        BoundaryLess(s, m, i, j);
      }
      ghost var before := out;
      out := out + [s[it.idx]];
      it.Next();
      ghost var n: nat :| EndsKey(s, i, n) && it.idx == SkipTo(s, n, t);
      EmitStep(before, s, lo, j, n, t);
      assert hi < |s| ==> s[hi].key != s[i].key;
      j := n;
    }
    SameEnd(s, j, hi, t, lo, out);
  }

  /** Nothing between a boundary and the range end is visible once both skip to the same place. */
  lemma SameEnd(s: seq<Entry>, j: nat, hi: nat, t: Id, lo: nat, out: seq<Entry>)
    requires j <= hi <= |s| && SkipTo(s, j, t) == SkipTo(s, hi, t)
    requires Emitted(out, s, lo, j, t)
    ensures Emitted(out, s, lo, hi, t)
  {
    hide First;
    forall m | j <= m < hi
      ensures First(s, s[m].key, t) != Some(s[m])
    {
      assert !Visible(s[m].id, t);
    }
  }
}
