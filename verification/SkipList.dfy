/**
 The in-memory table: a skip list whose nodes carry one forward and one backward link per
 level. Coin flips are nondeterministic choices, so every contract holds for each outcome.
 */
module SkipLists {
  import opened Versions

  class Node {
    const key: Key
    const id: Id
    var value: Value
    var forward: seq<Node?>
    var backward: seq<Node?>

    constructor (k: Key, v: Value, level: nat, i: Id)
      ensures key == k && value == v && id == i
      ensures forward == seq(level, _ => null) && backward == seq(level, _ => null)
    {
      key, value, id := k, v, i;
      forward, backward := seq(level, _ => null), seq(level, _ => null);
    }
  }

  /** The node's place is before that of (k, id): key ascending, id descending. */
  predicate Precedes(n: Node, k: Key, id: Id) {
    Less(n.key, k) || (n.key == k && n.id > id)
  }

  ghost predicate NodesSorted(c: seq<Node>) {
    forall i, j :: 0 <= i < j < |c| ==> Precedes(c[i], c[j].key, c[j].id)
  }

  /** The node before position p of level list c; the head stands before position 0. */
  ghost function PrevAt(head: Node, c: seq<Node>, p: nat): Node
    requires p <= |c|
  {
    if p == 0 then head else c[p - 1]
  }

  ghost function NodeAt(c: seq<Node>, p: nat): Node? {
    if p < |c| then c[p] else null
  }

  /** At level i the forward links run from head through c to null. */
  ghost predicate Forward(head: Node, c: seq<Node>, i: nat)
    reads head, c
  {
    && i < |head.forward|
    && head.forward[i] == NodeAt(c, 0)
    && (forall j {:trigger c[j].forward} ::
          0 <= j < |c| ==> i < |c[j].forward| && c[j].forward[i] == NodeAt(c, j + 1))
  }

  /** At level i the backward links run from the end of c to head. */
  ghost predicate Backward(head: Node, c: seq<Node>, i: nat)
    reads c
  {
    forall j {:trigger c[j].backward} ::
      0 <= j < |c| ==> i < |c[j].backward| && c[j].backward[i] == PrevAt(head, c, j)
  }

  ghost function Inserted(c: seq<Node>, p: nat, n: Node): seq<Node>
    requires p <= |c|
  {
    c[..p] + [n] + c[p..]
  }

  /** Every level is sorted, avoids the head, and is contained in the levels below it. */
  ghost predicate Nested(lists: seq<seq<Node>>, head: Node) {
    && (forall i :: 0 <= i < |lists| ==> NodesSorted(lists[i]) && head !in lists[i])
    && (forall i, j, n :: 0 <= i <= j < |lists| && n in lists[j] ==> n in lists[i])
  }

  /** p splits c into the nodes that precede (k, id) and those that do not. */
  ghost predicate Slot(c: seq<Node>, p: nat, k: Key, id: Id) {
    && p <= |c|
    && (forall j :: 0 <= j < p ==> Precedes(c[j], k, id))
    && (forall j :: p <= j < |c| ==> !Precedes(c[j], k, id))
  }

  /** a arises from b by leaving nodes out. */
  predicate Subsequence(a: seq<Node>, b: seq<Node>) {
    a == [] || (b != [] && if a[0] == b[0] then Subsequence(a[1..], b[1..]) else Subsequence(a, b[1..]))
  }

  /** Sorted lists, one contained in the other: then it is a subsequence. */
  lemma {:induction false} ContainedIsSubsequence(a: seq<Node>, b: seq<Node>)
    requires NodesSorted(a) && NodesSorted(b) && forall n :: n in a ==> n in b
    ensures Subsequence(a, b)
    decreases |b|
  {
    hide Less;
    if a != [] {
      var x := a[0];
      assert x in b;
      SortedTail(b);
      SortedTail(a);
      if x == b[0] {
        ContainedIsSubsequence(a[1..], b[1..]);
      } else {
        assert x in b[1..];
        PrecedesAsymmetric(b[0], x);
        assert forall n :: n in a ==> n == x || Precedes(x, n.key, n.id);
        ContainedIsSubsequence(a, b[1..]);
      }
    }
  }

  lemma SortedTail(c: seq<Node>)
    requires c != [] && NodesSorted(c)
    ensures NodesSorted(c[1..]) && (forall n :: n in c <==> n == c[0] || n in c[1..])
    ensures forall n :: n in c[1..] ==> Precedes(c[0], n.key, n.id) && n != c[0]
  {
    hide Less;
    assert c == [c[0]] + c[1..];
    forall n | n in c[1..]
      ensures Precedes(c[0], n.key, n.id) && n != c[0]
    {
      var j :| 0 <= j < |c[1..]| && c[1..][j] == n;
      assert c[j + 1] == n;
      PrecedesAsymmetric(c[0], n);
    }
  }

  lemma PrecedesAsymmetric(a: Node, b: Node)
    requires Precedes(a, b.key, b.id)
    ensures a != b && !Precedes(b, a.key, a.id)
  {
    LessTotal(a.key, b.key);
  }

  lemma PrecedesTransitive(a: Node, b: Node, k: Key, id: Id)
    requires Precedes(a, b.key, b.id) && Precedes(b, k, id)
    ensures Precedes(a, k, id)
  {
    if Less(a.key, b.key) && Less(b.key, k) {
      LessTransitive(a.key, b.key, k);
    }
  }

  lemma FoundSlot(c: seq<Node>, p: nat, k: Key, id: Id)
    requires NodesSorted(c) && p <= |c|
    requires p > 0 ==> Precedes(c[p - 1], k, id)
    requires p < |c| ==> !Precedes(c[p], k, id)
    ensures Slot(c, p, k, id)
  {
    forall j | 0 <= j < p
      ensures Precedes(c[j], k, id)
    {
      if j < p - 1 { PrecedesTransitive(c[j], c[p - 1], k, id); }
    }
    forall j | p <= j < |c|
      ensures !Precedes(c[j], k, id)
    {
      if j > p && Precedes(c[j], k, id) { PrecedesTransitive(c[p], c[j], k, id); }
    }
  }

  lemma InsertedSorted(c: seq<Node>, p: nat, n: Node)
    requires NodesSorted(c) && Slot(c, p, n.key, n.id)
    requires p < |c| ==> !(c[p].key == n.key && c[p].id == n.id)
    ensures NodesSorted(Inserted(c, p, n))
  {
    forall j | p <= j < |c|
      ensures Precedes(n, c[j].key, c[j].id)
    {
      LessTotal(n.key, c[p].key);
      if p < j { PrecedesTransitive(n, c[p], c[j].key, c[j].id); }
    }
  }

  /** A node list that lacks the version (k, id) at its slot lacks it everywhere. */
  lemma NoTwin(c: seq<Node>, p: nat, k: Key, id: Id)
    requires NodesSorted(c) && Slot(c, p, k, id)
    requires p < |c| ==> !(c[p].key == k && c[p].id == id)
    ensures forall o :: o in c ==> !(o.key == k && o.id == id)
  {
    forall o | o in c
      ensures !(o.key == k && o.id == id)
    {
      var j :| 0 <= j < |c| && c[j] == o;
      LessTotal(o.key, k);
      if j > p {
        assert Precedes(c[p], c[j].key, c[j].id);
      }
    }
  }

  /** Inserting n at its slots in the lowest l levels keeps the levels nested. */
  lemma NestedInsert(old': seq<seq<Node>>, lists: seq<seq<Node>>, head: Node, n: Node, pos: seq<nat>, l: nat)
    requires Nested(old', head) && n != head && 1 <= l <= |lists| == |old'| == |pos|
    requires forall k :: 0 <= k < l ==> Slot(old'[k], pos[k], n.key, n.id) && lists[k] == Inserted(old'[k], pos[k], n)
    requires forall k :: l <= k < |lists| ==> lists[k] == old'[k]
    requires forall o :: o in old'[0] ==> !(o.key == n.key && o.id == n.id)
    ensures Nested(lists, head)
    ensures forall o :: o in lists[0] <==> o == n || o in old'[0]
  {
    hide Less, NodesSorted;
    forall k | 0 <= k < |lists|
      ensures NodesSorted(lists[k]) && head !in lists[k]
      ensures forall o :: o in lists[k] <==> o in old'[k] || (k < l && o == n)
    {
      if k < l {
        assert forall o :: o in old'[k] ==> o in old'[0];
        InsertedSorted(old'[k], pos[k], n);
      }
    }
  }

  ghost predicate Distinct(c: seq<Node>) {
    forall i, j :: 0 <= i < j < |c| ==> c[i] != c[j]
  }

  lemma SortedDistinct(c: seq<Node>)
    requires NodesSorted(c)
    ensures Distinct(c)
  {
    forall i, j | 0 <= i < j < |c|
      ensures c[i] != c[j]
    {
      LessTotal(c[i].key, c[j].key);
    }
  }

  /** Two link rows that differ at level l at most. */
  ghost predicate Agree(a: seq<Node?>, b: seq<Node?>, l: nat) {
    |a| == |b| && forall k :: 0 <= k < |a| && k != l ==> a[k] == b[k]
  }

  lemma AgreeUpdate(a: seq<Node?>, l: nat, x: Node?)
    ensures Agree(a, a, l)
    ensures l < |a| ==> Agree(a[l := x], a, l)
  {
  }

  /** A lane is the head together with the nodes of one level. */
  datatype Lane = Lane(head: Node, list: seq<Node>)

  twostate lemma SplicedForward(lane: Lane, new n: Node, new i: nat, new p: nat)
    requires var Lane(head, c) := lane;
             && old(Forward(head, c, i)) && Distinct(c)
             && n !in c && n != head && head !in c && p <= |c|
             && i < |n.forward| && n.forward[i] == NodeAt(c, p)
             && PrevAt(head, c, p).forward == old(PrevAt(head, c, p).forward)[i := n]
             && (p > 0 ==> head.forward == old(head.forward))
             && (forall j {:trigger c[j].forward} :: 0 <= j < |c| && j != p - 1 ==> c[j].forward == old(c[j].forward))
    ensures Forward(lane.head, Inserted(lane.list, p, n), i)
  {
    var Lane(head, c) := lane;
    var d := Inserted(c, p, n);
    forall j | 0 <= j < |d|
      ensures i < |d[j].forward| && d[j].forward[i] == NodeAt(d, j + 1)
    {
      if j < p { assert d[j] == c[j]; } else if j > p { assert d[j] == c[j - 1]; }
    }
  }

  twostate lemma SplicedBackward(lane: Lane, new n: Node, new i: nat, new p: nat)
    requires var Lane(head, c) := lane;
             && old(Backward(head, c, i)) && Distinct(c)
             && n !in c && p <= |c|
             && i < |n.backward| && n.backward[i] == PrevAt(head, c, p)
             && (p < |c| ==> c[p].backward == old(c[p].backward)[i := n])
             && (forall j {:trigger c[j].backward} :: 0 <= j < |c| && j != p ==> c[j].backward == old(c[j].backward))
    ensures Backward(lane.head, Inserted(lane.list, p, n), i)
  {
    var Lane(head, c) := lane;
    var d := Inserted(c, p, n);
    forall j | 0 <= j < |d|
      ensures i < |d[j].backward| && d[j].backward[i] == PrevAt(head, d, j)
    {
      if j < p { assert d[j] == c[j]; } else if j > p { assert d[j] == c[j - 1]; }
    }
  }

  /** Splice n into level i between prev and its successor. */
  method Link(head: Node, n: Node, prev: Node, i: nat, ghost c: seq<Node>, ghost p: nat)
    requires Forward(head, c, i) && Backward(head, c, i) && Distinct(c)
    requires i < |n.forward| && i < |n.backward|
    requires n !in c && n != head && head !in c
    requires p <= |c| && prev == PrevAt(head, c, p)
    modifies n`forward, n`backward, prev`forward, (if p < |c| then {c[p]} else {})`backward
    ensures n.forward == old(n.forward)[i := NodeAt(c, p)]
    ensures n.backward == old(n.backward)[i := prev]
    ensures prev.forward == old(prev.forward)[i := n]
    ensures p < |c| ==> c[p].backward == old(c[p].backward)[i := n]
    ensures Forward(head, Inserted(c, p, n), i) && Backward(head, Inserted(c, p, n), i)
  {
    hide Inserted;
    var next := prev.forward[i];
    assert next == NodeAt(c, p);
    n.forward := n.forward[i := next];
    if next != null {
      next.backward := next.backward[i := n];
    }
    prev.forward := prev.forward[i := n];
    n.backward := n.backward[i := prev];
    SplicedForward(Lane(head, c), n, i, p);
    SplicedBackward(Lane(head, c), n, i, p);
  }

  ghost function EntriesOf(c: seq<Node>): (s: seq<Entry>)
    reads c
    ensures |s| == |c|
    ensures forall j :: 0 <= j < |c| ==> s[j] == Entry(c[j].key, c[j].value, c[j].id)
  {
    seq(|c|, j requires 0 <= j < |c| reads c => Entry(c[j].key, c[j].value, c[j].id))
  }

  /** The byte count size_bytes tracks: key, value and an eight-byte id per version. */
  function SizeOf(s: seq<Entry>): nat {
    if s == [] then 0 else |s[0].key| + |s[0].value| + 8 + SizeOf(s[1..])
  }

  lemma {:induction false} SizeConcat(a: seq<Entry>, b: seq<Entry>)
    ensures SizeOf(a + b) == SizeOf(a) + SizeOf(b)
  {
    if a == [] {
      assert a + b == b;
    } else {
      SizeConcat(a[1..], b);
      assert (a + b)[1..] == a[1..] + b;
    }
  }

  lemma SizeOfUpsert(lo: seq<Entry>, mid: seq<Entry>, hi: seq<Entry>, e: Entry)
    requires |mid| <= 1
    ensures SizeOf(lo + mid + hi) + SizeOf([e]) == SizeOf(lo + [e] + hi) + SizeOf(mid)
    ensures SizeOf([e]) == |e.key| + |e.value| + 8 && SizeOf([]) == 0
  {
    SizeConcat(lo + mid, hi);
    SizeConcat(lo, mid);
    SizeConcat(lo + [e], hi);
    SizeConcat(lo, [e]);
  }

  lemma EntriesConcat(a: seq<Node>, b: seq<Node>)
    ensures EntriesOf(a + b) == EntriesOf(a) + EntriesOf(b)
  {
  }

  lemma InsertedEntries(c: seq<Node>, p: nat, n: Node)
    requires p <= |c|
    ensures EntriesOf(Inserted(c, p, n)) == EntriesOf(c)[..p] + [Entry(n.key, n.value, n.id)] + EntriesOf(c)[p..]
    ensures SizeOf(EntriesOf(Inserted(c, p, n))) == SizeOf(EntriesOf(c)) + |n.key| + |n.value| + 8
  {
    hide SizeOf;
    var s, e := EntriesOf(c), Entry(n.key, n.value, n.id);
    EntriesConcat(c[..p] + [n], c[p..]);
    EntriesConcat(c[..p], [n]);
    assert EntriesOf([n]) == [e];
    assert EntriesOf(c[..p]) == s[..p] && EntriesOf(c[p..]) == s[p..];
    SizeOfUpsert(s[..p], [], s[p..], e);
    SizeOfUpsert([], [], [], e);
    assert s == s[..p] + [] + s[p..];
  }

  lemma SizeOfMember(s: seq<Entry>, p: nat)
    requires p < |s|
    ensures SizeOf(s) == SizeOf(s[..p]) + |s[p].key| + |s[p].value| + 8 + SizeOf(s[p + 1..])
  {
    SizeOfUpsert(s[..p], [], s[p + 1..], s[p]);
    SizeConcat(s[..p], s[p + 1..]);
    assert s == s[..p] + [s[p]] + s[p + 1..];
    assert s[..p] + [] + s[p + 1..] == s[..p] + s[p + 1..];
  }

  /** s was the list of versions of c before the node at p took a new value. */
  lemma EntriesReplaced(c: seq<Node>, s: seq<Entry>, p: nat)
    requires |s| == |c| && p < |c|
    requires forall j :: 0 <= j < |c| && j != p ==> s[j] == Entry(c[j].key, c[j].value, c[j].id)
    ensures EntriesOf(c) == s[..p] + [Entry(c[p].key, c[p].value, c[p].id)] + s[p + 1..]
    ensures SizeOf(EntriesOf(c)) == SizeOf(s[..p]) + |c[p].key| + |c[p].value| + 8 + SizeOf(s[p + 1..])
  {
    hide SizeOf;
    var t := EntriesOf(c);
    SizeOfMember(t, p);
    assert t[..p] == s[..p] && t[p + 1..] == s[p + 1..];
    assert t == t[..p] + [t[p]] + t[p + 1..];
  }

  class SkipList {
    const maxLevel: nat
    const head: Node
    var currentLevel: nat
    var sizeBytes: nat
    /** chain[i] lists the nodes linked at level i, in order. */
    ghost var chain: seq<seq<Node>>
    ghost var nodes: set<Node>
    ghost var Repr: set<object>

    /** The lists themselves: sorted, each contained in the ones below, empty above the current level. */
    ghost predicate Shape()
      reads this
    {
      && |chain| == maxLevel && 1 <= currentLevel <= maxLevel
      && this in Repr && head in Repr
      && nodes == (set n | n in chain[0])
      && (forall i :: currentLevel <= i < |chain| ==> chain[i] == [])
      && Nested(chain, head)
    }

    /** The links realise the lists, and no node is linked anywhere else. */
    ghost predicate Links()
      reads this, Repr
    {
      && head in Repr && nodes <= Repr && head !in nodes
      && (forall i, n :: 0 <= i < |chain| && n in chain[i] ==> n in nodes)
      && |head.forward| == maxLevel == |chain|
      && (forall i :: 0 <= i < |chain| ==> Forward(head, chain[i], i) && Backward(head, chain[i], i))
      && (forall n :: n in nodes ==> |n.forward| == |n.backward| <= maxLevel)
      && (forall n, i :: n in nodes && 0 <= i < |n.forward| && n !in chain[i] ==>
                           n.forward[i] == null && n.backward[i] == null)
    }

    ghost predicate Valid()
      reads this, Repr
      ensures Valid() ==> this in Repr
    {
      Shape() && Links() && sizeBytes == SizeOf(EntriesOf(chain[0]))
    }

    ghost function Contents(): seq<Entry>
      requires Valid()
      reads this, Repr
    {
      EntriesOf(chain[0])
    }

    constructor (levels: nat)
      requires levels >= 1
      ensures Valid() && fresh(Repr)
      ensures Contents() == []
    {
      maxLevel, currentLevel, sizeBytes := levels, 1, 0;
      head := new Node([], [], levels, 0);
      chain, nodes := seq(levels, _ => []), {};
      new;
      Repr := {this, head};
    }

    /** Each level is a subsequence of every level below it. */
    lemma LevelsAreSubsequences(i: nat, j: nat)
      requires Valid() && i <= j < |chain|
      ensures Subsequence(chain[j], chain[i])
    {
      hide Less, Links;
      ContainedIsSubsequence(chain[j], chain[i]);
    }

    lemma LevelAt(i: nat)
      requires Links() && i < |chain|
      ensures Forward(head, chain[i], i) && Backward(head, chain[i], i)
      ensures head in Repr && nodes <= Repr && head !in nodes && forall n :: n in chain[i] ==> n in nodes
      ensures forall n :: n in nodes ==> |n.forward| == |n.backward| <= maxLevel
      ensures i < |head.forward| && forall n :: n in chain[i] ==> i < |n.forward|
    {
      assert Forward(head, chain[i], i);
      forall n | n in chain[i]
        ensures i < |n.forward|
      {
        var j :| 0 <= j < |chain[i]| && chain[i][j] == n;
        assert i < |chain[i][j].forward|;
      }
    }

    /** A node of a level is also a node of the level below: its position there. */
    lemma Descend(n: Node, i: nat) returns (p: nat)
      requires Shape()
      requires i + 1 < |chain| && n in chain[i + 1]
      ensures p < |chain[i]| && chain[i][p] == n
    {
      hide Less, NodesSorted;
      assert n in chain[i];
      p :| 0 <= p < |chain[i]| && chain[i][p] == n;
    }

    /** At every level below `level`, update names the node before (k, id) and pos its position. */
    ghost predicate Slots(update: seq<Node?>, pos: seq<nat>, level: nat, k: Key, id: Id)
      reads this
    {
      && |update| == |pos| == |chain| && level <= |chain|
      && forall l :: 0 <= l < level ==> Slot(chain[l], pos[l], k, id) && update[l] == PrevAt(head, chain[l], pos[l])
    }

    /** Walk right along level i, from the node before position p, past everything before (key, id). */
    method Walk(from: Node, i: nat, key: Key, id: Id, ghost p: nat) returns (cur: Node, ghost q: nat)
      requires Valid() && i < |chain| && p <= |chain[i]| && from == PrevAt(head, chain[i], p)
      requires p > 0 ==> Precedes(from, key, id)
      ensures Slot(chain[i], q, key, id) && cur == PrevAt(head, chain[i], q)
      ensures q > 0 ==> cur in chain[i] && Precedes(cur, key, id)
    {
      hide Less, SizeOf, Links, Backward, Precedes;
      LevelAt(i);
      ghost var c := chain[i];
      cur, q := from, p;
      while cur.forward[i] != null && Precedes(cur.forward[i], key, id)
        invariant q <= |c| && cur == PrevAt(head, c, q)
        invariant q > 0 ==> Precedes(cur, key, id)
        invariant i < |cur.forward| && cur.forward[i] == NodeAt(c, q)
        decreases |c| - q
      {
        cur := cur.forward[i];
        q := q + 1;
      }
      FoundSlot(c, q, key, id);
    }

    /**
     Walk from the top level down, recording at each level the last node before (key, id); levels
     the list does not have yet start at the head.
     */
    method FindSlots(key: Key, id: Id, newLevel: nat) returns (update: seq<Node?>, ghost pos: seq<nat>)
      requires Valid() && currentLevel <= newLevel <= maxLevel
      ensures Slots(update, pos, newLevel, key, id)
    {
      hide Less, SizeOf, Links, Nested, Precedes;
      update, pos := seq(maxLevel, _ => null), seq(maxLevel, _ => 0);
      var cur: Node := head;
      var i: nat := currentLevel;
      while i > 0
        invariant i <= currentLevel
        invariant |update| == |pos| == maxLevel
        invariant forall l :: i <= l < currentLevel ==>
                                Slot(chain[l], pos[l], key, id) && update[l] == PrevAt(head, chain[l], pos[l])
        invariant forall l :: currentLevel <= l < maxLevel ==> pos[l] == 0
        invariant cur == head || (i < currentLevel && cur in chain[i] && Precedes(cur, key, id))
      {
        i := i - 1;
        ghost var p: nat := 0;
        if cur != head {
          p := Descend(cur, i);
          p := p + 1;
        }
        cur, p := Walk(cur, i, key, id, p);
        update := update[i := cur];
        pos := pos[i := p];
      }
      i := currentLevel;
      while i < newLevel
        invariant currentLevel <= i <= newLevel && |update| == maxLevel
        invariant forall l :: 0 <= l < i ==>
                                Slot(chain[l], pos[l], key, id) && update[l] == PrevAt(head, chain[l], pos[l])
      {
        update := update[i := head];
        i := i + 1;
      }
    }

    /** Walk from the top level down to the last node whose key is below `key`. */
    method SeekKey(key: Key) returns (cur: Node, ghost p: nat)
      requires Valid()
      ensures p <= |chain[0]| && cur == PrevAt(head, chain[0], p)
      ensures 0 < |cur.forward| && cur.forward[0] == NodeAt(chain[0], p)
      ensures p > 0 ==> Less(chain[0][p - 1].key, key)
      ensures p < |chain[0]| ==> !Less(chain[0][p].key, key)
    {
      hide Less, SizeOf, Links, Nested, Backward;
      cur, p := head, 0;
      var i: nat := currentLevel;
      while i > 0
        invariant i <= currentLevel
        invariant cur == head || (i < currentLevel && cur in chain[i] && Less(cur.key, key))
        invariant i == 0 ==> p <= |chain[0]| && cur == PrevAt(head, chain[0], p)
        invariant i == 0 ==> 0 < |cur.forward| && cur.forward[0] == NodeAt(chain[0], p)
        invariant i == 0 && p > 0 ==> Less(chain[0][p - 1].key, key)
        invariant i == 0 && p < |chain[0]| ==> !Less(chain[0][p].key, key)
      {
        i := i - 1;
        ghost var c := chain[i];
        LevelAt(i);
        p := 0;
        if cur != head {
          p := Descend(cur, i);
          p := p + 1;
        }
        while cur.forward[i] != null && Less(cur.forward[i].key, key)
          invariant p <= |c| && cur == PrevAt(head, c, p)
          invariant p > 0 ==> Less(cur.key, key)
          invariant i < |cur.forward| && cur.forward[i] == NodeAt(c, p)
          decreases |c| - p
        {
          cur := cur.forward[i];
          p := p + 1;
        }
      }
    }

    lemma ContentsSorted()
      requires Valid()
      ensures Sorted(Contents())
    {
      hide Less;
      var c := chain[0];
      assert NodesSorted(c);
      forall i, j | 0 <= i < j < |c|
        ensures Before(Contents()[i], Contents()[j])
      {
        assert Precedes(c[i], c[j].key, c[j].id);
      }
    }

    lemma BottomLevel()
      requires Valid()
      ensures 0 < |chain| && Forward(head, chain[0], 0)
      ensures forall n :: n in chain[0] ==> n in Repr
    {
    }

    /** The first version of key that the snapshot sees, as a linear scan would find it. */
    method Get(key: Key, t: Id) returns (n: Node?)
      requires Valid()
      ensures n == null <==> First(Contents(), key, t) == None
      ensures n != null ==> n in Repr && First(Contents(), key, t) == Some(Entry(n.key, n.value, n.id))
    {
      hide Less, SizeOf, First, Valid;
      var cur, p := SeekKey(key);
      BottomLevel();
      ContentsSorted();
      ghost var c, s := chain[0], Contents();
      n := cur.forward[0];
      assert n == NodeAt(c, p);
      ghost var q := p;
      if t == 0 {
        if n != null && n.key == key {
          ScanHit(s, p, p, key, t);
          return;
        }
      } else {
        while n != null && n.key == key
          invariant p <= q <= |c| && n == NodeAt(c, q)
          invariant forall j :: p <= j < q ==> s[j].id > t
          decreases |c| - q
        {
          if n.id <= t {
            ScanHit(s, p, q, key, t);
            return;
          }
          n := n.forward[0];
          q := q + 1;
        }
      }
      n := null;
      ScanMiss(s, p, q, key, t);
    }

    /** Coin flips: any level from 1 to the maximum. */
    method RandomLevel() returns (level: nat)
      requires maxLevel >= 1
      ensures 1 <= level <= maxLevel
    {
      level := 1;
      while level < maxLevel
        invariant 1 <= level <= maxLevel
      {
        var coin: bool := *;
        if !coin { break; }
        level := level + 1;
      }
    }

    /** Links depend on forward and backward fields only. */
    twostate lemma SameLinks()
      requires old(Links()) && chain == old(chain) && nodes == old(nodes) && Repr == old(Repr)
      requires head.forward == old(head.forward)
      requires forall n :: n in nodes ==> n.forward == old(n.forward) && n.backward == old(n.backward)
      ensures Links()
    {
      forall i | 0 <= i < |chain|
        ensures Forward(head, chain[i], i) && Backward(head, chain[i], i)
      {
        assert old(Forward(head, chain[i], i)) && old(Backward(head, chain[i], i));
        assert forall n :: n in chain[i] ==> n in nodes;
      }
    }

    /** A node already holds this key and id: only its value and the size change. */
    method Overwrite(at: Node, value: Value, ghost p: nat)
      requires Valid()
      requires p < |chain[0]| && chain[0][p] == at
      modifies this`sizeBytes, at`value
      ensures Valid() && Repr == old(Repr)
      ensures Contents() == old(Contents())[..p] + [Entry(at.key, value, at.id)] + old(Contents())[p + 1..]
    {
      hide Less, SizeOf, Links, Nested;
      LevelAt(0);
      AllDistinct();
      ghost var c, s := chain[0], Contents();
      SizeOfMember(s, p);
      sizeBytes := sizeBytes + |value| - |at.value|;
      at.value := value;
      SameLinks();
      EntriesReplaced(c, s, p);
    }

    /** Everything Links says about levels other than l survives a change confined to level l. */
    twostate lemma OtherLevels(new l: nat)
      requires old(Links()) && l < old(|chain|)
      requires Repr == old(Repr) && nodes == old(nodes) && |chain| == old(|chain|)
      requires forall i :: 0 <= i < |chain| && i != l ==> chain[i] == old(chain[i])
      requires Agree(head.forward, old(head.forward), l)
      requires forall o :: o in nodes ==> Agree(o.forward, old(o.forward), l) && Agree(o.backward, old(o.backward), l)
      ensures forall i :: 0 <= i < |chain| && i != l ==> Forward(head, chain[i], i) && Backward(head, chain[i], i)
      ensures |head.forward| == maxLevel
      ensures forall o :: o in nodes ==> |o.forward| == |o.backward| <= maxLevel
      ensures forall o, i :: o in nodes && 0 <= i < |o.forward| && i != l && o !in chain[i] ==>
                               o.forward[i] == null && o.backward[i] == null
    {
    }

    lemma AllDistinct()
      requires Shape()
      ensures forall l :: 0 <= l < |chain| ==> Distinct(chain[l])
    {
      forall l | 0 <= l < |chain|
        ensures Distinct(chain[l])
      {
        SortedDistinct(chain[l]);
      }
    }

    /** A node that no list mentions yet joins with null links. */
    twostate lemma NewNodeLinks(new n: Node)
      requires old(Links()) && chain == old(chain)
      requires old(n !in Repr) && Repr == old(Repr) + {n} && nodes == old(nodes) + {n}
      requires n != head && |n.forward| <= maxLevel
      requires n.forward == n.backward && forall i :: 0 <= i < |n.forward| ==> n.forward[i] == null
      requires unchanged(head) && forall o :: o in old(nodes) ==>
                o.forward == old(o.forward) && o.backward == old(o.backward)
      ensures Links()
    {
    }

    /** Splice n into level l. No other level and no other node changes its links. */
    method SpliceLevel(n: Node, prev: Node, l: nat, ghost p: nat)
      requires Links()
      requires n in nodes && l < |n.forward| && l < |chain| && n !in chain[l]
      requires p <= |chain[l]| && prev == PrevAt(head, chain[l], p)
      requires Distinct(chain[l])
      modifies nodes`forward, nodes`backward, head`forward
      ensures Forward(head, Inserted(chain[l], p, n), l) && Backward(head, Inserted(chain[l], p, n), l)
      ensures forall o :: o in nodes && o != n && o !in chain[l] ==>
                o.forward == old(o.forward) && o.backward == old(o.backward)
      ensures Agree(head.forward, old(head.forward), l) && |n.forward| == old(|n.forward|)
      ensures forall o :: o in nodes ==> Agree(o.forward, old(o.forward), l) && Agree(o.backward, old(o.backward), l)
    {
      hide Links, Inserted, Distinct, Agree, Forward, Backward;
      LevelAt(l);
      ghost var c := chain[l];
      assert prev == head || prev in c;
      Link(head, n, prev, l, c, p);
      ghost var next := NodeAt(c, p);
      assert forall o :: o in nodes && o != n && o != prev ==> o.forward == old(o.forward);
      assert forall o :: o in nodes && o != n && o != next ==> o.backward == old(o.backward);
      forall o | o in nodes
        ensures Agree(o.forward, old(o.forward), l) && Agree(o.backward, old(o.backward), l)
      {
        AgreeUpdate(old(o.forward), l, if o == n then next else n);
        AgreeUpdate(old(o.backward), l, if o == n then prev else n);
      }
      AgreeUpdate(old(head.forward), l, n);
    }

    method LinkLevel(n: Node, prev: Node, l: nat, ghost p: nat)
      requires Links()
      requires n in nodes && l < |n.forward| && l < |chain| && n !in chain[l]
      requires p <= |chain[l]| && prev == PrevAt(head, chain[l], p)
      requires Distinct(chain[l])
      modifies this`chain, nodes`forward, nodes`backward, head`forward
      ensures chain == old(chain)[l := Inserted(old(chain[l]), p, n)]
      ensures Links()
      ensures |n.forward| == old(|n.forward|)
    {
      hide Forward, Backward, Agree;
      SpliceLevel(n, prev, l, p);
      ghost var c := chain[l];
      chain := chain[l := Inserted(c, p, n)];
      OtherLevels(l);
      assert forall o :: o in Inserted(c, p, n) <==> o == n || o in c;
    }

    /** Insert a new node at its slot: the list of versions and the size grow by that one version. */
    method InsertNode(n: Node, update: seq<Node?>, newLevel: nat, ghost pos: seq<nat>)
      requires Valid()
      requires n !in Repr && n.forward == n.backward == seq(newLevel, _ => null)
      requires currentLevel <= newLevel && Slots(update, pos, newLevel, n.key, n.id)
      requires |pos| > 0 && pos[0] <= |chain[0]|
      requires forall o :: o in chain[0] ==> !(o.key == n.key && o.id == n.id)
      modifies Repr, n
      ensures Valid() && Repr == old(Repr) + {n}
      ensures Contents() == old(Contents())[..pos[0]] + [Entry(n.key, old(n.value), n.id)] + old(Contents())[pos[0]..]
    {
      hide Less, SizeOf, Links, Nested, Inserted, Slots;
      LevelAt(0);
      ghost var c := chain[0];
      InsertLinks(n, update, newLevel, pos);
      label Linked:
      sizeBytes := sizeBytes + |n.key| + |n.value| + 8;
      SameLinks@Linked();
      assert EntriesOf(c) == old(EntriesOf(c));
      InsertedEntries(c, pos[0], n);
      assert Shape();
    }

    method InsertLinks(n: Node, update: seq<Node?>, newLevel: nat, ghost pos: seq<nat>)
      requires Shape() && Links()
      requires n !in Repr && n.forward == n.backward == seq(newLevel, _ => null)
      requires currentLevel <= newLevel && Slots(update, pos, newLevel, n.key, n.id)
      requires |pos| > 0 && pos[0] <= |chain[0]|
      requires forall o :: o in chain[0] ==> !(o.key == n.key && o.id == n.id)
      modifies this`chain, this`nodes, this`Repr, this`currentLevel
      modifies nodes`forward, nodes`backward, head`forward, n`forward, n`backward
      ensures Shape() && Links() && Repr == old(Repr) + {n}
      ensures chain[0] == Inserted(old(chain[0]), pos[0], n)
    {
      hide Less, Links, Precedes, NodesSorted;
      ghost var before: seq<seq<Node>> := chain;
      ghost var l := LinkLevels(n, update, newLevel, pos);
      label Linked:
      currentLevel := newLevel;
      SameLinks@Linked();
      NestedInsert(before, chain, head, n, pos, l);
    }

    /** Link the node level by level from the bottom, until a coin says stop. */
    method LinkLevels(n: Node, update: seq<Node?>, newLevel: nat, ghost pos: seq<nat>) returns (ghost l: nat)
      requires Shape() && Links()
      requires n !in Repr && n.forward == n.backward == seq(newLevel, _ => null)
      requires currentLevel <= newLevel <= maxLevel && |update| == |pos| == maxLevel
      requires forall l :: 0 <= l < newLevel ==>
                             pos[l] <= |chain[l]| && update[l] == PrevAt(head, chain[l], pos[l])
      modifies this`chain, this`nodes, this`Repr, nodes`forward, nodes`backward, head`forward, n`forward, n`backward
      ensures Links() && Repr == old(Repr) + {n} && nodes == old(nodes) + {n}
      ensures 1 <= l <= newLevel && (newLevel > currentLevel ==> l == newLevel)
      ensures forall k :: 0 <= k < l ==> chain[k] == Inserted(old(chain[k]), pos[k], n)
      ensures forall k :: l <= k < |chain| ==> chain[k] == old(chain[k])
      ensures |chain| == old(|chain|)
    {
      hide Less, SizeOf, NodesSorted, Forward, Backward;
      ghost var before: seq<seq<Node>> := chain;
      AllDistinct();
      nodes, Repr := nodes + {n}, Repr + {n};
      NewNodeLinks(n);
      var i := 0;
      while i < newLevel
        invariant i <= newLevel
        invariant Links() && Repr == old(Repr) + {n} && nodes == old(nodes) + {n}
        invariant |n.forward| == newLevel && |chain| == |before|
        invariant forall k :: 0 <= k < i ==> chain[k] == Inserted(before[k], pos[k], n)
        invariant forall k :: i <= k < |chain| ==> chain[k] == before[k]
      {
        var bit: bool := *;
        if i > 0 && newLevel == currentLevel && !bit { break; }
        LinkLevel(n, update[i], i, pos[i]);
        i := i + 1;
      }
      l := i;
    }

    /** The slot found at the bottom level is the upsert place, and tells whether the version exists. */
    lemma SlotIsPlace(update: seq<Node?>, pos: seq<nat>, level: nat, e: Entry)
      requires Valid() && 1 <= level && Slots(update, pos, level, e.key, e.id)
      ensures 0 < |update| == |pos| == |chain| && pos[0] <= |chain[0]| == |Contents()|
      ensures update[0] == PrevAt(head, chain[0], pos[0])
      ensures 0 < |update[0].forward| && update[0].forward[0] == NodeAt(chain[0], pos[0])
      ensures Place(Contents(), e) == pos[0] && forall n :: n in chain[0] ==> n in Repr
      ensures pos[0] < |chain[0]| ==>
                (SameVersion(Contents()[pos[0]], e) <==> chain[0][pos[0]].key == e.key && chain[0][pos[0]].id == e.id)
      ensures (pos[0] == |chain[0]| || !SameVersion(Contents()[pos[0]], e)) ==>
                forall o :: o in chain[0] ==> !(o.key == e.key && o.id == e.id)
    {
      hide Less, Links, SizeOf;
      LevelAt(0);
      var c, s, p := chain[0], Contents(), pos[0];
      assert Slot(c, p, e.key, e.id);
      assert forall j :: 0 <= j < |c| ==> (Precedes(c[j], e.key, e.id) <==> Before(s[j], e));
      if p == |c| || !SameVersion(s[p], e) {
        NoTwin(c, p, e.key, e.id);
      }
    }

    method ChooseLevel() returns (level: nat)
      requires Valid()
      ensures 1 <= currentLevel <= level <= maxLevel
    {
      level := RandomLevel();
      level := if level > currentLevel then level else currentLevel;
    }

    /**
     Insert a version, or overwrite the value of the version with the same key and id. Whatever
     the coins say, the contents become the sorted upsert.
     */
    method Put(key: Key, value: Value, id: Id)
      requires Valid()
      modifies Repr
      ensures Valid() && fresh(Repr - old(Repr))
      ensures Contents() == Upsert(old(Contents()), Entry(key, value, id))
    {
      hide Less, Valid, Slots, Contents, EntriesOf, Upsert;
      ghost var s, e := Contents(), Entry(key, value, id);
      var level := ChooseLevel();
      var update, pos := FindSlots(key, id, level);
      SlotIsPlace(update, pos, level, e);
      UpsertPlaced(s, e, pos[0]);
      var at := update[0].forward[0];
      if at != null && at.key == key && at.id == id {
        Overwrite(at, value, pos[0]);
      } else {
        var n := new Node(key, value, level, id);
        assert Contents() == s;
        InsertNode(n, update, level, pos);
      }
    }

    /** Every version in order, by walking the bottom level. */
    method Flush() returns (data: seq<Entry>)
      requires Valid()
      ensures data == Contents()
    {
      hide Less, SizeOf, Links, Nested, Backward;
      LevelAt(0);
      ghost var c := chain[0];
      data := [];
      var n := head.forward[0];
      while n != null
        invariant |data| <= |c| && n == NodeAt(c, |data|)
        invariant data == Contents()[..|data|]
        decreases |c| - |data|
      {
        data := data + [Entry(n.key, n.value, n.id)];
        n := n.forward[0];
      }
    }

    /** Descend until some node satisfies the predicate; if none is met, none exists. */
    method FindAny(pred: Key -> int) returns (cur: Node, found: bool)
      requires Valid() && Falling(pred)
      ensures found ==> cur in chain[0] && pred(cur.key) == 0
      ensures !found ==> forall n :: n in chain[0] ==> pred(n.key) != 0
    {
      hide Less, SizeOf, Links, Nested, Backward, Falling;
      cur, found := head, false;
      var i: nat := currentLevel;
      while i > 0
        invariant i <= currentLevel
        invariant !found ==> cur == head || (i < currentLevel && cur in chain[i] && pred(cur.key) > 0)
        invariant found ==> cur in chain[0] && pred(cur.key) == 0
        invariant i == 0 && !found ==> forall n :: n in chain[0] ==> pred(n.key) != 0
      {
        i := i - 1;
        if !found {
          ghost var p: nat := 0;
          if cur != head {
            p := Descend(cur, i);
            p := p + 1;
          }
          cur, found, p := WalkToward(pred, cur, i, p);
        }
      }
    }

    /** One level of FindAny: step right while the next key is left of the target range. */
    method WalkToward(pred: Key -> int, from: Node, i: nat, ghost p: nat) returns (cur: Node, found: bool, ghost q: nat)
      requires Valid() && Falling(pred)
      requires i < |chain| && p <= |chain[i]| && from == PrevAt(head, chain[i], p)
      requires p > 0 ==> pred(from.key) > 0
      ensures found ==> cur in chain[0] && pred(cur.key) == 0
      ensures !found ==> cur == head || (cur in chain[i] && pred(cur.key) > 0)
      ensures !found && i == 0 ==> forall n :: n in chain[0] ==> pred(n.key) != 0
    {
      hide Less, SizeOf, Links, Backward, NodesSorted, Falling;
      LevelAt(i);
      ghost var c := chain[i];
      NodesFalling(c, pred);
      cur, found, q := from, false, p;
      while true
        invariant q <= |c| && cur == PrevAt(head, c, q)
        invariant q > 0 ==> pred(cur.key) > 0
        invariant i < |cur.forward| && cur.forward[i] == NodeAt(c, q)
        decreases |c| - q
      {
        var next := cur.forward[i];
        if next == null { break; }
        var direction := pred(next.key);
        if direction == 0 {
          assert next in c;
          return next, true, q;
        } else if direction < 0 {
          break;
        }
        cur, q := next, q + 1;
      }
    }

    lemma BottomFalling(pred: Key -> int)
      requires Valid() && Falling(pred)
      ensures forall i, j :: 0 <= i <= j < |chain[0]| ==>
                               && (pred(chain[0][i].key) <= 0 ==> pred(chain[0][j].key) <= 0)
                               && (pred(chain[0][i].key) < 0 ==> pred(chain[0][j].key) < 0)
    {
      hide Less, Links, Falling;
      NodesFalling(chain[0], pred);
    }

    /**
     The links of the node at bottom position lo: null at a level it is not linked at; otherwise
     backward names an earlier node or the head, and forward a later node or null.
     */
    lemma LinksAt(lo: nat, i: nat) returns (prev: nat, next: nat)
      requires Valid() && lo < |chain[0]| && i < |chain[0][lo].backward|
      ensures var b := chain[0][lo].backward[i];
              b == null || b == head || (prev < lo && chain[0][prev] == b && i < |b.backward|)
      ensures i < |chain[0][lo].forward|
      ensures var f := chain[0][lo].forward[i];
              f == null || (lo < next < |chain[0]| && chain[0][next] == f && i < |f.backward|)
    {
      hide Less, Nested, SizeOf, Links;
      prev, next := 0, 0;
      var n := chain[0][lo];
      LevelAt(0);
      LevelAt(i);
      Unlinked(n, i);
      if n in chain[i] {
        var d := chain[i];
        var j :| 0 <= j < |d| && d[j] == n;
        if j > 0 {
          assert n.backward[i] == d[j - 1];
          prev := Lower(i, j - 1);
          KeepsOrder(i, j - 1, j, prev, lo);
        }
        if j + 1 < |d| {
          assert n.forward[i] == d[j + 1];
          next := Lower(i, j + 1);
          KeepsOrder(i, j, j + 1, lo, next);
        }
      }
    }

    lemma Lower(i: nat, x: nat) returns (q: nat)
      requires Valid() && i < |chain| && x < |chain[i]|
      ensures q < |chain[0]| && chain[0][q] == chain[i][x]
    {
      hide Less, NodesSorted, SizeOf, Links;
      assert chain[i][x] in chain[0];
      q :| 0 <= q < |chain[0]| && chain[0][q] == chain[i][x];
    }

    lemma KeepsOrder(i: nat, x: nat, y: nat, a: nat, b: nat)
      requires Valid() && i < |chain| && x < y < |chain[i]| && a < |chain[0]| && b < |chain[0]|
      requires chain[0][a] == chain[i][x] && chain[0][b] == chain[i][y]
      ensures a < b
    {
      hide Less, NodesSorted, SizeOf, Links;
      SortedIndex(chain[i], x, y, chain[0], a, b);
    }

    lemma Unlinked(n: Node, i: nat)
      requires Valid() && n in chain[0] && i < |n.backward|
      ensures i < |n.forward| && i < |chain|
      ensures n !in chain[i] ==> n.forward[i] == null && n.backward[i] == null
    {
      hide Less, Forward, Backward, NodesSorted, SizeOf;
    }

    lemma BottomLinks(lo: nat)
      requires Valid() && lo < |chain[0]|
      ensures 0 < |chain[0][lo].backward| && 0 < |chain[0][lo].forward|
      ensures chain[0][lo].backward[0] == PrevAt(head, chain[0], lo)
      ensures chain[0][lo].forward[0] == NodeAt(chain[0], lo + 1)
      ensures head !in chain[0]
    {
      hide Less, NodesSorted, SizeOf, Links;
      LevelAt(0);
    }

    /** From a node in the range, step left by ever shorter strides to the first node in the range. */
    method FindFirst(pred: Key -> int, from: Node) returns (cur: Node, ghost lo: nat)
      requires Valid() && Falling(pred)
      requires from in chain[0] && pred(from.key) == 0
      ensures lo < |chain[0]| && chain[0][lo] == cur && pred(cur.key) == 0
      ensures lo > 0 ==> pred(chain[0][lo - 1].key) > 0
    {
      hide Less, SizeOf, Links, Nested, Falling, Forward, Backward;
      LevelAt(0);
      BottomFalling(pred);
      cur := from;
      lo :| lo < |chain[0]| && chain[0][lo] == cur;
      var i: nat := |cur.backward|;
      while i > 0
        invariant lo < |chain[0]| && chain[0][lo] == cur && pred(cur.key) == 0
        invariant i <= |cur.backward|
        invariant i == 0 && lo > 0 ==> pred(chain[0][lo - 1].key) > 0
      {
        i := i - 1;
        while true
          invariant lo < |chain[0]| && chain[0][lo] == cur && pred(cur.key) == 0
          invariant i < |cur.backward|
          decreases lo
        {
          ghost var q, r := LinksAt(lo, i);
          BottomLinks(lo);
          var prev := cur.backward[i];
          if prev == null || prev == head { break; }
          var direction := pred(prev.key);
          if direction == 0 {
            cur, lo := prev, q;
          } else if direction > 0 {
            break;
          } else {
            assert false;
          }
        }
      }
    }

    /** From a node in the range, step right by ever shorter strides to the last node in the range. */
    method FindLast(pred: Key -> int, from: Node) returns (cur: Node, ghost hi: nat)
      requires Valid() && Falling(pred)
      requires from in chain[0] && pred(from.key) == 0
      ensures hi < |chain[0]| && chain[0][hi] == cur && pred(cur.key) == 0
      ensures hi + 1 < |chain[0]| ==> pred(chain[0][hi + 1].key) < 0
    {
      hide Less, SizeOf, Links, Nested, Falling, Forward, Backward;
      LevelAt(0);
      BottomFalling(pred);
      cur := from;
      hi :| hi < |chain[0]| && chain[0][hi] == cur;
      var i: nat := |cur.forward|;
      while i > 0
        invariant hi < |chain[0]| && chain[0][hi] == cur && pred(cur.key) == 0
        invariant i <= |cur.backward|
        invariant i == 0 && hi + 1 < |chain[0]| ==> pred(chain[0][hi + 1].key) < 0
      {
        i := i - 1;
        while true
          invariant hi < |chain[0]| && chain[0][hi] == cur && pred(cur.key) == 0
          invariant i < |cur.backward|
          decreases |chain[0]| - hi
        {
          ghost var q, r := LinksAt(hi, i);
          BottomLinks(hi);
          var next := cur.forward[i];
          if next == null { break; }
          var direction := pred(next.key);
          if direction == 0 {
            cur, hi := next, r;
          } else if direction < 0 {
            break;
          } else {
            assert false;
          }
        }
      }
    }

    /**
     The versions on which the predicate is zero are those at positions lo up to hi; begin is the
     node at lo, or null if there are none, and end the node at hi, or null at the end of the list.
     */
    ghost predicate IsRange(pred: Key -> int, begin: Node?, end: Node?, lo: nat, hi: nat)
      requires Valid()
      reads this, Repr
    {
      && lo <= hi <= |Contents()|
      && (forall j :: 0 <= j < |Contents()| ==> (pred(Contents()[j].key) == 0 <==> lo <= j < hi))
      && (begin == null <==> lo == hi)
      && (begin != null ==> begin == NodeAt(chain[0], lo) && end == NodeAt(chain[0], hi))
    }

    /**
     The maximal run of versions on which the predicate is zero, as its first node and the node
     after its last; nothing when no key satisfies it. The "invalid direction" branches of the two
     walks are unreachable.
     */
    method RangeOf(pred: Key -> int) returns (begin: Node?, end: Node?)
      requires Valid() && Falling(pred)
      ensures Valid() && exists lo: nat, hi: nat :: IsRange(pred, begin, end, lo, hi)
    {
      hide Less, SizeOf, Links, Nested, Falling;
      var cur, found := FindAny(pred);
      if !found {
        assert IsRange(pred, null, null, 0, 0);
        return null, null;
      }
      BottomFalling(pred);
      ghost var lo, hi;
      begin, lo := FindFirst(pred, cur);
      var last;
      last, hi := FindLast(pred, cur);
      BottomLinks(hi);
      end := last.forward[0];
      assert IsRange(pred, begin, end, lo, hi + 1);
    }
  }

  /** Two sorted lists that share two nodes list them in the same order. */
  lemma SortedIndex(d: seq<Node>, x: nat, y: nat, c: seq<Node>, i: nat, j: nat)
    requires NodesSorted(d) && x < y < |d|
    requires NodesSorted(c) && i < |c| && j < |c| && c[i] == d[x] && c[j] == d[y]
    ensures i < j
  {
    LessTotal(d[x].key, d[y].key);
  }

  lemma NodesFalling(c: seq<Node>, pred: Key -> int)
    requires NodesSorted(c) && Falling(pred)
    ensures forall i, j :: 0 <= i <= j < |c| ==>
                             && (pred(c[i].key) <= 0 ==> pred(c[j].key) <= 0)
                             && (pred(c[i].key) < 0 ==> pred(c[j].key) < 0)
  {
    hide Less;
    forall i, j | 0 <= i < j < |c|
      ensures (pred(c[i].key) <= 0 ==> pred(c[j].key) <= 0) && (pred(c[i].key) < 0 ==> pred(c[j].key) < 0)
    {
      assert Precedes(c[i], c[j].key, c[j].id);
    }
  }

  lemma ScanHit(s: seq<Entry>, p: nat, q: nat, key: Key, t: Id)
    requires Sorted(s) && p <= q < |s|
    requires p > 0 ==> Less(s[p - 1].key, key)
    requires forall j :: p <= j < q ==> !Visible(s[j].id, t)
    requires Hit(s[q], key, t)
    ensures First(s, key, t) == Some(s[q])
  {
    hide Less;
    KeysBefore(s, p, key);
    FirstAt(s, q, key, t);
  }

  lemma ScanMiss(s: seq<Entry>, p: nat, q: nat, key: Key, t: Id)
    requires Sorted(s) && p <= q <= |s|
    requires p > 0 ==> Less(s[p - 1].key, key)
    requires p < |s| ==> !Less(s[p].key, key)
    requires forall j :: p <= j < q ==> !Visible(s[j].id, t)
    requires q < |s| ==> s[q].key != key
    ensures First(s, key, t) == None
  {
    hide Less;
    KeysBefore(s, p, key);
    forall j | q <= j < |s|
      ensures s[j].key != key
    {
      KeysAfter(s, p, q, key);
      KeysAfter(s, q, j, key);
    }
    FirstNone(s, key, t);
  }

  lemma KeysBefore(s: seq<Entry>, p: nat, key: Key)
    requires Sorted(s) && p <= |s|
    requires p > 0 ==> Less(s[p - 1].key, key)
    ensures forall j :: 0 <= j < p ==> s[j].key != key
  {
    forall j | 0 <= j < p
      ensures s[j].key != key
    {
      LessTotal(s[p - 1].key, key);
      if j < p - 1 {
        assert Before(s[j], s[p - 1]);
        LessTotal(s[j].key, s[p - 1].key);
      }
    }
  }

  /** Past a key that is not below `key`, keys are not below it either; past a larger key it never reappears. */
  lemma KeysAfter(s: seq<Entry>, p: nat, j: nat, key: Key)
    requires Sorted(s) && p <= j < |s|
    requires !Less(s[p].key, key)
    ensures !Less(s[j].key, key)
    ensures s[p].key != key ==> s[j].key != key
  {
    if p < j {
      assert Before(s[p], s[j]);
      LessTotal(s[p].key, key);
      LessTotal(s[p].key, s[j].key);
      LessTotal(s[j].key, key);
      if Less(s[j].key, key) && Less(s[p].key, s[j].key) {
        LessTransitive(s[p].key, s[j].key, key);
      }
    }
  }
}
