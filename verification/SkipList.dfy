// The skip list under the memtable: searches, and inserts store by store (db/skiplist.h).

module SkipLists {
  /** Keys are compared only through the comparator, so reals stand for them as in module Keys. */
  type Key = real

  const MAX_HEIGHT: nat := 12

  class Node {
    const key: Key
    const height: nat
    var next: seq<Node?>

    constructor (key: Key, height: nat)
      ensures this.key == key && this.height == height && |next| == height
      ensures forall i | 0 <= i < height :: next[i] == null
    {
      this.key, this.height := key, height;
      next := seq(height, _ => null);
    }
  }

  // ------------------------------------------------------------------ levels as sequences

  ghost predicate Ascending(level: seq<Node>) {
    forall a, b | 0 <= a < b < |level| :: level[a].key < level[b].key
  }

  /** `p` is where `key` belongs in the level: the number of nodes with smaller keys. */
  ghost predicate IsPlace(level: seq<Node>, key: Key, p: nat) {
    p <= |level| && forall j | 0 <= j < |level| :: level[j].key < key <==> j < p
  }

  /** `x` is the first node of the level at or after `key`. */
  ghost predicate IsFirst(level: seq<Node>, key: Key, x: Node?) {
    exists p: nat :: IsPlace(level, key, p) && x == At(level, p)
  }

  function At(level: seq<Node>, p: nat): Node? {
    if p < |level| then level[p] else null
  }

  /** The node before position `p` of a level, which starts after the head. */
  function Before(head: Node, level: seq<Node>, p: nat): Node
    requires p <= |level|
  {
    if p == 0 then head else level[p - 1]
  }

  function With(level: seq<Node>, p: nat, x: Node): seq<Node>
    requires p <= |level|
  {
    level[..p] + [x] + level[p..]
  }

  ghost predicate Sub(upper: seq<Node>, lower: seq<Node>) {
    forall n | n in upper :: n in lower
  }

  /** The link fields of some nodes, as a value. */
  type Links = map<Node, seq<Node?>>

  ghost function LinksOf(nodes: set<Node>): Links
    reads nodes
  {
    map n | n in nodes :: n.next
  }

  /** Every node of the level links to the one after it, and the last one to null. */
  ghost predicate Linked(head: Node, level: seq<Node>, i: nat, links: Links) {
    forall p {:trigger LinksTo(head, level, i, links, p)} | 0 <= p <= |level| :: LinksTo(head, level, i, links, p)
  }

  ghost predicate LinksTo(head: Node, level: seq<Node>, i: nat, links: Links, p: nat)
    requires p <= |level|
  {
    var n := Before(head, level, p);
    n in links && i < |links[n]| && links[n][i] == At(level, p)
  }

  /** `n` is the node, or the head, after which `key` belongs in a level. */
  ghost predicate PrevIn(head: Node, level: seq<Node>, key: Key, n: Node?) {
    exists p: nat :: IsPlace(level, key, p) && n == Before(head, level, p)
  }

  lemma PlaceOf(level: seq<Node>, key: Key, p: nat, j: nat)
    requires Ascending(level) && IsPlace(level, key, p) && j < |level| && level[j].key == key
    ensures p == j
  {
    assert !(level[j].key < key);
    if p < |level| {
      assert !(level[p].key < key);
    }
  }

  lemma FirstTells(level: seq<Node>, key: Key, x: Node?)
    requires Ascending(level) && IsFirst(level, key, x)
    ensures (x != null && x.key == key) <==> exists n :: n in level && n.key == key
  {
    var p: nat :| IsPlace(level, key, p) && x == At(level, p);
    if n :| n in level && n.key == key {
      var j :| 0 <= j < |level| && level[j] == n;
      PlaceOf(level, key, p, j);
    }
  }

  ghost predicate Over(levels: seq<seq<Node>>, i: nat)
    requires 0 < i < |levels|
  {
    Sub(levels[i], levels[i - 1])
  }

  /** Each level is a sorted sublist of the one below; those from maxHeight up are empty. */
  ghost predicate Stacked(head: Node, levels: seq<seq<Node>>, maxHeight: nat) {
    (forall i {:trigger levels[i]} | 0 <= i < |levels| :: Ascending(levels[i]) && head !in levels[i]) &&
    (forall i {:trigger Over(levels, i)} | 0 < i < |levels| :: Over(levels, i)) &&
    forall i {:trigger levels[i]} | maxHeight <= i < |levels| :: levels[i] == []
  }

  /** A node may join a level when it is in the one below. */
  lemma WithStacked(head: Node, levels: seq<seq<Node>>, maxHeight: nat, i: nat, p: nat, x: Node)
    requires Stacked(head, levels, maxHeight) && i < maxHeight && i < |levels| && x != head
    requires IsPlace(levels[i], x.key, p) && forall n | n in levels[i] :: n.key != x.key
    requires i > 0 ==> x in levels[i - 1]
    ensures Stacked(head, levels[i := With(levels[i], p, x)], maxHeight)
  {
    var levels2 := levels[i := With(levels[i], p, x)];
    WithAscending(levels[i], p, x);
    forall j | 0 < j < |levels|
      ensures Over(levels2, j)
    {
      assert Over(levels, j);
    }
  }

  class SkipList {
    const head: Node
    var maxHeight: nat
    ghost var levels: seq<seq<Node>>
    ghost var nodes: set<Node>

    /** Each level is a sorted, linked sublist of the one below; those from maxHeight up are empty. */
    ghost predicate Valid()
      reads this, nodes
    {
      Shape() && forall i {:trigger levels[i]} | 0 <= i < MAX_HEIGHT :: Linked(head, levels[i], i, LinksOf(nodes))
    }

    ghost predicate Shape()
      reads this
    {
      |levels| == MAX_HEIGHT && 1 <= maxHeight <= MAX_HEIGHT && Stacked(head, levels, maxHeight)
    }

    constructor ()
      ensures Valid() && levels[0] == []
    {
      head := new Node(0.0, MAX_HEIGHT);
      maxHeight := 1;
      levels := seq(MAX_HEIGHT, _ => []);
      new;
      nodes := {head};
      forall i | 0 <= i < MAX_HEIGHT
        ensures Linked(head, levels[i], i, LinksOf(nodes))
      {
        assert LinksTo(head, levels[i], i, LinksOf(nodes), 0);
      }
    }

    /** The keys inserted so far. */
    ghost function Contents(): set<Key>
      requires |levels| == MAX_HEIGHT
      reads this
    {
      set n | n in levels[0] :: n.key
    }

    /** KeyIsAfterNode: null counts as infinite. */
    static predicate IsAfter(key: Key, n: Node?) {
      n != null && n.key < key
    }

    method FindGreaterOrEqual(key: Key) returns (x: Node?, prev: seq<Node?>)
      requires Valid()
      ensures IsFirst(levels[0], key, x)
      ensures |prev| == MAX_HEIGHT && forall i {:trigger prev[i]} | 0 <= i < maxHeight ::
                PrevIn(head, levels[i], key, prev[i])
    {
      var n, level := head, maxHeight - 1;
      prev := seq(MAX_HEIGHT, _ => null);
      ghost var p: nat := 0;
      while true
        invariant 0 <= level < maxHeight && |prev| == MAX_HEIGHT
        invariant p <= |levels[level]| && n == Before(head, levels[level], p)
        invariant p > 0 ==> n.key < key
        invariant forall i {:trigger prev[i]} | level < i < maxHeight :: PrevIn(head, levels[i], key, prev[i])
        decreases level, |levels[level]| - p
      {
        assert LinksTo(head, levels[level], level, LinksOf(nodes), p);
        var next := n.next[level];
        if IsAfter(key, next) {
          n, p := next, p + 1;
        } else {
          prev := prev[level := n];
          PlaceFound(levels[level], key, p);
          if level == 0 {
            return next, prev;
          }
          assert Over(levels, level);
          if p > 0 {
            p := Lower(levels[level], levels[level - 1], p);
          }
          level := level - 1;
        }
      }
    }

    method Contains(key: Key) returns (r: bool)
      requires Valid()
      ensures r <==> key in Contents()
    {
      var x, prev := FindGreaterOrEqual(key);
      r := x != null && x.key == key;
      FirstTells(levels[0], key, x);
    }

    /** The last node with a smaller key, or the head. */
    method FindLessThan(key: Key) returns (x: Node)
      requires Valid()
      ensures PrevIn(head, levels[0], key, x)
    {
      x := head;
      var level := maxHeight - 1;
      ghost var p: nat := 0;
      while true
        invariant 0 <= level < maxHeight && p <= |levels[level]| && x == Before(head, levels[level], p)
        invariant p > 0 ==> x.key < key
        decreases level, |levels[level]| - p
      {
        assert LinksTo(head, levels[level], level, LinksOf(nodes), p);
        var next := x.next[level];
        if next == null || next.key >= key {
          if level == 0 {
            PlaceFound(levels[0], key, p);
            return;
          }
          assert Over(levels, level);
          if p > 0 {
            p := Lower(levels[level], levels[level - 1], p);
          }
          level := level - 1;
        } else {
          x, p := next, p + 1;
        }
      }
    }

    /** The last node, or the head of an empty list. */
    method FindLast() returns (x: Node)
      requires Valid()
      ensures x == Before(head, levels[0], |levels[0]|)
    {
      x := head;
      var level := maxHeight - 1;
      ghost var p: nat := 0;
      while true
        invariant 0 <= level < maxHeight && p <= |levels[level]| && x == Before(head, levels[level], p)
        decreases level, |levels[level]| - p
      {
        assert LinksTo(head, levels[level], level, LinksOf(nodes), p);
        var next := x.next[level];
        if next == null {
          if level == 0 {
            return;
          }
          assert Over(levels, level);
          if p > 0 {
            p := Lower(levels[level], levels[level - 1], p);
          }
          level := level - 1;
        } else {
          x, p := next, p + 1;
        }
      }
    }

    /** The store that copies the successor of `prev` into the new node, which level `i` does not have yet. */
    method CopyLink(x: Node, i: nat, prev: Node, ghost p: nat)
      requires Valid() && i < MAX_HEIGHT && x !in levels[i] && x != head && i < |x.next|
      requires p <= |levels[i]| && prev == Before(head, levels[i], p)
      modifies x`next
      ensures Valid() && |x.next| == old(|x.next|) && x.next[i] == At(levels[i], p)
    {
      assert LinksTo(head, levels[i], i, LinksOf(nodes), p);
      x.next := x.next[i := prev.next[i]];
      forall j, q | 0 <= j < MAX_HEIGHT && 0 <= q <= |levels[j]|
        ensures LinksTo(head, levels[j], j, LinksOf(nodes), q)
      {
        assert old(LinksTo(head, levels[j], j, LinksOf(nodes), q));
      }
    }

    /** The store that makes the new node part of level `i`. */
    method Publish(x: Node, i: nat, prev: Node, ghost p: nat)
      requires Valid() && i < maxHeight && x !in levels[i] && x != head && i < |x.next|
      requires IsPlace(levels[i], x.key, p) && prev == Before(head, levels[i], p) && x.next[i] == At(levels[i], p)
      requires forall n | n in levels[i] :: n.key != x.key
      requires i > 0 ==> x in levels[i - 1]
      modifies this`levels, this`nodes, prev`next
      ensures Valid() && levels == old(levels)[i := With(old(levels[i]), p, x)]
      ensures nodes == old(nodes) + {x}
    {
      assert LinksTo(head, levels[i], i, LinksOf(nodes), p);
      prev.next := prev.next[i := x];
      levels := levels[i := With(levels[i], p, x)];
      nodes := nodes + {x};
      WithStacked(head, old(levels), maxHeight, i, p, x);
      ghost var before, after := old(LinksOf(nodes)), LinksOf(nodes);
      LinkedHere(before, after, head, old(levels[i]), i, prev, p, x);
      forall j | 0 <= j < MAX_HEIGHT
        ensures Linked(head, levels[j], j, after)
      {
        if j != i {
          LinkedElsewhere(before, after, head, levels[j], j);
        }
      }
    }
  }

  /** Stores into other levels' fields leave a level linked. */
  lemma LinkedElsewhere(before: Links, after: Links, head: Node, level: seq<Node>, j: nat)
    requires Linked(head, level, j, before) && before.Keys <= after.Keys
    requires forall n | n in before :: |after[n]| == |before[n]| && (j < |before[n]| ==> after[n][j] == before[n][j])
    ensures Linked(head, level, j, after)
  {
    forall q | 0 <= q <= |level|
      ensures LinksTo(head, level, j, after, q)
    {
      assert LinksTo(head, level, j, before, q);
    }
  }

  lemma LinkedHere(before: Links, after: Links, head: Node, level: seq<Node>, i: nat, prev: Node, p: nat, x: Node)
    requires Linked(head, level, i, before) && Ascending(level) && head !in level
    requires before.Keys <= after.Keys && forall n | n in before && n != prev :: after[n] == before[n]
    requires p <= |level| && prev == Before(head, level, p) && prev in after && i < |after[prev]| && after[prev][i] == x
    requires x in after && i < |after[x]| && after[x][i] == At(level, p)
    ensures Linked(head, With(level, p, x), i, after)
  {
    forall q | 0 <= q <= |level| + 1
      ensures LinksTo(head, With(level, p, x), i, after, q)
    {
      if q < p {
        assert LinksTo(head, level, i, before, q);
        BeforeApart(head, level, q, p);
      } else if q > p + 1 {
        assert LinksTo(head, level, i, before, q - 1);
        BeforeApart(head, level, p, q - 1);
      }
    }
  }

  lemma WithAscending(level: seq<Node>, p: nat, x: Node)
    requires Ascending(level) && IsPlace(level, x.key, p) && forall n | n in level :: n.key != x.key
    ensures Ascending(With(level, p, x))
    ensures forall n :: n in With(level, p, x) <==> n in level || n == x
  {
    forall j | p <= j < |level|
      ensures x.key < level[j].key
    {
      assert level[j] in level;
    }
    assert forall n | n in level :: n in level[..p] || n in level[p..];
  }

  lemma BeforeApart(head: Node, level: seq<Node>, p: nat, q: nat)
    requires Ascending(level) && head !in level && p < q <= |level|
    ensures Before(head, level, p) != Before(head, level, q)
  {
    if p > 0 {
      assert level[p - 1].key < level[q - 1].key;
    }
  }

  lemma PlaceFound(level: seq<Node>, key: Key, p: nat)
    requires Ascending(level) && p <= |level|
    requires p > 0 ==> level[p - 1].key < key
    requires p < |level| ==> level[p].key >= key
    ensures IsPlace(level, key, p)
  {
  }

  lemma Lower(upper: seq<Node>, lower: seq<Node>, p: nat) returns (q: nat)
    requires Sub(upper, lower) && 0 < p <= |upper|
    ensures 0 < q <= |lower| && lower[q - 1] == upper[p - 1]
  {
    assert upper[p - 1] in upper;
    var k :| 0 <= k < |lower| && lower[k] == upper[p - 1];
    q := k + 1;
  }

  // ------------------------------------------------------------------ one search and one insert, store by store

  /** FindGreaterOrEqual as a reader thread runs it: each step loads one link. */
  class Reader {
    const list: SkipList
    const key: Key
    var x: Node
    var level: nat
    var done: bool
    var result: Node?

    /** The reader stands on the head or on a node of its level with a smaller key. */
    ghost predicate Ok()
      reads this, list
    {
      list.Shape() && level < MAX_HEIGHT && (x == list.head || (x in list.levels[level] && x.key < key))
    }

    constructor (list: SkipList, key: Key)
      requires list.Valid()
      ensures Ok() && !done && this.list == list && this.key == key
    {
      this.list, this.key, x, level := list, key, list.head, list.maxHeight - 1;
      done, result := false, null;
    }

    /** How much a search without interference has left. */
    ghost function Left(): (nat, nat)
      requires Ok()
      reads this, list
    {
      (level, if x == list.head then |list.levels[level]|
       else |list.levels[level]| - 1 - IndexOf(list.levels[level], x))
    }

    method Step()
      requires Ok() && list.Valid() && !done
      modifies this
      ensures Ok()
      ensures if done then IsFirst(list.levels[0], key, result)
              else Left().0 < old(Left().0) || (Left().0 == old(Left().0) && Left().1 < old(Left().1))
    {
      ghost var p := if x == list.head then 0 else IndexOf(list.levels[level], x) + 1;
      assert LinksTo(list.head, list.levels[level], level, LinksOf(list.nodes), p);
      var next := x.next[level];
      if SkipList.IsAfter(key, next) {
        IndexIs(list.levels[level], p);
        x := next;
      } else {
        PlaceFound(list.levels[level], key, p);
        if level == 0 {
          done, result := true, next;
        } else {
          assert Over(list.levels, level);
          level := level - 1;
        }
      }
    }

    /** Left alone, the search ends with the first node at or after its key. */
    method Finish()
      requires Ok() && list.Valid() && !done
      modifies this
      ensures done && IsFirst(list.levels[0], key, result)
    {
      Step();
      while !done
        invariant Ok() && (done ==> IsFirst(list.levels[0], key, result))
        decreases !done, Left().0, Left().1
      {
        Step();
      }
    }
  }

  ghost function IndexOf(level: seq<Node>, x: Node): (i: nat)
    requires x in level
    ensures i < |level| && level[i] == x
  {
    var i :| 0 <= i < |level| && level[i] == x;
    i
  }

  lemma IndexIs(level: seq<Node>, p: nat)
    requires Ascending(level) && p < |level|
    ensures IndexOf(level, level[p]) == p
  {
    var i := IndexOf(level, level[p]);
    assert level[i].key == level[p].key;
  }

  /** Insert as the writer thread runs it, after its own search: each step makes one store. */
  class Inserter {
    const list: SkipList
    const x: Node
    const prev: seq<Node?>
    var raised: bool
    var copied: bool
    var level: nat
    ghost const before: seq<seq<Node>>
    ghost const tallest: nat

    ghost predicate Ok()
      reads this, list, list.nodes, x
    {
      list.Valid() && x != list.head && |x.next| == x.height && 1 <= x.height <= MAX_HEIGHT && level <= x.height &&
      |prev| == MAX_HEIGHT && |before| == MAX_HEIGHT &&
      (forall n | n in before[0] :: n != x && n.key != x.key) &&
      (forall j {:trigger Sub(before[j], before[0])} | 0 < j < MAX_HEIGHT :: Sub(before[j], before[0])) &&
      (forall j {:trigger prev[j]} | 0 <= j < x.height :: PrevIn(list.head, before[j], x.key, prev[j])) &&
      Joined(before, list.levels, x, level) &&
      list.maxHeight == (if raised && x.height > tallest then x.height else tallest) &&
      (!raised ==> level == 0 && !copied) &&
      (copied ==> level < x.height && exists p: nat ::
         IsPlace(before[level], x.key, p) && x.next[level] == At(before[level], p))
    }

    constructor (list: SkipList, x: Node, prev: seq<Node?>)
      requires list.Valid() && x != list.head && |x.next| == x.height && 1 <= x.height <= MAX_HEIGHT
      requires |prev| == MAX_HEIGHT && forall n | n in list.levels[0] :: n != x && n.key != x.key
      requires forall j {:trigger prev[j]} | 0 <= j < x.height :: PrevIn(list.head, list.levels[j], x.key, prev[j])
      ensures Ok() && level == 0 && !raised && before == list.levels && tallest == list.maxHeight
      ensures this.list == list && this.x == x
    {
      this.list, this.x, this.prev := list, x, prev;
      raised, copied, level, before, tallest := false, false, 0, list.levels, list.maxHeight;
      new;
      forall j | 0 < j < MAX_HEIGHT
        ensures Sub(before[j], before[0])
      {
        AllInBottom(list.head, before, list.maxHeight, j);
      }
    }

    predicate Done()
      reads this
    {
      raised && level == x.height
    }

    /** How many stores have been made. */
    function Stage(): nat
      reads this
    {
      if !raised then 0 else 1 + 2 * level + if copied then 1 else 0
    }

    /** One store of Insert: raising max_height_, or copying a link into the new node, or publishing it. */
    method Step()
      requires Ok() && !Done()
      modifies this, list, list.nodes, x
      ensures Ok() && Stage() == old(Stage()) + 1 && old(list.nodes) <= list.nodes <= old(list.nodes) + {x}
      ensures forall j | 0 <= j < MAX_HEIGHT :: Sub(old(list.levels[j]), list.levels[j])
    {
      if !raised {
        if x.height > list.maxHeight {
          list.maxHeight := x.height;
        }
        raised := true;
      } else {
        ghost var p := NextPlace();
        if !copied {
          list.CopyLink(x, level, prev[level], p);
          copied := true;
        } else {
          PublishNext(p);
        }
      }
    }

    method PublishNext(ghost p: nat)
      requires Ok() && !Done() && copied && IsPlace(before[level], x.key, p) && prev[level] != null
      requires prev[level] == Before(list.head, before[level], p) && x.next[level] == At(before[level], p)
      requires prev[level] in list.nodes && prev[level] != x && list.levels[level] == before[level]
      requires forall n | n in before[level] :: n != x && n.key != x.key
      requires level > 0 ==> x in list.levels[level - 1]
      modifies this, list, list.nodes
      ensures Ok() && Stage() == old(Stage()) + 1 && list.nodes == old(list.nodes) + {x}
      ensures forall j | 0 <= j < MAX_HEIGHT :: Sub(old(list.levels[j]), list.levels[j])
    {
      list.Publish(x, level, prev[level], p);
      JoinsNext(before, old(list.levels), x, level, p);
      copied := false;
      level := level + 1;
    }

    lemma NextPlace() returns (p: nat)
      requires Ok() && !Done() && raised
      ensures level < MAX_HEIGHT && list.levels[level] == before[level] && IsPlace(before[level], x.key, p)
      ensures prev[level] == Before(list.head, before[level], p)
      ensures copied ==> x.next[level] == At(before[level], p)
      ensures forall n | n in before[level] :: n != x && n.key != x.key
      ensures level > 0 ==> x in list.levels[level - 1]
      ensures prev[level] in list.nodes && prev[level] != x
    {
      assert JoinedAt(before, list.levels, x, level, level);
      assert level > 0 ==> Sub(before[level], before[0]);
      p :| IsPlace(before[level], x.key, p) && prev[level] == Before(list.head, before[level], p);
      assert p > 0 ==> before[level][p - 1] in before[level];
      if copied {
        var q: nat :| IsPlace(before[level], x.key, q) && x.next[level] == At(before[level], q);
        PlaceUnique(before[level], x.key, p, q);
      }
      assert level > 0 ==> JoinedAt(before, list.levels, x, level, level - 1);
      assert LinksTo(list.head, list.levels[level], level, LinksOf(list.nodes), p);
    }
  }

  /** The new node is in the levels below `level`, and not yet in the others. */
  ghost predicate Joined(before: seq<seq<Node>>, levels: seq<seq<Node>>, x: Node, level: nat) {
    |before| == |levels| &&
    forall j {:trigger JoinedAt(before, levels, x, level, j)} | 0 <= j < |levels| ::
      JoinedAt(before, levels, x, level, j)
  }

  ghost predicate JoinedAt(before: seq<seq<Node>>, levels: seq<seq<Node>>, x: Node, level: nat, j: nat)
    requires j < |levels| == |before|
  {
    if j < level then exists p: nat :: IsPlace(before[j], x.key, p) && levels[j] == With(before[j], p, x)
    else levels[j] == before[j]
  }

  lemma JoinsNext(before: seq<seq<Node>>, levels: seq<seq<Node>>, x: Node, level: nat, p: nat)
    requires Joined(before, levels, x, level) && level < |levels| && IsPlace(before[level], x.key, p)
    ensures levels[level] == before[level]
    ensures Joined(before, levels[level := With(before[level], p, x)], x, level + 1)
    ensures forall j | 0 <= j < |levels| :: Sub(levels[j], levels[level := With(before[level], p, x)][j])
  {
    var levels2 := levels[level := With(before[level], p, x)];
    assert JoinedAt(before, levels, x, level, level);
    forall j {:trigger levels[j]} | 0 <= j < |levels|
      ensures JoinedAt(before, levels2, x, level + 1, j)
    {
      assert JoinedAt(before, levels, x, level, j);
    }
    assert forall n | n in before[level] :: n in before[level][..p] || n in before[level][p..];
  }

  lemma PlaceUnique(level: seq<Node>, key: Key, p: nat, q: nat)
    requires IsPlace(level, key, p) && IsPlace(level, key, q)
    ensures p == q
  {
    var j := if p < q then p else q;
    if j < |level| {
      assert level[j].key < key <==> j < p;
    }
  }

  lemma {:induction false} AllInBottom(head: Node, levels: seq<seq<Node>>, maxHeight: nat, j: nat)
    requires Stacked(head, levels, maxHeight) && j < |levels|
    ensures Sub(levels[j], levels[0])
  {
    if j > 0 {
      assert Over(levels, j);
      AllInBottom(head, levels, maxHeight, j - 1);
    }
  }

  /** The part of Insert before its first store. */
  method Start(list: SkipList, key: Key, height: nat) returns (inserter: Inserter)
    requires list.Valid() && key !in list.Contents() && 1 <= height <= MAX_HEIGHT
    ensures fresh(inserter) && fresh(inserter.x) && inserter.Ok() && inserter.Stage() == 0
    ensures inserter.list == list && inserter.before == list.levels && inserter.tallest == list.maxHeight
    ensures inserter.x.key == key && inserter.x.height == height
  {
    var after, prev := list.FindGreaterOrEqual(key);
    var i := list.maxHeight;
    while i < height
      invariant |prev| == MAX_HEIGHT && list.maxHeight <= i
      invariant forall j {:trigger prev[j]} | 0 <= j < i && j < MAX_HEIGHT && (j < list.maxHeight || j < height) ::
        PrevIn(list.head, list.levels[j], key, prev[j])
    {
      prev := prev[i := list.head];
      assert IsPlace(list.levels[i], key, 0);
      i := i + 1;
    }
    var x := new Node(key, height);
    forall n | n in list.levels[0]
      ensures n != x && n.key != key
    {
      assert n.key in list.Contents();
      InNodes(list, n);
    }
    inserter := new Inserter(list, x, prev);
  }

  lemma InNodes(list: SkipList, n: Node)
    requires list.Valid() && n in list.levels[0]
    ensures n in list.nodes
  {
    var p :| 0 <= p < |list.levels[0]| && list.levels[0][p] == n;
    assert LinksTo(list.head, list.levels[0], 0, LinksOf(list.nodes), p + 1);
  }

  lemma EndsJoined(inserter: Inserter) returns (p: nat)
    requires inserter.Ok() && inserter.Done()
    ensures IsPlace(inserter.before[0], inserter.x.key, p)
    ensures inserter.list.levels[0] == With(inserter.before[0], p, inserter.x)
  {
    assert JoinedAt(inserter.before, inserter.list.levels, inserter.x, inserter.level, 0);
    p :| IsPlace(inserter.before[0], inserter.x.key, p) &&
      inserter.list.levels[0] == With(inserter.before[0], p, inserter.x);
  }

  lemma WithContents(level: seq<Node>, p: nat, x: Node)
    requires p <= |level|
    ensures (set n | n in With(level, p, x) :: n.key) == (set n | n in level :: n.key) + {x.key}
  {
    assert forall n :: n in With(level, p, x) <==> n in level[..p] || n == x || n in level[p..];
    assert forall n :: n in level <==> n in level[..p] || n in level[p..];
  }

  /** The new node is in its place on as many levels as it is high, and nothing else has changed. */
  twostate predicate Grown(list: SkipList, new x: Node, key: Key, height: nat)
    reads list, x
  {
    x.key == key && x.height == height && Joined(old(list.levels), list.levels, x, height) &&
    list.maxHeight == if height > old(list.maxHeight) then height else old(list.maxHeight)
  }

  /** Insert: the search, then the stores one after the other. Any height will do. */
  method Insert(list: SkipList, key: Key, height: nat) returns (ghost x: Node)
    requires list.Valid() && key !in list.Contents() && 1 <= height <= MAX_HEIGHT
    modifies list, list.nodes
    ensures list.Valid() && list.Contents() == old(list.Contents()) + {key}
    ensures fresh(list.nodes - old(list.nodes)) && old(list.nodes) <= list.nodes
    ensures fresh(x) && Grown(list, x, key, height)
  {
    var inserter := Start(list, key, height);
    x := inserter.x;
    while !inserter.Done()
      invariant inserter.Ok() && fresh(inserter) && fresh(inserter.x) && inserter.list == list
      invariant inserter.before == old(list.levels) && inserter.tallest == old(list.maxHeight)
      invariant inserter.x == x && x.key == key && x.height == height
      invariant old(list.nodes) <= list.nodes <= old(list.nodes) + {inserter.x}
      decreases 2 * inserter.x.height + 1 - inserter.Stage()
    {
      inserter.Step();
    }
    var p := EndsJoined(inserter);
    WithContents(inserter.before[0], p, inserter.x);
  }

  /** A reader takes any number of its steps between the stores of an insert. */
  method InsertWhileReading(list: SkipList, key: Key, height: nat, reader: Reader, turns: seq<nat>)
    returns (ghost x: Node)
    requires list.Valid() && key !in list.Contents() && 1 <= height <= MAX_HEIGHT
    requires reader.list == list && reader.Ok() && !reader.done
    modifies list, list.nodes, reader
    ensures list.Valid() && list.Contents() == old(list.Contents()) + {key} && reader.Ok()
    ensures reader.done ==> IsFirst(old(list.levels[0]), reader.key, reader.result) ||
                            IsFirst(list.levels[0], reader.key, reader.result)
    ensures fresh(x) && Grown(list, x, key, height)
  {
    var inserter := Start(list, key, height);
    x := inserter.x;
    while !inserter.Done()
      invariant inserter.Ok() && fresh(inserter) && fresh(inserter.x) && inserter.list == list && reader.Ok()
      invariant old(list.nodes) <= list.nodes <= old(list.nodes) + {inserter.x}
      invariant inserter.before == old(list.levels) && inserter.tallest == old(list.maxHeight)
      invariant inserter.x == x && x.key == key && x.height == height
      invariant reader.done ==> SomeTime(inserter.before[0], inserter.x, reader.key, reader.result)
      decreases 2 * inserter.x.height + 1 - inserter.Stage()
    {
      var turn := if inserter.Stage() < |turns| then turns[inserter.Stage()] else 0;
      for i := 0 to turn
        modifies reader
        invariant reader.Ok()
        invariant reader.done ==> SomeTime(inserter.before[0], inserter.x, reader.key, reader.result)
      {
        if !reader.done {
          assert JoinedAt(inserter.before, list.levels, inserter.x, inserter.level, 0);
          reader.Step();
        }
      }
      inserter.Step();
    }
    var p := EndsJoined(inserter);
    WithContents(inserter.before[0], p, inserter.x);
    if reader.done {
      OldOrNew(inserter.before[0], inserter.x, p, reader.key, reader.result);
    }
  }

  lemma OldOrNew(before: seq<Node>, x: Node, p: nat, key: Key, result: Node?)
    requires SomeTime(before, x, key, result) && IsPlace(before, x.key, p)
    ensures IsFirst(before, key, result) || IsFirst(With(before, p, x), key, result)
  {
    if !IsFirst(before, key, result) {
      var q: nat :| IsPlace(before, x.key, q) && IsFirst(With(before, q, x), key, result);
      PlaceUnique(before, x.key, p, q);
    }
  }

  /** The result was first at or after the key in the bottom level before the insert, or after it. */
  ghost predicate SomeTime(before: seq<Node>, x: Node, key: Key, result: Node?) {
    IsFirst(before, key, result) ||
    exists p: nat :: IsPlace(before, x.key, p) && IsFirst(With(before, p, x), key, result)
  }
}
