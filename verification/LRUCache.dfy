// One shard of the cache: reference counts, the two lists and eviction (util/cache.cc).

module LRUCaches {
  import opened Keys
  import opened HandleTables
  import opened Rings

  function Charges(items: seq<LRUHandle>): nat {
    if items == [] then 0 else items[0].charge + Charges(items[1..])
  }

  lemma {:induction false} ChargesWithout(items: seq<LRUHandle>, i: nat)
    requires i < |items|
    ensures Charges(Without(items, i)) + items[i].charge == Charges(items)
  {
    if i == 0 {
      assert Without(items, 0) == items[1..];
    } else {
      assert Without(items, i)[1..] == Without(items[1..], i - 1);
      ChargesWithout(items[1..], i - 1);
    }
  }

  lemma {:induction false} ChargesAppend(items: seq<LRUHandle>, e: LRUHandle)
    ensures Charges(items + [e]) == Charges(items) + e.charge
  {
    if items != [] {
      assert (items + [e])[1..] == items[1..] + [e];
      ChargesAppend(items[1..], e);
    }
  }

  ghost function Members(items: seq<LRUHandle>): set<LRUHandle> {
    set h | h in items
  }

  /** Where an item is in a list. */
  lemma IndexOf(items: seq<LRUHandle>, e: LRUHandle) returns (i: nat)
    requires e in items
    ensures i < |items| && items[i] == e
  {
    i :| 0 <= i < |items| && items[i] == e;
  }

  function Minus(items: seq<LRUHandle>, e: LRUHandle): seq<LRUHandle> {
    if items == [] then []
    else if items[0] == e then items[1..]
    else [items[0]] + Minus(items[1..], e)
  }

  lemma {:induction false} MinusIsWithout(items: seq<LRUHandle>, i: nat)
    requires Once(items) && i < |items|
    ensures Minus(items, items[i]) == Without(items, i)
  {
    if i == 0 {
      assert Without(items, 0) == items[1..];
    } else {
      assert Differ(items, 0, i) && items[i] == items[1..][i - 1];
      forall j, k {:trigger Differ(items[1..], j, k)} | 0 <= j < k < |items[1..]|
        ensures Differ(items[1..], j, k)
      {
        assert Differ(items, j + 1, k + 1);
      }
      MinusIsWithout(items[1..], i - 1);
      assert Without(items, i) == [items[0]] + Without(items[1..], i - 1);
    }
  }

  lemma {:induction false} MinusNothing(items: seq<LRUHandle>, e: LRUHandle)
    requires e !in items
    ensures Minus(items, e) == items
  {
    if items != [] {
      MinusNothing(items[1..], e);
    }
  }

  // ------------------------------------------------------------------ what the operations do

  /** The two lists, oldest first, the references clients hold on each live handle, the total charge, and the
      handles passed to their deleter. */
  datatype Books = Books(idle: seq<LRUHandle>, busy: seq<LRUHandle>, clients: map<LRUHandle, nat>, usage: int,
                         deleted: seq<LRUHandle>)

  /** A client takes a reference: an idle handle becomes busy. */
  function Taken(b: Books, e: LRUHandle): Books
    requires e in b.clients
  {
    b.(clients := b.clients[e := b.clients[e] + 1], idle := Minus(b.idle, e),
       busy := if e in b.idle then b.busy + [e] else b.busy)
  }

  /** A client gives a reference back: the last one makes a cached handle idle, and deletes any other. */
  function Given(b: Books, e: LRUHandle): Books
    requires e in b.clients && b.clients[e] > 0
  {
    if b.clients[e] > 1 then b.(clients := b.clients[e := b.clients[e] - 1])
    else if e in b.busy then b.(clients := b.clients[e := 0], busy := Minus(b.busy, e), idle := b.idle + [e])
    else b.(clients := b.clients - {e}, deleted := b.deleted + [e])
  }

  /** The cache drops a handle: it is deleted unless clients still refer to it. */
  function Dropped(b: Books, e: LRUHandle): Books
    requires e in b.clients
  {
    var out := b.(idle := Minus(b.idle, e), busy := Minus(b.busy, e), usage := b.usage - e.charge);
    if b.clients[e] == 0 then out.(clients := b.clients - {e}, deleted := b.deleted + [e]) else out
  }

  /** A new handle enters the cache, referred to by the client that inserts it. */
  function Entered(b: Books, e: LRUHandle): Books {
    b.(busy := b.busy + [e], clients := b.clients[e := 1], usage := b.usage + e.charge)
  }

  /** What dropping a handle leaves, for a handle that may be any. */
  function Left(b: Books, e: LRUHandle): Books {
    if e in b.clients then Dropped(b, e) else b
  }

  /** Idle handles are dropped, oldest first, until the charges of the rest are within a limit. */
  function Evicted(b: Books, limit: int): (r: Books)
    ensures r.usage <= limit || r.idle == [] || r.idle[0] !in r.clients
    decreases |b.idle|
  {
    if b.usage <= limit || b.idle == [] || b.idle[0] !in b.clients then b
    else Evicted(Dropped(b, b.idle[0]), limit)
  }

  lemma EvictedOne(b: Books, limit: int)
    ensures b.usage <= limit || b.idle == [] ==> Evicted(b, limit) == b
    ensures b.usage > limit && b.idle != [] && b.idle[0] in b.clients ==>
              Evicted(b, limit) == Evicted(Left(b, b.idle[0]), limit)
  {
  }

  /** What eviction relies on: the idle handles are live, unreferenced, each listed once and not also busy. */
  ghost predicate IdleOnly(b: Books) {
    Once(b.idle) && forall h | h in b.idle :: h in b.clients && b.clients[h] == 0 && h !in b.busy
  }

  /** The first `k` idle handles are gone, and nothing else. */
  ghost predicate FirstGone(b: Books, r: Books, k: nat) {
    k <= |b.idle| && r.idle == b.idle[k..] && r.busy == b.busy && r.clients == b.clients - Members(b.idle[..k]) &&
    r.deleted == b.deleted + b.idle[..k] && r.usage == b.usage - Charges(b.idle[..k])
  }

  lemma FirstGoneOne(b: Books)
    requires IdleOnly(b) && b.idle != []
    ensures Dropped(b, b.idle[0]) == b.(idle := b.idle[1..], clients := b.clients - {b.idle[0]},
                                        usage := b.usage - b.idle[0].charge, deleted := b.deleted + [b.idle[0]])
    ensures IdleOnly(Dropped(b, b.idle[0]))
  {
    MinusNothing(b.busy, b.idle[0]);
    forall j, k {:trigger Differ(b.idle[1..], j, k)} | 0 <= j < k < |b.idle[1..]|
      ensures Differ(b.idle[1..], j, k)
    {
      assert Differ(b.idle, j + 1, k + 1);
    }
    forall h | h in b.idle[1..]
      ensures h != b.idle[0] && h in b.idle
    {
      var j := IndexOf(b.idle[1..], h);
      assert Differ(b.idle, 0, j + 1);
    }
  }

  /** One handle is gone, then the first `n` of the others. */
  lemma FirstGoneMore(b: Books, c: Books, r: Books, n: nat)
    requires b.idle != [] && FirstGone(c, r, n) && c.idle == b.idle[1..] && c.busy == b.busy
    requires c.clients == b.clients - {b.idle[0]} && c.deleted == b.deleted + [b.idle[0]]
    requires c.usage == b.usage - b.idle[0].charge
    ensures FirstGone(b, r, n + 1)
  {
    var first := [b.idle[0]];
    assert b.idle[..n + 1] == first + c.idle[..n] && (first + c.idle[..n])[1..] == c.idle[..n];
    assert Members(b.idle[..n + 1]) == {b.idle[0]} + Members(c.idle[..n]);
    assert b.clients - {b.idle[0]} - Members(c.idle[..n]) == b.clients - Members(b.idle[..n + 1]);
    assert b.deleted + first + c.idle[..n] == b.deleted + (first + c.idle[..n]);
  }

  /** Eviction drops the oldest idle handles, as many as it takes for the charges to fit and no more, or all. */
  lemma {:induction false} EvictsOldest(b: Books, limit: int) returns (k: nat)
    requires IdleOnly(b)
    ensures FirstGone(b, Evicted(b, limit), k)
    ensures Evicted(b, limit).usage <= limit || k == |b.idle|
    ensures k > 0 ==> Evicted(b, limit).usage + b.idle[k - 1].charge > limit
    decreases |b.idle|
  {
    if b.usage <= limit || b.idle == [] {
      k := 0;
    } else {
      var c := Dropped(b, b.idle[0]);
      FirstGoneOne(b);
      hide Dropped;
      var n := EvictsOldest(c, limit);
      k := n + 1;
      FirstGoneMore(b, c, Evicted(b, limit), n);
      hide FirstGone, IdleOnly;
    }
  }

  lemma WithoutMembers(items: seq<LRUHandle>, i: nat)
    requires Once(items) && i < |items|
    ensures Members(Without(items, i)) == Members(items) - {items[i]}
  {
    var rest := Without(items, i);
    forall h | h in items && h != items[i]
      ensures h in rest
    {
      var j := IndexOf(items, h);
      assert rest[if j < i then j else j - 1] == h;
    }
    forall h | h in rest
      ensures h in items && h != items[i]
    {
      var j := IndexOf(rest, h);
      assert if j < i then Differ(items, j, i) else Differ(items, i, j + 1);
    }
  }

  lemma WithoutOnce(items: seq<LRUHandle>, i: nat)
    requires Once(items) && i < |items|
    ensures Once(Without(items, i))
  {
    var rest := Without(items, i);
    forall j, k {:trigger Differ(rest, j, k)} | 0 <= j < k < |rest|
      ensures Differ(rest, j, k)
    {
      assert Differ(items, if j < i then j else j + 1, if k < i then k else k + 1);
    }
  }

  /** What taking one item out of a list keeps. */
  lemma MinusHas(items: seq<LRUHandle>, e: LRUHandle)
    requires Once(items) && e in items
    ensures Members(Minus(items, e)) == Members(items) - {e} && Once(Minus(items, e))
    ensures Charges(Minus(items, e)) + e.charge == Charges(items)
  {
    var i := IndexOf(items, e);
    MinusIsWithout(items, i);
    ChargesWithout(items, i);
    WithoutMembers(items, i);
    WithoutOnce(items, i);
  }

  lemma AppendHas(items: seq<LRUHandle>, e: LRUHandle)
    requires Once(items) && e !in items
    ensures Members(items + [e]) == Members(items) + {e} && Once(items + [e])
    ensures Charges(items + [e]) == Charges(items) + e.charge
  {
    ChargesAppend(items, e);
    forall j, k {:trigger Differ(items + [e], j, k)} | 0 <= j < k < |items + [e]|
      ensures Differ(items + [e], j, k)
    {
      assert k < |items| ==> Differ(items, j, k);
    }
  }

  // ------------------------------------------------------------------ what every operation keeps

  datatype Mark = Mark(refs: nat, inCache: bool)

  type Marks = map<LRUHandle, Mark>

  ghost function MarksOf(nodes: set<LRUHandle>): Marks
    reads nodes
  {
    map n | n in nodes :: Mark(n.refs, n.inCache)
  }

  /** A handle counts its clients' references and the cache's own. It is on the list of idle handles when
      only the cache refers to it, and on the other when clients do too. */
  ghost predicate Counted(m: Mark, clients: nat, idle: bool, busy: bool) {
    m.refs == clients + (if m.inCache then 1 else 0) && m.refs > 0 &&
    (idle <==> m.inCache && clients == 0) && (busy <==> m.inCache && clients > 0)
  }

  ghost predicate CountedAt(marks: Marks, b: Books, h: LRUHandle)
    requires h in b.clients
  {
    h in marks && Counted(marks[h], b.clients[h], h in b.idle, h in b.busy)
  }

  datatype Side = Idle | Busy

  function ListOf(b: Books, side: Side): seq<LRUHandle> {
    if side.Idle? then b.idle else b.busy
  }

  ghost predicate Balanced(marks: Marks, b: Books) {
    (forall h {:trigger CountedAt(marks, b, h)} | h in b.clients :: CountedAt(marks, b, h)) &&
    forall side: Side {:trigger Kept(b, side)} :: Kept(b, side)
  }

  /** The lists hold live handles, each once, the charges add up, and no handle is deleted twice or alive. */
  ghost predicate Kept(b: Books, side: Side) {
    Members(ListOf(b, side)) <= b.clients.Keys && Once(ListOf(b, side)) &&
    b.usage == Charges(b.idle) + Charges(b.busy) && Once(b.deleted) && Members(b.deleted) !! b.clients.Keys
  }

  /** The books of a cache meet what eviction relies on. */
  lemma BalancedIdle(marks: Marks, b: Books)
    requires Balanced(marks, b)
    ensures IdleOnly(b)
  {
    assert Kept(b, Idle);
    forall h | h in b.idle
      ensures h in b.clients && b.clients[h] == 0 && h !in b.busy
    {
      assert h in Members(b.idle) && CountedAt(marks, b, h);
    }
  }

  /** Every handle there ever was: the live ones and those passed to their deleter. */
  ghost function Everything(b: Books): set<LRUHandle> {
    b.clients.Keys + Members(b.deleted)
  }

  /** No operation loses a handle without passing it to its deleter. */
  lemma NothingLost(b: Books, e: LRUHandle)
    ensures e in b.clients ==> Everything(Taken(b, e)) == Everything(b) == Everything(Dropped(b, e))
    ensures e in b.clients && b.clients[e] > 0 ==> Everything(Given(b, e)) == Everything(b)
    ensures Everything(Entered(b, e)) == Everything(b) + {e}
  {
    assert Members(b.deleted + [e]) == Members(b.deleted) + {e};
  }

  const NO_BOOKS: Books := Books([], [], map[], 0, [])

  lemma NothingBalanced(marks: Marks)
    ensures Balanced(marks, NO_BOOKS)
  {
  }

  lemma TakenBalanced(marks: Marks, b: Books, e: LRUHandle)
    requires Balanced(marks, b) && e in b.clients && e in marks
    ensures Balanced(marks[e := marks[e].(refs := marks[e].refs + 1)], Taken(b, e))
  {
    assert Kept(b, Idle) && Kept(b, Busy);
    assert CountedAt(marks, b, e);
    if e in b.idle {
      MinusHas(b.idle, e);
      AppendHas(b.busy, e);
    } else {
      MinusNothing(b.idle, e);
    }
    var marks2, c := marks[e := marks[e].(refs := marks[e].refs + 1)], Taken(b, e);
    forall h {:trigger CountedAt(marks2, c, h)} | h in c.clients
      ensures CountedAt(marks2, c, h)
    {
      assert CountedAt(marks, b, h);
      Membership(b, c, h);
    }
  }

  lemma Membership(b: Books, c: Books, h: LRUHandle)
    ensures h in b.idle <==> h in Members(b.idle)
    ensures h in b.busy <==> h in Members(b.busy)
    ensures h in c.idle <==> h in Members(c.idle)
    ensures h in c.busy <==> h in Members(c.busy)
  {
  }

  lemma GivenBalanced(marks: Marks, b: Books, e: LRUHandle)
    requires Balanced(marks, b) && e in b.clients && e in marks && marks[e].refs > 0 && b.clients[e] > 0
    ensures Balanced(marks[e := marks[e].(refs := marks[e].refs - 1)], Given(b, e))
  {
    assert Kept(b, Idle) && Kept(b, Busy);
    assert CountedAt(marks, b, e);
    var marks2, c := marks[e := marks[e].(refs := marks[e].refs - 1)], Given(b, e);
    if b.clients[e] == 1 && e in b.busy {
      MinusHas(b.busy, e);
      AppendHas(b.idle, e);
    } else if b.clients[e] == 1 {
      AppendHas(b.deleted, e);
    }
    forall h {:trigger CountedAt(marks2, c, h)} | h in c.clients
      ensures CountedAt(marks2, c, h)
    {
      assert CountedAt(marks, b, h);
      Membership(b, c, h);
    }
  }

  /** The cache's reference to a handle becomes one of the caller's. */
  function Handed(b: Books, e: LRUHandle): Books
    requires e in b.clients
  {
    b.(idle := Minus(b.idle, e), busy := Minus(b.busy, e), usage := b.usage - e.charge,
       clients := b.clients[e := b.clients[e] + 1])
  }

  lemma HandedBalanced(marks: Marks, b: Books, e: LRUHandle)
    requires Balanced(marks, b) && e in b.clients && e in marks && (e in b.idle || e in b.busy)
    ensures Balanced(marks[e := marks[e].(inCache := false)], Handed(b, e))
    ensures Given(Handed(b, e), e) == Dropped(b, e)
  {
    assert Kept(b, Idle) && Kept(b, Busy);
    assert CountedAt(marks, b, e);
    if e in b.idle {
      MinusHas(b.idle, e);
      MinusNothing(b.busy, e);
    } else {
      MinusHas(b.busy, e);
      MinusNothing(b.idle, e);
    }
    var marks2, c := marks[e := marks[e].(inCache := false)], Handed(b, e);
    forall h {:trigger CountedAt(marks2, c, h)} | h in c.clients
      ensures CountedAt(marks2, c, h)
    {
      assert CountedAt(marks, b, h);
      Membership(b, c, h);
    }
    assert c.clients - {e} == b.clients - {e};
    assert c.clients[e := b.clients[e]] == b.clients;
  }

  lemma EnteredBalanced(marks: Marks, b: Books, e: LRUHandle)
    requires Balanced(marks, b) && e !in b.clients && e !in b.deleted
    ensures Balanced(marks[e := Mark(2, true)], Entered(b, e))
    ensures Balanced(marks[e := Mark(1, false)], b.(clients := b.clients[e := 1]))
  {
    assert Kept(b, Idle) && Kept(b, Busy);
    assert e !in Members(b.idle) && e !in Members(b.busy);
    AppendHas(b.busy, e);
    var marks2, c := marks[e := Mark(2, true)], Entered(b, e);
    forall h {:trigger CountedAt(marks2, c, h)} | h in c.clients
      ensures CountedAt(marks2, c, h)
    {
      assert h != e ==> CountedAt(marks, b, h);
      Membership(b, c, h);
    }
    var marks3, d := marks[e := Mark(1, false)], b.(clients := b.clients[e := 1]);
    forall h {:trigger CountedAt(marks3, d, h)} | h in d.clients
      ensures CountedAt(marks3, d, h)
    {
      assert h != e ==> CountedAt(marks, b, h);
      Membership(b, d, h);
    }
  }

  /** The two rings, whose heads are not handles of the cache. */
  ghost predicate Linked(lru: LRUHandle, inUse: LRUHandle, links: Links, b: Books) {
    forall side: Side {:trigger OnRing(lru, inUse, links, b, side)} :: OnRing(lru, inUse, links, b, side)
  }

  ghost predicate OnRing(lru: LRUHandle, inUse: LRUHandle, links: Links, b: Books, side: Side) {
    lru != inUse && {lru, inUse} <= links.Keys && {lru, inUse} !! b.clients.Keys &&
    b.clients.Keys <= links.Keys && Members(b.deleted) <= links.Keys && Members(b.idle) !! Members(b.busy) &&
    Members(ListOf(b, side)) <= b.clients.Keys && Once(ListOf(b, side)) &&
    Ring(if side.Idle? then lru else inUse, ListOf(b, side), links)
  }

  lemma NothingLinked(lru: LRUHandle, inUse: LRUHandle, links: Links)
    requires lru != inUse && lru in links && inUse in links && links[lru] == Link(lru, lru) &&
             links[inUse] == Link(inUse, inUse)
    ensures Linked(lru, inUse, links, NO_BOOKS)
  {
    EmptyRing(lru, links);
    EmptyRing(inUse, links);
  }

  /** Clients' counts may change, and a handle on no list may go, without a store to any link. */
  lemma SameRings(lru: LRUHandle, inUse: LRUHandle, links: Links, b: Books, c: Books)
    requires Linked(lru, inUse, links, b) && c.idle == b.idle && c.busy == b.busy
    requires c.clients.Keys <= b.clients.Keys && Members(c.deleted) <= links.Keys
    requires Members(b.idle) <= c.clients.Keys && Members(b.busy) <= c.clients.Keys
    ensures Linked(lru, inUse, links, c)
  {
    assert OnRing(lru, inUse, links, b, Idle) && OnRing(lru, inUse, links, b, Busy);
  }

  lemma SameUsage(lru: LRUHandle, inUse: LRUHandle, links: Links, b: Books, usage: int)
    requires Linked(lru, inUse, links, b)
    ensures Linked(lru, inUse, links, b.(usage := usage))
  {
    assert OnRing(lru, inUse, links, b, Idle) && OnRing(lru, inUse, links, b, Busy);
  }

  lemma AllLinked(lru: LRUHandle, inUse: LRUHandle, links: Links, b: Books)
    requires Linked(lru, inUse, links, b)
    ensures b.clients.Keys <= links.Keys && {lru, inUse} <= links.Keys && {lru, inUse} !! b.clients.Keys && lru != inUse
    ensures Members(b.idle) <= b.clients.Keys && Members(b.busy) <= b.clients.Keys && Members(b.idle) !! Members(b.busy)
    ensures Members(b.deleted) <= links.Keys && Ring(lru, b.idle, links)
  {
    assert OnRing(lru, inUse, links, b, Idle) && OnRing(lru, inUse, links, b, Busy);
  }

  /** Out of the list it is on. */
  function Unlisted(b: Books, e: LRUHandle): Books {
    b.(idle := Minus(b.idle, e), busy := Minus(b.busy, e))
  }

  lemma Neighbours(head: LRUHandle, items: seq<LRUHandle>, i: nat)
    requires Once(items) && head !in items && i < |items|
    ensures NodeAt(head, items, i) != items[i] && NodeAt(head, items, i + 2) != items[i]
  {
    assert i > 0 ==> Differ(items, i - 1, i);
    assert i + 1 < |items| ==> Differ(items, i, i + 1);
  }

  /** An item has neighbours, which are other handles. */
  predicate Between(links: Links, e: LRUHandle) {
    e in links && var l := links[e];
    l.next != null && l.prev != null && l.next in links && l.prev in links && l.next != e && l.prev != e
  }

  lemma BridgedRings(head: LRUHandle, items: seq<LRUHandle>, other: LRUHandle, others: seq<LRUHandle>, links: Links,
                     e: LRUHandle)
    requires Ring(head, items, links) && Ring(other, others, links) && Once(items) && e in items
    requires head != other && {head, other} !! Members(items) && {head, other} !! Members(others) &&
             Members(items) !! Members(others)
    ensures e in links && e !in others && Minus(others, e) == others
    ensures Ring(head, Minus(items, e), Bridged(links, e)) && Ring(other, others, Bridged(links, e))
    ensures Between(links, e)
  {
    assert head !in Members(items) && e in Members(items) && e !in Members(others);
    var i := IndexOf(items, e);
    MinusIsWithout(items, i);
    MinusNothing(others, e);
    NeighboursOnRing(head, items, links, i);
    RemoveKeepsRing(head, items, links, i);
    var a, c := NodeAt(head, items, i), NodeAt(head, items, i + 2);
    assert a == head || a in Members(items);
    assert c == head || c in Members(items);
    assert Joined(head, items, links, i) && Joined(head, items, links, i + 1);
    Neighbours(head, items, i);
    HeadOnRing(other, others, links);
    forall n | n == other || n in others
      ensures n in links && Bridged(links, e)[n] == links[n]
    {
      assert n == other || n in Members(others);
      if n in others {
        var j := IndexOf(others, n);
        NeighboursOnRing(other, others, links, j);
      }
    }
    OtherRing(other, others, links, Bridged(links, e));
  }

  lemma UnlinkKeeps(lru: LRUHandle, inUse: LRUHandle, links: Links, b: Books, e: LRUHandle)
    requires Linked(lru, inUse, links, b) && (e in b.idle || e in b.busy)
    ensures e in links && Linked(lru, inUse, Bridged(links, e), Unlisted(b, e)) && Between(links, e)
    ensures e in b.clients && e !in Unlisted(b, e).idle && e !in Unlisted(b, e).busy
  {
    assert OnRing(lru, inUse, links, b, Idle) && OnRing(lru, inUse, links, b, Busy);
    assert e in Members(b.idle) || e in Members(b.busy);
    if e in b.idle {
      BridgedRings(lru, b.idle, inUse, b.busy, links, e);
      MinusHas(b.idle, e);
    } else {
      BridgedRings(inUse, b.busy, lru, b.idle, links, e);
      MinusHas(b.busy, e);
    }
    assert e !in Members(Unlisted(b, e).idle) && e !in Members(Unlisted(b, e).busy);
  }

  lemma AttachedRings(head: LRUHandle, items: seq<LRUHandle>, other: LRUHandle, others: seq<LRUHandle>, links: Links,
                      e: LRUHandle)
    requires Ring(head, items, links) && Ring(other, others, links) && Once(items) && e in links
    requires head != other && {head, other, e} !! Members(items) && {head, other, e} !! Members(others) && e != head &&
             e != other
    requires Members(items) !! Members(others)
    ensures head in links && Ring(head, items + [e], Attached(links, head, e)) &&
            Ring(other, others, Attached(links, head, e))
    ensures links[head].prev != null && links[head].prev in links && links[head].prev != e
  {
    assert head !in Members(items) && e !in Members(items);
    HeadOnRing(head, items, links);
    AppendKeepsRing(head, items, links, e);
    HeadOnRing(other, others, links);
    var z := NodeAt(head, items, |items|);
    assert Joined(head, items, links, |items|);
    assert z == head || z in Members(items);
    forall n | n == other || n in others
      ensures n in links && Attached(links, head, e)[n] == links[n]
    {
      assert n == other || n in Members(others);
      if n in others {
        var j := IndexOf(others, n);
        NeighboursOnRing(other, others, links, j);
      }
    }
    OtherRing(other, others, links, Attached(links, head, e));
  }

  predicate Attachable(links: Links, head: LRUHandle, e: LRUHandle) {
    head in links && e in links && e != head && var z := links[head].prev; z != null && z in links && z != e
  }

  lemma AppendKeeps(lru: LRUHandle, inUse: LRUHandle, links: Links, b: Books, e: LRUHandle)
    requires Linked(lru, inUse, links, b) && e in b.clients && e !in b.idle && e !in b.busy
    ensures Linked(lru, inUse, Attached(links, lru, e), b.(idle := b.idle + [e]))
    ensures Linked(lru, inUse, Attached(links, inUse, e), b.(busy := b.busy + [e]))
    ensures Attachable(links, lru, e) && Attachable(links, inUse, e)
  {
    assert OnRing(lru, inUse, links, b, Idle) && OnRing(lru, inUse, links, b, Busy);
    assert e !in Members(b.idle) && e !in Members(b.busy);
    AttachedRings(lru, b.idle, inUse, b.busy, links, e);
    AttachedRings(inUse, b.busy, lru, b.idle, links, e);
    AppendHas(b.idle, e);
    AppendHas(b.busy, e);
  }

  class LRUCache {
    const capacity: nat
    const lru: LRUHandle
    const inUse: LRUHandle
    const table: HandleTable
    var usage: int
    /** The handles passed to their deleter so far. */
    var deleted: seq<LRUHandle>
    ghost var books: Books
    ghost var nodes: set<LRUHandle>

    ghost predicate Valid()
      reads this, table, nodes
    {
      Tabled({}) && Sound()
    }

    /** The lists hold what the table holds, and the handles that are about to leave. */
    ghost predicate Tabled(leaving: set<LRUHandle>)
      reads this, table
    {
      table.Valid() && table.all == Members(books.idle) + Members(books.busy) - leaving
    }

    ghost predicate Sound()
      reads this, nodes
    {
      Linked(lru, inUse, LinksOf(nodes), books) && Balanced(MarksOf(nodes), books) && Recorded()
    }

    ghost predicate Recorded()
      reads this
    {
      usage == books.usage && deleted == books.deleted
    }

    constructor (capacity: nat)
      ensures Valid() && books == NO_BOOKS && this.capacity == capacity
      ensures fresh(nodes) && fresh(table)
    {
      var a := new LRUHandle([], 0, 0, 0);
      var b := new LRUHandle([], 0, 0, 0);
      a.next, a.prev, b.next, b.prev := a, a, b, b;
      lru, inUse, nodes := a, b, {a, b};
      table := new HandleTable();
      this.capacity, usage, deleted, books := capacity, 0, [], NO_BOOKS;
      new;
      NothingLinked(lru, inUse, LinksOf(nodes));
      NothingBalanced(MarksOf(nodes));
      assert Members(books.idle) == Members(books.busy) == {};
    }

    method Remove(e: LRUHandle)
      requires Between(LinksOf(nodes), e)
      modifies nodes
      ensures LinksOf(nodes) == Bridged(old(LinksOf(nodes)), e) && MarksOf(nodes) == old(MarksOf(nodes))
    {
      e.next.prev := e.prev;
      e.prev.next := e.next;
    }

    method Append(list: LRUHandle, e: LRUHandle)
      requires Attachable(LinksOf(nodes), list, e)
      modifies nodes
      ensures LinksOf(nodes) == Attached(old(LinksOf(nodes)), list, e) && MarksOf(nodes) == old(MarksOf(nodes))
    {
      e.next := list;
      e.prev := list.prev;
      e.prev.next := e;
      e.next.prev := e;
    }

    // ---------------------------------------------------------------- references

    /** Takes a handle out of the list it is on. */
    method Unlink(e: LRUHandle)
      requires Linked(lru, inUse, LinksOf(nodes), books) && (e in books.idle || e in books.busy)
      modifies this`books, nodes
      ensures Linked(lru, inUse, LinksOf(nodes), books) && books == Unlisted(old(books), e)
      ensures MarksOf(nodes) == old(MarksOf(nodes)) && e in books.clients && e !in books.idle && e !in books.busy
    {
      UnlinkKeeps(lru, inUse, LinksOf(nodes), books, e);
      Remove(e);
      books := Unlisted(books, e);
    }

    method ToBusy(e: LRUHandle)
      requires Linked(lru, inUse, LinksOf(nodes), books) && e in books.clients && e !in books.idle && e !in books.busy
      modifies this`books, nodes
      ensures Linked(lru, inUse, LinksOf(nodes), books) && MarksOf(nodes) == old(MarksOf(nodes))
      ensures books == old(books).(busy := old(books).busy + [e])
    {
      AppendKeeps(lru, inUse, LinksOf(nodes), books, e);
      books := books.(busy := books.busy + [e]);
      Append(inUse, e);
    }

    method ToIdle(e: LRUHandle)
      requires Linked(lru, inUse, LinksOf(nodes), books) && e in books.clients && e !in books.idle && e !in books.busy
      modifies this`books, nodes
      ensures Linked(lru, inUse, LinksOf(nodes), books) && MarksOf(nodes) == old(MarksOf(nodes))
      ensures books == old(books).(idle := old(books).idle + [e])
    {
      AppendKeeps(lru, inUse, LinksOf(nodes), books, e);
      books := books.(idle := books.idle + [e]);
      Append(lru, e);
    }

    /** From the idle handles to the end of the busy ones. */
    method MakeBusy(e: LRUHandle)
      requires Linked(lru, inUse, LinksOf(nodes), books) && e in books.idle
      modifies this`books, nodes
      ensures Linked(lru, inUse, LinksOf(nodes), books) && MarksOf(nodes) == old(MarksOf(nodes))
      ensures books == old(books).(idle := Minus(old(books).idle, e), busy := old(books).busy + [e])
    {
      AllLinked(lru, inUse, LinksOf(nodes), books);
      NotBoth(books.idle, books.busy, e);
      Unlink(e);
      ToBusy(e);
    }

    /** From the busy handles to the end of the idle ones: the newest of them. */
    method MakeIdle(e: LRUHandle)
      requires Linked(lru, inUse, LinksOf(nodes), books) && e in books.busy
      modifies this`books, nodes
      ensures Linked(lru, inUse, LinksOf(nodes), books) && MarksOf(nodes) == old(MarksOf(nodes))
      ensures books == old(books).(idle := old(books).idle + [e], busy := Minus(old(books).busy, e))
    {
      AllLinked(lru, inUse, LinksOf(nodes), books);
      NotBoth(books.busy, books.idle, e);
      Unlink(e);
      ToIdle(e);
    }

    method SetMark(e: LRUHandle, refs: nat, inCache: bool)
      requires e in nodes
      modifies e`refs, e`inCache
      ensures LinksOf(nodes) == old(LinksOf(nodes)) && MarksOf(nodes) == old(MarksOf(nodes))[e := Mark(refs, inCache)]
      ensures e.refs == refs && e.inCache == inCache
    {
      e.refs, e.inCache := refs, inCache;
    }

    /** A handle's count, and what its clients hold. A handle without clients and outside the lists is gone. */
    method SetRefs(e: LRUHandle, refs: nat, ghost left: nat)
      requires Recorded() && Linked(lru, inUse, LinksOf(nodes), books) && e in books.clients &&
               (refs == 0 ==> e !in books.idle && e !in books.busy)
      modifies this`deleted, this`books, e`refs, e`inCache
      ensures Recorded() && Linked(lru, inUse, LinksOf(nodes), books)
      ensures MarksOf(nodes) == old(MarksOf(nodes))[e := Mark(refs, e.inCache)] && e.refs == refs &&
              e.inCache == old(e.inCache)
      ensures books ==
              if refs == 0 then old(books).(clients := old(books).clients - {e}, deleted := old(books).deleted + [e])
              else old(books).(clients := old(books).clients[e := left])
    {
      hide Linked;
      AllLinked(lru, inUse, LinksOf(nodes), books);
      ghost var links := LinksOf(nodes);
      SetMark(e, refs, e.inCache);
      ghost var b := books;
      if refs == 0 {
        assert e !in Members(books.idle) && e !in Members(books.busy);
        assert Members(b.deleted + [e]) == Members(b.deleted) + {e};
        deleted := deleted + [e];
        books := b.(clients := b.clients - {e}, deleted := b.deleted + [e]);
      } else {
        books := b.(clients := b.clients[e := left]);
      }
      SameRings(lru, inUse, links, b, books);
      assert LinksOf(nodes) == links;
    }

    method Ref(e: LRUHandle)
      requires Sound() && e in books.clients
      modifies this`deleted, this`books, nodes
      ensures Sound() && books == Taken(old(books), e)
    {
      hide Linked, Balanced;
      InNodes(e);
      TakenBalanced(MarksOf(nodes), books, e);
      if e.refs == 1 && e.inCache {
        MakeBusy(e);
      } else {
        MinusNothing(books.idle, e);
      }
      SetRefs(e, e.refs + 1, books.clients[e] + 1);
    }

    method Unref(e: LRUHandle)
      requires Sound() && e in books.clients && books.clients[e] > 0
      modifies this`deleted, this`books, nodes
      ensures Sound() && books == Given(old(books), e)
    {
      hide Linked, Balanced;
      InNodes(e);
      GivenBalanced(MarksOf(nodes), books, e);
      SetRefs(e, e.refs - 1, books.clients[e] - 1);
      if e.refs > 0 && e.inCache && e.refs == 1 {
        MakeIdle(e);
      }
    }

    lemma InNodes(e: LRUHandle)
      requires Sound() && e in books.clients
      ensures e in nodes && Counted(Mark(e.refs, e.inCache), books.clients[e], e in books.idle, e in books.busy)
    {
      AllLinked(lru, inUse, LinksOf(nodes), books);
      assert CountedAt(MarksOf(nodes), books, e);
    }

    // ---------------------------------------------------------------- the cache's interface

    /** Finishes removing a handle that has already left the table. */
    method FinishErase(e: LRUHandle?) returns (erased: bool)
      requires Sound() && Tabled(if e == null then {} else {e}) && (e != null ==> e in books.idle || e in books.busy)
      modifies this`deleted, this`usage, this`books, nodes
      ensures Valid() && erased == (e != null)
      ensures books == if e == null then old(books) else Left(old(books), e)
    {
      if e != null {
        Drop(e);
      }
      return e != null;
    }

    method Drop(e: LRUHandle)
      requires Sound() && (e in books.idle || e in books.busy)
      modifies this`deleted, this`usage, this`books, nodes
      ensures Sound() && books == Left(old(books), e)
      ensures Members(books.idle) + Members(books.busy) == old(Members(books.idle) + Members(books.busy)) - {e}
    {
      hide Linked, Balanced;
      ListedIsLive(e);
      LeftMembers(MarksOf(nodes), books, e);
      HandedBalanced(MarksOf(nodes), books, e);
      Unlink(e);
      LeaveCache(e);
      Unref(e);
    }

    /** The cache's own reference is handed to the caller. */
    method LeaveCache(e: LRUHandle)
      requires Recorded() && Linked(lru, inUse, LinksOf(nodes), books) && e in books.clients && e in nodes
      modifies this`usage, this`books, e`refs, e`inCache
      ensures Recorded() && Linked(lru, inUse, LinksOf(nodes), books)
      ensures MarksOf(nodes) == old(MarksOf(nodes))[e := Mark(e.refs, false)] && e.refs == old(e.refs)
      ensures books ==
              old(books).(clients := old(books).clients[e := old(books).clients[e] + 1],
                          usage := old(books).usage - e.charge)
    {
      hide Linked;
      AllLinked(lru, inUse, LinksOf(nodes), books);
      ghost var links, b := LinksOf(nodes), books;
      SetMark(e, e.refs, false);
      usage := usage - e.charge;
      books := b.(clients := b.clients[e := b.clients[e] + 1], usage := b.usage - e.charge);
      SameRings(lru, inUse, links, b, books);
      assert LinksOf(nodes) == links;
    }

    method Lookup(key: Bytes, hash: nat) returns (e: LRUHandle?)
      requires Valid()
      modifies this`deleted, this`books, nodes
      ensures Valid() && table.all == old(table.all)
      ensures if e == null then books == old(books) && forall h | h in table.all :: !h.Matches(key, hash)
              else e in table.all && e.Matches(key, hash) && e in old(books).clients && books == Taken(old(books), e)
    {
      e := table.Lookup(key, hash);
      if e != null {
        TabledIsLive(e);
        TakenMembers(MarksOf(nodes), books, e);
        Ref(e);
      }
    }

    method Release(handle: LRUHandle)
      requires Valid() && handle in books.clients && books.clients[handle] > 0
      modifies this`deleted, this`books, nodes
      ensures Valid() && table.all == old(table.all) && books == Given(old(books), handle)
    {
      GivenMembers(MarksOf(nodes), books, handle);
      Unref(handle);
    }

    method Erase(key: Bytes, hash: nat)
      requires Valid()
      modifies this`deleted, this`usage, this`books, nodes, table
      ensures Valid() && table.all <= old(table.all) && forall h | h in table.all :: !h.Matches(key, hash)
      ensures forall h | h in old(table.all) :: h.Matches(key, hash) <==> h !in table.all
      ensures books == old(books) || exists h ::
                h in old(table.all) && h.Matches(key, hash) && books == Left(old(books), h)
    {
      var e := table.Remove(key, hash);
      if e != null {
        assert e in Members(books.idle) || e in Members(books.busy);
      }
      var erased := FinishErase(e);
    }

    /** A new handle, referred to by the client that inserts it. */
    method Register(e: LRUHandle)
      requires Sound() && e !in nodes && e.refs == 1 && !e.inCache && e.next == null && e.prev == null
      modifies this`books, this`nodes
      ensures Sound() && nodes == old(nodes) + {e} && e !in old(books).clients && e !in books.idle && e !in books.busy
      ensures books == old(books).(clients := old(books).clients[e := 1])
      ensures Balanced(MarksOf(nodes)[e := Mark(2, true)], Entered(old(books), e))
    {
      ghost var b, links, marks := books, LinksOf(nodes), MarksOf(nodes);
      AllLinked(lru, inUse, links, b);
      assert e !in Members(books.idle) && e !in Members(books.busy) && e !in Members(books.deleted);
      EnteredBalanced(marks, b, e);
      NewNode(lru, inUse, links, b, e);
      nodes := nodes + {e};
      books := b.(clients := b.clients[e := 1]);
      assert LinksOf(nodes) == links[e := Link(null, null)];
      assert MarksOf(nodes) == marks[e := Mark(1, false)];
      assert MarksOf(nodes)[e := Mark(2, true)] == marks[e := Mark(2, true)];
    }

    /** The cache takes its own reference to a new handle. */
    method Cache(e: LRUHandle)
      requires Recorded() && Linked(lru, inUse, LinksOf(nodes), books) && e in books.clients && e !in books.idle &&
               e !in books.busy && e in nodes
      modifies this`usage, this`books, nodes
      ensures Recorded() && Linked(lru, inUse, LinksOf(nodes), books) &&
              MarksOf(nodes) == old(MarksOf(nodes))[e := Mark(2, true)]
      ensures books == old(books).(busy := old(books).busy + [e], usage := old(books).usage + e.charge)
    {
      usage := usage + e.charge;
      SameUsage(lru, inUse, LinksOf(nodes), books, usage);
      books := books.(usage := usage);
      SetMark(e, 2, true);
      ToBusy(e);
    }

    method Enter(e: LRUHandle)
      requires Sound() && e !in nodes && e.refs == 1 && !e.inCache && e.next == null && e.prev == null
      modifies this`usage, this`books, this`nodes, nodes, e
      ensures Sound() && nodes == old(nodes) + {e} && books == Entered(old(books), e)
    {
      hide Linked, Balanced;
      Register(e);
      Cache(e);
    }

    lemma NotYetThere(e: LRUHandle)
      requires Valid() && e !in nodes
      ensures e !in table.all && e !in books.idle && e !in books.busy
    {
      AllLinked(lru, inUse, LinksOf(nodes), books);
      assert e !in Members(books.idle) && e !in Members(books.busy);
    }

    /** The new handle goes into the table. */
    method Tabulate(e: LRUHandle) returns (replaced: LRUHandle?)
      requires Valid() && e !in nodes && e.refs == 1 && !e.inCache && e.next == null && e.prev == null
      modifies this`usage, this`books, this`nodes, nodes, table, e
      ensures Sound() && nodes == old(nodes) + {e} && books == Entered(old(books), e)
      ensures Tabled(if replaced == null then {} else {replaced}) && Replaces(old(table.all), e.key, e.hash, replaced)
      ensures replaced != null ==> replaced in books.idle || replaced in books.busy
    {
      hide Linked, Balanced;
      ghost var b, all := books, table.all;
      NotYetThere(e);
      Enter(e);
      replaced := table.Insert(e);
      PlacedTabled(b, e, all, replaced, table.all);
    }

    /** The oldest idle handle leaves the cache. */
    method EvictOldest()
      requires Valid() && books.idle != []
      modifies this`deleted, this`usage, this`books, nodes, table
      ensures Valid() && books == Left(old(books), old(books).idle[0]) && old(books).idle[0] in old(books).clients
      ensures table.all == old(table.all) - {old(books).idle[0]} && |books.idle| < |old(books).idle|
    {
      Oldest();
      hide Linked, Balanced;
      var old' := lru.next;
      var e := table.Remove(old'.key, old'.hash);
      var erased := FinishErase(e);
      MinusShorter(old(books).idle, e);
    }

    /** The idle handle after the head is the first, and it is in the table. */
    lemma Oldest()
      requires Valid() && books.idle != []
      ensures lru.next == books.idle[0] && books.idle[0] in books.clients && books.idle[0] in nodes
      ensures books.idle[0] in Members(books.idle) && books.idle[0] in table.all
    {
      AllLinked(lru, inUse, LinksOf(nodes), books);
      HeadOnRing(lru, books.idle, LinksOf(nodes));
      ListedIsLive(books.idle[0]);
      assert books.idle[0] in Members(books.idle);
    }

    lemma OldestOrHead()
      requires Sound()
      ensures lru in nodes && (lru.next == lru <==> books.idle == [])
    {
      AllLinked(lru, inUse, LinksOf(nodes), books);
      HeadOnRing(lru, books.idle, LinksOf(nodes));
      assert books.idle != [] ==> books.idle[0] in Members(books.idle);
    }

    /** Drops every idle handle. */
    method Prune()
      requires Valid()
      modifies this`deleted, this`usage, this`books, nodes, table
      ensures Valid() && books.idle == [] && books == Evicted(old(books), -1) && table.all <= old(table.all)
    {
      OldestOrHead();
      while lru.next != lru
        invariant Valid() && nodes == old(nodes) && (lru.next == lru <==> books.idle == []) &&
                  table.all <= old(table.all)
        invariant Evicted(books, -1) == Evicted(old(books), -1)
        decreases |books.idle|
      {
        UsageIsSum();
        EvictOldest();
        OldestOrHead();
      }
    }

    lemma UsageIsSum()
      requires Sound()
      ensures books.usage == Charges(books.idle) + Charges(books.busy) >= 0
    {
      assert Kept(books, Idle);
    }

    /** Adds an entry in place of the one for the same key, if any, then drops idle handles until the charges
        are within the capacity or no idle handle is left. */
    method Insert(key: Bytes, hash: nat, value: int, charge: nat) returns (e: LRUHandle, ghost replaced: LRUHandle?)
      requires Valid()
      modifies this`deleted, this`usage, this`books, this`nodes, nodes, table
      ensures Valid() && fresh(e) && e.key == key && e.hash == hash && e.value == value && e.charge == charge
      ensures books.usage <= capacity || books.idle == []
      ensures if capacity > 0 then Replaces(old(table.all), key, hash, replaced) else replaced == null
      ensures books == Evicted(Placed(old(books), e, capacity > 0, replaced), capacity)
      ensures nodes == old(nodes) + {e}
    {
      hide Linked, Balanced, Evicted, Replaces, LRUHandle.Matches;
      e := new LRUHandle(key, hash, value, charge);
      replaced := null;
      if capacity > 0 {
        replaced := InsertNew(e);
      } else {
        Register(e);
      }
      EvictToCapacity();
    }

    /** The new handle goes into the table, and the one it replaces leaves the cache. */
    method InsertNew(e: LRUHandle) returns (replaced: LRUHandle?)
      requires Valid() && e !in nodes && e.refs == 1 && !e.inCache && e.next == null && e.prev == null
      modifies this`deleted, this`usage, this`books, this`nodes, nodes, table, e
      ensures Valid() && nodes == old(nodes) + {e} && Replaces(old(table.all), e.key, e.hash, replaced)
      ensures books == if replaced == null then Entered(old(books), e) else Left(Entered(old(books), e), replaced)
    {
      hide *;
      replaced := Tabulate(e);
      var erased := FinishErase(replaced);
    }

    method EvictToCapacity()
      requires Valid()
      modifies this`deleted, this`usage, this`books, nodes, table
      ensures Valid() && books == Evicted(old(books), capacity) && (books.usage <= capacity || books.idle == [])
    {
      hide Linked, Balanced, Evicted;
      ghost var result := Evicted(books, capacity);
      OldestOrHead();
      while usage > capacity && lru.next != lru
        invariant Valid() && nodes == old(nodes) && (lru.next == lru <==> books.idle == []) &&
                  Evicted(books, capacity) == result
        decreases |books.idle|
      {
        EvictedOne(books, capacity);
        EvictOldest();
        OldestOrHead();
      }
      EvictedOne(books, capacity);
    }

    lemma TabledIsLive(e: LRUHandle)
      requires Sound() && Tabled({}) && e in table.all
      ensures e in books.clients && (e in books.idle || e in books.busy)
    {
      assert e in Members(books.idle) || e in Members(books.busy);
      ListedIsLive(e);
    }

    lemma ListedIsLive(e: LRUHandle)
      requires Sound() && (e in books.idle || e in books.busy)
      ensures e in books.clients && e in nodes
    {
      AllLinked(lru, inUse, LinksOf(nodes), books);
      assert e in Members(books.idle) || e in Members(books.busy);
    }
  }

  ghost predicate NoMatch(all: set<LRUHandle>, key: Bytes, hash: nat) {
    forall h | h in all :: !h.Matches(key, hash)
  }

  /** The handle a new one for the same key replaces, or null. */
  ghost predicate Replaces(all: set<LRUHandle>, key: Bytes, hash: nat, replaced: LRUHandle?) {
    if replaced == null then NoMatch(all, key, hash) else replaced in all && replaced.Matches(key, hash)
  }

  /** The table after the new handle came in, against the lists. */
  lemma PlacedTabled(b: Books, e: LRUHandle, all: set<LRUHandle>, replaced: LRUHandle?, all2: set<LRUHandle>)
    requires all == Members(b.idle) + Members(b.busy) && e !in b.idle && e !in b.busy
    requires if replaced == null then all2 == all + {e} else replaced in all && all2 == all - {replaced} + {e}
    ensures all2 == Members(b.idle) + Members(b.busy + [e]) - if replaced == null then {} else {replaced}
    ensures replaced != null ==> replaced in b.idle || replaced in b.busy + [e]
  {
    AppendMembers(b.busy, e);
    if replaced != null {
      assert replaced in Members(b.idle) || replaced in Members(b.busy);
    }
  }

  /** The books with the new handle, before anything is evicted. */
  function Placed(b: Books, e: LRUHandle, cache: bool, replaced: LRUHandle?): Books {
    if !cache then b.(clients := b.clients[e := 1])
    else if replaced == null then Entered(b, e)
    else Left(Entered(b, e), replaced)
  }

  lemma NewNode(lru: LRUHandle, inUse: LRUHandle, links: Links, b: Books, e: LRUHandle)
    requires Linked(lru, inUse, links, b) && e !in links
    ensures Linked(lru, inUse, links[e := Link(null, null)], b.(clients := b.clients[e := 1]))
  {
    var more := links[e := Link(null, null)];
    assert OnRing(lru, inUse, links, b, Idle) && OnRing(lru, inUse, links, b, Busy);
    forall h | h in b.idle || h in b.busy
      ensures h in links && h != e
    {
      assert h in Members(b.idle) || h in Members(b.busy);
    }
    OtherRing(lru, b.idle, links, more);
    OtherRing(inUse, b.busy, links, more);
  }

  lemma {:induction false} MinusShorter(items: seq<LRUHandle>, e: LRUHandle)
    requires e in items
    ensures |Minus(items, e)| < |items|
  {
    if items[0] != e {
      MinusShorter(items[1..], e);
    }
  }

  lemma AppendMembers(items: seq<LRUHandle>, e: LRUHandle)
    ensures Members(items + [e]) == Members(items) + {e}
  {
  }

  lemma TakenMembers(marks: Marks, b: Books, e: LRUHandle)
    requires Balanced(marks, b) && e in b.clients
    ensures Members(Taken(b, e).idle) + Members(Taken(b, e).busy) == Members(b.idle) + Members(b.busy)
  {
    assert Kept(b, Idle) && Kept(b, Busy) && CountedAt(marks, b, e);
    if e in b.idle {
      MinusHas(b.idle, e);
      AppendHas(b.busy, e);
    } else {
      MinusNothing(b.idle, e);
    }
  }

  lemma GivenMembers(marks: Marks, b: Books, e: LRUHandle)
    requires Balanced(marks, b) && e in b.clients && b.clients[e] > 0
    ensures Members(Given(b, e).idle) + Members(Given(b, e).busy) == Members(b.idle) + Members(b.busy)
  {
    assert Kept(b, Idle) && Kept(b, Busy) && CountedAt(marks, b, e);
    if e in b.busy {
      MinusHas(b.busy, e);
      AppendHas(b.idle, e);
    }
  }

  lemma LeftMembers(marks: Marks, b: Books, e: LRUHandle)
    requires Balanced(marks, b) && e in b.clients && (e in b.idle || e in b.busy)
    ensures Members(Left(b, e).idle) + Members(Left(b, e).busy) == Members(b.idle) + Members(b.busy) - {e}
  {
    assert Kept(b, Idle) && Kept(b, Busy) && CountedAt(marks, b, e);
    if e in b.idle {
      MinusHas(b.idle, e);
      MinusNothing(b.busy, e);
    } else {
      MinusHas(b.busy, e);
      MinusNothing(b.idle, e);
    }
    assert e !in b.idle ==> e !in Members(b.idle);
    assert e !in b.busy ==> e !in Members(b.busy);
  }

  lemma NotBoth(a: seq<LRUHandle>, b: seq<LRUHandle>, e: LRUHandle)
    requires Members(a) !! Members(b) && e in a
    ensures e !in b && Minus(b, e) == b
  {
    assert e in Members(a) && e !in Members(b);
    MinusNothing(b, e);
  }
}
