// The circular doubly-linked lists that run through the cache's handles (util/cache.cc).

module Rings {
  import opened HandleTables

  datatype Link = Link(next: LRUHandle?, prev: LRUHandle?)

  /** The link fields of some handles, as a value. */
  type Links = map<LRUHandle, Link>

  ghost function LinksOf(nodes: set<LRUHandle>): Links
    reads nodes
  {
    map n | n in nodes :: Link(n.next, n.prev)
  }

  /** The p-th node of a ring: its head, then its items, then the head again. */
  function NodeAt(head: LRUHandle, items: seq<LRUHandle>, p: nat): LRUHandle {
    if 0 < p <= |items| then items[p - 1] else head
  }

  ghost predicate Ring(head: LRUHandle, items: seq<LRUHandle>, links: Links) {
    forall p {:trigger Joined(head, items, links, p)} | 0 <= p <= |items| :: Joined(head, items, links, p)
  }

  ghost predicate Joined(head: LRUHandle, items: seq<LRUHandle>, links: Links, p: nat) {
    var n, m := NodeAt(head, items, p), NodeAt(head, items, p + 1);
    n in links && m in links && links[n].next == m && links[m].prev == n
  }

  ghost predicate Distinct(head: LRUHandle, items: seq<LRUHandle>) {
    head !in items && Once(items)
  }

  ghost predicate Once(items: seq<LRUHandle>) {
    forall i, j {:trigger Differ(items, i, j)} | 0 <= i < j < |items| :: Differ(items, i, j)
  }

  predicate Differ(items: seq<LRUHandle>, i: nat, j: nat)
    requires i < |items| && j < |items|
  {
    items[i] != items[j]
  }

  function Without(items: seq<LRUHandle>, i: nat): seq<LRUHandle>
    requires i < |items|
  {
    items[..i] + items[i + 1..]
  }

  lemma EmptyRing(head: LRUHandle, links: Links)
    requires head in links && links[head] == Link(head, head)
    ensures Ring(head, [], links) && Distinct(head, [])
  {
  }

  /** What LRU_Remove leaves: the neighbours of `e` point at each other. */
  function Bridged(links: Links, e: LRUHandle): Links
    requires e in links
  {
    map n | n in links :: Link(if links[e].prev == n then links[e].next else links[n].next,
                               if links[e].next == n then links[e].prev else links[n].prev)
  }

  /** What LRU_Append leaves: `e` is just before the head. */
  function Attached(links: Links, head: LRUHandle, e: LRUHandle): Links {
    if head !in links then links
    else
      map n | n in links ::
        if n == e then Link(head, links[head].prev)
        else Link(if links[head].prev == n then e else links[n].next, if n == head then e else links[n].prev)
  }

  lemma NodesApart(head: LRUHandle, items: seq<LRUHandle>, p: nat, q: nat)
    requires Distinct(head, items) && p <= |items| && q <= |items|
    ensures NodeAt(head, items, p) == NodeAt(head, items, q) <==> p == q
  {
    if 0 < p < q {
      assert Differ(items, p - 1, q - 1);
    } else if 0 < q < p {
      assert Differ(items, q - 1, p - 1);
    }
  }

  /** Bridging an item's neighbours takes it out of the ring. */
  lemma RemoveKeepsRing(head: LRUHandle, items: seq<LRUHandle>, links: Links, i: nat)
    requires Ring(head, items, links) && Distinct(head, items) && i < |items| && items[i] in links
    ensures Ring(head, Without(items, i), Bridged(links, items[i]))
  {
    var rest, after := Without(items, i), Bridged(links, items[i]);
    assert Joined(head, items, links, i) && Joined(head, items, links, i + 1);
    forall p {:trigger Joined(head, rest, after, p)} | 0 <= p <= |rest|
      ensures Joined(head, rest, after, p)
    {
      var q := if p <= i then p else p + 1;
      assert Joined(head, items, links, q);
      assert NodeAt(head, rest, p) == NodeAt(head, items, q);
      assert NodeAt(head, rest, p + 1) == if p < i then NodeAt(head, items, p + 1) else NodeAt(head, items, p + 2);
      NodesApart(head, items, q, i);
      if p != i {
        var c := if i + 2 > |items| then 0 else i + 2;
        var m := if q + 1 > |items| then 0 else q + 1;
        NodesApart(head, items, m, c);
      }
    }
  }

  /** Attaching an item before the head makes it the last of the ring. */
  lemma AppendKeepsRing(head: LRUHandle, items: seq<LRUHandle>, links: Links, e: LRUHandle)
    requires Ring(head, items, links) && Distinct(head, items) && e != head && e !in items && e in links &&
             head in links
    ensures Ring(head, items + [e], Attached(links, head, e))
  {
    var more, after := items + [e], Attached(links, head, e);
    assert Joined(head, items, links, |items|);
    forall p {:trigger Joined(head, more, after, p)} | 0 <= p <= |more|
      ensures Joined(head, more, after, p)
    {
      if p < |items| {
        assert Joined(head, items, links, p);
        NodesApart(head, items, p, |items|);
        NodesApart(head, items, p + 1, 0);
        assert NodeAt(head, more, p) == NodeAt(head, items, p) &&
               NodeAt(head, more, p + 1) == NodeAt(head, items, p + 1);
      } else if p == |items| {
        assert NodeAt(head, more, p) == NodeAt(head, items, p) && NodeAt(head, more, p + 1) == e;
      } else {
        assert NodeAt(head, more, p) == e && NodeAt(head, more, p + 1) == head;
      }
    }
  }

  /** Stores to other handles leave a ring as it is. */
  lemma OtherRing(head: LRUHandle, items: seq<LRUHandle>, before: Links, after: Links)
    requires Ring(head, items, before) && before.Keys <= after.Keys
    requires head in before && after[head] == before[head] && forall n | n in items ::
               n in before && after[n] == before[n]
    ensures Ring(head, items, after)
  {
    forall p {:trigger Joined(head, items, after, p)} | 0 <= p <= |items|
      ensures Joined(head, items, after, p)
    {
      assert Joined(head, items, before, p);
    }
  }

  /** The neighbours of an item are on its own ring. */
  lemma NeighboursOnRing(head: LRUHandle, items: seq<LRUHandle>, links: Links, i: nat)
    requires Ring(head, items, links) && i < |items|
    ensures items[i] in links
    ensures links[items[i]].next == NodeAt(head, items, i + 2) && links[items[i]].prev == NodeAt(head, items, i)
  {
    assert Joined(head, items, links, i) && Joined(head, items, links, i + 1);
  }

  lemma HeadOnRing(head: LRUHandle, items: seq<LRUHandle>, links: Links)
    requires Ring(head, items, links)
    ensures head in links && links[head].prev == NodeAt(head, items, |items|) &&
            links[head].next == NodeAt(head, items, 1)
  {
    assert Joined(head, items, links, |items|) && Joined(head, items, links, 0);
  }
}
