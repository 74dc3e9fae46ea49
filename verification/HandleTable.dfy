// The hash table inside the cache (util/cache.cc). A chain of next_hash pointers is a sequence here.

module HandleTables {
  import opened Keys

  /** A cache entry. Its links and reference count change; what it caches does not. */
  class LRUHandle {
    const key: Bytes
    const hash: nat
    const value: int
    const charge: nat
    var refs: nat
    var inCache: bool
    var next: LRUHandle?
    var prev: LRUHandle?

    constructor (key: Bytes, hash: nat, value: int, charge: nat)
      ensures this.key == key && this.hash == hash && this.value == value && this.charge == charge
      ensures refs == 1 && !inCache && next == null && prev == null
    {
      this.key, this.hash, this.value, this.charge := key, hash, value, charge;
      refs, inCache, next, prev := 1, false, null, null;
    }

    predicate Matches(key: Bytes, hash: nat) {
      this.key == key && this.hash == hash
    }
  }

  type Chain = seq<LRUHandle>

  /** Buckets that hold exactly the handles of `all`, each in the bucket of its hash. */
  ghost predicate Holds(buckets: seq<Chain>, all: set<LRUHandle>) {
    buckets != [] &&
    (forall b {:trigger BucketAt(buckets, all, b)} | 0 <= b < |buckets| :: BucketAt(buckets, all, b)) &&
    forall h {:trigger InBucket(buckets, h)} | h in all :: InBucket(buckets, h)
  }

  ghost predicate BucketAt(buckets: seq<Chain>, all: set<LRUHandle>, b: nat)
    requires b < |buckets|
  {
    Apart(buckets[b]) && forall h {:trigger h in buckets[b]} | h in buckets[b] :: h in all && h.hash % |buckets| == b
  }

  ghost predicate InBucket(buckets: seq<Chain>, h: LRUHandle)
    requires buckets != []
  {
    h in buckets[h.hash % |buckets|]
  }

  ghost predicate Apart(chain: Chain) {
    forall i, j | 0 <= i < j < |chain| :: !chain[i].Matches(chain[j].key, chain[j].hash)
  }

  /** The source takes the low bits of a hash for its bucket, so the number of buckets must be such a number. */
  predicate PowerOfTwo(n: nat) {
    n == 1 || (n > 0 && n % 2 == 0 && PowerOfTwo(n / 2))
  }

  lemma Doubled(n: nat)
    requires PowerOfTwo(n)
    ensures PowerOfTwo(2 * n)
  {
    assert 2 * n % 2 == 0 && 2 * n / 2 == n;
  }

  /** At most one handle for a key. */
  ghost predicate OnePerKey(all: set<LRUHandle>) {
    forall x, y {:trigger x.Matches(y.key, y.hash)} | x in all && y in all && x.Matches(y.key, y.hash) :: x == y
  }

  class HandleTable {
    var elems: nat
    var list: seq<Chain>
    ghost var all: set<LRUHandle>

    ghost predicate Valid()
      reads this
    {
      Holds(list, all) && OnePerKey(all) && elems == |all| <= |list| && 4 <= |list| && PowerOfTwo(|list|)
    }

    constructor ()
      ensures Valid() && all == {} && fresh(this)
    {
      elems, list, all := 0, [[], [], [], []], {};
    }

    /** Where the handle for a key is in its bucket's chain, or the chain's end. */
    method FindPointer(key: Bytes, hash: nat) returns (b: nat, i: nat)
      requires Valid()
      ensures b == hash % |list| && i <= |list[b]|
      ensures if i < |list[b]| then list[b][i].Matches(key, hash) && list[b][i] in all
              else forall h | h in all :: !h.Matches(key, hash)
    {
      b := hash % |list|;
      i := 0;
      assert BucketAt(list, all, b);
      while i < |list[b]| && !list[b][i].Matches(key, hash)
        invariant i <= |list[b]| && forall j | 0 <= j < i :: !list[b][j].Matches(key, hash)
      {
        i := i + 1;
      }
      if i == |list[b]| {
        forall h | h in all
          ensures !h.Matches(key, hash)
        {
          assert InBucket(list, h);
        }
      } else {
        assert list[b][i] in list[b];
      }
    }

    method Lookup(key: Bytes, hash: nat) returns (h: LRUHandle?)
      requires Valid()
      ensures if h == null then forall x | x in all :: !x.Matches(key, hash) else h in all && h.Matches(key, hash)
    {
      var b, i := FindPointer(key, hash);
      h := if i < |list[b]| then list[b][i] else null;
    }

    /** Adds a handle, in place of the one for the same key, if any. */
    method Insert(h: LRUHandle) returns (old': LRUHandle?)
      requires Valid() && h !in all
      modifies this
      ensures Valid()
      ensures if old' == null then all == old(all) + {h} && forall x | x in old(all) :: !x.Matches(h.key, h.hash)
              else old' in old(all) && old'.Matches(h.key, h.hash) && all == old(all) - {old'} + {h}
    {
      var b, i := FindPointer(h.key, h.hash);
      var chain := list[b];
      if i < |chain| {
        old' := chain[i];
        ReplaceInChain(list, all, b, i, h);
        list := list[b := chain[i := h]];
        all := all - {old'} + {h};
      } else {
        old' := null;
        Append(b, h);
      }
    }

    method Append(b: nat, h: LRUHandle)
      requires Valid() && b == h.hash % |list| && h !in all && forall x | x in all :: !x.Matches(h.key, h.hash)
      modifies this
      ensures Valid() && all == old(all) + {h}
    {
      AddToChain(list, all, b, h);
      list := list[b := list[b] + [h]];
      all := all + {h};
      elems := elems + 1;
      if elems > |list| {
        Resize();
      }
    }

    method Remove(key: Bytes, hash: nat) returns (h: LRUHandle?)
      requires Valid()
      modifies this
      ensures Valid()
      ensures if h == null then all == old(all) && forall x | x in all :: !x.Matches(key, hash)
              else h in old(all) && h.Matches(key, hash) && all == old(all) - {h}
    {
      var b, i := FindPointer(key, hash);
      var chain := list[b];
      if i == |chain| {
        return null;
      }
      h := chain[i];
      RemoveFromChain(list, all, b, i);
      list := list[b := chain[..i] + chain[i + 1..]];
      all := all - {h};
      elems := elems - 1;
    }

    /** Doubles the number of buckets until there are enough, and moves every handle to the front of its new
        chain. */
    method Resize()
      requires Holds(list, all) && OnePerKey(all) && elems == |all|
      modifies this`list
      ensures Valid() && (|list| == 4 || |list| < 2 * elems)
    {
      var newLength := 4;
      assert PowerOfTwo(4);
      hide PowerOfTwo;
      while newLength < elems
        modifies {}
        invariant newLength >= 4 && PowerOfTwo(newLength) && (newLength == 4 || newLength < 2 * elems)
      {
        Doubled(newLength);
        newLength := newLength * 2;
      }
      var newList: seq<Chain> := seq(newLength, _ => []);
      ghost var moved: set<LRUHandle> := {};
      for i := 0 to |list|
        modifies {}
        invariant |newList| == newLength && Holds(newList, moved) && moved <= all
        invariant forall h {:trigger h in moved} | h in all :: h in moved <==> h.hash % |list| < i
      {
        newList, moved := MoveChain(list, all, i, newList, moved);
      }
      assert forall h {:trigger h in moved} | h in all :: h.hash % |list| < |list|;
      assert moved == all;
      list := newList;
    }
  }

  /** The inner loop of Resize: one old chain is taken apart. */
  method MoveChain(list: seq<Chain>, ghost all: set<LRUHandle>, i: nat, newList: seq<Chain>,
                   ghost moved: set<LRUHandle>)
    returns (r: seq<Chain>, ghost now: set<LRUHandle>)
    requires Holds(list, all) && OnePerKey(all) && i < |list| && newList != [] && Holds(newList, moved) && moved <= all
    requires forall h {:trigger h in moved} | h in all :: h in moved <==> h.hash % |list| < i
    ensures |r| == |newList| && Holds(r, now) && now <= all
    ensures forall h {:trigger h in now} | h in all :: h in now <==> h.hash % |list| < i + 1
  {
    r, now := newList, moved;
    assert BucketAt(list, all, i);
    var rest := list[i];
    ghost var k := 0;
    while rest != []
      invariant k + |rest| == |list[i]| && rest == list[i][k..]
      invariant |r| == |newList| && Holds(r, now) && now <= all
      invariant forall h {:trigger h in now} | h in all :: h in now <==> h in moved || h in list[i][..k]
    {
      var h := rest[0];
      assert h in list[i] && h == list[i][k];
      var b := h.hash % |r|;
      NotInFirst(list[i], k);
      AddToFront(r, now, b, h);
      r := r[b := [h] + r[b]];
      now := now + {h};
      rest := rest[1..];
      assert list[i][..k + 1] == list[i][..k] + [h];
      k := k + 1;
    }
    assert list[i][..k] == list[i];
    forall h | h in all
      ensures h in now <==> h.hash % |list| < i + 1
    {
      assert InBucket(list, h);
    }
  }

  lemma NotInFirst(chain: Chain, k: nat)
    requires Apart(chain) && k < |chain|
    ensures chain[k] !in chain[..k]
  {
  }

  // ------------------------------------------------------------------ what one change to a chain keeps

  lemma ChainChanges(list: seq<Chain>, all: set<LRUHandle>, b: nat, chain: Chain, all2: set<LRUHandle>)
    requires Holds(list, all) && b < |list| && Apart(chain)
    requires forall h {:trigger h in chain} | h in chain :: h in all2 && h.hash % |list| == b
    requires forall h {:trigger h in all2} | h in all2 :: if h.hash % |list| == b then h in chain else h in all
    requires forall h {:trigger h in all} | h in all && h.hash % |list| != b :: h in all2
    ensures Holds(list[b := chain], all2)
  {
    var list2 := list[b := chain];
    forall c {:trigger BucketAt(list2, all2, c)} | 0 <= c < |list2|
      ensures BucketAt(list2, all2, c)
    {
      assert c != b ==> BucketAt(list, all, c);
    }
    forall h {:trigger InBucket(list2, h)} | h in all2
      ensures InBucket(list2, h)
    {
      assert h.hash % |list| != b ==> InBucket(list, h);
    }
  }

  lemma ReplaceInChain(list: seq<Chain>, all: set<LRUHandle>, b: nat, i: nat, h: LRUHandle)
    requires Holds(list, all) && OnePerKey(all) && b < |list| && b == h.hash % |list| && i < |list[b]| && h !in all
    requires list[b][i].Matches(h.key, h.hash) && list[b][i] in all
    ensures Holds(list[b := list[b][i := h]], all - {list[b][i]} + {h}) && OnePerKey(all - {list[b][i]} + {h})
    ensures |all - {list[b][i]} + {h}| == |all|
  {
    assert BucketAt(list, all, b);
    var chain, old' := list[b], list[b][i];
    assert Apart(chain);
    forall x | x in chain && x != old'
      ensures x in chain[i := h]
    {
      var j :| 0 <= j < |chain| && chain[j] == x;
      assert chain[i := h][j] == x;
    }
    assert chain[i := h][i] == h;
    forall x | x in chain[i := h]
      ensures x in all - {old'} + {h} && x.hash % |list| == b
    {
      var j :| 0 <= j < |chain| && chain[i := h][j] == x;
      assert j != i ==> chain[j] in list[b];
    }
    forall x | x in all && x.hash % |list| == b
      ensures x in chain
    {
      assert InBucket(list, x);
    }
    ChainChanges(list, all, b, chain[i := h], all - {old'} + {h});
  }

  lemma AddToChain(list: seq<Chain>, all: set<LRUHandle>, b: nat, h: LRUHandle)
    requires Holds(list, all) && OnePerKey(all) && b < |list| && b == h.hash % |list| && h !in all
    requires forall x | x in all :: !x.Matches(h.key, h.hash)
    ensures Holds(list[b := list[b] + [h]], all + {h}) && OnePerKey(all + {h})
  {
    assert BucketAt(list, all, b);
    assert Apart(list[b]);
    forall x | x in list[b] + [h]
      ensures x in all + {h} && x.hash % |list| == b
    {
      assert x == h || x in list[b];
    }
    forall x | x in all && x.hash % |list| == b
      ensures x in list[b]
    {
      assert InBucket(list, x);
    }
    forall j | 0 <= j < |list[b]|
      ensures !list[b][j].Matches(h.key, h.hash)
    {
      assert list[b][j] in list[b];
    }
    ChainChanges(list, all, b, list[b] + [h], all + {h});
  }

  lemma AddToFront(list: seq<Chain>, all: set<LRUHandle>, b: nat, h: LRUHandle)
    requires Holds(list, all) && b < |list| && b == h.hash % |list| && forall x | x in all :: !x.Matches(h.key, h.hash)
    ensures Holds(list[b := [h] + list[b]], all + {h})
  {
    assert BucketAt(list, all, b);
    assert Apart(list[b]);
    forall x | x in [h] + list[b]
      ensures x in all + {h} && x.hash % |list| == b
    {
      assert x == h || x in list[b];
    }
    forall x | x in all && x.hash % |list| == b
      ensures x in list[b]
    {
      assert InBucket(list, x);
    }
    forall j | 0 <= j < |list[b]|
      ensures !h.Matches(list[b][j].key, list[b][j].hash)
    {
      assert list[b][j] in list[b];
    }
    ChainChanges(list, all, b, [h] + list[b], all + {h});
  }

  lemma RemoveFromChain(list: seq<Chain>, all: set<LRUHandle>, b: nat, i: nat)
    requires Holds(list, all) && b < |list| && i < |list[b]|
    ensures Holds(list[b := list[b][..i] + list[b][i + 1..]], all - {list[b][i]})
  {
    assert BucketAt(list, all, b);
    var chain, h := list[b], list[b][i];
    var rest := chain[..i] + chain[i + 1..];
    assert Apart(chain) && h in list[b];
    assert Apart(rest) by {
      forall j, k | 0 <= j < k < |rest|
        ensures !rest[j].Matches(rest[k].key, rest[k].hash)
      {
        assert rest[j] == chain[if j < i then j else j + 1] && rest[k] == chain[if k < i then k else k + 1];
      }
    }
    forall x | x in rest
      ensures x in all - {h} && x.hash % |list| == b
    {
      var j :| 0 <= j < |rest| && rest[j] == x;
      var k := if j < i then j else j + 1;
      assert chain[k] == x && x in list[b];
      var first, second := if k < i then k else i, if k < i then i else k;
      assert !chain[first].Matches(chain[second].key, chain[second].hash);
    }
    forall x | x in all && x != h && x.hash % |list| == b
      ensures x in rest
    {
      assert InBucket(list, x);
      var j :| 0 <= j < |chain| && chain[j] == x;
      assert rest[if j < i then j else j - 1] == x;
    }
    ChainChanges(list, all, b, rest, all - {h});
  }
}
