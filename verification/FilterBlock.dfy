// The filters of a table, one for each 2 KB of data blocks (table/filter_block.cc).

module FilterBlocks {
  import opened Bits
  import opened Keys
  import opened Coding
  import opened BlockFormat
  import BlockIters

  /** leveldb::FilterPolicy: the bytes it appends for some keys, and its test of one key against such bytes. */
  datatype FilterPolicy = FilterPolicy(create: seq<Bytes> -> Bytes, mayMatch: (Bytes, Bytes) -> bool)

  ghost predicate NoFalseNegatives(policy: FilterPolicy) {
    forall keys: seq<Bytes>, k {:trigger Matches(policy, keys, k)} | k in keys :: Matches(policy, keys, k)
  }

  predicate Matches(policy: FilterPolicy, keys: seq<Bytes>, k: Bytes) {
    policy.mayMatch(k, policy.create(keys))
  }

  const FILTER_BASE_LG: byte := 11
  const FILTER_BASE: nat := 2048

  // ------------------------------------------------------------------ the filters

  function FilterBytes(policy: FilterPolicy, keys: seq<Bytes>): Bytes {
    if keys == [] then [] else policy.create(keys)
  }

  /** Filter `i` runs from its offset to the next one, or to the end. */
  ghost predicate FilterAt(policy: FilterPolicy, groups: seq<seq<Bytes>>, offsets: seq<nat>, data: Bytes, i: nat)
    requires i < |groups| == |offsets|
  {
    var to := if i + 1 < |offsets| then offsets[i + 1] else |data|;
    offsets[i] <= to <= |data| && data[offsets[i]..to] == FilterBytes(policy, groups[i])
  }

  ghost predicate Filtered(policy: FilterPolicy, groups: seq<seq<Bytes>>, offsets: seq<nat>, data: Bytes) {
    |groups| == |offsets| &&
    forall i {:trigger FilterAt(policy, groups, offsets, data, i)} | 0 <= i < |groups| ::
      FilterAt(policy, groups, offsets, data, i)
  }

  lemma FilterAppended(policy: FilterPolicy, groups: seq<seq<Bytes>>, offsets: seq<nat>, data: Bytes, keys: seq<Bytes>)
    requires Filtered(policy, groups, offsets, data)
    ensures Filtered(policy, groups + [keys], offsets + [|data|], data + FilterBytes(policy, keys))
  {
    var more := FilterBytes(policy, keys);
    forall i {:trigger FilterAt(policy, groups + [keys], offsets + [|data|], data + more, i)} | 0 <= i <= |groups|
      ensures FilterAt(policy, groups + [keys], offsets + [|data|], data + more, i)
    {
      if i < |groups| {
        assert FilterAt(policy, groups, offsets, data, i);
        var to := if i + 1 < |offsets| then offsets[i + 1] else |data|;
        assert (data + more)[offsets[i]..to] == data[offsets[i]..to];
      }
    }
  }

  /** The finished block: the filters, their offsets, where the offsets begin, and the base. */
  function Image(offsets: seq<nat>, data: Bytes): Bytes {
    data + FixedAll(offsets + [|data|]) + [FILTER_BASE_LG]
  }

  /** The keys with their starting offsets in one flat string. */
  ghost predicate Flattened(keys: Bytes, start: seq<nat>, pending: seq<Bytes>) {
    |start| == |pending| &&
    forall i {:trigger KeyAt(keys, start, pending, i)} | 0 <= i < |start| :: KeyAt(keys, start, pending, i)
  }

  ghost predicate KeyAt(keys: Bytes, start: seq<nat>, pending: seq<Bytes>, i: nat)
    requires i < |start| == |pending|
  {
    var to := if i + 1 < |start| then start[i + 1] else |keys|;
    start[i] <= to <= |keys| && keys[start[i]..to] == pending[i]
  }

  lemma FlattenedMore(keys: Bytes, start: seq<nat>, pending: seq<Bytes>, key: Bytes)
    requires Flattened(keys, start, pending)
    ensures Flattened(keys + key, start + [|keys|], pending + [key])
  {
    forall i {:trigger KeyAt(keys + key, start + [|keys|], pending + [key], i)} | 0 <= i <= |start|
      ensures KeyAt(keys + key, start + [|keys|], pending + [key], i)
    {
      if i < |start| {
        assert KeyAt(keys, start, pending, i);
        var to := if i + 1 < |start| then start[i + 1] else |keys|;
        assert (keys + key)[start[i]..to] == keys[start[i]..to];
      }
    }
  }

  /** The key was added for a block in the i-th 2 KB. */
  ghost predicate AddedIn(covered: set<(nat, Bytes)>, i: nat, k: Bytes) {
    exists o {:trigger (o, k) in covered} :: (o, k) in covered && o / FILTER_BASE == i
  }

  ghost predicate GroupOf(covered: set<(nat, Bytes)>, i: nat, group: seq<Bytes>) {
    forall k {:trigger AddedIn(covered, i, k)} | k in group :: AddedIn(covered, i, k)
  }

  /** Every key is in the group of its block, and every group has only such keys. */
  ghost predicate Covers(covered: set<(nat, Bytes)>, groups: seq<seq<Bytes>>) {
    (forall o, k {:trigger (o, k) in covered} | (o, k) in covered ::
       o / FILTER_BASE < |groups| && k in groups[o / FILTER_BASE]) &&
    forall i {:trigger GroupOf(covered, i, groups[i])} | 0 <= i < |groups| :: GroupOf(covered, i, groups[i])
  }

  lemma CoversMore(covered: set<(nat, Bytes)>, groups: seq<seq<Bytes>>, pending: seq<Bytes>, block: nat, key: Bytes)
    requires Covers(covered, groups + [pending]) && |groups| == block / FILTER_BASE
    ensures Covers(covered + {(block, key)}, groups + [pending + [key]])
  {
    var more, after := covered + {(block, key)}, groups + [pending + [key]];
    forall i {:trigger GroupOf(more, i, after[i])} | 0 <= i < |after|
      ensures GroupOf(more, i, after[i])
    {
      assert GroupOf(covered, i, (groups + [pending])[i]);
      forall k {:trigger AddedIn(more, i, k)} | k in after[i]
        ensures AddedIn(more, i, k)
      {
        if k in (groups + [pending])[i] {
          assert AddedIn(covered, i, k);
          var o :| (o, k) in covered && o / FILTER_BASE == i;
          assert (o, k) in more;
        } else {
          assert (block, k) in more;
        }
      }
    }
  }

  lemma CoversWithout(covered: set<(nat, Bytes)>, groups: seq<seq<Bytes>>)
    requires Covers(covered, groups + [[]])
    ensures Covers(covered, groups)
  {
    forall i {:trigger GroupOf(covered, i, groups[i])} | 0 <= i < |groups|
      ensures GroupOf(covered, i, groups[i])
    {
      assert GroupOf(covered, i, (groups + [[]])[i]);
    }
  }

  /** A finished filter block for some keys, each added for the data block at some offset. */
  ghost predicate Encodes(policy: FilterPolicy, covered: set<(nat, Bytes)>, contents: Bytes) {
    exists groups: seq<seq<Bytes>>, offsets: seq<nat>, data: Bytes ::
      Holds(policy, covered, groups, offsets, data) && contents == Image(offsets, data)
  }

  ghost predicate Holds(policy: FilterPolicy, covered: set<(nat, Bytes)>, groups: seq<seq<Bytes>>, offsets: seq<nat>,
                        data: Bytes) {
    Filtered(policy, groups, offsets, data) && Covers(covered, groups)
  }

  // ------------------------------------------------------------------ the builder

  class FilterBlockBuilder {
    const policy: FilterPolicy
    var keys: Bytes
    var start: seq<nat>
    var result: Bytes
    var filterOffsets: seq<nat>
    /** The keys behind each filter, the keys waiting for the next one, and the block being filled. */
    ghost var groups: seq<seq<Bytes>>
    ghost var pending: seq<Bytes>
    ghost var block: nat
    /** Every key added, with the block it was added for. */
    ghost var covered: set<(nat, Bytes)>

    ghost predicate Valid()
      reads this
    {
      Pooled() && |groups| == block / FILTER_BASE
    }

    /** Valid, but perhaps short of some filters. */
    ghost predicate Pooled()
      reads this
    {
      Filtered(policy, groups, filterOffsets, result) && Flattened(keys, start, pending) &&
      Covers(covered, groups + [pending])
    }

    constructor (policy: FilterPolicy)
      ensures Valid() && this.policy == policy && block == 0 && covered == {}
    {
      this.policy := policy;
      keys, start, result, filterOffsets, groups, pending, block, covered := [], [], [], [], [], [], 0, {};
    }

    method StartBlock(blockOffset: nat)
      requires Valid() && blockOffset >= block
      modifies this
      ensures Valid() && block == blockOffset && covered == old(covered)
    {
      var filterIndex := blockOffset / FILTER_BASE;
      while filterIndex > |filterOffsets|
        invariant Pooled() && |filterOffsets| <= filterIndex && covered == old(covered)
      {
        GenerateFilter();
      }
      block := blockOffset;
    }

    method AddKey(key: Bytes)
      requires Valid()
      modifies this
      ensures Valid() && block == old(block) && covered == old(covered) + {(block, key)}
    {
      FlattenedMore(keys, start, pending, key);
      CoversMore(covered, groups, pending, block, key);
      start := start + [|keys|];
      keys := keys + key;
      pending := pending + [key];
      covered := covered + {(block, key)};
    }

    method Finish() returns (r: Bytes)
      requires Valid()
      modifies this
      ensures Encodes(policy, old(covered), r)
    {
      if start != [] {
        GenerateFilter();
      } else {
        CoversWithout(covered, groups);
      }
      assert Holds(policy, old(covered), groups, filterOffsets, result);
      AppendOffsets();
      return result;
    }

    method AppendOffsets()
      modifies this`result
      ensures result == Image(filterOffsets, old(result))
    {
      var arrayOffset := |result|;
      var i := 0;
      while i < |filterOffsets|
        invariant 0 <= i <= |filterOffsets| && result == old(result) + FixedAll(filterOffsets[..i])
      {
        assert filterOffsets[..i + 1][..i] == filterOffsets[..i];
        result := result + Fixed(4, filterOffsets[i]);
        i := i + 1;
      }
      assert filterOffsets[..i] == filterOffsets == (filterOffsets + [arrayOffset])[..i];
      result := result + Fixed(4, arrayOffset);
      result := result + [FILTER_BASE_LG];
    }

    /** Turns the waiting keys into one more filter. */
    method GenerateFilter()
      requires Pooled()
      modifies this
      ensures Pooled() && groups == old(groups) + [old(pending)] && start == [] && pending == []
      ensures covered == old(covered) && block == old(block) && Covers(covered, groups)
    {
      var numKeys := |start|;
      FilterAppended(policy, groups, filterOffsets, result, pending);
      groups := groups + [pending];
      if numKeys == 0 {
        assert result + [] == result;
        filterOffsets := filterOffsets + [|result|];
        return;
      }
      start := start + [|keys|];
      var tmpKeys: seq<Bytes> := [];
      var i := 0;
      while i < numKeys
        invariant 0 <= i <= numKeys && tmpKeys == pending[..i]
      {
        assert KeyAt(keys, old(start), pending, i);
        tmpKeys := tmpKeys + [keys[start[i]..start[i + 1]]];
        i := i + 1;
      }
      assert tmpKeys == pending;
      filterOffsets := filterOffsets + [|result|];
      result := result + policy.create(tmpKeys);
      keys, start, pending := [], [], [];
    }
  }

  // ------------------------------------------------------------------ the reader

  lemma ShiftByBase(n: nat, k: nat)
    requires k == FILTER_BASE_LG as nat
    ensures ShiftRight(n, k) == n / FILTER_BASE
  {
    assert ShiftRight(n, 3) == n / 8;
    assert ShiftRight(n, 6) == n / 8 / 8 == n / 64;
    assert ShiftRight(n, 9) == n / 64 / 8 == n / 512;
    assert ShiftRight(n, 11) == n / 512 / 4 == n / 2048;
  }

  class FilterBlockReader {
    const policy: FilterPolicy
    const data: Bytes
    const offset: nat
    const num: nat
    const baseLg: nat

    ghost predicate Valid() {
      num > 0 ==> offset + 4 * num + 5 <= |data|
    }

    constructor (policy: FilterPolicy, contents: Bytes)
      ensures Valid() && this.policy == policy
      ensures |contents| < TWO_32 ==> Reads(contents)
    {
      this.policy := policy;
      data, offset, num, baseLg := [], 0, 0, 0;
      var n := |contents|;
      if n >= 5 {
        baseLg := contents[n - 1] as nat;
        var lastWord := DecodeFixed32(contents[n - 5..]);
        if lastWord <= n - 5 {
          data := contents;
          offset := lastWord;
          num := (n - 5 - lastWord) / 4;
        }
      }
      new;
      if |contents| < TWO_32 {
        forall offsets, d {:trigger Image(offsets, d)} | contents == Image(offsets, d)
          ensures Opened(offsets, d)
        {
          OffsetAt(offsets, d, |offsets|);
        }
      }
    }

    ghost predicate Reads(contents: Bytes) {
      forall offsets, d {:trigger Image(offsets, d)} | contents == Image(offsets, d) :: Opened(offsets, d)
    }

    ghost predicate Opened(offsets: seq<nat>, d: Bytes) {
      data == Image(offsets, d) && offset == |d| && num == |offsets| && baseLg == FILTER_BASE_LG as nat
    }

    /** Errors are treated as potential matches. */
    predicate KeyMayMatch(blockOffset: nat, key: Bytes)
      requires Valid()
    {
      var index := ShiftRight(blockOffset, baseLg);
      index < num ==> FilterMatches(policy, data, offset, index, key)
    }
  }

  /** The test of one filter, whose bounds are two neighbours in the offset array. */
  predicate FilterMatches(policy: FilterPolicy, data: Bytes, offset: nat, index: nat, key: Bytes)
    requires offset + 4 * index + 8 <= |data|
  {
    var start := DecodeFixed32(data[offset + 4 * index..]);
    var limit := DecodeFixed32(data[offset + 4 * index + 4..]);
    if start <= limit && limit <= offset then policy.mayMatch(key, data[start..limit]) else start != limit
  }

  lemma OffsetAt(offsets: seq<nat>, data: Bytes, i: nat)
    requires i <= |offsets| && (offsets + [|data|])[i] < TWO_32
    ensures DecodeFixed32(Image(offsets, data)[|data| + 4 * i..]) == (offsets + [|data|])[i]
  {
    var all := offsets + [|data|];
    BlockIters.FixedAllAt(all, i);
    var tail := Image(offsets, data)[|data| + 4 * i..];
    assert tail[..4] == FixedAll(all)[4 * i..4 * i + 4];
    Fixed32RoundTrip(all[i], tail);
  }

  /** The test of a filter is the policy's, on the bytes that were made from its group. */
  lemma FilterDecides(policy: FilterPolicy, groups: seq<seq<Bytes>>, offsets: seq<nat>, data: Bytes, i: nat,
                      key: Bytes)
    requires Filtered(policy, groups, offsets, data) && |Image(offsets, data)| < TWO_32 && i < |groups|
    ensures FilterMatches(policy, Image(offsets, data), |data|, i, key) <==>
              policy.mayMatch(key, FilterBytes(policy, groups[i]))
  {
    assert FilterAt(policy, groups, offsets, data, i);
    var to := if i + 1 < |offsets| then offsets[i + 1] else |data|;
    assert to == (offsets + [|data|])[i + 1];
    OffsetAt(offsets, data, i);
    OffsetAt(offsets, data, i + 1);
    assert Image(offsets, data)[offsets[i]..to] == data[offsets[i]..to];
  }

  /** A filter matches every key of its group. */
  lemma FilterFinds(policy: FilterPolicy, groups: seq<seq<Bytes>>, offsets: seq<nat>, data: Bytes, i: nat, key: Bytes)
    requires Filtered(policy, groups, offsets, data) && NoFalseNegatives(policy) && |Image(offsets, data)| < TWO_32
    requires i < |groups| && key in groups[i]
    ensures FilterMatches(policy, Image(offsets, data), |data|, i, key)
  {
    FilterDecides(policy, groups, offsets, data, i, key);
    assert Matches(policy, groups[i], key);
  }

  /** A key is never missed in the block it was added for, although blocks that begin in the same 2 KB share a
      filter and some filters have no keys. */
  lemma KeysAreFound(reader: FilterBlockReader, covered: set<(nat, Bytes)>, contents: Bytes, blockOffset: nat,
                     key: Bytes)
    requires NoFalseNegatives(reader.policy) && Encodes(reader.policy, covered, contents) && |contents| < TWO_32
    requires reader.Valid() && reader.Reads(contents) && (blockOffset, key) in covered
    ensures reader.KeyMayMatch(blockOffset, key)
  {
    var groups: seq<seq<Bytes>>, offsets: seq<nat>, data: Bytes :|
      Holds(reader.policy, covered, groups, offsets, data) && contents == Image(offsets, data);
    var i := blockOffset / FILTER_BASE;
    assert ShiftRight(blockOffset, reader.baseLg) == i by { ShiftByBase(blockOffset, reader.baseLg); }
    FilterFinds(reader.policy, groups, offsets, data, i, key);
  }

  /** The keys that were added for blocks in the i-th 2 KB. */
  ghost predicate KeysOf(covered: set<(nat, Bytes)>, i: nat, group: seq<Bytes>) {
    forall k {:trigger AddedIn(covered, i, k)} :: k in group <==> AddedIn(covered, i, k)
  }

  /** A block offset up to the last one with a key is answered by the filter of its 2 KB alone: the answer is the
      policy's for the keys that were added there, or for the empty filter if there are none. Further on everything
      may match. */
  lemma AnswersExactly(reader: FilterBlockReader, covered: set<(nat, Bytes)>, contents: Bytes, blockOffset: nat,
                       key: Bytes) returns (group: seq<Bytes>, last: nat)
    requires Encodes(reader.policy, covered, contents) && |contents| < TWO_32
    requires reader.Valid() && reader.Reads(contents)
    ensures KeysOf(covered, blockOffset / 2048, group)
    ensures forall o, k {:trigger (o, k) in covered} | (o, k) in covered :: o / 2048 < last
    ensures blockOffset / 2048 < last ==>
              (reader.KeyMayMatch(blockOffset, key) <==>
                 reader.policy.mayMatch(key, if group == [] then [] else reader.policy.create(group)))
    ensures blockOffset / 2048 >= last ==> reader.KeyMayMatch(blockOffset, key)
  {
    var groups: seq<seq<Bytes>>, offsets: seq<nat>, data: Bytes :|
      Holds(reader.policy, covered, groups, offsets, data) && contents == Image(offsets, data);
    var i := blockOffset / FILTER_BASE;
    last := |groups|;
    assert ShiftRight(blockOffset, reader.baseLg) == i by { ShiftByBase(blockOffset, reader.baseLg); }
    if i < |groups| {
      group := groups[i];
      assert GroupOf(covered, i, groups[i]);
      FilterDecides(reader.policy, groups, offsets, data, i, key);
    } else {
      group := [];
    }
  }
}
