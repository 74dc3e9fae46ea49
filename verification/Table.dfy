// Sorted tables: data blocks, an index of shortened separators, a filter, and lookup through them
// (table/table_builder.cc, table/table.cc). Data and index blocks stand for their entries, as BlockIter.dfy
// justifies.

module Tables {
  import opened Keys
  import opened Coding
  import opened Separators
  import opened FilterBlocks

  datatype Item<V> = Item(key: TableKey, value: V)
  type Block = seq<Item<Bytes>>

  /** What Finish leaves on disk: the index, the data blocks by offset, and the filter block. */
  datatype TableFile = TableFile(index: seq<Item<nat>>, blocks: map<nat, Block>, filter: Option<Bytes>)

  // ------------------------------------------------------------------ sorted items

  ghost predicate Increasing<V>(es: seq<Item<V>>) {
    forall i, j | 0 <= i < j < |es| :: KeyLess(es[i].key, es[j].key)
  }

  /** Where a seek lands: the first item whose key is not before `k`. */
  function FirstFrom<V>(es: seq<Item<V>>, k: TableKey): (p: nat)
    ensures p <= |es| && (p < |es| ==> !KeyLess(es[p].key, k))
    ensures forall i | 0 <= i < p :: KeyLess(es[i].key, k)
  {
    if es == [] || !KeyLess(es[0].key, k) then 0 else 1 + FirstFrom(es[1..], k)
  }

  lemma FirstFromIs<V>(es: seq<Item<V>>, k: TableKey, p: nat)
    requires Increasing(es) &&
             p <= |es| && (p < |es| ==> !KeyLess(es[p].key, k)) && (p > 0 ==> KeyLess(es[p - 1].key, k))
    ensures p == FirstFrom(es, k)
  {
    var q := FirstFrom(es, k);
    if q + 1 < p {
      KeyLessTransitive(es[q].key, es[p - 1].key, k);
    }
  }

  lemma AtMostLess(a: TableKey, b: TableKey, c: TableKey)
    requires KeyAtMost(a, b) && KeyLess(b, c)
    ensures KeyLess(a, c)
  {
    if a != b {
      KeyLessTransitive(a, b, c);
    }
  }

  // ------------------------------------------------------------------ how a table is cut into blocks

  /** The entries added so far; where each written block starts among them, and the next one; the offsets of the
      written blocks and what they hold; the index entries; and the user keys the filter was told, by block. */
  datatype Layout = Layout(entries: Block, starts: seq<nat>, handles: seq<nat>, blocks: map<nat, Block>,
                           index: seq<Item<nat>>, covered: set<(nat, Bytes)>)

  ghost predicate Laid(l: Layout) {
    Sizes(l) && Increasing(l.entries) &&
    (forall i {:trigger BlockAt(l, i)} | 0 <= i < |l.handles| :: BlockAt(l, i)) &&
    forall i {:trigger SeparatedAt(l, i)} | 0 <= i < |l.index| :: SeparatedAt(l, i)
  }

  predicate Sizes(l: Layout) {
    |l.index| <= |l.handles| && |l.starts| == |l.handles| + 1 && l.starts[0] == 0 &&
    l.starts[|l.handles|] <= |l.entries|
  }

  ghost predicate BlockAt(l: Layout, i: nat)
    requires Sizes(l) && i < |l.handles|
  {
    var from, to := l.starts[i], l.starts[i + 1];
    from < to <= |l.entries| && l.handles[i] in l.blocks && l.blocks[l.handles[i]] == l.entries[from..to] &&
    Covered(l, l.handles[i], from, to)
  }

  ghost predicate Covered(l: Layout, handle: nat, from: nat, to: nat) {
    to <= |l.entries| && forall i {:trigger CoveredAt(l, handle, i)} | from <= i < to :: CoveredAt(l, handle, i)
  }

  ghost predicate CoveredAt(l: Layout, handle: nat, i: nat)
    requires i < |l.entries|
  {
    (handle, l.entries[i].key.user) in l.covered
  }

  ghost predicate SeparatedAt(l: Layout, i: nat)
    requires Sizes(l) && i < |l.index|
  {
    0 < l.starts[i + 1] <= |l.entries| && l.index[i].value == l.handles[i] &&
    Separator(l.entries, l.starts[i + 1], l.index[i].key)
  }

  /** No key before position `p` is greater than `k`, every later key is, and unless `k` is the last key before `p`
      itself, every later user key is greater too. */
  ghost predicate Separator(es: Block, p: nat, k: TableKey)
    requires 0 < p <= |es|
  {
    KeyAtMost(es[p - 1].key, k) &&
    (p < |es| ==> KeyLess(k, es[p].key) && (k == es[p - 1].key || Before(k.user, es[p].key.user)))
  }

  // ------------------------------------------------------------------ the three steps of building

  function Appended(l: Layout, e: Item<Bytes>, handle: nat): Layout {
    l.(entries := l.entries + [e], covered := l.covered + {(handle, e.key.user)})
  }

  lemma AppendedIncreasing(es: Block, e: Item<Bytes>)
    requires Increasing(es) && (es != [] ==> KeyLess(es[|es| - 1].key, e.key))
    ensures Increasing(es + [e])
  {
    forall i | 0 <= i < |es|
      ensures KeyLess(es[i].key, e.key)
    {
      if i < |es| - 1 {
        KeyLessTransitive(es[i].key, es[|es| - 1].key, e.key);
      }
    }
  }

  /** Every separator so far has later entries. */
  ghost predicate Closed(l: Layout)
    requires Sizes(l)
  {
    forall i {:trigger Followed(l, i)} | 0 <= i < |l.index| :: Followed(l, i)
  }

  predicate Followed(l: Layout, i: nat)
    requires Sizes(l) && i < |l.index|
  {
    l.starts[i + 1] < |l.entries|
  }

  lemma AppendedLaid(l: Layout, e: Item<Bytes>, handle: nat)
    requires Laid(l) && Closed(l) && (l.entries != [] ==> KeyLess(l.entries[|l.entries| - 1].key, e.key))
    ensures Laid(Appended(l, e, handle)) && Closed(Appended(l, e, handle))
  {
    var m := Appended(l, e, handle);
    AppendedIncreasing(l.entries, e);
    forall i {:trigger BlockAt(m, i)} | 0 <= i < |l.handles|
      ensures BlockAt(m, i)
    {
      assert BlockAt(l, i);
      CoveredStays(l, e, handle, l.handles[i], l.starts[i], l.starts[i + 1]);
      assert m.entries[l.starts[i]..l.starts[i + 1]] == l.entries[l.starts[i]..l.starts[i + 1]];
    }
    forall i {:trigger SeparatedAt(m, i)} | 0 <= i < |l.index|
      ensures SeparatedAt(m, i)
    {
      assert SeparatedAt(l, i) && Followed(l, i);
    }
    forall i {:trigger Followed(m, i)} | 0 <= i < |l.index|
      ensures Followed(m, i)
    {
      assert Followed(l, i);
    }
  }

  lemma CoveredStays(l: Layout, e: Item<Bytes>, handle: nat, h: nat, from: nat, to: nat)
    requires Covered(l, h, from, to)
    ensures Covered(Appended(l, e, handle), h, from, to)
    ensures h == handle && to == |l.entries| ==> Covered(Appended(l, e, handle), h, from, to + 1)
  {
    var m := Appended(l, e, handle);
    forall i {:trigger CoveredAt(m, h, i)} | from <= i < to
      ensures CoveredAt(m, h, i)
    {
      assert CoveredAt(l, h, i);
    }
  }

  /** The entries after the last block become a block of their own. */
  function Cut(l: Layout, handle: nat): Layout
    requires Sizes(l)
  {
    l.(starts := l.starts + [|l.entries|], handles := l.handles + [handle],
       blocks := l.blocks[handle := l.entries[l.starts[|l.handles|]..]])
  }

  lemma CutLaid(l: Layout, handle: nat)
    requires Laid(l) && handle !in l.handles && l.starts[|l.handles|] < |l.entries|
    requires Covered(l, handle, l.starts[|l.handles|], |l.entries|)
    ensures Laid(Cut(l, handle)) && (Closed(l) ==> Closed(Cut(l, handle)))
  {
    var m := Cut(l, handle);
    forall i {:trigger BlockAt(m, i)} | 0 <= i < |m.handles|
      ensures BlockAt(m, i)
    {
      if i < |l.handles| {
        assert BlockAt(l, i);
        CoveredSame(l, m, l.handles[i], l.starts[i], l.starts[i + 1]);
      } else {
        CoveredSame(l, m, handle, l.starts[i], |l.entries|);
      }
    }
    forall i {:trigger SeparatedAt(m, i)} | 0 <= i < |l.index|
      ensures SeparatedAt(m, i)
    {
      assert SeparatedAt(l, i);
    }
    forall i {:trigger Followed(m, i)} | 0 <= i < |l.index| && Closed(l)
      ensures Followed(m, i)
    {
      assert Followed(l, i);
    }
  }

  lemma CoveredSame(l: Layout, m: Layout, handle: nat, from: nat, to: nat)
    requires Covered(l, handle, from, to) && m.entries == l.entries && m.covered == l.covered
    ensures Covered(m, handle, from, to)
  {
    forall i {:trigger CoveredAt(m, handle, i)} | from <= i < to
      ensures CoveredAt(m, handle, i)
    {
      assert CoveredAt(l, handle, i);
    }
  }

  function Indexed(l: Layout, key: TableKey): Layout
    requires Sizes(l) && |l.index| < |l.handles|
  {
    l.(index := l.index + [Item(key, l.handles[|l.index|])])
  }

  lemma IndexedLaid(l: Layout, key: TableKey)
    requires Laid(l) && |l.index| < |l.handles| && 0 < l.starts[|l.index| + 1] <= |l.entries|
    requires Separator(l.entries, l.starts[|l.index| + 1], key)
    ensures Laid(Indexed(l, key))
    ensures Closed(l) && l.starts[|l.index| + 1] < |l.entries| ==> Closed(Indexed(l, key))
  {
    var m := Indexed(l, key);
    forall i {:trigger BlockAt(m, i)} | 0 <= i < |m.handles|
      ensures BlockAt(m, i)
    {
      assert BlockAt(l, i);
      CoveredSame(l, m, l.handles[i], l.starts[i], l.starts[i + 1]);
    }
    forall i {:trigger SeparatedAt(m, i)} | 0 <= i < |m.index|
      ensures SeparatedAt(m, i)
    {
      if i < |l.index| {
        assert SeparatedAt(l, i);
      }
    }
    forall i {:trigger Followed(m, i)} | 0 <= i < |m.index| && Closed(l) && l.starts[|l.index| + 1] < |l.entries|
      ensures Followed(m, i)
    {
      if i < |l.index| {
        assert Followed(l, i);
      }
    }
  }

  /** A table file that holds the given entries. */
  ghost predicate Stores(l: Layout, f: TableFile, es: Block, policy: Option<FilterPolicy>) {
    Laid(l) && l.entries == es && |l.index| == |l.handles| && l.starts[|l.handles|] == |es| &&
    f.index == l.index && f.blocks == l.blocks && f.filter.Some? == policy.Some? &&
    (f.filter.Some? ==> Encodes(policy.value, l.covered, f.filter.value))
  }

  // ------------------------------------------------------------------ the builder

  /** The builder's fields, apart from its filter. */
  datatype Rep = Rep(offset: nat, written: map<nat, Block>, dataBlock: Block, indexBlock: seq<Item<nat>>,
                     lastKey: TableKey, numEntries: nat, pendingIndexEntry: bool, pendingHandle: nat)

  ghost predicate Builds(l: Layout, r: Rep) {
    Laid(l) && Closed(l) && FieldsMatch(l, r) && PendingMatches(l, r) &&
    (forall o | o in r.written :: o < r.offset) && (forall h | h in l.handles :: h in r.written) &&
    Covered(l, r.offset, l.starts[|l.handles|], |l.entries|)
  }

  ghost predicate FieldsMatch(l: Layout, r: Rep)
    requires Sizes(l)
  {
    r.written == l.blocks && r.indexBlock == l.index && r.numEntries == |l.entries| &&
    r.dataBlock == l.entries[l.starts[|l.handles|]..] &&
    (r.numEntries > 0 ==> r.lastKey == l.entries[r.numEntries - 1].key)
  }

  /** A written block waits for its index entry only while the data block is empty. */
  ghost predicate PendingMatches(l: Layout, r: Rep)
    requires Sizes(l)
  {
    if r.pendingIndexEntry then
      r.dataBlock == [] && r.numEntries > 0 && |l.handles| == |l.index| + 1 && r.pendingHandle == l.handles[|l.index|]
    else
      |l.handles| == |l.index| && (r.numEntries > 0 ==> r.dataBlock != [])
  }

  function AddedTo(l: Layout, r: Rep, e: Item<Bytes>, separator: TableKey): Layout
    requires Sizes(l) && (r.pendingIndexEntry ==> |l.index| < |l.handles|)
  {
    var m := Appended(l, e, r.offset);
    if r.pendingIndexEntry then Indexed(m, separator) else m
  }

  /** Adding one entry, after the index entry that may have waited for it. */
  lemma BuildsMore(l: Layout, r: Rep, e: Item<Bytes>, separator: TableKey, indexBlock: seq<Item<nat>>)
    requires Builds(l, r) && (r.numEntries > 0 ==> KeyLess(r.lastKey, e.key))
    requires indexBlock == r.indexBlock + if r.pendingIndexEntry then [Item(separator, r.pendingHandle)] else []
    requires r.pendingIndexEntry ==> separator == Shortened(r.lastKey, ShortestSeparator(r.lastKey.user, e.key.user))
    ensures Builds(AddedTo(l, r, e, separator), Rep(r.offset, r.written, r.dataBlock + [e], indexBlock, e.key,
                                                    r.numEntries + 1, false, r.pendingHandle))
  {
    var m := Appended(l, e, r.offset);
    AppendedLaid(l, e, r.offset);
    CoveredStays(l, e, r.offset, r.offset, l.starts[|l.handles|], |l.entries|);
    if r.pendingIndexEntry {
      KeySeparatorBetween(r.lastKey, e.key);
      IndexedLaid(m, separator);
      CoveredSame(m, Indexed(m, separator), r.offset, l.starts[|l.handles|], |m.entries|);
    }
  }

  lemma BuildsFlushed(l: Layout, r: Rep, size: nat)
    requires Builds(l, r) && r.dataBlock != [] && size > 0
    ensures Builds(Cut(l, r.offset),
                   Rep(r.offset + size, r.written[r.offset := r.dataBlock], [], r.indexBlock, r.lastKey,
                                         r.numEntries, true, r.offset))
  {
    CutLaid(l, r.offset);
  }

  /** Once every block is written and indexed, the layout is complete. */
  lemma BuildsFinished(l: Layout, r: Rep, successor: TableKey, indexBlock: seq<Item<nat>>) returns (m: Layout)
    requires Builds(l, r) && r.dataBlock == []
    requires indexBlock == r.indexBlock + if r.pendingIndexEntry then [Item(successor, r.pendingHandle)] else []
    requires r.pendingIndexEntry ==> successor == Shortened(r.lastKey, ShortSuccessor(r.lastKey.user, 0))
    ensures m == if r.pendingIndexEntry then Indexed(l, successor) else l
    ensures Laid(m) && |m.index| == |m.handles| && m.starts[|m.handles|] == |m.entries| && m.index == indexBlock
    ensures m.entries == l.entries && m.blocks == r.written && m.covered == l.covered
  {
    m := l;
    if r.pendingIndexEntry {
      KeySuccessorAfter(r.lastKey);
      IndexedLaid(l, successor);
      m := Indexed(l, successor);
    }
  }

  class TableBuilder {
    const filterBlock: FilterBlockBuilder?
    var rep: Rep
    var closed: bool
    ghost var layout: Layout

    ghost predicate Valid()
      reads this, filterBlock
    {
      Builds(layout, rep) && !closed && Filtering(rep.offset, layout.covered)
    }

    /** The filter, if there is one, was told of every key, and waits for the keys of the block at `offset`. */
    ghost predicate Filtering(offset: nat, covered: set<(nat, Bytes)>)
      reads this, filterBlock
    {
      filterBlock != null ==> filterBlock.Valid() && filterBlock.block == offset && filterBlock.covered == covered
    }

    constructor (policy: Option<FilterPolicy>)
      ensures Valid() && layout.entries == [] && (filterBlock != null ==> fresh(filterBlock))
      ensures (filterBlock != null) == policy.Some? && (policy.Some? ==> filterBlock.policy == policy.value)
    {
      if policy.Some? {
        filterBlock := new FilterBlockBuilder(policy.value);
      } else {
        filterBlock := null;
      }
      rep := Rep(0, map[], [], [], TableKey([], 0, TypeDeletion), 0, false, 0);
      closed := false;
      layout := Layout([], [0], [], map[], [], {});
      new;
      if filterBlock != null {
        filterBlock.StartBlock(0);
      }
    }

    /** `full` stands for the block-size estimate, `size` for the bytes a flushed block takes up. */
    method Add(key: TableKey, value: Bytes, full: bool, size: nat)
      requires Valid() && (rep.numEntries > 0 ==> KeyLess(rep.lastKey, key)) && size > 0
      modifies this, filterBlock
      ensures Valid() && layout.entries == old(layout.entries) + [Item(key, value)]
    {
      AddEntry(key, value);
      if full {
        Flush(size);
      }
    }

    method AddEntry(key: TableKey, value: Bytes)
      requires Valid() && (rep.numEntries > 0 ==> KeyLess(rep.lastKey, key))
      modifies this, filterBlock
      ensures Valid() && layout.entries == old(layout.entries) + [Item(key, value)]
    {
      ghost var l, r, e := layout, rep, Item(key, value);
      AddIndexEntry(key);
      BuildsMore(l, r, e, rep.lastKey, rep.indexBlock);
      layout := AddedTo(l, r, e, rep.lastKey);
      AddToFilter(key.user, l.covered);
      rep := rep.(lastKey := key, numEntries := rep.numEntries + 1, dataBlock := rep.dataBlock + [Item(key, value)]);
      assert rep ==
             Rep(r.offset, r.written, r.dataBlock + [e], rep.indexBlock, key, r.numEntries + 1, false, r.pendingHandle);
    }

    /** The index entry of the last block, now that the first key of the next one is known. */
    method AddIndexEntry(key: TableKey)
      modifies this`rep
      ensures rep == old(rep).(lastKey := rep.lastKey, indexBlock := rep.indexBlock, pendingIndexEntry := false)
      ensures rep.indexBlock ==
              old(rep.indexBlock) + if old(rep.pendingIndexEntry) then [Item(rep.lastKey, rep.pendingHandle)] else []
      ensures old(rep.pendingIndexEntry) ==>
                rep.lastKey == Shortened(old(rep.lastKey), ShortestSeparator(old(rep.lastKey).user, key.user))
    {
      if rep.pendingIndexEntry {
        var separator := FindShortestKeySeparator(rep.lastKey, key);
        rep := rep.(lastKey := separator, indexBlock := rep.indexBlock + [Item(separator, rep.pendingHandle)],
                    pendingIndexEntry := false);
      }
    }

    method AddToFilter(user: Bytes, ghost covered: set<(nat, Bytes)>)
      requires Filtering(rep.offset, covered)
      modifies filterBlock
      ensures Filtering(rep.offset, covered + {(rep.offset, user)})
    {
      if filterBlock != null {
        filterBlock.AddKey(user);
      }
    }

    method Flush(size: nat)
      requires Valid() && size > 0
      modifies this, filterBlock
      ensures Valid() && layout.entries == old(layout.entries) && rep.dataBlock == []
    {
      if rep.dataBlock == [] {
        return;
      }
      BuildsFlushed(layout, rep, size);
      layout := Cut(layout, rep.offset);
      WriteBlock(size);
      rep := rep.(pendingIndexEntry := true);
      StartFilter();
    }

    method WriteBlock(size: nat)
      modifies this`rep
      ensures rep ==
              old(rep).(pendingHandle := old(rep.offset), written := old(rep.written[rep.offset := rep.dataBlock]),
                               offset := old(rep.offset) + size, dataBlock := [])
    {
      rep := rep.(pendingHandle := rep.offset, written := rep.written[rep.offset := rep.dataBlock]);
      rep := rep.(offset := rep.offset + size, dataBlock := []);
    }

    method StartFilter()
      requires filterBlock != null ==> filterBlock.Valid() && filterBlock.block <= rep.offset
      modifies filterBlock
      ensures filterBlock != null ==> Filtering(rep.offset, old(filterBlock.covered))
    {
      if filterBlock != null {
        filterBlock.StartBlock(rep.offset);
      }
    }

    method Finish(size: nat, policy: Option<FilterPolicy>) returns (file: TableFile)
      requires Valid() && size > 0 && (filterBlock != null) == policy.Some?
      requires policy.Some? ==> filterBlock.policy == policy.value
      modifies this, filterBlock
      ensures closed && Stores(layout, file, old(layout.entries), policy)
    {
      hide Builds, Laid, Encodes;
      Flush(size);
      closed := true;
      var filter := FinishFilter();
      ghost var r := rep;
      AddLastIndexEntry();
      layout := BuildsFinished(layout, r, rep.lastKey, rep.indexBlock);
      return TableFile(rep.indexBlock, rep.written, filter);
    }

    method FinishFilter() returns (filter: Option<Bytes>)
      requires filterBlock != null ==> filterBlock.Valid()
      modifies filterBlock
      ensures filter.Some? == (filterBlock != null)
      ensures filter.Some? ==> Encodes(filterBlock.policy, old(filterBlock.covered), filter.value)
    {
      filter := None;
      if filterBlock != null {
        var contents := filterBlock.Finish();
        filter := Some(contents);
      }
    }

    method AddLastIndexEntry()
      modifies this`rep
      ensures rep == old(rep).(lastKey := rep.lastKey, indexBlock := rep.indexBlock, pendingIndexEntry := false)
      ensures rep.indexBlock ==
              old(rep.indexBlock) + if old(rep.pendingIndexEntry) then [Item(rep.lastKey, rep.pendingHandle)] else []
      ensures old(rep.pendingIndexEntry) ==>
                rep.lastKey == Shortened(old(rep.lastKey), ShortSuccessor(old(rep.lastKey).user, 0))
    {
      if rep.pendingIndexEntry {
        var successor := FindShortKeySuccessor(rep.lastKey);
        rep := rep.(lastKey := successor, indexBlock := rep.indexBlock + [Item(successor, rep.pendingHandle)],
                    pendingIndexEntry := false);
      }
    }
  }

  // ------------------------------------------------------------------ lookup

  /** Entries before the block that a seek in the index selects are before the target. */
  lemma BeforeBlock(l: Layout, k: TableKey, i: nat)
    requires Laid(l) && i <= |l.index| && l.starts[i] > 0 && (i > 0 ==> KeyLess(l.index[i - 1].key, k))
    ensures l.starts[i] <= |l.entries| && KeyLess(l.entries[l.starts[i] - 1].key, k)
  {
    assert SeparatedAt(l, i - 1);
    AtMostLess(l.entries[l.starts[i] - 1].key, l.index[i - 1].key, k);
  }

  /** A hit in the selected block is the first entry of the table from the target on. */
  lemma HitInBlock(l: Layout, k: TableKey, i: nat, j: nat)
    requires Laid(l) && i == FirstFrom(l.index, k) && i < |l.index| && BlockAt(l, i)
    requires var block := l.entries[l.starts[i]..l.starts[i + 1]]; j == FirstFrom(block, k) && j < |block|
    ensures l.starts[i] + j == FirstFrom(l.entries, k)
  {
    var p, block := l.starts[i] + j, l.entries[l.starts[i]..l.starts[i + 1]];
    assert l.entries[p] == block[j];
    if j > 0 {
      assert l.entries[p - 1] == block[j - 1];
    } else if p > 0 {
      BeforeBlock(l, k, i);
    }
    FirstFromIs(l.entries, k, p);
  }

  /** A target between the last key of a block and the separator after it is of no later user key. */
  lemma SeparatedUsersApart(last: TableKey, separator: TableKey, next: TableKey, k: TableKey)
    requires KeyLess(last, k) && KeyAtMost(k, separator)
    requires separator == last || Before(separator.user, next.user)
    ensures next.user != k.user
  {
    KeyLessTotal(last, k);
    BeforeTotal(k.user, k.user);
    BeforeTotal(k.user, separator.user);
  }

  /** When the selected block has nothing from the target on, the table has no such entry of the target's user
      key: the separator lies strictly between the user keys, or is the last key of the block. */
  lemma MissInBlock(l: Layout, k: TableKey, i: nat)
    requires Laid(l) && i == FirstFrom(l.index, k) && i < |l.index| && BlockAt(l, i)
    requires var block := l.entries[l.starts[i]..l.starts[i + 1]]; FirstFrom(block, k) == |block|
    ensures var p := l.starts[i + 1];
      p == FirstFrom(l.entries, k) && (p < |l.entries| ==> l.entries[p].key.user != k.user)
  {
    hide KeyLess;
    var p, block := l.starts[i + 1], l.entries[l.starts[i]..l.starts[i + 1]];
    assert l.entries[p - 1] == block[|block| - 1];
    assert SeparatedAt(l, i);
    KeyLessTotal(l.index[i].key, k);
    KeyLessTotal(l.entries[p - 1].key, k);
    if p < |l.entries| {
      AtMostLess(k, l.index[i].key, l.entries[p].key);
      KeyLessTotal(k, l.entries[p].key);
      SeparatedUsersApart(l.entries[p - 1].key, l.index[i].key, l.entries[p].key, k);
    }
    FirstFromIs(l.entries, k, p);
  }

  /** The selected block decides the lookup. */
  lemma BlockDecides(l: Layout, k: TableKey, i: nat)
    requires Laid(l) && i == FirstFrom(l.index, k) && i < |l.index|
    ensures var handle := l.index[i].value;
      handle in l.blocks &&
      var block, p := l.blocks[handle], FirstFrom(l.entries, k);
      var j := FirstFrom(block, k);
      if j < |block| then
        p < |l.entries| && l.entries[p] == block[j] && (handle, block[j].key.user) in l.covered
      else
        p < |l.entries| ==> l.entries[p].key.user != k.user
  {
    hide KeyLess;
    assert SeparatedAt(l, i) && BlockAt(l, i);
    var block := l.entries[l.starts[i]..l.starts[i + 1]];
    var j := FirstFrom(block, k);
    if j < |block| {
      HitInBlock(l, k, i, j);
      assert CoveredAt(l, l.handles[i], l.starts[i] + j);
    } else {
      MissInBlock(l, k, i);
    }
  }

  /** Past the last index entry there is nothing. */
  lemma PastIndex(l: Layout, k: TableKey)
    requires Laid(l) && |l.index| == |l.handles| && l.starts[|l.handles|] == |l.entries| &&
             FirstFrom(l.index, k) == |l.index|
    ensures FirstFrom(l.entries, k) == |l.entries|
  {
    if l.entries != [] {
      BeforeBlock(l, k, |l.index|);
    }
    FirstFromIs(l.entries, k, |l.entries|);
  }

  /** A table file opened for reading. */
  class Table {
    const index: seq<Item<nat>>
    const blocks: map<nat, Block>
    const filter: FilterBlockReader?
    ghost const layout: Layout

    ghost predicate Valid() {
      Laid(layout) && |layout.index| == |layout.handles| && layout.starts[|layout.handles|] == |layout.entries| &&
      index == layout.index && blocks == layout.blocks &&
      (filter != null ==>
         filter.Valid() && forall h, u {:trigger (h, u) in layout.covered} | (h, u) in layout.covered ::
           filter.KeyMayMatch(h, u))
    }

    constructor (file: TableFile, policy: Option<FilterPolicy>, ghost layout: Layout)
      requires Stores(layout, file, layout.entries, policy)
      requires policy.Some? ==> NoFalseNegatives(policy.value) && |file.filter.value| < TWO_32
      ensures Valid() && this.layout == layout
    {
      index, blocks := file.index, file.blocks;
      this.layout := layout;
      if policy.Some? {
        filter := new FilterBlockReader(policy.value, file.filter.value);
      } else {
        filter := null;
      }
      new;
      if filter != null {
        forall h, u {:trigger (h, u) in layout.covered} | (h, u) in layout.covered
          ensures filter.KeyMayMatch(h, u)
        {
          KeysAreFound(filter, layout.covered, file.filter.value, h, u);
        }
      }
    }

    /** Reports an entry only if it is the first of the whole table from `k` on, and always when that entry has
        the user key of `k`. */
    method InternalGet(k: TableKey) returns (r: Option<Item<Bytes>>)
      requires Valid()
      ensures var p := FirstFrom(layout.entries, k);
        (r.Some? ==> p < |layout.entries| && r.value == layout.entries[p]) &&
        (p < |layout.entries| && layout.entries[p].key.user == k.user ==> r == Some(layout.entries[p]))
    {
      r := None;
      var i := FirstFrom(index, k);
      if i == |index| {
        PastIndex(layout, k);
        return;
      }
      var handle := index[i].value;
      BlockDecides(layout, k, i);
      if filter != null && !filter.KeyMayMatch(handle, k.user) {
        return;
      }
      var j := FirstFrom(blocks[handle], k);
      if j < |blocks[handle]| {
        r := Some(blocks[handle][j]);
      }
    }
  }
}
