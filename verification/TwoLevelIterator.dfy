// TwoLevelIterator: one cursor over the concatenation of the blocks an index lists
// (table/two_level_iterator.cc).

module TwoLevelIterators {
  import opened Keys
  import opened Cursors

  /** The entries of the first `i` blocks. */
  function Before(blocks: seq<seq<Entry>>, i: nat): seq<Entry>
    requires i <= |blocks|
  {
    if i == 0 then [] else Before(blocks, i - 1) + blocks[i - 1]
  }

  function Concatenation(blocks: seq<seq<Entry>>): seq<Entry> {
    Before(blocks, |blocks|)
  }

  ghost predicate UpTo(block: seq<Entry>, key: IKey) {
    forall e | e in block :: LessEq(e.key, key)
  }

  ghost predicate Beyond(block: seq<Entry>, key: IKey) {
    forall e | e in block :: Less(key, e.key)
  }

  /** Every index key is at or after the keys of its block and before those of later blocks. */
  ghost predicate Separates(index: seq<Entry>, blocks: seq<seq<Entry>>) {
    |blocks| == |index| &&
    (forall i | 0 <= i < |index| :: Sorted(blocks[i])) &&
    (forall i {:trigger UpTo(blocks[i], index[i].key)} | 0 <= i < |index| :: UpTo(blocks[i], index[i].key)) &&
    forall i, j {:trigger Beyond(blocks[j], index[i].key)} | 0 <= i < j < |index| :: Beyond(blocks[j], index[i].key)
  }

  function Blocks(index: seq<Entry>, block: Bytes -> seq<Entry>): (r: seq<seq<Entry>>)
    ensures |r| == |index| && forall i | 0 <= i < |r| :: r[i] == block(index[i].value)
  {
    seq(|index|, i requires 0 <= i < |index| => block(index[i].value))
  }

  class TwoLevelIterator {
    const indexIter: Cursor
    const blockFunction: Bytes -> seq<Entry>
    var dataIter: Cursor?
    var handle: Bytes
    ghost const blocks: seq<seq<Entry>>
    ghost var pos: nat

    /** The data iterator, if any, runs over the block its handle names. */
    ghost predicate Parts()
      reads this, indexIter, dataIter
    {
      indexIter.Ok() && blocks == Blocks(indexIter.data, blockFunction) && Separates(indexIter.data, blocks) &&
      (dataIter != null ==> dataIter != indexIter && dataIter.Ok() && dataIter.data == blockFunction(handle))
    }

    /** The data iterator runs over the block the index iterator stands on. */
    ghost predicate InBlock()
      reads this, indexIter, dataIter
    {
      Parts() &&
      (indexIter.Valid() <==> dataIter != null) &&
      (indexIter.Valid() ==> handle == indexIter.Value())
    }

    /** The two iterators together stand at position `pos` of the concatenation. */
    ghost predicate Ok()
      reads this, indexIter, dataIter
    {
      Parts() && (if Valid() then InBlock() && pos == Start() + dataIter.pos else pos == |Concatenation(blocks)|)
    }

    ghost function Start(): nat
      requires InBlock()
      reads this, indexIter, dataIter
    {
      |Before(blocks, indexIter.pos)|
    }

    constructor (indexIter: Cursor, blockFunction: Bytes -> seq<Entry>)
      requires indexIter.Ok() && Separates(indexIter.data, Blocks(indexIter.data, blockFunction))
      ensures Ok() && !Valid() && this.indexIter == indexIter && dataIter == null
      ensures blocks == Blocks(indexIter.data, blockFunction)
    {
      this.indexIter, this.blockFunction := indexIter, blockFunction;
      dataIter, handle := null, [];
      blocks := Blocks(indexIter.data, blockFunction);
      pos := |Concatenation(Blocks(indexIter.data, blockFunction))|;
    }

    predicate Valid()
      reads this, dataIter
    {
      dataIter != null && dataIter.Valid()
    }

    method Key() returns (k: IKey)
      requires Ok() && Valid()
      ensures pos < |Concatenation(blocks)| && k == Concatenation(blocks)[pos].key
    {
      EntryAt(blocks, indexIter.pos, dataIter.pos);
      k := dataIter.Key();
    }

    method Value() returns (v: Bytes)
      requires Ok() && Valid()
      ensures pos < |Concatenation(blocks)| && v == Concatenation(blocks)[pos].value
    {
      EntryAt(blocks, indexIter.pos, dataIter.pos);
      v := dataIter.Value();
    }

    method Seek(target: IKey)
      requires Ok()
      modifies this, indexIter, dataIter
      ensures dataIter == null || dataIter == old(dataIter) || fresh(dataIter)
      ensures Ok() && pos == LowerBound(Concatenation(blocks), target)
    {
      indexIter.Seek(target);
      InitDataBlock();
      if dataIter != null {
        dataIter.Seek(target);
      }
      LowerBoundInBlocks(indexIter.data, blocks, target);
      SkipEmptyDataBlocksForward(LowerBound(Concatenation(blocks), target));
    }

    method SeekToFirst()
      requires Ok()
      modifies this, indexIter, dataIter
      ensures dataIter == null || dataIter == old(dataIter) || fresh(dataIter)
      ensures Ok() && pos == 0
    {
      indexIter.SeekToFirst();
      OpenFirst();
      SkipEmptyDataBlocksForward(0);
    }

    method SeekToLast()
      requires Ok()
      modifies this, indexIter, dataIter
      ensures dataIter == null || dataIter == old(dataIter) || fresh(dataIter)
      ensures Ok() && pos == if Concatenation(blocks) == [] then 0 else |Concatenation(blocks)| - 1
    {
      indexIter.SeekToLast();
      OpenLast();
      SkipEmptyDataBlocksBackward(|Concatenation(blocks)|);
    }

    method Next()
      requires Ok() && Valid()
      modifies this, indexIter, dataIter
      ensures dataIter == null || dataIter == old(dataIter) || fresh(dataIter)
      ensures Ok() && pos == old(pos) + 1
    {
      dataIter.Next();
      SkipEmptyDataBlocksForward(pos + 1);
    }

    method Prev()
      requires Ok() && Valid()
      modifies this, indexIter, dataIter
      ensures dataIter == null || dataIter == old(dataIter) || fresh(dataIter)
      ensures Ok() && pos == if old(pos) == 0 then |Concatenation(blocks)| else old(pos) - 1
    {
      dataIter.Prev();
      SkipEmptyDataBlocksBackward(pos);
    }

    /** From cut `p` of the concatenation, moves to the entry there, passing blocks without one. */
    method SkipEmptyDataBlocksForward(ghost p: nat)
      requires InBlock()
      requires p == if dataIter != null then Start() + dataIter.pos else |Concatenation(blocks)|
      modifies this, indexIter, dataIter
      ensures dataIter == null || dataIter == old(dataIter) || fresh(dataIter)
      ensures Ok() && pos == p
    {
      hide Separates, Blocks;
      while dataIter == null || !dataIter.Valid()
        invariant InBlock() && (dataIter == null || dataIter == old(dataIter) || fresh(dataIter))
        invariant p == if dataIter != null then Start() + dataIter.pos else |Concatenation(blocks)|
        decreases |indexIter.data| - indexIter.pos
      {
        if !indexIter.Valid() {
          dataIter := null;
          pos := p;
          return;
        }
        indexIter.Next();
        OpenFirst();
      }
      pos := p;
    }

    /** From cut `p` of the concatenation, moves to the entry before it, passing blocks without one. */
    method SkipEmptyDataBlocksBackward(ghost p: nat)
      requires InBlock()
      requires p == if dataIter != null then Start() + (if dataIter.Valid() then dataIter.pos + 1 else 0) else 0
      modifies this, indexIter, dataIter
      ensures dataIter == null || dataIter == old(dataIter) || fresh(dataIter)
      ensures Ok() && pos == if p == 0 then |Concatenation(blocks)| else p - 1
    {
      while dataIter == null || !dataIter.Valid()
        invariant InBlock() && (dataIter == null || dataIter == old(dataIter) || fresh(dataIter))
        invariant p == if dataIter != null then Start() + (if dataIter.Valid() then dataIter.pos + 1 else 0) else 0
        decreases if indexIter.Valid() then indexIter.pos + 1 else 0
      {
        if !indexIter.Valid() {
          dataIter := null;
          pos := |Concatenation(blocks)|;
          return;
        }
        indexIter.Prev();
        OpenLast();
      }
      pos := p - 1;
    }

    /** Opens the block the index iterator stands on, at its first entry. */
    method OpenFirst()
      requires Parts()
      modifies this, dataIter
      ensures InBlock() && pos == old(pos) && (dataIter != null ==> dataIter.pos == 0)
      ensures dataIter == null || dataIter == old(dataIter) || fresh(dataIter)
    {
      InitDataBlock();
      if dataIter != null {
        dataIter.SeekToFirst();
      }
    }

    /** Opens the block the index iterator stands on, at its last entry. */
    method OpenLast()
      requires Parts()
      modifies this, dataIter
      ensures InBlock() && pos == old(pos)
      ensures dataIter != null ==> (if dataIter.Valid() then dataIter.pos + 1 else 0) == |dataIter.data|
      ensures dataIter == null || dataIter == old(dataIter) || fresh(dataIter)
    {
      InitDataBlock();
      if dataIter != null {
        dataIter.SeekToLast();
      }
    }

    /** Opens the block the index iterator stands on, unless it is the one already open. */
    method InitDataBlock()
      requires Parts()
      modifies this
      ensures InBlock() && pos == old(pos)
      ensures dataIter == null || dataIter == old(dataIter) || (fresh(dataIter) && !dataIter.Valid())
      ensures indexIter.Valid() && old(dataIter) != null && old(handle) == indexIter.Value() ==>
                dataIter == old(dataIter)
    {
      if !indexIter.Valid() {
        dataIter := null;
      } else {
        var h := indexIter.Value();
        if dataIter != null && h == handle {
        } else {
          assert Sorted(blocks[indexIter.pos]);
          dataIter := new Cursor(blockFunction(h));
          handle := h;
        }
      }
    }
  }

  // ------------------------------------------------------------------ positions in the concatenation

  lemma {:induction false} BeforeGrows(blocks: seq<seq<Entry>>, i: nat, j: nat)
    requires i <= j <= |blocks|
    ensures Before(blocks, i) <= Before(blocks, j)
  {
    if i < j {
      BeforeGrows(blocks, i, j - 1);
    }
  }

  lemma EntryAt(blocks: seq<seq<Entry>>, i: nat, p: nat)
    requires i < |blocks| && p < |blocks[i]|
    ensures |Before(blocks, i)| + p < |Concatenation(blocks)|
    ensures Concatenation(blocks)[|Before(blocks, i)| + p] == blocks[i][p]
  {
    BeforeGrows(blocks, i + 1, |blocks|);
  }

  /** Entries of the first blocks come from one of them. */
  lemma {:induction false} FromBlock(blocks: seq<seq<Entry>>, i: nat, e: Entry) returns (j: nat)
    requires i <= |blocks| && e in Before(blocks, i)
    ensures j < i && e in blocks[j]
  {
    if e in blocks[i - 1] {
      j := i - 1;
    } else {
      j := FromBlock(blocks, i - 1, e);
    }
  }

  lemma {:induction false} BeforeSorted(index: seq<Entry>, blocks: seq<seq<Entry>>, i: nat)
    requires Separates(index, blocks) && i <= |blocks|
    ensures Sorted(Before(blocks, i))
  {
    if i > 0 {
      BeforeSorted(index, blocks, i - 1);
      forall x, y | x in Before(blocks, i - 1) && y in blocks[i - 1]
        ensures Less(x.key, y.key)
      {
        var j := FromBlock(blocks, i - 1, x);
        assert UpTo(blocks[j], index[j].key) && Beyond(blocks[i - 1], index[j].key);
      }
    }
  }

  /** Every position of the concatenation lies in one block. */
  lemma {:induction false} Where(blocks: seq<seq<Entry>>, n: nat, k: nat) returns (i: nat, p: nat)
    requires n <= |blocks| && k < |Before(blocks, n)|
    ensures i < n && p < |blocks[i]| && k == |Before(blocks, i)| + p && Before(blocks, n)[k] == blocks[i][p]
  {
    if k < |Before(blocks, n - 1)| {
      i, p := Where(blocks, n - 1, k);
    } else {
      i, p := n - 1, k - |Before(blocks, n - 1)|;
    }
  }

  /** What the index says about an entry of block `j` when it sends `target` to block `i`. */
  lemma BlockSide(index: seq<Entry>, blocks: seq<seq<Entry>>, target: IKey, i: nat, j: nat, e: Entry)
    requires Separates(index, blocks) && i <= |index| && j < |index| && e in blocks[j]
    requires forall k | 0 <= k < |index| :: Less(index[k].key, target) <==> k < i
    ensures j < i ==> Less(e.key, target)
    ensures i < j ==> !Less(e.key, target)
  {
    if j < i {
      assert UpTo(blocks[j], index[j].key);
    } else if i < j {
      assert Beyond(blocks[j], index[i].key);
    }
  }

  lemma CutIsLowerBound(data: seq<Entry>, target: IKey, q: nat)
    requires Sorted(data) && q <= |data|
    requires forall k | 0 <= k < |data| :: Less(data[k].key, target) <==> k < q
    ensures LowerBound(data, target) == q
  {
    LowerBoundAt(data, target);
    if q < |data| {
      assert !Less(data[q].key, target);
    }
    if q > 0 {
      assert Less(data[q - 1].key, target);
    }
  }

  lemma SideOf(index: seq<Entry>, blocks: seq<seq<Entry>>, target: IKey, k: nat)
    requires Sorted(index) && Separates(index, blocks) && k < |Concatenation(blocks)|
    ensures Less(Concatenation(blocks)[k].key, target) <==> k < InBlocks(index, blocks, target)
  {
    LowerBoundAt(index, target);
    var i := LowerBound(index, target);
    var j, p := Where(blocks, |blocks|, k);
    BlockSide(index, blocks, target, i, j, blocks[j][p]);
    if j < i {
      BeforeGrows(blocks, j + 1, i);
    } else if i < j {
      LowerBoundAt(blocks[i], target);
      BeforeGrows(blocks, i + 1, j);
    } else {
      LowerBoundAt(blocks[i], target);
    }
  }

  /** The first entry at or after a target lies in the block the index finds for it, or at its end. */
  lemma LowerBoundInBlocks(index: seq<Entry>, blocks: seq<seq<Entry>>, target: IKey)
    requires Sorted(index) && Separates(index, blocks)
    ensures LowerBound(index, target) <= |blocks| &&
            LowerBound(Concatenation(blocks), target) == InBlocks(index, blocks, target)
  {
    LowerBoundAt(index, target);
    var i := LowerBound(index, target);
    if i < |blocks| {
      LowerBoundAt(blocks[i], target);
      BeforeGrows(blocks, i + 1, |blocks|);
    }
    forall k | 0 <= k < |Concatenation(blocks)|
      ensures Less(Concatenation(blocks)[k].key, target) <==> k < InBlocks(index, blocks, target)
    {
      SideOf(index, blocks, target, k);
    }
    BeforeSorted(index, blocks, |blocks|);
    CutIsLowerBound(Concatenation(blocks), target, InBlocks(index, blocks, target));
  }

  function InBlocks(index: seq<Entry>, blocks: seq<seq<Entry>>, target: IKey): nat
    requires |index| == |blocks|
  {
    var i := LowerBound(index, target);
    if i < |blocks| then |Before(blocks, i)| + LowerBound(blocks[i], target) else |Concatenation(blocks)|
  }
}
