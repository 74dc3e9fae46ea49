// Blocks of prefix-compressed entries with restart points, and their builder (table/block_builder.cc).

module BlockFormat {
  import opened Keys
  import opened Coding
  import opened Varints

  datatype Pair = Pair(key: Bytes, value: Bytes)

  function CommonPrefix(a: Bytes, b: Bytes): (r: nat)
    ensures r <= |a| && r <= |b| && a[..r] == b[..r]
    ensures r == |a| || r == |b| || a[r] != b[r]
  {
    if a == [] || b == [] || a[0] != b[0] then 0 else 1 + CommonPrefix(a[1..], b[1..])
  }

  /** An entry on disk: lengths, the rest of the key, the value. */
  function EncodeEntry(shared: nat, p: Pair): Bytes
    requires shared <= |p.key|
  {
    Varint(shared) + Varint(|p.key| - shared) + Varint(|p.value|) + p.key[shared..] + p.value
  }

  /** The entries of a block with where they begin (and the last one ends), how many key bytes each shares
      with the one before, and which of them are restart points. */
  datatype Block = Block(data: Bytes, entries: seq<Pair>, offsets: seq<nat>, shared: seq<nat>, restarts: seq<nat>)

  ghost predicate Laid(b: Block) {
    Sizes(b) &&
    (forall i {:trigger EntryAt(b, i)} | 0 <= i < |b.entries| :: EntryAt(b, i)) &&
    forall j {:trigger RestartAt(b, j)} | 0 <= j < |b.restarts| :: RestartAt(b, j)
  }

  predicate Sizes(b: Block) {
    |b.offsets| == |b.entries| + 1 && |b.shared| == |b.entries| && b.offsets[0] == 0 &&
    b.offsets[|b.entries|] == |b.data| && b.restarts != [] && b.restarts[0] == 0
  }

  /** Entry `i` lies between its offset and the next, compressed unless it is a restart point. */
  predicate EntryAt(b: Block, i: nat)
    requires Sizes(b) && i < |b.entries|
  {
    var from, to := b.offsets[i], b.offsets[i + 1];
    b.shared[i] == (if i == 0 || i in b.restarts then 0 else CommonPrefix(b.entries[i - 1].key, b.entries[i].key)) &&
    b.shared[i] <= |b.entries[i].key| &&
    to == from + |EncodeEntry(b.shared[i], b.entries[i])| <= |b.data| &&
    b.data[from..to] == EncodeEntry(b.shared[i], b.entries[i])
  }

  predicate RestartAt(b: Block, j: nat)
    requires Sizes(b) && j < |b.restarts|
  {
    b.restarts[j] <= |b.entries| && (j > 0 ==> b.restarts[j - 1] < b.restarts[j] < |b.entries|)
  }

  const EMPTY_BLOCK: Block := Block([], [], [0], [], [0])

  function FixedAll(s: seq<nat>): (r: Bytes)
    ensures |r| == 4 * |s|
  {
    if s == [] then [] else FixedAll(s[..|s| - 1]) + Fixed(4, s[|s| - 1])
  }

  function RestartOffsets(b: Block): (r: seq<nat>)
    requires Laid(b)
    ensures |r| == |b.restarts|
  {
    seq(|b.restarts|, j requires 0 <= j < |b.restarts| => assert RestartAt(b, j); b.offsets[b.restarts[j]])
  }

  /** The finished block: the entries, the restart array, and its length. */
  function Contents(b: Block): Bytes
    requires Laid(b)
  {
    b.data + FixedAll(RestartOffsets(b)) + Fixed(4, |b.restarts|)
  }

  // ------------------------------------------------------------------ adding an entry

  function Extended(b: Block, p: Pair, restart: bool): Block
    requires Sizes(b)
  {
    var n := |b.entries|;
    var restarts := if restart then b.restarts + [n] else b.restarts;
    var shared := SharedWith(b, p.key, restart);
    var bytes := EncodeEntry(shared, p);
    Block(b.data + bytes, b.entries + [p], b.offsets + [|b.data| + |bytes|], b.shared + [shared], restarts)
  }

  lemma OldSlice(data: Bytes, more: Bytes, from: nat, to: nat)
    requires from <= to <= |data|
    ensures (data + more)[from..to] == data[from..to] && (data + more)[|data|..] == more
  {
  }

  lemma OldEntryAt(b: Block, p: Pair, restart: bool, i: nat)
    requires Laid(b) && i < |b.entries|
    ensures EntryAt(Extended(b, p, restart), i)
  {
    var c := Extended(b, p, restart);
    assert EntryAt(b, i);
    OldSlice(b.data, EncodeEntry(SharedWith(b, p.key, restart), p), b.offsets[i], b.offsets[i + 1]);
    assert i in c.restarts <==> i in b.restarts;
  }

  lemma NewEntryAt(b: Block, p: Pair, restart: bool)
    requires Laid(b)
    ensures EntryAt(Extended(b, p, restart), |b.entries|)
  {
    var c := Extended(b, p, restart);
    NotYetRestart(b);
    OldSlice(b.data, EncodeEntry(SharedWith(b, p.key, restart), p), 0, 0);
    assert |b.entries| in c.restarts <==> restart || |b.entries| == 0;
  }

  lemma NotYetRestart(b: Block)
    requires Laid(b)
    ensures |b.entries| in b.restarts <==> |b.entries| == 0
  {
    if |b.entries| in b.restarts {
      var j: nat :| j < |b.restarts| && b.restarts[j] == |b.entries|;
      assert RestartAt(b, j);
    }
  }

  lemma RestartsKept(b: Block, p: Pair, restart: bool)
    requires Laid(b) && (restart ==> b.restarts[|b.restarts| - 1] < |b.entries|)
    ensures Sizes(Extended(b, p, restart))
    ensures var c := Extended(b, p, restart);
      forall j {:trigger RestartAt(c, j)} | 0 <= j < |c.restarts| :: RestartAt(c, j)
  {
    var c := Extended(b, p, restart);
    forall j {:trigger RestartAt(c, j)} | 0 <= j < |c.restarts|
      ensures RestartAt(c, j)
    {
      if j < |b.restarts| {
        assert RestartAt(b, j);
      }
    }
  }

  lemma ExtendedLaid(b: Block, p: Pair, restart: bool)
    requires Laid(b) && (restart ==> b.restarts[|b.restarts| - 1] < |b.entries|)
    ensures Laid(Extended(b, p, restart))
    ensures RestartOffsets(Extended(b, p, restart)) == RestartOffsets(b) + if restart then [|b.data|] else []
  {
    var c := Extended(b, p, restart);
    RestartsKept(b, p, restart);
    hide EntryAt, RestartAt;
    forall i {:trigger EntryAt(c, i)} | 0 <= i < |c.entries|
      ensures EntryAt(c, i)
    {
      if i < |b.entries| {
        OldEntryAt(b, p, restart, i);
      } else {
        NewEntryAt(b, p, restart);
      }
    }
    OffsetsKept(b, p, restart);
  }

  lemma OffsetsKept(b: Block, p: Pair, restart: bool)
    requires Laid(b) && Laid(Extended(b, p, restart))
    ensures RestartOffsets(Extended(b, p, restart)) == RestartOffsets(b) + if restart then [|b.data|] else []
  {
    hide EntryAt, EncodeEntry;
    var c := Extended(b, p, restart);
    forall j | 0 <= j < |b.restarts|
      ensures RestartOffsets(c)[j] == RestartOffsets(b)[j]
    {
      assert RestartAt(b, j);
    }
  }

  // ------------------------------------------------------------------ the builder

  /** What the builder's fields say about the block so far. */
  ghost predicate Builds(b: Block, buffer: Bytes, restarts: seq<nat>, counter: nat, lastKey: Bytes) {
    Laid(b) && buffer == b.data && restarts == RestartOffsets(b) &&
    counter == |b.entries| - b.restarts[|b.restarts| - 1] && lastKey == LastKey(b)
  }

  function LastKey(b: Block): Bytes {
    if b.entries == [] then [] else b.entries[|b.entries| - 1].key
  }

  /** How many key bytes the next entry shares with the last one. */
  function SharedWith(b: Block, key: Bytes, restart: bool): (r: nat)
    ensures r <= |key| && r <= |LastKey(b)| && LastKey(b)[..r] + key[r..] == key
  {
    if restart then 0 else CommonPrefix(LastKey(b), key)
  }

  lemma BuildsNext(b: Block, buffer: Bytes, restarts: seq<nat>, counter: nat, lastKey: Bytes, p: Pair, restart: bool)
    requires Builds(b, buffer, restarts, counter, lastKey) && (restart ==> counter > 0)
    ensures Builds(Extended(b, p, restart), buffer + EncodeEntry(SharedWith(b, p.key, restart), p),
                   restarts + if restart then [|buffer|] else [], if restart then 1 else counter + 1, p.key)
  {
    ExtendedLaid(b, p, restart);
  }

  /** The restart points are `interval` entries apart. */
  predicate Spaced(b: Block, interval: nat) {
    forall j | 0 < j < |b.restarts| :: b.restarts[j] == b.restarts[j - 1] + interval
  }

  lemma SpacedNext(b: Block, p: Pair, restart: bool, interval: nat)
    requires Laid(b) && Spaced(b, interval)
    requires restart ==> |b.entries| - b.restarts[|b.restarts| - 1] == interval
    ensures Spaced(Extended(b, p, restart), interval)
  {
  }

  /** The bytes of a block with two entries, the second sharing one byte with the first. */
  lemma BlockBytes()
    ensures EncodeEntry(0, Pair([0x61, 0x62], [0x78])) + EncodeEntry(1, Pair([0x61, 0x63], [0x79])) ==
            [0, 2, 1, 0x61, 0x62, 0x78, 1, 1, 1, 0x63, 0x79]
    ensures FixedAll([0, 0x102]) == [0, 0, 0, 0, 2, 1, 0, 0]
  {
    assert [0, 0x102][..1] == [0];
    assert FixedAll([0]) == FixedAll([]) + Fixed(4, 0);
  }

  class BlockBuilder {
    const restartInterval: nat
    var buffer: Bytes
    var restarts: seq<nat>
    var counter: nat
    var finished: bool
    var lastKey: Bytes
    ghost var block: Block

    ghost predicate Valid()
      reads this
    {
      Builds(block, buffer, restarts, counter, lastKey) && !finished && counter <= restartInterval &&
      restartInterval >= 1 && Spaced(block, restartInterval)
    }

    constructor (restartInterval: nat)
      requires restartInterval >= 1
      ensures Valid() && block == EMPTY_BLOCK
    {
      this.restartInterval := restartInterval;
      buffer, restarts, counter, finished, lastKey, block := [], [0], 0, false, [], EMPTY_BLOCK;
    }

    /** Every entry that comes a restart interval after the last restart point is a restart point. */
    method Add(key: Bytes, value: Bytes)
      requires Valid() && |key| < TWO_32 && |value| < TWO_32
      modifies this
      ensures Valid() && block == Extended(old(block), Pair(key, value), old(counter) == restartInterval)
    {
      ghost var restart := counter == restartInterval;
      SpacedNext(block, Pair(key, value), restart, restartInterval);
      assert lastKey == LastKey(block);
      hide EncodeEntry, Spaced, Extended, Builds, CommonPrefix, LastKey;
      BuildsNext(block, buffer, restarts, counter, lastKey, Pair(key, value), restart);
      var shared := 0;
      if counter < restartInterval {
        shared := SharedLength(lastKey, key);
      } else {
        restarts := restarts + [|buffer|];
        counter := 0;
      }
      AppendEntry(shared, key, value);
      block := Extended(block, Pair(key, value), restart);
      lastKey := lastKey[..shared] + key[shared..];
      counter := counter + 1;
    }

    method AppendEntry(shared: nat, key: Bytes, value: Bytes)
      requires shared <= |key| < TWO_32 && |value| < TWO_32
      modifies this`buffer
      ensures buffer == old(buffer) + EncodeEntry(shared, Pair(key, value))
    {
      var a := EncodeVarint32(shared);
      var b := EncodeVarint32(|key| - shared);
      var c := EncodeVarint32(|value|);
      buffer := buffer + a + b + c;
      buffer := buffer + key[shared..];
      buffer := buffer + value;
    }

    method Finish() returns (contents: Bytes)
      requires Valid()
      modifies this
      ensures block == old(block) && Laid(block) && finished && contents == Contents(block)
    {
      var i := 0;
      while i < |restarts|
        modifies this`buffer
        invariant 0 <= i <= |restarts| && buffer == block.data + FixedAll(restarts[..i])
      {
        assert restarts[..i + 1][..i] == restarts[..i];
        buffer := buffer + Fixed(4, restarts[i]);
        i := i + 1;
      }
      assert restarts[..i] == restarts;
      buffer := buffer + Fixed(4, |restarts|);
      finished := true;
      return buffer;
    }
  }

  method SharedLength(a: Bytes, b: Bytes) returns (shared: nat)
    ensures shared == CommonPrefix(a, b)
  {
    shared := 0;
    var minLength := if |a| < |b| then |a| else |b|;
    while shared < minLength && a[shared] == b[shared]
      invariant shared <= minLength && shared + CommonPrefix(a[shared..], b[shared..]) == CommonPrefix(a, b)
    {
      assert a[shared..][1..] == a[shared + 1..] && b[shared..][1..] == b[shared + 1..];
      shared := shared + 1;
    }
  }
}
