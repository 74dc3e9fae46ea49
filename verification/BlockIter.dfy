// Iterating over a finished block (table/block.cc).

module BlockIters {
  import opened Keys
  import opened Coding
  import opened Varints
  import opened BlockFormat

  // ------------------------------------------------------------------ decoding an entry

  /** The three lengths at the start of an entry, and how many bytes they take. */
  datatype Header = Header(shared: nat, nonShared: nat, valueLength: nat, size: nat)

  function ReadHeader(input: Bytes): (r: Option<Header>)
    ensures r.Some? ==> r.value.size <= |input|
  {
    if |input| < 3 then None
    else
      var a := ReadVarint32(input);
      if a.None? then None
      else
        var b := ReadVarint32(input[a.value.size..]);
        if b.None? then None
        else
          var c := ReadVarint32(input[a.value.size + b.value.size..]);
          if c.None? then None
          else Some(Header(a.value.value, b.value.value, c.value.value, a.value.size + b.value.size + c.value.size))
  }

  /** None when the lengths or the bytes they announce do not fit in the input. */
  function Decoded(input: Bytes): Option<Header> {
    var h := ReadHeader(input);
    if h.None? || |input| - h.value.size < (h.value.nonShared + h.value.valueLength) % TWO_32 then None else h
  }

  method DecodeEntry(input: Bytes) returns (r: Option<Header>)
    ensures r == Decoded(input)
  {
    if |input| < 3 {
      return None;
    }
    var h: Option<Header>;
    if input[0] < 128 && input[1] < 128 && input[2] < 128 {
      OneByteEach(input);
      h := Some(Header(input[0] as nat, input[1] as nat, input[2] as nat, 3));
    } else {
      h := DecodeLengths(input);
    }
    if h.None? || |input| - h.value.size < (h.value.nonShared + h.value.valueLength) % TWO_32 {
      return None;
    }
    return h;
  }

  method DecodeLengths(input: Bytes) returns (r: Option<Header>)
    requires |input| >= 3
    ensures r == ReadHeader(input)
  {
    var a := GetVarint32Ptr(input);
    if a.None? {
      return None;
    }
    var b := GetVarint32Ptr(input[a.value.size..]);
    if b.None? {
      return None;
    }
    var c := GetVarint32Ptr(input[a.value.size + b.value.size..]);
    if c.None? {
      return None;
    }
    return Some(Header(a.value.value, b.value.value, c.value.value, a.value.size + b.value.size + c.value.size));
  }

  lemma OneByte(input: Bytes)
    requires input != [] && input[0] < 128
    ensures ReadVarint32(input) == Some(Read(input[0] as nat, 1))
  {
  }

  /** The fast path agrees with the general one. */
  lemma OneByteEach(input: Bytes)
    requires |input| >= 3 && input[0] < 128 && input[1] < 128 && input[2] < 128
    ensures ReadHeader(input) == Some(Header(input[0] as nat, input[1] as nat, input[2] as nat, 3))
  {
    OneByte(input);
    OneByte(input[1..]);
    OneByte(input[2..]);
  }

  /** Three numbers, one after the other. */
  lemma ReadsThree(a: Bytes, b: Bytes, c: Bytes, tail: Bytes, x: nat, y: nat, z: nat)
    requires a != [] && b != [] && c != []
    requires ReadsAs(a + (b + (c + tail)), x, |a|) && ReadsAs(b + (c + tail), y, |b|) && ReadsAs(c + tail, z, |c|)
    ensures HeaderIs(a + (b + (c + tail)), Header(x, y, z, |a| + |b| + |c|))
  {
    var input := a + (b + (c + tail));
    assert input[|a|..] == b + (c + tail);
    assert input[|a| + |b|..] == c + tail;
    assert IsRead(input, ReadVarint32(input));
    assert IsRead(input[|a|..], ReadVarint32(input[|a|..]));
    assert IsRead(input[|a| + |b|..], ReadVarint32(input[|a| + |b|..]));
  }

  predicate IsHeader(input: Bytes, r: Option<Header>) {
    r == ReadHeader(input)
  }

  ghost predicate HeaderIs(input: Bytes, h: Header) {
    forall r {:trigger IsHeader(input, r)} | IsHeader(input, r) :: r == Some(h)
  }

  lemma ReadsHeader(x: uint32, y: uint32, z: uint32, tail: Bytes)
    ensures HeaderIs(Varint(x) + (Varint(y) + (Varint(z) + tail)),
                     Header(x, y, z, |Varint(x)| + |Varint(y)| + |Varint(z)|))
  {
    hide Varint;
    var a, b, c := Varint(x), Varint(y), Varint(z);
    ReadsBack32(x, b + (c + tail));
    ReadsBack32(y, c + tail);
    ReadsBack32(z, tail);
    ReadsThree(a, b, c, tail, x, y, z);
  }

  function HeaderSize(shared: nat, p: Pair): nat
    requires shared <= |p.key|
  {
    |Varint(shared)| + |Varint(|p.key| - shared)| + |Varint(|p.value|)|
  }

  /** The lengths and bytes of an entry fit, so decoding finds them. */
  lemma DecodesWith(input: Bytes, h: Header)
    requires HeaderIs(input, h) && h.nonShared + h.valueLength < TWO_32
    requires h.size + h.nonShared + h.valueLength <= |input|
    ensures Decoded(input) == Some(h)
  {
    assert IsHeader(input, ReadHeader(input));
  }

  lemma EntryHeader(shared: nat, p: Pair, rest: Bytes)
    requires shared <= |p.key| < TWO_32 && |p.key| - shared + |p.value| < TWO_32
    ensures HeaderIs(EncodeEntry(shared, p) + rest, Header(shared, |p.key| - shared, |p.value|, HeaderSize(shared, p)))
  {
    ReadsHeader(shared, |p.key| - shared, |p.value|, p.key[shared..] + p.value + rest);
    Regroup(Varint(shared), Varint(|p.key| - shared), Varint(|p.value|), p.key[shared..], p.value, rest);
  }

  lemma EntryLength(shared: nat, p: Pair)
    requires shared <= |p.key|
    ensures |EncodeEntry(shared, p)| == HeaderSize(shared, p) + |p.key| - shared + |p.value|
  {
  }

  lemma Regroup(a: Bytes, b: Bytes, c: Bytes, d: Bytes, e: Bytes, rest: Bytes)
    ensures a + b + c + d + e + rest == a + (b + (c + (d + e + rest)))
  {
  }

  // ------------------------------------------------------------------ finding entries in the block

  ghost predicate Opened(b: Block, contents: Bytes) {
    Laid(b) && contents == Contents(b) && |contents| < TWO_32
  }

  lemma {:induction false} OffsetsGrow(b: Block, i: nat, j: nat)
    requires Laid(b) && i <= j <= |b.entries|
    ensures b.offsets[i] <= b.offsets[j] <= |b.data| && (i < j ==> b.offsets[i] < b.offsets[j])
    decreases |b.entries| - i
  {
    if i < j {
      assert EntryAt(b, i);
      OffsetsGrow(b, i + 1, j);
    } else if j < |b.entries| {
      assert EntryAt(b, j);
      OffsetsGrow(b, j + 1, |b.entries|);
    }
  }

  lemma {:induction false} FixedAllAt(s: seq<nat>, j: nat)
    requires j < |s|
    ensures FixedAll(s)[4 * j..4 * j + 4] == Fixed(4, s[j])
    decreases |s|
  {
    var n := |s| - 1;
    if j < n {
      FixedAllAt(s[..n], j);
      assert FixedAll(s)[4 * j..4 * j + 4] == FixedAll(s[..n])[4 * j..4 * j + 4];
    }
  }

  /** The restart array holds where the restart points are. */
  lemma RestartPoint(b: Block, contents: Bytes, j: nat)
    requires Opened(b, contents) && j < |b.restarts|
    ensures |b.data| + 4 * j + 4 <= |contents| && RestartAt(b, j)
    ensures DecodeFixed32(contents[|b.data| + 4 * j..]) == b.offsets[b.restarts[j]]
  {
    var s := RestartOffsets(b);
    assert RestartAt(b, j);
    OffsetsGrow(b, b.restarts[j], |b.entries|);
    FixedAllAt(s, j);
    var at := |b.data| + 4 * j;
    assert contents[at..][..4] == FixedAll(s)[4 * j..4 * j + 4];
    Fixed32RoundTrip(s[j], contents[at..]);
  }

  /** A key is no longer than the block up to the end of its entry: each of its bytes was written once. */
  lemma {:induction false} KeyFits(b: Block, i: nat)
    requires Laid(b) && i < |b.entries|
    ensures |b.entries[i].key| + |b.entries[i].value| < b.offsets[i + 1]
  {
    assert EntryAt(b, i);
    if i > 0 {
      KeyFits(b, i - 1);
    }
  }

  lemma SubSlice(s: Bytes, from: nat, n: nat, a: nat, b: nat)
    requires a <= b <= n && from + n <= |s|
    ensures s[from..from + n][a..b] == s[from + a..from + b]
  {
    assert s[from..from + n] == s[from..][..n];
    assert s[from..from + n][a..b] == s[from..][..n][..b][a..] == s[from..][..b][a..];
    assert s[from..][..b] == s[from..from + b];
    assert s[from..from + b][a..] == s[from + a..from + b];
  }

  lemma EntrySlices(entry: Bytes, header: Bytes, delta: Bytes, value: Bytes, data: Bytes, contents: Bytes, from: nat,
                    limit: nat)
    requires entry == header + delta + value && data <= contents && |data| == limit
    requires from + |entry| <= limit && data[from..from + |entry|] == entry
    ensures contents[from..limit] == entry + data[from + |entry|..]
    ensures contents[from + |header|..from + |header| + |delta|] == delta
    ensures contents[from + |header| + |delta|..from + |entry|] == value
  {
    assert contents[from..from + |entry|] == entry;
    SubSlice(contents, from, |entry|, |header|, |header| + |delta|);
    SubSlice(contents, from, |entry|, |header| + |delta|, |entry|);
    assert contents[from..limit] == data[from..];
    assert data[from..] == data[from..from + |entry|] + data[from + |entry|..];
  }

  /** Where the bytes of entry `i` are. */
  lemma EntryBytes(b: Block, contents: Bytes, i: nat)
    requires Opened(b, contents) && i < |b.entries|
    ensures EntryAt(b, i) && b.offsets[i] < b.offsets[i + 1] <= |b.data| <= |contents|
    ensures var p, from, size := b.entries[i], b.offsets[i], HeaderSize(b.shared[i], b.entries[i]);
      var n := |p.key| - b.shared[i];
      contents[from..|b.data|] == EncodeEntry(b.shared[i], p) + b.data[b.offsets[i + 1]..] &&
      from + size + n + |p.value| == b.offsets[i + 1] &&
      contents[from + size..from + size + n] == p.key[b.shared[i]..] &&
      contents[from + size + n..b.offsets[i + 1]] == p.value
  {
    hide Varint;
    assert EntryAt(b, i);
    OffsetsGrow(b, i, i + 1);
    var p, from, shared := b.entries[i], b.offsets[i], b.shared[i];
    var header := Varint(shared) + Varint(|p.key| - shared) + Varint(|p.value|);
    EntrySlices(EncodeEntry(shared, p), header, p.key[shared..], p.value, b.data, contents, from, |b.data|);
    EntryLength(shared, p);
  }

  /** What the bytes at entry `i` say. */
  lemma EntryDecodes(b: Block, contents: Bytes, i: nat)
    requires Opened(b, contents) && i < |b.entries|
    ensures EntryAt(b, i) && b.offsets[i] < b.offsets[i + 1] <= |b.data| <= |contents|
    ensures var p, from, size := b.entries[i], b.offsets[i], HeaderSize(b.shared[i], b.entries[i]);
      var n := |p.key| - b.shared[i];
      Decoded(contents[from..|b.data|]) == Some(Header(b.shared[i], n, |p.value|, size)) &&
      from + size + n + |p.value| == b.offsets[i + 1] &&
      contents[from + size..from + size + n] == p.key[b.shared[i]..] &&
      contents[from + size + n..b.offsets[i + 1]] == p.value
  {
    hide Varint, EncodeEntry;
    EntryBytes(b, contents, i);
    KeyFits(b, i);
    var p, from, shared := b.entries[i], b.offsets[i], b.shared[i];
    EntryHeader(shared, p, b.data[b.offsets[i + 1]..]);
    DecodesWith(contents[from..|b.data|], Header(shared, |p.key| - shared, |p.value|, HeaderSize(shared, p)));
  }

  /** DecodeEntry at the start of entry `i`. */
  method DecodeAt(contents: Bytes, p: nat, limit: nat, ghost b: Block, ghost i: nat) returns (r: Option<Header>)
    requires Opened(b, contents) && i < |b.entries| && p == b.offsets[i] && limit == |b.data|
    ensures r.Some? && Describes(r.value, contents, b, i)
  {
    EntryDecodes(b, contents, i);
    r := DecodeEntry(contents[p..limit]);
  }

  /** The lengths of entry `i`, and where its bytes are. */
  predicate Describes(h: Header, contents: Bytes, b: Block, i: nat)
    requires Sizes(b) && i < |b.entries|
  {
    var p, from := b.entries[i], b.offsets[i] + h.size;
    h.shared == b.shared[i] <= |p.key| && h.shared + h.nonShared == |p.key| && h.valueLength == |p.value| &&
    from + h.nonShared + h.valueLength == b.offsets[i + 1] <= |b.data| <= |contents| &&
    contents[from..from + h.nonShared] == p.key[h.shared..] &&
    contents[from + h.nonShared..b.offsets[i + 1]] == p.value
  }

  /** Bytes left in the key from the entry before are the ones entry `i` does not repeat. */
  predicate KeyReady(b: Block, i: nat, key: Bytes)
    requires Sizes(b) && i < |b.entries|
  {
    b.shared[i] <= |key| && b.shared[i] <= |b.entries[i].key| && key[..b.shared[i]] == b.entries[i].key[..b.shared[i]]
  }

  lemma KeyReadyNext(b: Block, i: nat)
    requires Laid(b) && i + 1 < |b.entries|
    ensures KeyReady(b, i + 1, b.entries[i].key)
  {
    assert EntryAt(b, i + 1);
  }

  lemma KeyReadyAtRestart(b: Block, j: nat, key: Bytes)
    requires Laid(b) && j < |b.restarts| && b.restarts[j] < |b.entries|
    ensures b.shared[b.restarts[j]] == 0 && KeyReady(b, b.restarts[j], key)
  {
    assert EntryAt(b, b.restarts[j]);
  }

  lemma OffsetOrder(b: Block, i: nat, j: nat)
    requires Laid(b) && i <= |b.entries| && j <= |b.entries|
    ensures b.offsets[i] < b.offsets[j] <==> i < j
    ensures b.offsets[i] <= |b.data| && (i < |b.entries| ==> b.offsets[i] < |b.data|)
  {
    OffsetsGrow(b, i, |b.entries|);
    if i < j {
      OffsetsGrow(b, i, j);
    } else {
      OffsetsGrow(b, j, i);
    }
  }

  // ------------------------------------------------------------------ the iterator

  class Iter {
    const data: Bytes
    const restarts: nat
    const numRestarts: nat
    const rank: Bytes -> real
    var current: nat
    var restartIndex: nat
    var key: Bytes
    var valueAt: nat
    var valueSize: nat
    ghost const block: Block
    ghost var pos: nat

    ghost predicate Opens()
      reads this
    {
      Opened(block, data) && restarts == |block.data| && numRestarts == |block.restarts|
    }

    /** At a valid position the fields hold the entry there, and the restart point at or before it. */
    ghost predicate Ok()
      reads this
    {
      Opens() && if pos < |block.entries| then At(pos) else pos == |block.entries| && current == restarts
    }

    ghost predicate At(i: nat)
      requires Opens()
      reads this
    {
      i < |block.entries| && current == block.offsets[i] && key == block.entries[i].key &&
      valueAt + valueSize == block.offsets[i + 1] <= |data| &&
      data[valueAt..valueAt + valueSize] == block.entries[i].value &&
      restartIndex < numRestarts && block.restarts[restartIndex] <= i
    }

    /** The next entry to parse is `i`. */
    ghost predicate Poised(i: nat)
      requires Opens()
      reads this
    {
      i <= |block.entries| && valueAt + valueSize == block.offsets[i] &&
      (i < |block.entries| ==>
         KeyReady(block, i, key) && restartIndex < numRestarts && block.restarts[restartIndex] <= i)
    }

    constructor (contents: Bytes, restarts: nat, numRestarts: nat, rank: Bytes -> real, ghost block: Block)
      requires Opened(block, contents) && restarts == |block.data| && numRestarts == |block.restarts|
      ensures Ok() && !Valid() && this.block == block && this.rank == rank && data == contents
    {
      data, this.restarts, this.numRestarts, this.rank, this.block := contents, restarts, numRestarts, rank, block;
      current, restartIndex, key, valueAt, valueSize, pos := restarts, numRestarts, [], 0, 0, |block.entries|;
    }

    predicate Valid()
      reads this
    {
      current < restarts
    }

    lemma ValidMeans()
      requires Ok()
      ensures Valid() <==> pos < |block.entries|
    {
      OffsetOrder(block, pos, |block.entries|);
    }

    method Key() returns (k: Bytes)
      requires Ok() && Valid()
      ensures pos < |block.entries| && k == block.entries[pos].key
    {
      ValidMeans();
      k := key;
    }

    method Value() returns (v: Bytes)
      requires Ok() && Valid()
      ensures pos < |block.entries| && v == block.entries[pos].value
    {
      ValidMeans();
      v := data[valueAt..valueAt + valueSize];
    }

    method GetRestartPoint(index: nat) returns (offset: nat)
      requires Opens() && index < numRestarts
      ensures RestartAt(block, index) && offset == block.offsets[block.restarts[index]]
    {
      RestartPoint(block, data, index);
      offset := DecodeFixed32(data[restarts + 4 * index..]);
    }

    method SeekToRestartPoint(index: nat)
      requires Opens() && index < numRestarts
      modifies this
      ensures Opens() && RestartAt(block, index) && Poised(block.restarts[index]) && restartIndex == index
    {
      key := [];
      restartIndex := index;
      valueAt := GetRestartPoint(index);
      valueSize := 0;
      if block.restarts[index] < |block.entries| {
        KeyReadyAtRestart(block, index, key);
      }
    }

    lemma PoisedNext()
      requires Ok() && pos < |block.entries|
      ensures Poised(pos + 1)
    {
      if pos + 1 < |block.entries| {
        KeyReadyNext(block, pos);
      }
    }

    /** Moves to entry `i`, or past the end. */
    method ParseNextKey(ghost i: nat) returns (ok: bool)
      requires Opens() && Poised(i)
      modifies this
      ensures Ok() && pos == i && (ok <==> i < |block.entries|)
    {
      current := valueAt + valueSize;
      pos := i;
      OffsetOrder(block, i, |block.entries|);
      if current >= restarts {
        current := restarts;
        restartIndex := numRestarts;
        return false;
      }
      var h := DecodeAt(data, current, restarts, block, i);
      if h.None? || |key| < h.value.shared {
        assert false;
      }
      var p := current + h.value.size;
      key := key[..h.value.shared] + data[p..p + h.value.nonShared];
      valueAt, valueSize := p + h.value.nonShared, h.value.valueLength;
      AdvanceRestart();
      return true;
    }

    /** The restart point does not go past the current entry. */
    method AdvanceRestart()
      requires Opens() && At(pos)
      modifies this`restartIndex
      ensures At(pos)
    {
      while restartIndex + 1 < numRestarts
        invariant At(pos)
        decreases numRestarts - restartIndex
      {
        var next := GetRestartPoint(restartIndex + 1);
        if next >= current {
          break;
        }
        OffsetOrder(block, block.restarts[restartIndex + 1], pos);
        restartIndex := restartIndex + 1;
      }
    }

    method Next()
      requires Ok() && Valid()
      modifies this
      ensures Ok() && pos == old(pos) + 1
    {
      ValidMeans();
      PoisedNext();
      var ok := ParseNextKey(pos + 1);
    }

    method SeekToFirst()
      requires Ok()
      modifies this
      ensures Ok() && pos == 0
    {
      SeekToRestartPoint(0);
      var ok := ParseNextKey(0);
    }

    method SeekToLast()
      requires Ok()
      modifies this
      ensures Ok() && pos == if block.entries == [] then 0 else |block.entries| - 1
    {
      SeekToRestartPoint(numRestarts - 1);
      ghost var i := block.restarts[numRestarts - 1];
      var more := ParseNextKey(i);
      while more && valueAt + valueSize < restarts
        invariant Ok() && pos == i && (more <==> i < |block.entries|) && (!more ==> block.entries == [])
        decreases |block.entries| - i
      {
        PoisedNext();
        i := i + 1;
        OffsetOrder(block, i, |block.entries|);
        more := ParseNextKey(i);
      }
      if more {
        OffsetOrder(block, pos + 1, |block.entries|);
      }
    }

    method Prev()
      requires Ok() && Valid()
      modifies this
      ensures Ok() && pos == if old(pos) == 0 then |block.entries| else old(pos) - 1
    {
      ValidMeans();
      var original := current;
      ghost var to := pos;
      var found := ScanBackwards(original);
      if !found {
        current := restarts;
        restartIndex := numRestarts;
        pos := |block.entries|;
        return;
      }
      ghost var i := block.restarts[restartIndex];
      SeekToRestartPoint(restartIndex);
      var more := ParseNextKey(i);
      while more && valueAt + valueSize < original
        invariant Ok() && pos == i && more
        invariant i < to < |block.entries|
        invariant original == block.offsets[to]
        decreases |block.entries| - i
      {
        OffsetOrder(block, i + 1, to);
        PoisedNext();
        i := i + 1;
        more := ParseNextKey(i);
      }
      OffsetOrder(block, pos + 1, to);
    }

    /** Moves back to a restart point before the current entry, if there is one. */
    method ScanBackwards(original: nat) returns (found: bool)
      requires Opens() && At(pos) && original == current
      modifies this`restartIndex
      ensures At(pos) && RestartAt(block, restartIndex)
      ensures if found then block.restarts[restartIndex] < pos else pos == 0
      ensures current == old(current)
    {
      var offset := GetRestartPoint(restartIndex);
      while offset >= original
        invariant At(pos) && RestartAt(block, restartIndex) && offset == block.offsets[block.restarts[restartIndex]]
        decreases restartIndex
      {
        OffsetOrder(block, block.restarts[restartIndex], pos);
        if restartIndex == 0 {
          return false;
        }
        restartIndex := restartIndex - 1;
        offset := GetRestartPoint(restartIndex);
      }
      OffsetOrder(block, block.restarts[restartIndex], pos);
      return true;
    }

    ghost predicate Ascending() {
      forall i, j | 0 <= i < j < |block.entries| :: rank(block.entries[i].key) < rank(block.entries[j].key)
    }

    ghost predicate AllBelow(i: nat, target: Bytes)
      requires i <= |block.entries|
    {
      forall j | 0 <= j < i :: rank(block.entries[j].key) < rank(target)
    }

    /** Moves to the first entry whose key is at or after the target. */
    method Seek(target: Bytes)
      requires Ok() && Ascending()
      modifies this
      ensures Ok() && AllBelow(pos, target) && (pos < |block.entries| ==> rank(block.entries[pos].key) >= rank(target))
    {
      var left := FindRestart(target);
      SeekToRestartPoint(left);
      ghost var i := block.restarts[left];
      while true
        invariant Opens() && Poised(i) && AllBelow(i, target)
        decreases |block.entries| - i
      {
        var ok := ParseNextKey(i);
        if !ok {
          return;
        }
        if rank(key) >= rank(target) {
          return;
        }
        PoisedNext();
        i := i + 1;
      }
    }

    /** Binary search for the last restart point with a key before the target, or the first one. */
    method FindRestart(target: Bytes) returns (left: nat)
      requires Ok() && Ascending()
      ensures left < numRestarts && RestartAt(block, left) && AllBelow(block.restarts[left], target)
    {
      left := 0;
      var right := numRestarts - 1;
      assert RestartAt(block, 0);
      while left < right
        invariant left <= right < numRestarts && RestartAt(block, left) && AllBelow(block.restarts[left], target)
      {
        var mid := (left + right + 1) / 2;
        var regionOffset := GetRestartPoint(mid);
        ghost var i := block.restarts[mid];
        KeyReadyAtRestart(block, mid, []);
        OffsetOrder(block, i, |block.entries|);
        var h := DecodeAt(data, regionOffset, restarts, block, i);
        if h.None? || h.value.shared != 0 {
          assert false;
        }
        var p := regionOffset + h.value.size;
        var midKey := data[p..p + h.value.nonShared];
        assert midKey == block.entries[i].key;
        if rank(midKey) < rank(target) {
          left := mid;
        } else {
          right := mid - 1;
        }
      }
    }
  }
}
