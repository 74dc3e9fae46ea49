// The log format and its writer (db/log_format.h, db/log_writer.cc).

module LogFormat {
  import opened Keys
  import opened Coding

  const BLOCK_SIZE: nat := 32768
  const HEADER_SIZE: nat := 7

  datatype Kind = Full | First | Middle | Last

  datatype Fragment = Fragment(kind: Kind, payload: Bytes)

  function TypeOf(kind: Kind): byte {
    match kind
    case Full => 1
    case First => 2
    case Middle => 3
    case Last => 4
  }

  /** The log does not care which checksum guards a fragment's type and payload. */
  type Checksum = Bytes -> uint32

  /** A fragment on disk: masked checksum, length, type, payload. */
  function Physical(crc: Checksum, f: Fragment): (r: Bytes)
    ensures |r| == HEADER_SIZE + |f.payload|
  {
    EncodeFixed32(Mask(crc([TypeOf(f.kind)] + f.payload))) + Fixed(2, |f.payload|) + [TypeOf(f.kind)] + f.payload
  }

  /** The bytes after the checksum of a record of 258 bytes, and of a first, a middle and a last fragment. */
  lemma PhysicalBytes(crc: Checksum, payload: Bytes)
    requires |payload| == 0x102
    ensures Physical(crc, Fragment(Full, payload))[4..7] == [2, 1, 1]
    ensures Physical(crc, Fragment(First, payload))[6] == 2 && Physical(crc, Fragment(Middle, payload))[6] == 3
    ensures Physical(crc, Fragment(Last, payload))[6] == 4
    ensures Physical(crc, Fragment(Full, payload))[..4] == EncodeFixed32(Mask(crc([1] + payload)))
    ensures Physical(crc, Fragment(Full, payload))[7..] == payload
  {
  }

  /** A position in the file: a block, and an offset in it that may be the block's end. */
  datatype Place = Place(block: nat, offset: nat)

  function Position(p: Place): nat {
    p.block * BLOCK_SIZE + p.offset
  }

  /** Where a fragment starts that comes after place `p`: never in the last six bytes of a block. */
  function Start(p: Place): Place {
    if BLOCK_SIZE - p.offset < HEADER_SIZE then Place(p.block + 1, 0) else p
  }

  function After(p: Place, f: Fragment): Place {
    Place(Start(p).block, Start(p).offset + HEADER_SIZE + |f.payload|)
  }

  /** Where the last of some fragments ends. */
  function End(fs: seq<Fragment>): Place {
    if fs == [] then Place(0, 0) else After(End(fs[..|fs| - 1]), fs[|fs| - 1])
  }

  function Padding(p: Place): Bytes {
    if p.offset < BLOCK_SIZE && BLOCK_SIZE - p.offset < HEADER_SIZE then seq(BLOCK_SIZE - p.offset, _ => 0) else []
  }

  /** The file that holds the fragments. */
  function Image(crc: Checksum, fs: seq<Fragment>): Bytes {
    if fs == [] then []
    else Image(crc, fs[..|fs| - 1]) + Padding(End(fs[..|fs| - 1])) + Physical(crc, fs[|fs| - 1])
  }

  /** A fragment stays within its block, and fills it when its record goes on. */
  predicate FitsAfter(p: Place, f: Fragment) {
    var e := After(p, f).offset;
    e <= BLOCK_SIZE && (f.kind.First? || f.kind.Middle? ==> e == BLOCK_SIZE)
  }

  ghost predicate Fits(fs: seq<Fragment>) {
    forall i {:trigger FitsAt(fs, i)} | 0 <= i < |fs| :: FitsAt(fs, i)
  }

  predicate FitsAt(fs: seq<Fragment>, i: nat)
    requires i < |fs|
  {
    FitsAfter(End(fs[..i]), fs[i])
  }

  function Joined(fs: seq<Fragment>): Bytes {
    if fs == [] then [] else Joined(fs[..|fs| - 1]) + fs[|fs| - 1].payload
  }

  /** The kind of the j-th of n fragments of a record. */
  function KindAt(j: nat, n: nat): Kind
    requires j < n
  {
    if n == 1 then Full else if j == 0 then First else if j == n - 1 then Last else Middle
  }

  predicate HasKind(fs: seq<Fragment>, j: nat)
    requires j < |fs|
  {
    fs[j].kind == KindAt(j, |fs|)
  }

  /** The fragments of one record. */
  ghost predicate Splits(fs: seq<Fragment>, record: Bytes) {
    fs != [] && Joined(fs) == record && forall j {:trigger HasKind(fs, j)} | 0 <= j < |fs| :: HasKind(fs, j)
  }

  function Flat(groups: seq<seq<Fragment>>): seq<Fragment> {
    if groups == [] then [] else Flat(groups[..|groups| - 1]) + groups[|groups| - 1]
  }

  ghost predicate SplitsAll(groups: seq<seq<Fragment>>, records: seq<Bytes>) {
    |groups| == |records| && forall k {:trigger Splits(groups[k], records[k])} | 0 <= k < |groups| ::
      Splits(groups[k], records[k])
  }

  // ------------------------------------------------------------------ the writer

  /** The writer counts the end of a block and the start of the next alike. */
  predicate AtOffset(offset: nat, p: Place) {
    p.offset <= BLOCK_SIZE && (offset == p.offset || (offset == 0 && p.offset == BLOCK_SIZE))
  }

  class LogWriter {
    const crc: Checksum
    var dest: Bytes
    var blockOffset: nat
    ghost var groups: seq<seq<Fragment>>
    ghost var records: seq<Bytes>

    /** The file holds the records, each split so that its fragments fill blocks. */
    ghost predicate Valid()
      reads this
    {
      SplitsAll(groups, records) && Holds(Flat(groups))
    }

    ghost predicate Holds(fs: seq<Fragment>)
      reads this
    {
      Fits(fs) && dest == Image(crc, fs) && AtOffset(blockOffset, End(fs))
    }

    constructor (crc: Checksum)
      ensures Valid() && records == [] && this.crc == crc
    {
      this.crc, dest, blockOffset, groups, records := crc, [], 0, [], [];
    }

    /** Appending to a file that ends at a record boundary. */
    constructor Reopen(crc: Checksum, dest: Bytes, ghost groups: seq<seq<Fragment>>, ghost records: seq<Bytes>)
      requires SplitsAll(groups, records) && Fits(Flat(groups)) && dest == Image(crc, Flat(groups))
      ensures Valid() && this.records == records && this.dest == dest && this.crc == crc
    {
      this.crc, this.dest, blockOffset := crc, dest, |dest| % BLOCK_SIZE;
      this.groups, this.records := groups, records;
      new;
      ImageLength(crc, Flat(groups));
      OffsetOfLength(End(Flat(groups)));
    }

    method AddRecord(slice: Bytes)
      requires Valid()
      modifies this
      ensures Valid() && records == old(records) + [slice]
      ensures |groups| == |old(groups)| + 1 && groups[..|groups| - 1] == old(groups)
    {
      ghost var fs := WriteFragments(slice, Flat(groups));
      RecordAdded(groups, records, fs, slice);
      groups, records := groups + [fs], records + [slice];
    }

    method WriteFragments(slice: Bytes, ghost before: seq<Fragment>) returns (ghost fs: seq<Fragment>)
      requires Holds(before)
      modifies this
      ensures Holds(before + fs) && Splits(fs, slice) && groups == old(groups) && records == old(records)
    {
      var left := slice;
      var begin := true;
      fs := [];
      assert before + fs == before;
      while true
        invariant Taken(fs, left, slice) && (begin <==> fs == [])
        invariant Holds(before + fs) && groups == old(groups) && records == old(records)
        decreases |left|, BLOCK_SIZE - blockOffset
      {
        var f := WriteFragment(left, begin, before + fs);
        assert before + (fs + [f]) == before + fs + [f];
        TakesNext(fs, left, slice, f);
        fs := fs + [f];
        if |f.payload| == |left| {
          break;
        }
        left := left[|f.payload|..];
        begin := false;
      }
    }

    /** One turn of the loop in AddRecord: as much of the data as the block takes. */
    method WriteFragment(data: Bytes, begin: bool, ghost fs: seq<Fragment>) returns (f: Fragment)
      requires Holds(fs)
      modifies this
      ensures Holds(fs + [f]) && f.payload <= data && groups == old(groups) && records == old(records)
      ensures f.kind ==
              if |f.payload| == |data| then (if begin then Full else Last)
              else (if begin then First else Middle)
      ensures |f.payload| == 0 && data != [] ==> blockOffset > old(blockOffset)
    {
      SwitchBlock(fs);
      var avail := BLOCK_SIZE - blockOffset - HEADER_SIZE;
      var fragmentLength := if |data| < avail then |data| else avail;
      var end := |data| == fragmentLength;
      var kind :=
        if begin && end then Full
        else if begin then First
        else if end then Last
        else Middle;
      f := Fragment(kind, data[..fragmentLength]);
      FragmentAdded(crc, fs, f);
      EmitPhysicalRecord(f);
    }

    /** Fills what is left of a block that has no room for a header. */
    method SwitchBlock(ghost fs: seq<Fragment>)
      requires Holds(fs)
      modifies this
      ensures dest == Image(crc, fs) + Padding(End(fs)) && blockOffset == Start(End(fs)).offset
      ensures groups == old(groups) && records == old(records)
      ensures BLOCK_SIZE - blockOffset >= HEADER_SIZE && (blockOffset == old(blockOffset) || blockOffset == 0)
      ensures BLOCK_SIZE - old(blockOffset) >= HEADER_SIZE ==> blockOffset == old(blockOffset)
    {
      var leftover := BLOCK_SIZE - blockOffset;
      if leftover < HEADER_SIZE {
        dest := dest + seq(leftover, _ => 0);
        blockOffset := 0;
      }
    }

    method EmitPhysicalRecord(f: Fragment)
      modifies this
      ensures dest == old(dest) + Physical(crc, f) && blockOffset == old(blockOffset) + HEADER_SIZE + |f.payload|
      ensures groups == old(groups) && records == old(records)
    {
      var header := FormatHeader(TypeOf(f.kind), |f.payload|, Mask(crc([TypeOf(f.kind)] + f.payload)));
      dest := dest + header;
      dest := dest + f.payload;
      blockOffset := blockOffset + HEADER_SIZE + |f.payload|;
    }
  }

  /** The seven bytes before a payload. */
  method FormatHeader(t: byte, length: nat, crc: uint32) returns (header: Bytes)
    ensures header == EncodeFixed32(crc) + Fixed(2, length) + [t]
  {
    var buf := new byte[HEADER_SIZE](_ => 0);
    buf[4], buf[5], buf[6] := (length % 0x100) as byte, (length / 0x100 % 0x100) as byte, t;
    for i := 0 to 4
      modifies buf
      invariant forall j | 0 <= j < i :: buf[j] == ByteOf(crc, j)
      invariant buf[4] == ByteOf(length, 0) && buf[5] == ByteOf(length, 1) && buf[6] == t
    {
      buf[i] := ByteOf(crc, i);
    }
    header := buf[..];
  }

  lemma {:induction false} ImageLength(crc: Checksum, fs: seq<Fragment>)
    requires Fits(fs)
    ensures |Image(crc, fs)| == Position(End(fs)) && End(fs).offset <= BLOCK_SIZE
  {
    if fs != [] {
      assert FitsAt(fs, |fs| - 1);
      FitsFirst(fs, |fs| - 1);
      ImageLength(crc, fs[..|fs| - 1]);
    }
  }

  lemma OffsetOfLength(p: Place)
    requires p.offset <= BLOCK_SIZE
    ensures AtOffset(Position(p) % BLOCK_SIZE, p)
  {
    if p.offset == BLOCK_SIZE {
      assert Position(p) == (p.block + 1) * BLOCK_SIZE;
    }
  }

  lemma EndInBlock(fs: seq<Fragment>)
    requires Fits(fs)
    ensures End(fs).offset <= BLOCK_SIZE
  {
    if fs != [] {
      assert FitsAt(fs, |fs| - 1);
    }
  }

  lemma FitsFirst(fs: seq<Fragment>, n: nat)
    requires Fits(fs) && n <= |fs|
    ensures Fits(fs[..n])
  {
    forall i {:trigger FitsAt(fs[..n], i)} | 0 <= i < n
      ensures FitsAt(fs[..n], i)
    {
      assert fs[..n][..i] == fs[..i];
      assert FitsAt(fs, i);
    }
  }

  lemma FragmentAdded(crc: Checksum, fs: seq<Fragment>, f: Fragment)
    requires Fits(fs)
    ensures End(fs + [f]) == After(End(fs), f)
    ensures Image(crc, fs + [f]) == Image(crc, fs) + Padding(End(fs)) + Physical(crc, f)
    ensures FitsAfter(End(fs), f) ==> Fits(fs + [f])
  {
    assert (fs + [f])[..|fs|] == fs;
    AddsFits(fs, f);
  }

  lemma RecordAdded(groups: seq<seq<Fragment>>, records: seq<Bytes>, fs: seq<Fragment>, record: Bytes)
    requires SplitsAll(groups, records) && Splits(fs, record)
    ensures SplitsAll(groups + [fs], records + [record]) && Flat(groups + [fs]) == Flat(groups) + fs
    ensures (groups + [fs])[..|groups + [fs]| - 1] == groups
  {
    assert (groups + [fs])[..|groups|] == groups;
  }

  lemma AddsFits(fs: seq<Fragment>, f: Fragment)
    requires Fits(fs)
    ensures FitsAfter(End(fs), f) ==> Fits(fs + [f])
  {
    if FitsAfter(End(fs), f) {
      forall i {:trigger FitsAt(fs + [f], i)} | 0 <= i < |fs + [f]|
        ensures FitsAt(fs + [f], i)
      {
        if i < |fs| {
          assert (fs + [f])[..i] == fs[..i];
          assert FitsAt(fs, i);
        } else {
          assert (fs + [f])[..i] == fs;
        }
      }
    }
  }

  /** The fragments written so far of a record that is not complete yet. */
  ghost predicate Taken(fs: seq<Fragment>, left: Bytes, record: Bytes) {
    Joined(fs) + left == record && forall j | 0 <= j < |fs| :: fs[j].kind == if j == 0 then First else Middle
  }

  lemma TakesNext(fs: seq<Fragment>, left: Bytes, record: Bytes, f: Fragment)
    requires Taken(fs, left, record) && f.payload <= left
    requires f.kind ==
             if |f.payload| == |left| then (if fs == [] then Full else Last)
             else (if fs == [] then First else Middle)
    ensures if |f.payload| == |left| then Splits(fs + [f], record) else Taken(fs + [f], left[|f.payload|..], record)
  {
    assert (fs + [f])[..|fs|] == fs;
    JoinedMore(Joined(fs), f.payload, left);
    assert Joined(fs + [f]) == Joined(fs) + f.payload;
    hide Joined;
    if |f.payload| == |left| {
      assert left[|f.payload|..] == [];
      assert Joined(fs + [f]) == Joined(fs + [f]) + [] == record;
      forall j | 0 <= j < |fs + [f]|
        ensures HasKind(fs + [f], j)
      {
      }
    }
  }

  lemma JoinedMore(joined: Bytes, payload: Bytes, left: Bytes)
    requires payload <= left
    ensures joined + payload + left[|payload|..] == joined + left
  {
    assert left == payload + left[|payload|..];
  }
}
