// Reading back what the log writer wrote, all of it or any prefix.

module LogRoundTrip {
  import opened Keys
  import opened Coding
  import opened LogFormat
  import opened LogReader

  // ------------------------------------------------------------------ fragments in the file

  function EndOf(fs: seq<Fragment>, i: nat): Place
    requires i <= |fs|
  {
    End(fs[..i])
  }

  lemma EndNext(fs: seq<Fragment>, i: nat)
    requires Fits(fs) && i < |fs|
    ensures EndOf(fs, i + 1) == After(EndOf(fs, i), fs[i]) && EndOf(fs, i).offset <= BLOCK_SIZE
    ensures Start(EndOf(fs, i)).offset + HEADER_SIZE + |fs[i].payload| <= BLOCK_SIZE
    ensures Position(Start(EndOf(fs, i))) + HEADER_SIZE + |fs[i].payload| == Position(EndOf(fs, i + 1))
  {
    assert fs[..i + 1][..i] == fs[..i];
    assert FitsAt(fs, i);
    FitsFirst(fs, i);
    EndInBlock(fs[..i]);
  }

  lemma {:induction false} ImagePrefix(crc: Checksum, fs: seq<Fragment>, i: nat)
    requires i <= |fs|
    ensures Image(crc, fs[..i]) <= Image(crc, fs)
    decreases |fs|
  {
    if i < |fs| {
      assert fs[..|fs| - 1][..i] == fs[..i];
      ImagePrefix(crc, fs[..|fs| - 1], i);
    } else {
      assert fs[..i] == fs;
    }
  }

  /** The bytes of fragment `i` lie between where it starts and where it ends. */
  lemma ImageHolds(crc: Checksum, fs: seq<Fragment>, i: nat)
    requires Fits(fs) && i < |fs|
    ensures Position(Start(EndOf(fs, i))) + HEADER_SIZE + |fs[i].payload| ==
            Position(EndOf(fs, i + 1)) <= |Image(crc, fs)|
    ensures Image(crc, fs)[Position(Start(EndOf(fs, i)))..Position(EndOf(fs, i + 1))] == Physical(crc, fs[i])
  {
    EndNext(fs, i);
    ImagePrefix(crc, fs, i + 1);
    ImageNext(crc, fs, i);
    SliceOf(Lead(crc, fs, i), Physical(crc, fs[i]), Image(crc, fs[..i + 1]), Image(crc, fs));
  }

  /** What comes before fragment `i` in the file. */
  function Lead(crc: Checksum, fs: seq<Fragment>, i: nat): Bytes
    requires i <= |fs|
  {
    Image(crc, fs[..i]) + Padding(EndOf(fs, i))
  }

  lemma ImageNext(crc: Checksum, fs: seq<Fragment>, i: nat)
    requires Fits(fs) && i < |fs|
    ensures Image(crc, fs[..i + 1]) == Lead(crc, fs, i) + Physical(crc, fs[i])
    ensures |Lead(crc, fs, i)| == Position(Start(EndOf(fs, i)))
  {
    assert fs[..i + 1][..i] == fs[..i];
    FitsFirst(fs, i);
    ImageLength(crc, fs[..i]);
  }

  lemma SliceOf(a: Bytes, p: Bytes, both: Bytes, whole: Bytes)
    requires both == a + p && both <= whole
    ensures |a| + |p| <= |whole| && whole[|a|..|a| + |p|] == p
  {
    assert whole[..|a| + |p|] == both;
  }

  /** Fragments with the bytes they make and the places where they end, `ends[i]` being where fragment `i`
      may begin. */
  datatype Layout = Layout(crc: Checksum, image: Bytes, fs: seq<Fragment>, ends: seq<Place>)

  ghost predicate Laid(l: Layout) {
    |l.ends| == |l.fs| + 1 && l.ends[0] == Place(0, 0) && |l.image| == Position(l.ends[|l.fs|]) &&
    (forall i {:trigger l.ends[i]} | 0 <= i <= |l.fs| :: l.ends[i].offset <= BLOCK_SIZE) &&
    forall i {:trigger LaidAt(l, i)} | 0 <= i < |l.fs| :: LaidAt(l, i)
  }

  /** Fragment `i` lies between its start and its end, within a block. */
  ghost predicate LaidAt(l: Layout, i: nat)
    requires i < |l.fs| < |l.ends|
  {
    var from, to := Position(Start(l.ends[i])), Position(l.ends[i + 1]);
    l.ends[i + 1] == After(l.ends[i], l.fs[i]) && to <= |l.image| &&
    l.image[from..to] == Physical(l.crc, l.fs[i])
  }

  function LayoutOf(crc: Checksum, fs: seq<Fragment>): Layout {
    Layout(crc, Image(crc, fs), fs, seq(|fs| + 1, i requires 0 <= i <= |fs| => EndOf(fs, i)))
  }

  lemma ImageIsLaid(crc: Checksum, fs: seq<Fragment>)
    requires Fits(fs)
    ensures Laid(LayoutOf(crc, fs))
  {
    var l := LayoutOf(crc, fs);
    forall i | 0 <= i <= |fs|
      ensures l.ends[i].offset <= BLOCK_SIZE
    {
      FitsFirst(fs, i);
      EndInBlock(fs[..i]);
    }
    forall i {:trigger LaidAt(l, i)} | 0 <= i < |fs|
      ensures LaidAt(l, i)
    {
      EndNext(fs, i);
      ImageHolds(crc, fs, i);
    }
    ImageLength(crc, fs);
    assert fs[..|fs|] == fs;
  }

  lemma HeaderDecodes(crc: Checksum, buffer: Bytes, f: Fragment)
    requires |buffer| >= HEADER_SIZE && |f.payload| < 0x1_0000
    requires buffer[..HEADER_SIZE] == Physical(crc, f)[..HEADER_SIZE]
    ensures PayloadLength(buffer) == |f.payload| && buffer[6] == TypeOf(f.kind)
  {
    var p := Physical(crc, f);
    assert buffer[4..][..2] == Fixed(2, |f.payload|) by {
      assert buffer[4..][0] == buffer[..HEADER_SIZE][4] && buffer[4..][1] == buffer[..HEADER_SIZE][5];
      assert p[4] == Fixed(2, |f.payload|)[0] && p[5] == Fixed(2, |f.payload|)[1];
    }
    Fixed16RoundTrip(|f.payload|, buffer[4..]);
    assert buffer[6] == buffer[..HEADER_SIZE][6] == p[6];
  }

  lemma ChecksumDecodes(crc: Checksum, buffer: Bytes, f: Fragment)
    requires |buffer| >= HEADER_SIZE + |f.payload| && PayloadLength(buffer) == |f.payload|
    requires buffer[..HEADER_SIZE + |f.payload|] == Physical(crc, f)
    ensures ChecksumMatches(crc, buffer) && buffer[HEADER_SIZE..HEADER_SIZE + |f.payload|] == f.payload
  {
    var p := Physical(crc, f);
    var n := HEADER_SIZE + |f.payload|;
    var checksum := Mask(crc([TypeOf(f.kind)] + f.payload));
    assert buffer[..4] == p[..4] == EncodeFixed32(checksum);
    Fixed32RoundTrip(checksum, buffer);
    UnmaskUndoesMask(crc([TypeOf(f.kind)] + f.payload));
    assert buffer[6..n] == p[6..] == [TypeOf(f.kind)] + f.payload;
    assert buffer[7..n] == p[7..] == f.payload;
  }

  // ------------------------------------------------------------------ one physical record

  /** The reader of a prefix of the fragments' file stands after fragment `i`, in block `b`, or at the start of
      the next fragment. Before the first read it stands at the end of a block before the file. */
  ghost predicate At(st: State, l: Layout, i: nat, b: int) {
    Ok(st) && |l.ends| == |l.fs| + 1 && i <= |l.fs| && |st.buffer| <= st.filePos &&
    forall q: nat {:trigger ReadTo(st, q)} | ReadTo(st, q) :: Stands(st, l, i, b, q)
  }

  predicate ReadTo(st: State, q: nat) {
    q + |st.buffer| == st.filePos
  }

  ghost predicate Stands(st: State, l: Layout, i: nat, b: int, q: nat)
    requires Ok(st) && |l.ends| == |l.fs| + 1 && i <= |l.fs| && ReadTo(st, q)
  {
    Laid(l) && st.crc == l.crc && st.file <= l.image && InBlock(st, b) && st.buffer == st.file[q..st.filePos] &&
    Between(l.ends[i], q)
  }

  ghost predicate InBlock(st: State, b: int) {
    b >= -1 && b * BLOCK_SIZE <= st.filePos - |st.buffer| <= st.filePos <= (b + 1) * BLOCK_SIZE &&
    st.filePos == (if (b + 1) * BLOCK_SIZE <= |st.file| then (b + 1) * BLOCK_SIZE else |st.file|) &&
    (st.eof <==> st.filePos < (b + 1) * BLOCK_SIZE)
  }

  predicate Between(e: Place, q: nat) {
    q == Position(e) || q == Position(Start(e))
  }

  lemma NextBlock(e: Place, q: nat, next: nat, b: int)
    requires Between(e, q) && e.offset <= BLOCK_SIZE && next == (b + 1) * BLOCK_SIZE && q <= next < q + HEADER_SIZE
    ensures next == Position(Start(e))
  {
  }

  lemma RefillAt(st: State, l: Layout, i: nat, b: int)
    requires At(st, l, i, b) && |st.buffer| < HEADER_SIZE && !st.eof
    ensures At(Refill(st), l, i, b + 1)
  {
    assert ReadTo(st, st.filePos - |st.buffer|);
    NextBlock(l.ends[i], st.filePos - |st.buffer|, st.filePos, b);
  }

  lemma StartOf(e: Place, q: nat, b: int)
    requires Between(e, q) && e.offset <= BLOCK_SIZE && b * BLOCK_SIZE <= q && q + HEADER_SIZE <= (b + 1) * BLOCK_SIZE
    ensures q == Position(Start(e)) && Start(e).block == b
  {
  }

  /** With a header's worth of bytes in the buffer, the reader stands at the start of a fragment. */
  lemma AtStart(st: State, l: Layout, i: nat, b: int)
    requires At(st, l, i, b) && |st.buffer| >= HEADER_SIZE
    ensures i < |l.fs| && st.filePos - |st.buffer| == Position(Start(l.ends[i]))
    ensures Position(l.ends[i + 1]) <= (b + 1) * BLOCK_SIZE
    ensures st.filePos - |st.buffer| + HEADER_SIZE + |l.fs[i].payload| == Position(l.ends[i + 1])
  {
    assert ReadTo(st, st.filePos - |st.buffer|);
    StartOf(l.ends[i], st.filePos - |st.buffer|, b);
    if i < |l.fs| {
      assert LaidAt(l, i) && l.ends[i + 1].offset <= BLOCK_SIZE;
    }
  }

  lemma BufferHolds(st: State, l: Layout, i: nat, b: int, n: nat)
    requires At(st, l, i, b) && |st.buffer| >= HEADER_SIZE && i < |l.fs| && n <= |st.buffer|
    requires n <= HEADER_SIZE + |l.fs[i].payload|
    ensures st.buffer[..n] == Physical(l.crc, l.fs[i])[..n]
  {
    assert ReadTo(st, st.filePos - |st.buffer|);
    AtStart(st, l, i, b);
    assert LaidAt(l, i);
    SliceFirst(l.image, st.file, st.buffer, Physical(l.crc, l.fs[i]),
               st.filePos - |st.buffer|, st.filePos, n);
  }

  lemma SliceFirst(whole: Bytes, file: Bytes, buffer: Bytes, p: Bytes, q: nat, end: nat, n: nat)
    requires file <= whole && q + n <= end <= |file| && buffer == file[q..end]
    requires n <= |p| && q + |p| <= |whole| && whole[q..q + |p|] == p
    ensures buffer[..n] == p[..n]
  {
    assert buffer[..n] == whole[q..q + |p|][..n];
  }

  lemma SliceRest(file: Bytes, q: nat, end: nat, n: nat)
    requires q + n <= end <= |file|
    ensures file[q..end][n..] == file[q + n..end]
  {
  }

  /** Whether fragment `i` is wholly in the file. */
  predicate Complete(file: Bytes, l: Layout, i: nat)
    requires |l.ends| == |l.fs| + 1
  {
    i < |l.fs| && Position(l.ends[i + 1]) <= |file|
  }

  lemma Advances(st: State, l: Layout, i: nat, b: int, n: nat)
    requires At(st, l, i, b) && i < |l.fs| && n <= |st.buffer| &&
             st.filePos - |st.buffer| + n == Position(l.ends[i + 1])
    ensures At(st.(buffer := st.buffer[n..]), l, i + 1, b)
  {
    assert ReadTo(st, st.filePos - |st.buffer|);
    SliceRest(st.file, st.filePos - |st.buffer|, st.filePos, n);
  }

  lemma ParsesFragment(crc: Checksum, st: State, f: Fragment)
    requires Ok(st) && st.crc == crc && |f.payload| < 0x1_0000
    requires HEADER_SIZE + |f.payload| <= |st.buffer| &&
             st.buffer[..HEADER_SIZE + |f.payload|] == Physical(crc, f)
    ensures Parsed(st) ==
            ParsedRecord(TypeOf(f.kind) as nat, f.payload, st.(buffer := st.buffer[HEADER_SIZE + |f.payload|..]))
  {
    assert st.buffer[..HEADER_SIZE] == st.buffer[..HEADER_SIZE + |f.payload|][..HEADER_SIZE];
    HeaderDecodes(crc, st.buffer, f);
    ChecksumDecodes(crc, st.buffer, f);
  }

  lemma ParsesNext(st: State, l: Layout, i: nat, b: int)
    requires At(st, l, i, b) && |st.buffer| >= HEADER_SIZE && Complete(st.file, l, i)
    ensures var r := Parsed(st);
      r.code == TypeOf(l.fs[i].kind) as nat && r.fragment == l.fs[i].payload && r.st.drops == st.drops &&
      At(r.st, l, i + 1, b)
  {
    assert ReadTo(st, st.filePos - |st.buffer|);
    AtStart(st, l, i, b);
    assert LaidAt(l, i);
    var n := HEADER_SIZE + |l.fs[i].payload|;
    BufferHolds(st, l, i, b, n);
    assert Physical(l.crc, l.fs[i])[..n] == Physical(l.crc, l.fs[i]);
    ParsesFragment(l.crc, st, l.fs[i]);
    Advances(st, l, i, b, n);
  }

  lemma ParsesEnd(st: State, l: Layout, i: nat, b: int)
    requires At(st, l, i, b) && |st.buffer| >= HEADER_SIZE && !Complete(st.file, l, i)
    ensures Parsed(st) == ParsedRecord(EOF_CODE, [], st.(buffer := []))
  {
    assert ReadTo(st, st.filePos - |st.buffer|);
    AtStart(st, l, i, b);
    assert LaidAt(l, i);
    BufferHolds(st, l, i, b, HEADER_SIZE);
    HeaderDecodes(l.crc, st.buffer, l.fs[i]);
  }

  /** What ReadPhysicalRecord does at fragment `i`: it returns the fragment if the file has all of it, and
      otherwise the end of the file, in either case without reporting anything. */
  ghost predicate ReadsFragment(r: ParsedRecord, st: State, l: Layout, i: nat, b: int)
    requires |l.ends| == |l.fs| + 1
  {
    r.st.drops == st.drops &&
    if Complete(st.file, l, i) then
      r.code == TypeOf(l.fs[i].kind) as nat && r.fragment == l.fs[i].payload && At(r.st, l, i + 1, b)
    else r.code == EOF_CODE
  }

  lemma {:induction false} PhysicallyNext(st: State, l: Layout, i: nat, b: int) returns (b2: int)
    requires At(st, l, i, b)
    ensures ReadsFragment(Physically(st), st, l, i, b2)
    decreases |st.file| - st.filePos, !st.eof
  {
    if |st.buffer| >= HEADER_SIZE {
      b2 := b;
      if Complete(st.file, l, i) {
        ParsesNext(st, l, i, b);
      } else {
        ParsesEnd(st, l, i, b);
      }
    } else if st.eof {
      b2 := b;
      assert ReadTo(st, st.filePos - |st.buffer|);
      assert i < |l.fs| ==> LaidAt(l, i);
    } else {
      RefillAt(st, l, i, b);
      b2 := PhysicallyNext(Refill(st), l, i, b + 1);
    }
  }

  // ------------------------------------------------------------------ whole records

  /** What ReadRecord has in scratch before fragment `j` of a record. */
  function Scratch(fs: seq<Fragment>, j: nat): Option<Bytes>
    requires j <= |fs|
  {
    if j == 0 then None else Some(Joined(fs[..j]))
  }

  lemma TurnTaken(p: ParsedRecord, fs: seq<Fragment>, record: Bytes, j: nat)
    requires Splits(fs, record) && j < |fs| && p.code == TypeOf(fs[j].kind) as nat && p.fragment == fs[j].payload
    ensures Takes(p, Scratch(fs, j)) == if j + 1 == |fs| then Done(Some(record), p.st)
            else More(Scratch(fs, j + 1), p.st)
  {
    assert HasKind(fs, j) && fs[..j + 1][..j] == fs[..j];
    assert Joined(fs[..j + 1]) == Joined(fs[..j]) + p.fragment;
    assert fs[..0] == [] && [] + p.fragment == p.fragment;
    assert j + 1 == |fs| ==> fs[..j + 1] == fs;
  }

  ghost predicate Calls(st: State, scratch: Option<Bytes>, r: Turn)
    requires Ok(st)
  {
    r == Logically(st, scratch)
  }

  /** A call of ReadRecord returns the record if the file has all of it, and otherwise nothing, in either case
      without reporting anything. */
  ghost predicate Finds(st: State, scratch: Option<Bytes>, next: State, whole: bool, record: Bytes)
    requires Ok(st)
  {
    next.drops == st.drops && next.file == st.file &&
    forall r {:trigger Calls(st, scratch, r)} | Calls(st, scratch, r) ::
      r == Done(if whole then Some(record) else None, next)
  }

  lemma {:induction false} LaterEnds(l: Layout, i: nat, j: nat)
    requires Laid(l) && i <= j <= |l.fs|
    ensures Position(l.ends[i]) <= Position(l.ends[j])
  {
    if i < j {
      assert LaidAt(l, j - 1);
      LaterEnds(l, i, j - 1);
    }
  }

  /** What one turn with fragment `j` of a record comes to. */
  ghost predicate Turns(st: State, next: State, whole: bool, group: seq<Fragment>, record: Bytes, j: nat)
    requires Ok(st) && j < |group|
  {
    next.drops == st.drops && next.file == st.file && (whole && j + 1 < |group| ==> Ok(next)) &&
    forall r {:trigger Calls(st, Scratch(group, j), r)} | Calls(st, Scratch(group, j), r) ::
      if !whole then r == Done(None, next)
      else if j + 1 == |group| then r == Done(Some(record), next)
      else Calls(next, Scratch(group, j + 1), r)
  }

  lemma OneTurn(st: State, l: Layout, i: nat, group: seq<Fragment>, record: Bytes, j: nat, b: int)
    returns (b2: int, next: State)
    requires At(st, l, i, b) && Splits(group, record) && j < |group| && i < |l.fs| && l.fs[i] == group[j]
    ensures Turns(st, next, Complete(st.file, l, i), group, record, j)
    ensures Complete(st.file, l, i) ==> At(next, l, i + 1, b2)
  {
    b2 := PhysicallyNext(st, l, i, b);
    next := Physically(st).st;
    if Complete(st.file, l, i) {
      TurnTaken(Physically(st), group, record, j);
    }
  }

  lemma TurnEnds(st: State, next: State, whole: bool, group: seq<Fragment>, record: Bytes, j: nat)
    requires Ok(st) && j < |group| && Turns(st, next, whole, group, record, j) && (whole ==> j + 1 == |group|)
    ensures Finds(st, Scratch(group, j), next, whole, record)
  {
  }

  lemma TurnGoesOn(st: State, next: State, end: State, whole: bool, group: seq<Fragment>, record: Bytes, j: nat)
    requires Ok(st) && j + 1 < |group| && Turns(st, next, true, group, record, j)
    requires Finds(next, Scratch(group, j + 1), end, whole, record)
    ensures Finds(st, Scratch(group, j), end, whole, record)
  {
  }

  /** From fragment `j` of a record on. */
  lemma {:induction false} FindsRest(st: State, l: Layout, i: nat, group: seq<Fragment>, record: Bytes, j: nat, b: int)
    returns (b2: int, next: State)
    requires Laid(l) && At(st, l, i + j, b) && Splits(group, record) && j < |group| && i + |group| <= |l.fs|
    requires l.fs[i..i + |group|] == group
    ensures Finds(st, Scratch(group, j), next, Position(l.ends[i + |group|]) <= |st.file|, record)
    ensures Position(l.ends[i + |group|]) <= |st.file| ==> At(next, l, i + |group|, b2)
    decreases |group| - j
  {
    assert l.fs[i + j] == l.fs[i..i + |group|][j];
    b2, next := OneTurn(st, l, i + j, group, record, j, b);
    if Complete(st.file, l, i + j) && j + 1 < |group| {
      var first := next;
      b2, next := FindsRest(first, l, i, group, record, j + 1, b2);
      TurnGoesOn(st, first, next, Position(l.ends[i + |group|]) <= |st.file|, group, record, j);
    } else {
      LaterEnds(l, i + j + 1, i + |group|);
      TurnEnds(st, next, Complete(st.file, l, i + j), group, record, j);
    }
  }

  /** Everything the reader finds, and its state at the end. */
  function ReadAll(st: State): (r: (seq<Bytes>, State))
    requires Ok(st)
    decreases Left(st)
  {
    var turn := Logically(st, None);
    if turn.record.None? then ([], turn.st)
    else
      var rest := ReadAll(turn.st);
      ([turn.record.value] + rest.0, rest.1)
  }

  ghost predicate IsAll(st: State, r: (seq<Bytes>, State))
    requires Ok(st)
  {
    r == ReadAll(st)
  }

  /** The reader finds `records`, and has reported `drops` at the end. */
  ghost predicate ReadsAs(st: State, records: seq<Bytes>, drops: seq<nat>)
    requires Ok(st)
  {
    forall r {:trigger IsAll(st, r)} | IsAll(st, r) :: r.0 == records && r.1.drops == drops
  }

  lemma ReadsOne(st: State, next: State, record: Bytes)
    requires Ok(st) && Finds(st, None, next, true, record)
    ensures Ok(next) && forall out, drops :: ReadsAs(next, out, drops) ==> ReadsAs(st, [record] + out, drops)
  {
    assert Calls(st, None, Logically(st, None));
    assert IsAll(next, ReadAll(next));
  }

  lemma ReadsNone(st: State, next: State, record: Bytes)
    requires Ok(st) && Finds(st, None, next, false, record)
    ensures ReadsAs(st, [], st.drops)
  {
    assert Calls(st, None, Logically(st, None));
  }

  lemma NothingLeft(st: State, l: Layout, b: int)
    requires At(st, l, |l.fs|, b)
    ensures ReadsAs(st, [], st.drops)
  {
    var b2 := PhysicallyNext(st, l, |l.fs|, b);
    ReadsNone(st, Physically(st).st, []);
  }

  /** The records' fragments follow each other in the layout. */
  ghost predicate Grouped(l: Layout, groups: seq<seq<Fragment>>, starts: seq<nat>) {
    |starts| == |groups| + 1 && starts[0] == 0 && starts[|groups|] == |l.fs| &&
    forall k {:trigger GroupAt(l, groups, starts, k)} | 0 <= k < |groups| :: GroupAt(l, groups, starts, k)
  }

  predicate GroupAt(l: Layout, groups: seq<seq<Fragment>>, starts: seq<nat>, k: nat)
    requires k < |groups| < |starts|
  {
    starts[k + 1] == starts[k] + |groups[k]| <= |l.fs| && l.fs[starts[k]..starts[k + 1]] == groups[k]
  }

  /** Whether the first `k` records are wholly in the file. */
  predicate HasRecords(file: Bytes, l: Layout, starts: seq<nat>, k: nat)
    requires k < |starts| && starts[k] < |l.ends|
  {
    Position(l.ends[starts[k]]) <= |file|
  }

  /** From record `k` on, the reader finds the records that are wholly in the file, up to some record `c`. */
  lemma {:induction false} ReadsFrom(st: State, l: Layout, groups: seq<seq<Fragment>>, starts: seq<nat>,
                                     records: seq<Bytes>, k: nat, b: int) returns (c: nat)
    requires SplitsAll(groups, records) && Grouped(l, groups, starts) && k <= |groups| && Laid(l) &&
             At(st, l, starts[k], b)
    ensures k <= c <= |records| && ReadsAs(st, records[k..c], st.drops)
    ensures starts[c] <= |l.fs| && (c > k ==> HasRecords(st.file, l, starts, c))
    ensures c < |groups| ==> starts[c + 1] <= |l.fs| && !HasRecords(st.file, l, starts, c + 1)
    decreases |groups| - k
  {
    if k == |groups| {
      c := k;
      NothingLeft(st, l, b);
    } else {
      assert GroupAt(l, groups, starts, k) && Splits(groups[k], records[k]);
      var b2, next := FindsRest(st, l, starts[k], groups[k], records[k], 0, b);
      if HasRecords(st.file, l, starts, k + 1) {
        ReadsOne(st, next, records[k]);
        c := ReadsFrom(next, l, groups, starts, records, k + 1, b2);
        assert [records[k]] + records[k + 1..c] == records[k..c];
      } else {
        ReadsNone(st, next, records[k]);
        c := k;
      }
    }
  }

  // ------------------------------------------------------------------ a whole file

  lemma {:induction false} FlatPrefix(groups: seq<seq<Fragment>>, k: nat)
    requires k <= |groups|
    ensures |Flat(groups[..k])| <= |Flat(groups)| && Flat(groups)[..|Flat(groups[..k])|] == Flat(groups[..k])
    decreases |groups|
  {
    if k < |groups| {
      assert groups[..|groups| - 1][..k] == groups[..k];
      FlatPrefix(groups[..|groups| - 1], k);
    } else {
      assert groups[..k] == groups;
    }
  }

  lemma FlatGroup(groups: seq<seq<Fragment>>, k: nat)
    requires k < |groups|
    ensures Flat(groups[..k + 1]) == Flat(groups[..k]) + groups[k]
  {
    assert groups[..k + 1][..k] == groups[..k];
  }

  lemma GroupsLaid(crc: Checksum, groups: seq<seq<Fragment>>) returns (starts: seq<nat>)
    requires Fits(Flat(groups))
    ensures Grouped(LayoutOf(crc, Flat(groups)), groups, starts)
    ensures forall k | 0 <= k <= |groups| :: starts[k] == |Flat(groups[..k])|
  {
    starts := seq(|groups| + 1, k requires 0 <= k <= |groups| => |Flat(groups[..k])|);
    assert groups[..|groups|] == groups;
    forall k {:trigger groups[k]} | 0 <= k < |groups|
      ensures GroupAt(LayoutOf(crc, Flat(groups)), groups, starts, k)
    {
      FlatGroup(groups, k);
      FlatPrefix(groups, k);
      FlatPrefix(groups, k + 1);
    }
  }

  /** The file that holds the first `k` records. */
  function FileOf(crc: Checksum, groups: seq<seq<Fragment>>, k: nat): Bytes
    requires k <= |groups|
  {
    Image(crc, Flat(groups[..k]))
  }

  lemma FileEnds(crc: Checksum, groups: seq<seq<Fragment>>, starts: seq<nat>, k: nat, file: Bytes)
    requires Fits(Flat(groups)) && k <= |groups| && |starts| == |groups| + 1 &&
             starts[k] == |Flat(groups[..k])| <= |Flat(groups)|
    ensures HasRecords(file, LayoutOf(crc, Flat(groups)), starts, k) <==> |FileOf(crc, groups, k)| <= |file|
  {
    FlatPrefix(groups, k);
    FitsFirst(Flat(groups), starts[k]);
    ImageLength(crc, Flat(groups[..k]));
  }

  /** Reading any prefix of a log from its start yields exactly the records that are wholly in the prefix, in
      order, and no corruption report. */
  lemma PrefixReads(crc: Checksum, file: Bytes, groups: seq<seq<Fragment>>, records: seq<Bytes>) returns (c: nat)
    requires SplitsAll(groups, records) && Fits(Flat(groups)) && file <= Image(crc, Flat(groups))
    ensures c <= |records| && |FileOf(crc, groups, c)| <= |file|
    ensures c < |groups| ==> |FileOf(crc, groups, c + 1)| > |file|
    ensures ReadAll(Initial(crc, file)).0 == records[..c] && ReadAll(Initial(crc, file)).1.drops == []
  {
    hide ReadAll;
    var l := LayoutOf(crc, Flat(groups));
    var starts := GroupsLaid(crc, groups);
    ImageIsLaid(crc, Flat(groups));
    c := ReadsFrom(Initial(crc, file), l, groups, starts, records, 0, -1);
    FlatPrefix(groups, c);
    FileEnds(crc, groups, starts, c, file);
    if c < |groups| {
      FlatPrefix(groups, c + 1);
      FileEnds(crc, groups, starts, c + 1, file);
    }
    assert IsAll(Initial(crc, file), ReadAll(Initial(crc, file)));
    assert records[0..c] == records[..c];
  }

  /** Reading a whole log yields the records that were added. */
  lemma RoundTrip(crc: Checksum, groups: seq<seq<Fragment>>, records: seq<Bytes>)
    requires SplitsAll(groups, records) && Fits(Flat(groups))
    ensures ReadAll(Initial(crc, Image(crc, Flat(groups)))).0 == records
    ensures ReadAll(Initial(crc, Image(crc, Flat(groups)))).1.drops == []
  {
    var file := Image(crc, Flat(groups));
    var c := PrefixReads(crc, file, groups, records);
    if c < |groups| {
      FlatPrefix(groups, c + 1);
      ImagePrefix(crc, Flat(groups), |Flat(groups[..c + 1])|);
      assert false;
    }
  }

  /** A caller that reads a file from its start until nothing is left. */
  method ReadFile(crc: Checksum, file: Bytes) returns (records: seq<Bytes>, drops: seq<nat>)
    ensures records == ReadAll(Initial(crc, file)).0 && drops == ReadAll(Initial(crc, file)).1.drops
  {
    hide Logically;
    var reader := new Reader(crc, file);
    ghost var st := reader.View();
    records := [];
    var record := reader.ReadRecord();
    while record.Some?
      invariant fresh(reader) && Ok(reader.View()) && Ok(st) && Done(record, reader.View()) == Logically(st, None)
      invariant records + ReadAll(st).0 == ReadAll(Initial(crc, file)).0
      invariant ReadAll(st).1.drops == ReadAll(Initial(crc, file)).1.drops
      decreases Left(st)
    {
      records := records + [record.value];
      st := reader.View();
      record := reader.ReadRecord();
    }
    drops := reader.drops;
  }
}
