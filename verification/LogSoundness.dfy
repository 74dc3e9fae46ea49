// What the log reader returns was written: on any bytes, every record it finds is made of physical records whose
// checksums match (db/log_reader.cc).

module LogSoundness {
  import opened Keys
  import opened Coding
  import opened LogFormat
  import opened LogReader
  import LogRoundTrip

  /** A fragment with its position in the file. */
  datatype Part = Part(at: nat, fragment: Fragment)

  /** The file has this fragment: header and payload lie in one block of 32 KB, and the checksum stored with them is
      that of the type and the payload. */
  ghost predicate Stored(crc: Checksum, file: Bytes, p: Part) {
    var n := |p.fragment.payload|;
    p.at + 7 + n <= |file| && p.at % 32768 + 7 + n <= 32768 &&
    file[p.at + 4] as nat + 256 * file[p.at + 5] as nat == n && file[p.at + 6] == TypeOf(p.fragment.kind) &&
    file[p.at + 7..p.at + 7 + n] == p.fragment.payload &&
    Mask(crc([file[p.at + 6]] + p.fragment.payload)) == DecodeFixed32(file[p.at..])
  }

  function EndOf(p: Part): nat {
    p.at + 7 + |p.fragment.payload|
  }

  function Fragments(parts: seq<Part>): (fs: seq<Fragment>)
    ensures |fs| == |parts|
  {
    if parts == [] then [] else Fragments(parts[..|parts| - 1]) + [parts[|parts| - 1].fragment]
  }

  lemma {:induction false} FragmentAt(parts: seq<Part>, j: nat)
    requires j < |parts|
    ensures Fragments(parts)[j] == parts[j].fragment
    decreases |parts|
  {
    if j < |parts| - 1 {
      FragmentAt(parts[..|parts| - 1], j);
    }
  }

  ghost predicate StoredAt(crc: Checksum, file: Bytes, parts: seq<Part>, j: nat)
    requires j < |parts|
  {
    Stored(crc, file, parts[j]) && (j > 0 ==> EndOf(parts[j - 1]) <= parts[j].at)
  }

  /** The parts are in the file, one after the other. */
  ghost predicate InOrder(crc: Checksum, file: Bytes, parts: seq<Part>) {
    forall j {:trigger StoredAt(crc, file, parts, j)} | 0 <= j < |parts| :: StoredAt(crc, file, parts, j)
  }

  /** The record is made of parts of the file: a full one, or a first, any number in the middle, and a last. */
  ghost predicate Written(crc: Checksum, file: Bytes, record: Bytes) {
    exists parts {:trigger Fragments(parts)} :: InOrder(crc, file, parts) && Splits(Fragments(parts), record)
  }

  // ------------------------------------------------------------------ where the reader is

  function At(st: State): int {
    st.filePos - |st.buffer|
  }

  /** The buffer is the rest of a block of the file. */
  predicate InFile(st: State) {
    Ok(st) && At(st) >= 0 && st.buffer == st.file[At(st)..st.filePos] &&
    (st.buffer != [] ==> At(st) % BLOCK_SIZE + |st.buffer| <= BLOCK_SIZE) && (st.eof || st.filePos % BLOCK_SIZE == 0)
  }

  lemma RefillInFile(st: State)
    requires InFile(st) && !st.eof
    ensures InFile(Refill(st)) && At(Refill(st)) >= At(st)
  {
  }

  lemma ParsedInFile(st: State)
    requires InFile(st) && |st.buffer| >= HEADER_SIZE
    ensures var r := Parsed(st);
      InFile(r.st) && At(r.st) >= At(st) && r.st.file == st.file && r.st.crc == st.crc
  {
    hide ChecksumMatches, PayloadLength;
    var n := HEADER_SIZE + PayloadLength(st.buffer);
    if n <= |st.buffer| {
      assert st.buffer[n..] == st.file[At(st) + n..st.filePos];
    }
  }

  /** A parsed record with one of the four types is stored. */
  lemma ParsedIsStored(st: State, kind: Kind)
    requires InFile(st) && |st.buffer| >= HEADER_SIZE && Parsed(st).code == TypeOf(kind) as nat
    ensures var r, p := Parsed(st), Part(At(st), Fragment(kind, Parsed(st).fragment));
      Stored(st.crc, st.file, p) && EndOf(p) <= At(r.st)
  {
    var r, at, b := Parsed(st), At(st), st.buffer;
    var n := PayloadLength(b);
    assert 7 + n <= |b| && r.fragment == b[7..7 + n] && b[6] == TypeOf(kind) && ChecksumMatches(st.crc, b);
    assert EndOf(Part(at, Fragment(kind, r.fragment))) == at + 7 + n == At(r.st);
    hide Parsed;
    BufferStored(st.crc, st.file, at, b, kind, n);
  }

  lemma BufferStored(crc: Checksum, file: Bytes, at: nat, b: Bytes, kind: Kind, n: nat)
    requires at + |b| <= |file| && b == file[at..at + |b|] && 7 + n <= |b| && at % BLOCK_SIZE + |b| <= BLOCK_SIZE
    requires n == PayloadLength(b) && b[6] == TypeOf(kind) && ChecksumMatches(crc, b)
    ensures Stored(crc, file, Part(at, Fragment(kind, b[7..7 + n])))
  {
    SliceAt(file, at, b, 4);
    SliceAt(file, at, b, 5);
    SliceAt(file, at, b, 6);
    assert b[6..7 + n] == [b[6]] + b[7..7 + n];
    SliceOfSlice(file, at, |b|, 7, 7 + n);
    SameFixed32(file[at..], b);
    MaskUndoesUnmask(DecodeFixed32(b));
    hide Mask, Unmask, DecodeFixed32;
  }

  lemma SliceAt(file: Bytes, at: nat, buffer: Bytes, i: nat)
    requires at + |buffer| <= |file| && buffer == file[at..at + |buffer|] && i < |buffer|
    ensures file[at + i] == buffer[i]
  {
  }

  lemma SliceOfSlice(file: Bytes, at: nat, length: nat, i: nat, j: nat)
    requires at + length <= |file| && i <= j <= length
    ensures file[at..at + length][i..j] == file[at + i..at + j]
  {
    var b, c, d := file[at..at + length], file[at..at + length][i..j], file[at + i..at + j];
    forall k | 0 <= k < j - i
      ensures c[k] == d[k]
    {
      assert c[k] == b[i + k] && d[k] == file[at + i + k];
    }
  }

  lemma SameFixed32(a: Bytes, b: Bytes)
    requires |a| >= |b| >= 4 && a[..|b|] == b
    ensures DecodeFixed32(a) == DecodeFixed32(b)
  {
    assert a[0] == b[0] && a[1] == b[1] && a[2] == b[2] && a[3] == b[3];
  }

  lemma MaskUndoesUnmask(masked: uint32)
    ensures Mask(Unmask(masked)) == masked
  {
    var rot := (masked - MASK_DELTA) % TWO_32;
    var high, low := rot / 0x2_0000, rot % 0x2_0000;
    var crc := Unmask(masked);
    assert crc == high + low * 0x8000 && crc / 0x8000 == low && crc % 0x8000 == high;
    assert (rot + MASK_DELTA) % TWO_32 == masked;
  }

  lemma {:induction false} PhysicallyStored(st: State) returns (at: nat)
    requires InFile(st)
    ensures var r := Physically(st);
      InFile(r.st) && At(r.st) >= At(st) && r.st.file == st.file && r.st.crc == st.crc && at >= At(st) &&
      forall kind: Kind | r.code == TypeOf(kind) as nat ::
        var p := Part(at, Fragment(kind, r.fragment));
        Stored(st.crc, st.file, p) && EndOf(p) <= At(r.st)
    decreases |st.file| - st.filePos, !st.eof
  {
    hide Parsed, Stored;
    if |st.buffer| >= HEADER_SIZE {
      ParsedInFile(st);
      at := At(st);
      forall kind: Kind | Parsed(st).code == TypeOf(kind) as nat
        ensures var p := Part(at, Fragment(kind, Parsed(st).fragment));
          Stored(st.crc, st.file, p) && EndOf(p) <= At(Parsed(st).st)
      {
        ParsedIsStored(st, kind);
      }
    } else if st.eof {
      at := At(st);
    } else {
      RefillInFile(st);
      at := PhysicallyStored(Refill(st));
    }
  }

  // ------------------------------------------------------------------ records

  /** The part of a record read so far: a first fragment and some in the middle, before position `to`. */
  ghost predicate Begun(crc: Checksum, file: Bytes, parts: seq<Part>, scratch: Bytes, to: int) {
    parts != [] && InOrder(crc, file, parts) && Joined(Fragments(parts)) == scratch &&
    EndOf(parts[|parts| - 1]) <= to && parts[0].fragment.kind.First? &&
    forall j | 0 < j < |parts| :: parts[j].fragment.kind.Middle?
  }

  lemma OneStored(crc: Checksum, file: Bytes, p: Part)
    requires Stored(crc, file, p)
    ensures InOrder(crc, file, [p]) && Fragments([p]) == [p.fragment] && Joined(Fragments([p])) == p.fragment.payload
  {
    assert [p][..0] == [];
    assert Joined([p.fragment]) == Joined([p.fragment][..0]) + p.fragment.payload;
    assert [p.fragment][..0] == [];
  }

  lemma MoreStored(crc: Checksum, file: Bytes, parts: seq<Part>, p: Part)
    requires parts != [] && InOrder(crc, file, parts) && Stored(crc, file, p) && EndOf(parts[|parts| - 1]) <= p.at
    ensures InOrder(crc, file, parts + [p])
    ensures Joined(Fragments(parts + [p])) == Joined(Fragments(parts)) + p.fragment.payload
  {
    hide Stored, Joined, Fragments;
    MoreJoined(parts, p);
    var more := parts + [p];
    forall j {:trigger StoredAt(crc, file, more, j)} | 0 <= j < |more|
      ensures StoredAt(crc, file, more, j)
    {
      if j < |parts| {
        assert StoredAt(crc, file, parts, j);
      }
    }
  }

  lemma {:induction false} MoreJoined(parts: seq<Part>, p: Part)
    ensures Joined(Fragments(parts + [p])) == Joined(Fragments(parts)) + p.fragment.payload
  {
    var more := parts + [p];
    assert more[..|more| - 1] == parts;
    var fs, f := Fragments(parts), p.fragment;
    assert Fragments(more) == fs + [f] && (fs + [f])[..|fs + [f]| - 1] == fs;
    hide Fragments;
  }

  lemma {:induction false} WholeSplits(parts: seq<Part>, p: Part, record: Bytes)
    requires parts != [] && parts[0].fragment.kind.First? && p.fragment.kind.Last?
    requires forall j | 0 < j < |parts| :: parts[j].fragment.kind.Middle?
    requires Joined(Fragments(parts + [p])) == record
    ensures Splits(Fragments(parts + [p]), record)
  {
    var fs := Fragments(parts + [p]);
    forall j {:trigger HasKind(fs, j)} | 0 <= j < |fs|
      ensures HasKind(fs, j)
    {
      FragmentAt(parts + [p], j);
    }
  }

  lemma FullSplits(f: Fragment)
    requires f.kind.Full? && Joined([f]) == f.payload
    ensures Splits([f], f.payload)
  {
    hide Joined;
    assert HasKind([f], 0);
  }

  /** One turn: what is returned was written, what is kept was begun. */
  lemma TurnIsStored(r: ParsedRecord, at: nat, scratch: Option<Bytes>, parts: seq<Part>, before: int)
    returns (kept: seq<Part>)
    requires InFile(r.st) && before <= at
    requires forall kind: Kind | r.code == TypeOf(kind) as nat ::
               var p := Part(at, Fragment(kind, r.fragment));
               Stored(r.st.crc, r.st.file, p) && EndOf(p) <= At(r.st)
    requires scratch.Some? ==> Begun(r.st.crc, r.st.file, parts, scratch.value, before)
    ensures var t := Takes(r, scratch);
      (t.Done? && t.record.Some? ==> Written(r.st.crc, r.st.file, t.record.value)) &&
      (t.More? && t.scratch.Some? ==> Begun(r.st.crc, r.st.file, kept, t.scratch.value, At(t.st)))
  {
    hide Stored, InOrder, Joined, Splits;
    var crc, file := r.st.crc, r.st.file;
    kept := [];
    if r.code == 1 {
      var p := Part(at, Fragment(Full, r.fragment));
      OneStored(crc, file, p);
      FullSplits(p.fragment);
      assert Splits(Fragments([p]), r.fragment);
    } else if r.code == 2 {
      var p := Part(at, Fragment(First, r.fragment));
      OneStored(crc, file, p);
      kept := [p];
    } else if r.code == 3 && scratch.Some? {
      var p := Part(at, Fragment(Middle, r.fragment));
      MoreStored(crc, file, parts, p);
      kept := parts + [p];
    } else if r.code == 4 && scratch.Some? {
      var p := Part(at, Fragment(Last, r.fragment));
      MoreStored(crc, file, parts, p);
      WholeSplits(parts, p, scratch.value + r.fragment);
      assert Splits(Fragments(parts + [p]), scratch.value + r.fragment);
    }
  }

  lemma {:induction false} LogicallyStored(st: State, scratch: Option<Bytes>, parts: seq<Part>)
    requires InFile(st) && (scratch.Some? ==> Begun(st.crc, st.file, parts, scratch.value, At(st)))
    ensures var r := Logically(st, scratch);
      InFile(r.st) && (r.record.Some? ==> Written(st.crc, st.file, r.record.value))
    decreases Left(st)
  {
    hide Stored, Written, Begun, Physically;
    var at := PhysicallyStored(st);
    var r := Physically(st);
    var kept := TurnIsStored(r, at, scratch, parts, At(st));
    var turn := Takes(r, scratch);
    TurnInFile(r, scratch);
    if turn.More? {
      LogicallyStored(turn.st, turn.scratch, kept);
    }
  }

  lemma TurnInFile(r: ParsedRecord, scratch: Option<Bytes>)
    requires InFile(r.st)
    ensures InFile(Takes(r, scratch).st) && Takes(r, scratch).st.eof == r.st.eof
  {
  }

  /** What holds of a reader of a file at all times. */
  ghost predicate Reachable(crc: Checksum, file: Bytes, st: State) {
    InFile(st) && st.crc == crc && st.file == file
  }

  lemma {:induction false} RestOnlyWritten(crc: Checksum, file: Bytes, st: State)
    requires Reachable(crc, file, st)
    ensures forall record | record in LogRoundTrip.ReadAll(st).0 :: Written(crc, file, record)
    decreases Left(st)
  {
    hide Written, Logically;
    LogicallyStored(st, None, []);
    var r := Logically(st, None);
    if r.record.Some? {
      RestOnlyWritten(crc, file, r.st);
    }
  }

  /** Whatever the bytes of a file are, reading it from its start yields only records that were written: made of stored
      fragments, whose checksums match. */
  lemma ReadsOnlyWritten(crc: Checksum, file: Bytes)
    ensures forall record | record in LogRoundTrip.ReadAll(Initial(crc, file)).0 :: Written(crc, file, record)
  {
    RestOnlyWritten(crc, file, Initial(crc, file));
  }

  // ------------------------------------------------------------------ what is reported

  function Sum(ns: seq<nat>): nat {
    if ns == [] then 0 else Sum(ns[..|ns| - 1]) + ns[|ns| - 1]
  }

  lemma SumMore(ns: seq<nat>, n: nat)
    ensures Sum(ns + [n]) == Sum(ns) + n
  {
    assert (ns + [n])[..|ns|] == ns;
  }

  /** How many bytes of records a turn returns or keeps. */
  function Held(t: Turn): nat {
    var r := if t.Done? then t.record else t.scratch;
    if r.Some? then |r.value| else 0
  }

  /** Putting records together loses no byte: what was kept and what was read is returned, kept or reported. The end of
      the file alone lets a record that was begun go unreported. */
  lemma TurnAccounts(p: ParsedRecord, scratch: Option<Bytes>)
    ensures var t := Takes(p, scratch);
      var before := (if scratch.Some? then |scratch.value| else 0) + if p.code == 6 then 0 else |p.fragment|;
      if p.code == 5 then t == Done(None, p.st)
      else Held(t) + Sum(t.st.drops) == before + Sum(p.st.drops)
  {
    var partial := if scratch.Some? then |scratch.value| else 0;
    SumMore(p.st.drops, partial);
    SumMore(p.st.drops, |p.fragment|);
    SumMore(p.st.drops, |p.fragment| + partial);
  }

  /** A physical record is taken whole, or the rest of its block is reported and dropped: for a length beyond the block
      or a checksum that does not match. Without a report a record with type and length zero is dropped, and what is cut
      off at the end of the file. */
  lemma ParsedAccounts(st: State)
    requires Ok(st) && |st.buffer| >= 7
    ensures var r, n := Parsed(st), 7 + st.buffer[4] as nat + 256 * st.buffer[5] as nat;
      if n > |st.buffer| then
        r.st.buffer == [] && r.st.drops == (if st.eof then st.drops else st.drops + [|st.buffer|]) &&
        r.code == if st.eof then 5 else 6
      else if st.buffer[6] == 0 && n == 7 then r.st.buffer == [] && r.st.drops == st.drops && r.code == 6
      else if Mask(st.crc(st.buffer[6..n])) != DecodeFixed32(st.buffer) then
        r.st.buffer == [] && r.st.drops == st.drops + [|st.buffer|] && r.code == 6
      else
        r.st.buffer == st.buffer[n..] && r.st.drops == st.drops && r.fragment == st.buffer[7..n] &&
        r.code == st.buffer[6] as nat
  {
    MaskUndoesUnmask(DecodeFixed32(st.buffer));
    if 7 + PayloadLength(st.buffer) <= |st.buffer| {
      UnmaskUndoesMask(st.crc(st.buffer[6..7 + PayloadLength(st.buffer)]));
    }
    hide Mask, Unmask;
  }
}
