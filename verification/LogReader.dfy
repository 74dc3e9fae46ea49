// The log reader (db/log_reader.cc), reading a file from its start with checksums on: what it does on any
// bytes, and what it finds in a file, or a prefix of a file, that the writer produced.

module LogReader {
  import opened Keys
  import opened Coding
  import opened LogFormat

  // ------------------------------------------------------------------ on any bytes

  /** What ReadPhysicalRecord returns besides a type: kEof and kBadRecord follow the record types. */
  const EOF_CODE: nat := 5
  const BAD_RECORD: nat := 6

  /** The reader between two calls; `drops` lists the sizes it reported as corrupted. */
  datatype State = State(crc: Checksum, file: Bytes, filePos: nat, buffer: Bytes, eof: bool, drops: seq<nat>)

  function Initial(crc: Checksum, file: Bytes): State {
    State(crc, file, 0, [], false, [])
  }

  predicate Ok(st: State) {
    st.filePos <= |st.file|
  }

  function Left(st: State): nat
    requires Ok(st)
  {
    |st.file| - st.filePos + |st.buffer|
  }

  /** The buffer is dropped and the next block read; a short read means the end of the file. */
  function Refill(st: State): (r: State)
    requires Ok(st)
    ensures Ok(r) && r.file == st.file && r.crc == st.crc && r.drops == st.drops
  {
    var next := if |st.file| - st.filePos < BLOCK_SIZE then |st.file| else st.filePos + BLOCK_SIZE;
    st.(buffer := st.file[st.filePos..next], filePos := next, eof := next - st.filePos < BLOCK_SIZE)
  }

  function Drop(st: State, n: nat): State {
    st.(buffer := [], drops := st.drops + [n])
  }

  function PayloadLength(buffer: Bytes): nat
    requires |buffer| >= HEADER_SIZE
  {
    DecodeFixed16(buffer[4..])
  }

  predicate ChecksumMatches(crc: Checksum, buffer: Bytes)
    requires |buffer| >= HEADER_SIZE && |buffer| >= HEADER_SIZE + PayloadLength(buffer)
  {
    crc(buffer[6..HEADER_SIZE + PayloadLength(buffer)]) == Unmask(DecodeFixed32(buffer))
  }

  datatype ParsedRecord = ParsedRecord(code: nat, fragment: Bytes, st: State)

  /** The physical record at the start of the buffer. */
  function Parsed(st: State): (r: ParsedRecord)
    requires Ok(st) && |st.buffer| >= HEADER_SIZE
    ensures Ok(r.st) && r.st.file == st.file && r.st.crc == st.crc && Left(r.st) < Left(st)
  {
    var length := PayloadLength(st.buffer);
    if HEADER_SIZE + length > |st.buffer| then
      if st.eof then ParsedRecord(EOF_CODE, [], st.(buffer := []))
      else ParsedRecord(BAD_RECORD, [], Drop(st, |st.buffer|))
    else if st.buffer[6] == 0 && length == 0 then ParsedRecord(BAD_RECORD, [], st.(buffer := []))
    else if !ChecksumMatches(st.crc, st.buffer) then ParsedRecord(BAD_RECORD, [], Drop(st, |st.buffer|))
    else
      ParsedRecord(st.buffer[6] as nat, st.buffer[HEADER_SIZE..HEADER_SIZE + length],
               st.(buffer := st.buffer[HEADER_SIZE + length..]))
  }

  /** One physical record: a type with its payload, or one of the two codes. */
  function Physically(st: State): (r: ParsedRecord)
    requires Ok(st)
    ensures Ok(r.st) && r.st.file == st.file && r.st.crc == st.crc && (r.code != EOF_CODE ==> Left(r.st) < Left(st))
    decreases |st.file| - st.filePos, !st.eof
  {
    if |st.buffer| >= HEADER_SIZE then Parsed(st)
    else if st.eof then ParsedRecord(EOF_CODE, [], st.(buffer := []))
    else Physically(Refill(st))
  }

  function Report(st: State, n: nat): State {
    st.(drops := st.drops + [n])
  }

  /** One turn of ReadRecord: it returns, or goes on with what it has of a record. */
  datatype Turn = Done(record: Option<Bytes>, st: State) | More(scratch: Option<Bytes>, st: State)

  function Takes(p: ParsedRecord, scratch: Option<Bytes>): (r: Turn)
    ensures r.st.file == p.st.file && r.st.crc == p.st.crc && r.st.filePos == p.st.filePos && r.st.buffer == p.st.buffer
    ensures r.More? || (r.Done? && r.record.Some?) ==> p.code != EOF_CODE
  {
    var partial := if scratch.Some? then |scratch.value| else 0;
    var dropped := if partial > 0 then Report(p.st, partial) else p.st;
    if p.code == 1 then Done(Some(p.fragment), dropped)
    else if p.code == 2 then More(Some(p.fragment), dropped)
    else if p.code == 3 then
      if scratch.None? then More(None, Report(p.st, |p.fragment|)) else More(Some(scratch.value + p.fragment), p.st)
    else if p.code == 4 then
      if scratch.None? then More(None, Report(p.st, |p.fragment|)) else Done(Some(scratch.value + p.fragment), p.st)
    else if p.code == EOF_CODE then Done(None, p.st)
    else if p.code == BAD_RECORD then More(None, if scratch.Some? then Report(p.st, partial) else p.st)
    else More(None, Report(p.st, |p.fragment| + partial))
  }

  /** The next logical record, if any; `scratch` holds what was read of one already. */
  function Logically(st: State, scratch: Option<Bytes>): (r: Turn)
    requires Ok(st)
    ensures r.Done? &&
            Ok(r.st) && r.st.file == st.file && r.st.crc == st.crc && (r.record.Some? ==> Left(r.st) < Left(st))
    decreases Left(st)
  {
    var turn := Takes(Physically(st), scratch);
    if turn.Done? then turn else Logically(turn.st, turn.scratch)
  }

  class Reader {
    const crc: Checksum
    const file: Bytes
    var filePos: nat
    var buffer: Bytes
    var eof: bool
    var drops: seq<nat>

    ghost function View(): State
      reads this
    {
      State(crc, file, filePos, buffer, eof, drops)
    }

    constructor (crc: Checksum, file: Bytes)
      ensures View() == Initial(crc, file) && Ok(View())
    {
      this.crc, this.file, filePos, buffer, eof, drops := crc, file, 0, [], false, [];
    }

    method ReadRecord() returns (record: Option<Bytes>)
      requires Ok(View())
      modifies this
      ensures Ok(View()) && Done(record, View()) == Logically(old(View()), None)
    {
      var scratch: Option<Bytes> := None;
      while true
        invariant Ok(View()) && Logically(View(), scratch) == Logically(old(View()), None)
        decreases Left(View())
      {
        var code, fragment := ReadPhysicalRecord();
        if code == EOF_CODE {
          return None;
        }
        var done;
        done, scratch := Assemble(code, fragment, scratch);
        if done {
          return scratch;
        }
      }
    }

    /** The switch in ReadRecord. A scratch of None stands for in_fragmented_record being false. */
    method Assemble(code: nat, fragment: Bytes, scratch: Option<Bytes>) returns (done: bool, scratch2: Option<Bytes>)
      requires code != EOF_CODE
      modifies this`drops
      ensures (if done then Done(scratch2, View()) else More(scratch2, View())) ==
              Takes(ParsedRecord(code, fragment, old(View())), scratch)
    {
      if code == 1 || code == 2 {
        if scratch.Some? && scratch.value != [] {
          ReportCorruption(|scratch.value|);
        }
        return code == 1, Some(fragment);
      } else if code == 3 || code == 4 {
        if scratch.None? {
          ReportCorruption(|fragment|);
          return false, None;
        }
        return code == 4, Some(scratch.value + fragment);
      } else if code == BAD_RECORD {
        if scratch.Some? {
          ReportCorruption(|scratch.value|);
        }
        return false, None;
      } else {
        ReportCorruption(|fragment| + if scratch.Some? then |scratch.value| else 0);
        return false, None;
      }
    }

    method ReportCorruption(n: nat)
      modifies this`drops
      ensures drops == old(drops) + [n]
    {
      drops := drops + [n];
    }

    method ReadPhysicalRecord() returns (code: nat, fragment: Bytes)
      requires Ok(View())
      modifies this
      ensures Ok(View()) && ParsedRecord(code, fragment, View()) == Physically(old(View()))
    {
      hide Parsed;
      while |buffer| < HEADER_SIZE
        invariant Ok(View()) && Physically(View()) == Physically(old(View()))
        decreases |file| - filePos, !eof
      {
        if eof {
          buffer := [];
          return EOF_CODE, [];
        }
        var next := if |file| - filePos < BLOCK_SIZE then |file| else filePos + BLOCK_SIZE;
        buffer := file[filePos..next];
        eof := |buffer| < BLOCK_SIZE;
        filePos := next;
      }
      code, fragment := ParseRecord();
    }

    method ParseRecord() returns (code: nat, fragment: Bytes)
      requires Ok(View()) && |buffer| >= HEADER_SIZE
      modifies this
      ensures ParsedRecord(code, fragment, View()) == Parsed(old(View()))
    {
      var header := buffer;
      var length := DecodeFixed16(header[4..]);
      if HEADER_SIZE + length > |header| {
        buffer := [];
        if !eof {
          ReportCorruption(|header|);
          return BAD_RECORD, [];
        }
        return EOF_CODE, [];
      }
      if header[6] == 0 && length == 0 {
        buffer := [];
        return BAD_RECORD, [];
      }
      if crc(header[6..HEADER_SIZE + length]) != Unmask(DecodeFixed32(header)) {
        buffer := [];
        ReportCorruption(|header|);
        return BAD_RECORD, [];
      }
      buffer := header[HEADER_SIZE + length..];
      return header[6] as nat, header[HEADER_SIZE..HEADER_SIZE + length];
    }
  }
}
