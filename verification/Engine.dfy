// The database as a state machine: writes, memtable switches, flushes, trivial moves, compactions and
// snapshots (db/db_impl.cc, db/memtable.cc, db/snapshot.h).

module Engine {
  import opened Keys
  import opened Reads
  import opened Versions
  import opened Compactions
  import opened DropRule
  import opened Builders
  import opened CompactionSafety
  import opened CompactionRun
  import opened Flushes

  /** One record of a WriteBatch. */
  datatype Op = Op(user: UserKey, kind: ValueType, value: Bytes)

  datatype DB = DB(mem: seq<Entry>, imm: Option<seq<Entry>>, version: Version, last: SequenceNumber,
                   nextFile: nat, snapshots: seq<SequenceNumber>)

  function Imm(db: DB): seq<Entry> {
    if db.imm.Some? then db.imm.value else []
  }

  ghost function InMemory(db: DB): set<Entry> {
    Elements(db.mem) + Elements(Imm(db))
  }

  /** Every entry a reader can find. */
  ghost function All(db: DB): set<Entry> {
    InMemory(db) + VersionEntries(db.version)
  }

  /** File numbers come from one counter, and name one file in all levels. */
  ghost predicate NumbersIssued(v: Version, next: nat) {
    (forall l, f | 0 <= l < |v| && f in v[l] :: f.number < next) &&
    forall l, m, f, g | 0 <= l < m < |v| && f in v[l] && g in v[m] :: f.number != g.number
  }

  ghost predicate BelowLast(es: set<Entry>, last: SequenceNumber) {
    forall e | e in es :: e.key.sequence <= last
  }

  ghost predicate ValidDB(db: DB) {
    ValidVersion(db.version) && Sorted(db.mem) && Sorted(Imm(db)) &&
    Newer(Elements(db.mem), Elements(Imm(db)) + VersionEntries(db.version)) &&
    Newer(Elements(Imm(db)), VersionEntries(db.version)) &&
    Unique(All(db)) && BelowLast(All(db), db.last) && db.last < MAX_SEQUENCE_NUMBER &&
    NumbersIssued(db.version, db.nextFile) && ValidSnapshots(db)
  }

  /** SnapshotList: oldest first. */
  predicate ValidSnapshots(db: DB) {
    (forall i | 0 <= i < |db.snapshots| :: db.snapshots[i] <= db.last) &&
    forall i, j | 0 <= i < j < |db.snapshots| :: db.snapshots[i] <= db.snapshots[j]
  }

  /** What DoCompactionWork takes as smallest_snapshot. */
  function SmallestSnapshot(db: DB): SequenceNumber {
    if db.snapshots == [] then db.last else db.snapshots[0]
  }

  /** The sequence number is at or below every snapshot that is held, or the last one if none is. */
  ghost predicate SeenByAll(db: DB, s: SequenceNumber) {
    if db.snapshots == [] then s <= db.last else forall i | 0 <= i < |db.snapshots| :: s <= db.snapshots[i]
  }

  /** The horizon of a compaction is the oldest snapshot held. */
  lemma SmallestSnapshotIsOldest(db: DB)
    requires ValidSnapshots(db)
    ensures db.snapshots == [] ==> SmallestSnapshot(db) == db.last
    ensures db.snapshots != [] ==>
              SmallestSnapshot(db) in db.snapshots && forall s | s in db.snapshots :: SmallestSnapshot(db) <= s
    ensures forall s: SequenceNumber :: s <= SmallestSnapshot(db) <==> SeenByAll(db, s)
  {
    if db.snapshots != [] {
      forall i | 0 <= i < |db.snapshots|
        ensures db.snapshots[0] <= db.snapshots[i]
      {
      }
    }
  }

  // ------------------------------------------------------------------ steps

  datatype Step =
    | Write(ops: seq<Op>)
    | SwitchMemTable
    | Flush(toLevel: nat, size: nat)
    | TrivialMove(level: nat, file: File)
    | Compact(level: nat, in0: seq<File>, in1: seq<File>, outs: seq<File>)
    | TakeSnapshot
    | ReleaseSnapshot(index: nat)

  /** MemTable::Add: the entry goes to its place in key order. */
  function AddEntry(mem: seq<Entry>, e: Entry): seq<Entry> {
    if mem == [] || !Less(mem[0].key, e.key) then [e] + mem else [mem[0]] + AddEntry(mem[1..], e)
  }

  /** MemTableInserter: consecutive sequence numbers starting at `sequence`. */
  function AddBatch(mem: seq<Entry>, sequence: nat, ops: seq<Op>): seq<Entry>
    requires sequence + |ops| <= MAX_SEQUENCE_NUMBER + 1
    decreases ops
  {
    if ops == [] then mem
    else
      AddBatch(AddEntry(mem, Entry(IKey(ops[0].user, sequence, ops[0].kind), ops[0].value)), sequence + 1, ops[1..])
  }

  ghost predicate Writes(db: DB, ops: seq<Op>, db2: DB) {
    db.last + |ops| < MAX_SEQUENCE_NUMBER &&
    db2 == db.(mem := AddBatch(db.mem, db.last + 1, ops), last := db.last + |ops|)
  }

  ghost predicate FlushesTo(db: DB, level: nat, size: nat, db2: DB) {
    db.imm.Some? && db2.nextFile == db.nextFile + 1 &&
    db2 == db.(imm := None, version := db2.version, nextFile := db2.nextFile) &&
    if db.imm.value == [] then db2.version == db.version
    else
      var f := FileOf(db.nextFile, size, db.imm.value);
      level <= MAX_MEM_COMPACT_LEVEL &&
      (level > 0 ==> NoOverlapUpTo(db.version, level, f.smallest.user, f.largest.user)) &&
      Installed(db.version, FlushEdit(level, f), db2.version)
  }

  ghost predicate Moves(db: DB, level: nat, f: File, db2: DB) {
    ClosedInputs(db.version, level, [f], []) &&
    Installed(db.version, CompactionEdit(level, [f], [], [f]), db2.version) &&
    db2 == db.(version := db2.version)
  }

  ghost predicate Compacts(db: DB, level: nat, in0: seq<File>, in1: seq<File>, outs: seq<File>, db2: DB) {
    ClosedInputs(db.version, level, in0, in1) &&
    Outputs(db.version, level, in0, in1, SmallestSnapshot(db), outs) && Numbered(outs, db.nextFile) &&
    Installed(db.version, CompactionEdit(level, in0, in1, outs), db2.version) &&
    db2 == db.(version := db2.version, nextFile := db.nextFile + |outs|)
  }

  /** `db2` is what the step makes of `db`. */
  ghost predicate Takes(db: DB, step: Step, db2: DB) {
    match step
    case Write(ops) => Writes(db, ops, db2)
    case SwitchMemTable => db.imm.None? && db2 == db.(imm := Some(db.mem), mem := [])
    case Flush(level, size) => FlushesTo(db, level, size, db2)
    case TrivialMove(level, f) => Moves(db, level, f, db2)
    case Compact(level, in0, in1, outs) => Compacts(db, level, in0, in1, outs, db2)
    case TakeSnapshot => db2 == db.(snapshots := db.snapshots + [db.last])
    case ReleaseSnapshot(i) =>
      i < |db.snapshots| && db2 == db.(snapshots := db.snapshots[..i] + db.snapshots[i + 1..])
  }

  // ------------------------------------------------------------------ writes

  lemma {:induction false} AddEntrySorted(mem: seq<Entry>, e: Entry)
    requires Sorted(mem) && forall x | x in mem :: x.key != e.key
    ensures Sorted(AddEntry(mem, e)) && Elements(AddEntry(mem, e)) == Elements(mem) + {e}
  {
    if mem == [] || !Less(mem[0].key, e.key) {
      assert Elements([e] + mem) == Elements(mem) + {e};
      assert mem == [] || mem[0] in mem;
    } else {
      var rest := mem[1..];
      AddEntrySorted(rest, e);
      assert Elements(mem) == {mem[0]} + Elements(rest);
      assert Elements([mem[0]] + AddEntry(rest, e)) == {mem[0]} + Elements(AddEntry(rest, e));
      forall i | 0 <= i < |AddEntry(rest, e)|
        ensures Less(mem[0].key, AddEntry(rest, e)[i].key)
      {
        assert AddEntry(rest, e)[i] in Elements(AddEntry(rest, e));
      }
    }
  }

  /** The entries a batch adds: op k at sequence + k. */
  ghost function BatchEntries(sequence: nat, ops: seq<Op>): set<Entry>
    requires sequence + |ops| <= MAX_SEQUENCE_NUMBER + 1
  {
    set k | 0 <= k < |ops| :: Entry(IKey(ops[k].user, sequence + k, ops[k].kind), ops[k].value)
  }

  lemma BatchEntriesStep(sequence: nat, ops: seq<Op>)
    requires ops != [] && sequence + |ops| <= MAX_SEQUENCE_NUMBER + 1
    ensures BatchEntries(sequence, ops) ==
            {Entry(IKey(ops[0].user, sequence, ops[0].kind), ops[0].value)} + BatchEntries(sequence + 1, ops[1..])
  {
    var first := Entry(IKey(ops[0].user, sequence, ops[0].kind), ops[0].value);
    forall e
      ensures e in BatchEntries(sequence, ops) <==> e == first || e in BatchEntries(sequence + 1, ops[1..])
    {
      if e in BatchEntries(sequence, ops) {
        var k :| 0 <= k < |ops| && e == Entry(IKey(ops[k].user, sequence + k, ops[k].kind), ops[k].value);
        if k > 0 {
          assert ops[1..][k - 1] == ops[k];
        }
      }
      if e in BatchEntries(sequence + 1, ops[1..]) {
        var k :| 0 <= k < |ops[1..]| &&
                 e == Entry(IKey(ops[1..][k].user, sequence + 1 + k, ops[1..][k].kind), ops[1..][k].value);
        assert ops[1..][k] == ops[k + 1];
        assert e == Entry(IKey(ops[k + 1].user, sequence + (k + 1), ops[k + 1].kind), ops[k + 1].value);
      }
      assert first == Entry(IKey(ops[0].user, sequence + 0, ops[0].kind), ops[0].value);
    }
  }

  lemma {:induction false} AddBatchSorted(mem: seq<Entry>, sequence: nat, ops: seq<Op>)
    requires sequence + |ops| <= MAX_SEQUENCE_NUMBER + 1
    requires Sorted(mem) && forall x | x in mem :: x.key.sequence < sequence
    ensures Sorted(AddBatch(mem, sequence, ops))
    ensures Elements(AddBatch(mem, sequence, ops)) == Elements(mem) + BatchEntries(sequence, ops)
    decreases ops
  {
    if ops != [] {
      var e := Entry(IKey(ops[0].user, sequence, ops[0].kind), ops[0].value);
      AddEntrySorted(mem, e);
      BatchEntriesStep(sequence, ops);
      forall x | x in AddEntry(mem, e)
        ensures x.key.sequence < sequence + 1
      {
        assert x in Elements(AddEntry(mem, e));
      }
      AddBatchSorted(AddEntry(mem, e), sequence + 1, ops[1..]);
    }
  }

  /** Entries newer than a snapshot do not change what it reads. */
  lemma NewerEntriesInvisible(old': set<Entry>, more: set<Entry>, u: UserKey, s: SequenceNumber, r: Option<Bytes>)
    requires forall e | e in more :: e.key.sequence > s
    ensures Answers(old', u, s, r) <==> Answers(old' + more, u, s, r)
  {
    forall e
      ensures IsNewest(old', u, s, e) <==> IsNewest(old' + more, u, s, e)
    {
    }
  }

  lemma BatchIsNew(last: SequenceNumber, ops: seq<Op>)
    requires last + |ops| < MAX_SEQUENCE_NUMBER
    ensures forall e | e in BatchEntries(last + 1, ops) :: last < e.key.sequence <= last + |ops|
  {
  }

  lemma WriteEffect(db: DB, ops: seq<Op>, db2: DB)
    requires Sorted(db.mem) && BelowLast(All(db), db.last) && Writes(db, ops, db2)
    ensures Sorted(db2.mem) && Elements(db2.mem) == Elements(db.mem) + BatchEntries(db.last + 1, ops)
    ensures All(db2) == All(db) + BatchEntries(db.last + 1, ops)
  {
    assert forall x | x in db.mem :: x in All(db);
    AddBatchSorted(db.mem, db.last + 1, ops);
  }

  lemma WriteAddsBatch(db: DB, ops: seq<Op>, db2: DB)
    requires Sorted(db.mem) && BelowLast(All(db), db.last) && Writes(db, ops, db2)
    ensures All(db2) == All(db) + BatchEntries(db.last + 1, ops)
  {
    WriteEffect(db, ops, db2);
  }

  /** After a write, a reader at the new last sequence number sees the batch's last operation on a key. */
  lemma WriteIsVisible(db: DB, ops: seq<Op>, db2: DB, k: nat)
    requires Sorted(db.mem) && BelowLast(All(db), db.last) && Writes(db, ops, db2)
    requires k < |ops| && forall j | k < j < |ops| :: ops[j].user != ops[k].user
    ensures Answers(All(db2), ops[k].user, db2.last, OpOutcome(ops[k]))
  {
    hide IsNewest, BelowLast;
    WriteAddsBatch(db, ops, db2);
    LastOpIsNewest(All(db), All(db2), db.last, ops, k, db2.last);
  }

  function OpOutcome(op: Op): Option<Bytes> {
    if op.kind.TypeValue? then Some(op.value) else None
  }

  lemma LastOpIsNewest(before: set<Entry>, after: set<Entry>, last: SequenceNumber, ops: seq<Op>, k: nat,
                       s: SequenceNumber)
    requires last + |ops| < MAX_SEQUENCE_NUMBER && s == last + |ops| && BelowLast(before, last)
    requires after == before + BatchEntries(last + 1, ops)
    requires k < |ops| && forall j | k < j < |ops| :: ops[j].user != ops[k].user
    ensures Answers(after, ops[k].user, s, OpOutcome(ops[k]))
  {
    var e := Entry(IKey(ops[k].user, last + 1 + k, ops[k].kind), ops[k].value);
    assert e in BatchEntries(last + 1, ops);
    assert IsNewest(after, ops[k].user, s, e);
  }

  lemma BatchUnique(before: set<Entry>, last: SequenceNumber, ops: seq<Op>)
    requires last + |ops| < MAX_SEQUENCE_NUMBER && Unique(before) && BelowLast(before, last)
    ensures Unique(before + BatchEntries(last + 1, ops))
  {
  }

  lemma WriteEntries(db: DB, ops: seq<Op>, db2: DB)
    requires Sorted(db.mem) && BelowLast(All(db), db.last) && Unique(All(db)) && Writes(db, ops, db2)
    ensures BelowLast(All(db2), db2.last) && Unique(All(db2))
  {
    WriteEffect(db, ops, db2);
    BatchIsNew(db.last, ops);
    BatchUnique(All(db), db.last, ops);
  }

  lemma WriteLayers(db: DB, ops: seq<Op>, db2: DB)
    requires Sorted(db.mem) && BelowLast(All(db), db.last) && Writes(db, ops, db2)
    requires Newer(Elements(db.mem), Elements(Imm(db)) + VersionEntries(db.version))
    ensures Sorted(db2.mem) && Newer(Elements(db2.mem), Elements(Imm(db2)) + VersionEntries(db2.version))
  {
    WriteEffect(db, ops, db2);
    BatchStaysNewer(Elements(db.mem), Elements(Imm(db)) + VersionEntries(db.version), db.last, ops);
  }

  lemma WriteKeepsValid(db: DB, ops: seq<Op>, db2: DB)
    requires ValidDB(db) && Writes(db, ops, db2)
    ensures ValidDB(db2)
  {
    WriteEntries(db, ops, db2);
    WriteLayers(db, ops, db2);
  }

  lemma BatchStaysNewer(mem: set<Entry>, below: set<Entry>, last: SequenceNumber, ops: seq<Op>)
    requires last + |ops| < MAX_SEQUENCE_NUMBER && Newer(mem, below) && BelowLast(below, last)
    ensures Newer(mem + BatchEntries(last + 1, ops), below)
  {
    BatchIsNew(last, ops);
  }

  lemma SwitchKeepsValid(db: DB, db2: DB)
    requires ValidDB(db) && db.imm.None? && db2 == db.(imm := Some(db.mem), mem := [])
    ensures ValidDB(db2) && All(db2) == All(db)
  {
    assert Elements([]) == {};
    assert InMemory(db2) == InMemory(db);
  }

  // ------------------------------------------------------------------ flush

  lemma FlushFitsDB(db: DB, level: nat, size: nat)
    requires ValidDB(db) && db.imm.Some? && db.imm.value != [] && level <= MAX_MEM_COMPACT_LEVEL
    requires var f := FileOf(db.nextFile, size, db.imm.value);
             level > 0 ==> NoOverlapUpTo(db.version, level, f.smallest.user, f.largest.user)
    ensures FlushFits(db.version, level, FileOf(db.nextFile, size, db.imm.value))
  {
    assert Elements(Imm(db)) + VersionEntries(db.version) <= All(db);
  }

  lemma FlushKeepsNumbers(v: Version, next: nat, level: nat, f: File, w: Version)
    requires NumbersIssued(v, next) && f.number == next && Installed(v, FlushEdit(level, f), w)
    ensures NumbersIssued(w, next + 1)
  {
    forall l: nat, g | l < |w| && g in w[l]
      ensures g in v[l] || (l == level && g == f)
    {
      FlushedFiles(v, level, f, w, l);
      assert g in FilesOf(w[l]);
    }
  }

  lemma FlushKeepsDB(db: DB, level: nat, size: nat, db2: DB)
    requires ValidDB(db) && FlushesTo(db, level, size, db2)
    ensures ValidDB(db2) && All(db2) == All(db)
  {
    assert Elements([]) == {};
    if db.imm.value != [] {
      var f := FileOf(db.nextFile, size, db.imm.value);
      FlushFitsDB(db, level, size);
      FlushKeepsValid(db.version, level, f, db2.version);
      FlushKeepsNumbers(db.version, db.nextFile, level, f, db2.version);
    }
    ImmMovesDown(db, db2);
  }

  /** The immutable memtable's entries are now in the version. */
  lemma ImmMovesDown(db: DB, db2: DB)
    requires ValidDB(db) && db2 == db.(imm := None, version := db2.version, nextFile := db2.nextFile)
    requires ValidVersion(db2.version) && NumbersIssued(db2.version, db2.nextFile)
    requires VersionEntries(db2.version) == VersionEntries(db.version) + Elements(Imm(db))
    ensures ValidDB(db2) && All(db2) == All(db)
  {
    assert Elements(Imm(db2)) == {};
    assert All(db2) == All(db);
  }

  // ------------------------------------------------------------------ compaction

  lemma IssuedNumbersFresh(v: Version, next: nat, l: nat, outs: seq<File>)
    requires NumbersIssued(v, next) && l < |v| && Numbered(outs, next)
    ensures FreshNumbers(v[l], outs)
  {
    forall f, g | f in v[l] && g in outs
      ensures f.number != g.number
    {
      var i :| 0 <= i < |outs| && outs[i] == g;
    }
  }

  /** Every file after a compaction was there before, or is one of the outputs. */
  lemma CompactedFileNumber(v: Version, next: nat, level: nat, in0: seq<File>, in1: seq<File>, outs: seq<File>,
                            w: Version, l: nat, g: File)
    requires level + 1 < |v| && Subset(in0, v[level]) && Subset(in1, v[level + 1])
    requires l < |v| && ValidLevel(l, v[l]) && FreshNumbers(v[level + 1], outs) && Numbered(outs, next)
    requires Installed(v, CompactionEdit(level, in0, in1, outs), w) && g in w[l]
    ensures g in v[l] || (l == level + 1 && next <= g.number < next + |outs|)
  {
    CompactionFilesAt(v, level, in0, in1, outs, w, l, g);
    if g in outs {
      var i :| 0 <= i < |outs| && outs[i] == g;
    }
  }

  lemma CompactionKeepsNumbers(v: Version, next: nat, level: nat, in0: seq<File>, in1: seq<File>, outs: seq<File>,
                               w: Version)
    requires |v| == |w| && (forall l: nat | l < |v| :: ValidLevel(l, v[l])) && ClosedInputs(v, level, in0, in1)
    requires NumbersIssued(v, next) && Numbered(outs, next)
    requires Installed(v, CompactionEdit(level, in0, in1, outs), w)
    ensures NumbersIssued(w, next + |outs|)
  {
    hide ValidLevel, Installed;
    IssuedNumbersFresh(v, next, level + 1, outs);
    forall l: nat, g | l < |w| && g in w[l]
      ensures g in v[l] || (l == level + 1 && next <= g.number < next + |outs|)
    {
      CompactedFileNumber(v, next, level, in0, in1, outs, w, l, g);
    }
  }

  /** A reader below the memtables is served by the version alone. */
  lemma VersionShrinks(db: DB, w: Version, next: nat)
    requires ValidDB(db) && ValidVersion(w) && VersionEntries(w) <= VersionEntries(db.version)
    requires NumbersIssued(w, next)
    ensures ValidDB(db.(version := w, nextFile := next))
  {
    assert All(db.(version := w, nextFile := next)) <= All(db);
  }

  lemma CompactedVersion(v: Version, next: nat, level: nat, in0: seq<File>, in1: seq<File>, ss: SequenceNumber,
                         outs: seq<File>, w: Version)
    requires ValidVersion(v) && NumbersIssued(v, next) && ClosedInputs(v, level, in0, in1)
    requires Outputs(v, level, in0, in1, ss, outs) && Numbered(outs, next)
    requires Installed(v, CompactionEdit(level, in0, in1, outs), w)
    ensures ValidVersion(w) && NumbersIssued(w, next + |outs|) && VersionEntries(w) <= VersionEntries(v)
  {
    IssuedNumbersFresh(v, next, level + 1, outs);
    CompactionKeepsNumbers(v, next, level, in0, in1, outs, w);
    CompactionShrinks(v, level, in0, in1, outs, w);
    CompactionKeepsValid(v, level, in0, in1, outs, w);
  }

  lemma CompactKeepsValid(db: DB, level: nat, in0: seq<File>, in1: seq<File>, outs: seq<File>, db2: DB)
    requires ValidDB(db) && Compacts(db, level, in0, in1, outs, db2)
    ensures ValidDB(db2)
  {
    CompactedVersion(db.version, db.nextFile, level, in0, in1, SmallestSnapshot(db), outs, db2.version);
    VersionShrinks(db, db2.version, db2.nextFile);
  }

  lemma CompactionShrinks(v: Version, level: nat, in0: seq<File>, in1: seq<File>, outs: seq<File>, w: Version)
    requires ValidVersion(v) && ClosedInputs(v, level, in0, in1) && FreshNumbers(v[level + 1], outs)
    requires Installed(v, CompactionEdit(level, in0, in1, outs), w)
    requires LevelEntries(outs) <= Ins(in0, in1)
    ensures VersionEntries(w) <= VersionEntries(v)
  {
    CompactionEntries(v, level, in0, in1, outs, w);
    Partition(v, level, in0, in1);
  }

  /** What a compaction does to readers of the whole database. */
  lemma CompactExact(db: DB, level: nat, in0: seq<File>, in1: seq<File>, outs: seq<File>, db2: DB)
    requires ValidDB(db) && Compacts(db, level, in0, in1, outs, db2)
    ensures SameReads(All(db), All(db2), SmallestSnapshot(db))
            <==> UncoversNothing(InMemory(db), db.version, level, in0, in1, SmallestSnapshot(db))
  {
    IssuedNumbersFresh(db.version, db.nextFile, level + 1, outs);
    assert Newer(InMemory(db), VersionEntries(db.version));
    CompactionExact(InMemory(db), db.version, level, in0, in1, SmallestSnapshot(db), outs, db2.version);
  }

  // ------------------------------------------------------------------ trivial move

  /** Of the entries of a user key that every held snapshot sees, a compaction writes at most one. */
  lemma OneOldEntryLeft(db: DB, level: nat, in0: seq<File>, in1: seq<File>, outs: seq<File>, db2: DB, x: Entry,
                        y: Entry)
    requires ValidDB(db) && Takes(db, Compact(level, in0, in1, outs), db2)
    requires x in LevelEntries(outs) && y in LevelEntries(outs) && x.key.user == y.key.user
    requires SeenByAll(db, x.key.sequence) && SeenByAll(db, y.key.sequence)
    ensures x == y
  {
    SmallestSnapshotIsOldest(db);
    InputsUnique(db.version, level, in0, in1);
    var ins, ss := Ins(in0, in1), SmallestSnapshot(db);
    assert x in ins && y in ins && !Hidden(ins, x, ss) && !Hidden(ins, y, ss);
  }

  /** A deletion that every held snapshot sees is written only if a deeper file may hold what it deletes. */
  lemma OldDeletionHasBase(db: DB, level: nat, in0: seq<File>, in1: seq<File>, outs: seq<File>, db2: DB, t: Entry)
    requires ValidDB(db) && Takes(db, Compact(level, in0, in1, outs), db2)
    requires t in LevelEntries(outs) && t.key.kind.TypeDeletion? && SeenByAll(db, t.key.sequence)
    ensures exists l, f :: level + 2 <= l < |db.version| && f in db.version[l] &&
              f.smallest.user <= t.key.user <= f.largest.user
  {
    hide ValidVersion, ClosedInputs, Installed, Kept, IsBase;
    SmallestSnapshotIsOldest(db);
    DeletionKept(db.version, level, Ins(in0, in1), SmallestSnapshot(db), t);
  }

  lemma DeletionKept(v: Version, level: nat, ins: set<Entry>, ss: SequenceNumber, t: Entry)
    requires t in Kept(ins, ss, BaseKeys(v, level, ins)) && t.key.kind.TypeDeletion? && t.key.sequence <= ss
    ensures exists l, f :: level + 2 <= l < |v| && f in v[l] && f.smallest.user <= t.key.user <= f.largest.user
  {
    assert t.key.user !in BaseKeys(v, level, ins);
  }

  /** Everything else is written: an entry of the inputs is dropped only below a newer one that every held snapshot
      sees, or as such a deletion without a deeper file. */
  lemma DroppedIsOld(db: DB, level: nat, in0: seq<File>, in1: seq<File>, outs: seq<File>, db2: DB, e: Entry)
    requires ValidDB(db) && Takes(db, Compact(level, in0, in1, outs), db2)
    requires e in Ins(in0, in1) && e !in LevelEntries(outs)
    ensures SeenByAll(db, e.key.sequence)
    ensures e.key.kind.TypeDeletion? ||
            exists x :: x in Ins(in0, in1) && x.key.user == e.key.user && x.key.sequence > e.key.sequence &&
              SeenByAll(db, x.key.sequence)
  {
    hide ClosedInputs, Installed, ValidVersion;
    SmallestSnapshotIsOldest(db);
    var ins, ss := Ins(in0, in1), SmallestSnapshot(db);
    if Hidden(ins, e, ss) {
      var x :| x in ins && x.key.user == e.key.user && x.key.sequence > e.key.sequence && x.key.sequence <= ss;
    }
  }

  lemma MovedFileFresh(v: Version, next: nat, level: nat, f: File)
    requires NumbersIssued(v, next) && level + 1 < |v| && f in v[level]
    ensures FreshNumbers(v[level + 1], [f])
  {
  }

  lemma MoveEntries(v: Version, level: nat, f: File, w: Version)
    requires ValidVersion(v) && ClosedInputs(v, level, [f], []) && FreshNumbers(v[level + 1], [f])
    requires Installed(v, CompactionEdit(level, [f], [], [f]), w)
    ensures VersionEntries(w) == VersionEntries(v)
  {
    InsAlone(f);
    CompactionEntries(v, level, [f], [], [f], w);
    PartitionAlone(v, level, f);
  }

  lemma InsAlone(f: File)
    ensures Ins([f], []) == LevelEntries([f])
  {
    assert LevelEntries([]) == {};
  }

  lemma PartitionAlone(v: Version, level: nat, f: File)
    requires level + 1 < |v| && Subset([f], v[level])
    ensures VersionEntries(v) ==
            Up(v, level, [f]) + LeftBehind(v[level + 1], []) + Deep(v, level) + LevelEntries([f])
  {
    InsAlone(f);
    Partition(v, level, [f], []);
  }

  lemma MoveKeepsNumbers(v: Version, next: nat, level: nat, f: File, w: Version)
    requires ValidVersion(v) && ClosedInputs(v, level, [f], []) && NumbersIssued(v, next)
    requires Installed(v, CompactionEdit(level, [f], [], [f]), w)
    ensures NumbersIssued(w, next)
  {
    assert f in [f] && f in v[level];
    MovedFileFresh(v, next, level, f);
    forall l: nat, g | l < |w| && g in w[l]
      ensures (g in v[l] && (l == level ==> g != f)) || (l == level + 1 && g == f)
    {
      assert ValidLevel(l, v[l]);
      CompactionFilesAt(v, level, [f], [], [f], w, l, g);
    }
    assert ValidLevel(level, v[level]);
    forall g | g in v[level] && g.number == f.number
      ensures g == f
    {
      NumberIdentifies(v[level], g, f);
    }
  }

  lemma MoveKeepsDB(db: DB, level: nat, f: File, db2: DB)
    requires ValidDB(db) && Moves(db, level, f, db2)
    ensures ValidDB(db2) && All(db2) == All(db)
  {
    var v, w := db.version, db2.version;
    assert f in [f] && f in v[level];
    assert ValidLevel(level, v[level]);
    MovedFileFresh(v, db.nextFile, level, f);
    CompactionKeepsValid(v, level, [f], [], [f], w);
    MoveEntries(v, level, f, w);
    MoveKeepsNumbers(v, db.nextFile, level, f, w);
    VersionShrinks(db, w, db.nextFile);
  }

  // ------------------------------------------------------------------ runs

  lemma SnapshotsKeepValid(db: DB, snapshots: seq<SequenceNumber>)
    requires ValidDB(db) && ValidSnapshots(db.(snapshots := snapshots))
    ensures ValidDB(db.(snapshots := snapshots)) && All(db.(snapshots := snapshots)) == All(db)
  {
  }

  lemma SnapshotStep(db: DB, step: Step, db2: DB)
    requires ValidDB(db) && Takes(db, step, db2) && (step.TakeSnapshot? || step.ReleaseSnapshot?)
    ensures ValidDB(db2) && All(db2) == All(db)
  {
    SnapshotsKeepValid(db, db2.snapshots);
  }

  /** Every step keeps the whole invariant. */
  lemma StepKeepsValid(db: DB, step: Step, db2: DB)
    requires ValidDB(db) && Takes(db, step, db2)
    ensures ValidDB(db2)
  {
    match step
    case Write(ops) => WriteKeepsValid(db, ops, db2);
    case SwitchMemTable => SwitchKeepsValid(db, db2);
    case Flush(level, size) => FlushKeepsDB(db, level, size, db2);
    case TrivialMove(level, f) => MoveKeepsDB(db, level, f, db2);
    case Compact(level, in0, in1, outs) => CompactKeepsValid(db, level, in0, in1, outs, db2);
    case TakeSnapshot => SnapshotStep(db, step, db2);
    case ReleaseSnapshot(_) => SnapshotStep(db, step, db2);
  }

  /** The step, if a compaction, drops no tombstone that hid a value left behind. */
  ghost predicate Uncovering(db: DB, step: Step) {
    step.Compact? && step.level + 1 < |db.version| &&
    !UncoversNothing(InMemory(db), db.version, step.level, step.in0, step.in1, SmallestSnapshot(db))
  }

  ghost predicate SameAnswers(a: set<Entry>, b: set<Entry>, u: UserKey, s: SequenceNumber) {
    forall r :: Answers(a, u, s, r) <==> Answers(b, u, s, r)
  }

  lemma WriteKeepsOldReads(db: DB, ops: seq<Op>, db2: DB, u: UserKey, s: SequenceNumber)
    requires ValidDB(db) && Writes(db, ops, db2) && s <= db.last
    ensures SameAnswers(All(db), All(db2), u, s)
  {
    WriteEffect(db, ops, db2);
    BatchIsNew(db.last, ops);
    forall r
      ensures Answers(All(db), u, s, r) <==> Answers(All(db2), u, s, r)
    {
      NewerEntriesInvisible(All(db), BatchEntries(db.last + 1, ops), u, s, r);
    }
  }

  /** A live snapshot reads the same before and after any step that uncovers nothing. */
  lemma StepKeepsSnapshotReads(db: DB, step: Step, db2: DB, u: UserKey, i: nat)
    requires ValidDB(db) && Takes(db, step, db2) && i < |db.snapshots| && !Uncovering(db, step)
    ensures SameAnswers(All(db), All(db2), u, db.snapshots[i])
  {
    var s := db.snapshots[i];
    match step
    case Write(ops) =>
      WriteKeepsOldReads(db, ops, db2, u, s);
    case SwitchMemTable => SwitchKeepsValid(db, db2);
    case Flush(level, size) => FlushKeepsDB(db, level, size, db2);
    case TrivialMove(level, f) => MoveKeepsDB(db, level, f, db2);
    case Compact(level, in0, in1, outs) =>
      assert db.snapshots[0] <= s;
      CompactExact(db, level, in0, in1, outs, db2);
    case TakeSnapshot => SnapshotStep(db, step, db2);
    case ReleaseSnapshot(_) => SnapshotStep(db, step, db2);
  }

  /** A run: each state follows from the one before by its step. */
  ghost predicate IsRun(states: seq<DB>, steps: seq<Step>) {
    |states| == |steps| + 1 && forall i | 0 <= i < |steps| :: Takes(states[i], steps[i], states[i + 1])
  }

  ghost predicate NothingUncovered(states: seq<DB>, steps: seq<Step>) {
    |steps| <= |states| && forall i | 0 <= i < |steps| :: !Uncovering(states[i], steps[i])
  }

  /** `s` is among the live snapshots all along. */
  ghost predicate HeldThroughout(states: seq<DB>, s: SequenceNumber) {
    forall i | 0 <= i < |states| :: s in states[i].snapshots
  }

  lemma {:induction false} RunKeepsValid(states: seq<DB>, steps: seq<Step>, n: nat)
    requires IsRun(states, steps) && ValidDB(states[0]) && n < |states|
    ensures ValidDB(states[n])
  {
    if n > 0 {
      RunKeepsValid(states, steps, n - 1);
      StepKeepsValid(states[n - 1], steps[n - 1], states[n]);
    }
  }

  /** Over every run, whatever the mix of writes, flushes, moves, compactions and other snapshots: a
      snapshot that stays live keeps reading the same values. */
  lemma {:induction false} RunKeepsSnapshotReads(states: seq<DB>, steps: seq<Step>, s: SequenceNumber, u: UserKey,
                                                 n: nat)
    requires IsRun(states, steps) && ValidDB(states[0]) && n < |states|
    requires HeldThroughout(states, s) && NothingUncovered(states, steps)
    ensures SameAnswers(All(states[0]), All(states[n]), u, s)
  {
    if n > 0 {
      RunKeepsSnapshotReads(states, steps, s, u, n - 1);
      RunKeepsValid(states, steps, n - 1);
      var before := states[n - 1];
      assert s in before.snapshots;
      var i :| 0 <= i < |before.snapshots| && before.snapshots[i] == s;
      StepKeepsSnapshotReads(before, steps[n - 1], states[n], u, i);
    }
  }
}
