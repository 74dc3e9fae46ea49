// A run from the empty database that ends in a compaction which makes a deleted key readable again: the case
// SetupOtherInputs leaves open by not extending the level+1 inputs to boundary files (db/version_set.cc).

module SplitKeys {
  import opened Keys
  import opened Reads
  import opened Versions
  import opened Inputs
  import opened DropRule
  import opened Compactions
  import opened Builders
  import opened CompactionSafety
  import opened CompactionRun
  import opened Flushes
  import opened Engine

  const OLD_VALUE: Entry := Entry(IKey(2.0, 1, TypeValue), [7])
  const LOWER_ENTRY: Entry := Entry(IKey(1.0, 2, TypeValue), [2])
  const TOMBSTONE: Entry := Entry(IKey(2.0, 3, TypeDeletion), [])
  const UPPER_ENTRY: Entry := Entry(IKey(1.0, 4, TypeValue), [1])

  const FIRST_FILE: File := File(1, 0, OLD_VALUE.key, OLD_VALUE.key, [OLD_VALUE])
  const SECOND_FILE: File := File(2, 0, LOWER_ENTRY.key, TOMBSTONE.key, [LOWER_ENTRY, TOMBSTONE])
  const SPLIT_FILE: File := File(3, 0, LOWER_ENTRY.key, TOMBSTONE.key, [LOWER_ENTRY, TOMBSTONE])
  const LEFT_FILE: File := File(4, 0, OLD_VALUE.key, OLD_VALUE.key, [OLD_VALUE])
  const UPPER_FILE: File := File(5, 0, UPPER_ENTRY.key, UPPER_ENTRY.key, [UPPER_ENTRY])
  const MERGED_FILE: File := File(6, 0, UPPER_ENTRY.key, UPPER_ENTRY.key, [UPPER_ENTRY])

  /** Files at levels 1 and 2 only. */
  function At(one: seq<File>, two: seq<File>): Version {
    [[], one, two, [], [], [], []]
  }

  const EMPTY_DB: DB := DB([], None, At([], []), 0, 1, [])

  /** Key 2 is written, flushed to level 2 and kept by a snapshot while its deletion arrives at level 1. The compaction
      of both keeps the deletion and the value, and cuts its output between them. The snapshot goes, key 1 is written
      again and flushed to level 1, and is compacted with the file of level 2 that holds key 1. */
  function Steps(): seq<Step> {
    [Write([Op(2.0, TypeValue, [7])]), TakeSnapshot, SwitchMemTable, Flush(2, 0),
     Write([Op(1.0, TypeValue, [2]), Op(2.0, TypeDeletion, [])]), SwitchMemTable, Flush(1, 0),
     Compact(1, [SECOND_FILE], [FIRST_FILE], [SPLIT_FILE, LEFT_FILE]), ReleaseSnapshot(0),
     Write([Op(1.0, TypeValue, [1])]), SwitchMemTable, Flush(1, 0),
     Compact(1, [UPPER_FILE], [SPLIT_FILE], [MERGED_FILE])]
  }

  function States(): seq<DB> {
    [EMPTY_DB,
     DB([OLD_VALUE], None, At([], []), 1, 1, []),
     DB([OLD_VALUE], None, At([], []), 1, 1, [1]),
     DB([], Some([OLD_VALUE]), At([], []), 1, 1, [1]),
     DB([], None, At([], [FIRST_FILE]), 1, 2, [1]),
     DB([LOWER_ENTRY, TOMBSTONE], None, At([], [FIRST_FILE]), 3, 2, [1]),
     DB([], Some([LOWER_ENTRY, TOMBSTONE]), At([], [FIRST_FILE]), 3, 2, [1]),
     DB([], None, At([SECOND_FILE], [FIRST_FILE]), 3, 3, [1]),
     DB([], None, At([], [SPLIT_FILE, LEFT_FILE]), 3, 5, [1]),
     DB([], None, At([], [SPLIT_FILE, LEFT_FILE]), 3, 5, []),
     DB([UPPER_ENTRY], None, At([], [SPLIT_FILE, LEFT_FILE]), 4, 5, []),
     DB([], Some([UPPER_ENTRY]), At([], [SPLIT_FILE, LEFT_FILE]), 4, 5, []),
     DB([], None, At([UPPER_FILE], [SPLIT_FILE, LEFT_FILE]), 4, 6, []),
     DB([], None, At([], [MERGED_FILE, LEFT_FILE]), 4, 7, [])]
  }

  // ------------------------------------------------------------------ versions with two levels

  lemma InstalledAt(a: seq<File>, b: seq<File>, edit: VersionEdit, c: seq<File>, d: seq<File>)
    requires InOrder(c) && InOrder(d)
    requires FilesOf(c) == AfterEdit(FilesOf(a), edit, 1) && FilesOf(d) == AfterEdit(FilesOf(b), edit, 2)
    requires forall p | p in edit.newFiles :: p.0 == 1 || p.0 == 2
    ensures Installed(At(a, b), edit, At(c, d))
  {
    forall l: nat | l < NUM_LEVELS
      ensures InOrder(At(c, d)[l]) && FilesOf(At(c, d)[l]) == AfterEdit(FilesOf(At(a, b)[l]), edit, l)
    {
      if l != 1 && l != 2 {
        assert At(a, b)[l] == [] && At(c, d)[l] == [];
        assert AddedFiles(edit, l) == {};
      }
    }
  }

  lemma EntriesAt(one: seq<File>, two: seq<File>)
    ensures VersionEntries(At(one, two)) == LevelEntries(one) + LevelEntries(two)
  {
    var v := At(one, two);
    forall e
      ensures e in VersionEntries(v) <==> e in LevelEntries(one) || e in LevelEntries(two)
    {
      if e in VersionEntries(v) {
        var l :| 0 <= l < |v| && e in LevelEntries(v[l]);
        assert v[l] == if l == 1 then one else if l == 2 then two else [];
      }
      assert v[1] == one && v[2] == two;
    }
  }

  lemma EntriesOf(f: File, g: File)
    ensures LevelEntries([]) == {} && LevelEntries([f]) == Elements(f.entries)
    ensures LevelEntries([f, g]) == Elements(f.entries) + Elements(g.entries)
  {
    assert f in [f, g] && g in [f, g] && f in [f];
  }

  lemma ClosedAt(one: File, two: seq<File>, in1: seq<File>)
    requires in1 == Overlapping(two, Some(one.smallest.user), Some(one.largest.user))
    ensures ClosedInputs(At([one], two), 1, [one], in1)
  {
    assert Covers(one.smallest.user, one.largest.user, [one]);
  }

  lemma NothingDeeper(one: seq<File>, two: seq<File>, u: UserKey)
    ensures IsBase(At(one, two), 1, u)
  {
  }

  // ------------------------------------------------------------------ the steps

  lemma Written(db: DB, ops: seq<Op>, db2: DB)
    requires db.mem == [] && 1 <= |ops| <= 2 && db.last + |ops| < MAX_SEQUENCE_NUMBER
    requires |ops| == 2 ==> ops[0].user < ops[1].user
    requires var e := Entry(IKey(ops[0].user, db.last + 1, ops[0].kind), ops[0].value);
      db2 == db.(mem := if |ops| == 1 then [e]
                 else [e, Entry(IKey(ops[1].user, db.last + 2, ops[1].kind), ops[1].value)], last := db.last + |ops|)
    ensures Takes(db, Write(ops), db2)
  {
    var e := Entry(IKey(ops[0].user, db.last + 1, ops[0].kind), ops[0].value);
    assert AddEntry([], e) == [e];
    if |ops| == 2 {
      var f := Entry(IKey(ops[1].user, db.last + 2, ops[1].kind), ops[1].value);
      assert ops[1..] == [ops[1]] && [e][1..] == [] && AddEntry([], f) == [f];
      assert AddEntry([e], f) == [e] + [f];
      assert AddBatch([e, f], db.last + 3, []) == [e, f];
      assert [ops[1]][1..] == [];
      assert AddBatch([e], db.last + 2, [ops[1]]) == AddBatch(AddEntry([e], f), db.last + 3, []);
    } else {
      assert ops[1..] == [];
      assert AddBatch([e], db.last + 2, []) == [e];
    }
    assert AddBatch(db.mem, db.last + 1, ops) == AddBatch([e], db.last + 2, ops[1..]);
  }

  lemma FirstFlush()
    ensures Takes(States()[3], Flush(2, 0), States()[4])
  {
    var f: File := FIRST_FILE;
    assert f == FileOf(1, 0, [OLD_VALUE]);
    FlushInstalls([], [], 2, f, [], [f]);
  }

  lemma FlushInstalls(a: seq<File>, b: seq<File>, level: nat, f: File, c: seq<File>, d: seq<File>)
    requires InOrder(a) && InOrder(b) &&
             (if level == 1 then a == [] && c == [f] && d == b else level == 2 && b == [] && c == a && d == [f])
    ensures Installed(At(a, b), FlushEdit(level, f), At(c, d))
  {
    var edit := FlushEdit(level, f);
    assert edit.newFiles[0] == (level, f);
    assert AddedFiles(edit, level) == {f} && AddedFiles(edit, 3 - level) == {};
    assert DeletedAt(edit, 1) == {} && DeletedAt(edit, 2) == {};
    assert FilesOf([f]) == {f} && FilesOf([]) == {};
    InstalledAt(a, b, edit, c, d);
  }

  lemma SecondFlush()
    ensures Takes(States()[6], Flush(1, 0), States()[7])
  {
    var f: File := SECOND_FILE;
    assert f == FileOf(2, 0, [LOWER_ENTRY, TOMBSTONE]);
    FlushInstalls([], [FIRST_FILE], 1, f, [f], [FIRST_FILE]);
  }

  lemma ThirdFlush()
    ensures Takes(States()[11], Flush(1, 0), States()[12])
  {
    var f: File := UPPER_FILE;
    assert f == FileOf(5, 0, [UPPER_ENTRY]);
    FlushInstalls([], [SPLIT_FILE, LEFT_FILE], 1, f, [f], [SPLIT_FILE, LEFT_FILE]);
  }

  /** Replacing one file of level 1, and one of level 2, by some files of level 2. */
  lemma CompactionInstalls(one: File, two: File, left: seq<File>, outs: seq<File>, d: seq<File>)
    requires 1 <= |outs| <= 2 && InOrder(d) &&
             (forall f | f in left + outs :: f.number != two.number && f.number != one.number)
    requires forall f :: f in d <==> f in left || f in outs
    ensures Installed(At([one], [two] + left), CompactionEdit(1, [one], [two], outs), At([], d))
  {
    var edit := CompactionEdit(1, [one], [two], outs);
    CompactionAdds(1, [one], [two], outs, 1);
    CompactionAdds(1, [one], [two], outs, 2);
    assert one in [one] && two in [two];
    assert (1, one.number) in edit.deletedFiles && (2, two.number) in edit.deletedFiles;
    assert one.number in DeletedAt(edit, 1) && two.number in DeletedAt(edit, 2);
    assert forall n | n in DeletedAt(edit, 2) :: n == two.number;
    assert AfterEdit(FilesOf([one]), edit, 1) == FilesOf([]);
    forall f
      ensures f in AfterEdit(FilesOf([two] + left), edit, 2) <==> f in FilesOf(d)
    {
    }
    InstalledAt([one], [two] + left, edit, [], d);
  }

  /** The snapshot at 1 keeps the old value of key 2 and, being older than it, the deletion too. */
  lemma FirstCompactionKeeps()
    ensures var ins := {LOWER_ENTRY, TOMBSTONE, OLD_VALUE};
      Ins([SECOND_FILE], [FIRST_FILE]) == ins && forall base :: Kept(ins, 1, base) == ins
  {
    EntriesOf(SECOND_FILE, SECOND_FILE);
    EntriesOf(FIRST_FILE, FIRST_FILE);
    var b: File, a: File := SECOND_FILE, FIRST_FILE;
    assert Elements(b.entries) == {LOWER_ENTRY, TOMBSTONE} && Elements(a.entries) == {OLD_VALUE};
  }

  lemma FirstInputs()
    ensures ClosedInputs(At([SECOND_FILE], [FIRST_FILE]), 1, [SECOND_FILE], [FIRST_FILE])
  {
    var a: File := FIRST_FILE;
    assert Overlapping([a], Some(1.0), Some(2.0)) == [a] by {
      assert [a][..0] == [];
    }
    ClosedAt(SECOND_FILE, [a], [a]);
  }

  lemma FirstOutputs()
    ensures Outputs(At([SECOND_FILE], [FIRST_FILE]), 1, [SECOND_FILE], [FIRST_FILE], 1, [SPLIT_FILE, LEFT_FILE])
  {
    var c: File, d: File := SPLIT_FILE, LEFT_FILE;
    FirstCompactionKeeps();
    EntriesOf(c, d);
    assert Elements(c.entries) == {LOWER_ENTRY, TOMBSTONE} && Elements(d.entries) == {OLD_VALUE};
    assert ValidFile(c) && ValidFile(d);
  }

  lemma FirstInstalls()
    ensures Installed(At([SECOND_FILE], [FIRST_FILE]),
                      CompactionEdit(1, [SECOND_FILE], [FIRST_FILE], [SPLIT_FILE, LEFT_FILE]),
                      At([], [SPLIT_FILE, LEFT_FILE]))
  {
    var c: File, d: File := SPLIT_FILE, LEFT_FILE;
    assert [FIRST_FILE] + [] == [FIRST_FILE];
    CompactionInstalls(SECOND_FILE, FIRST_FILE, [], [c, d], [c, d]);
  }

  lemma FirstCompaction()
    ensures Takes(States()[7], Steps()[7], States()[8])
  {
    FirstInputs();
    FirstOutputs();
    FirstInstalls();
    Compacted(States()[7], [SECOND_FILE], [FIRST_FILE], [SPLIT_FILE, LEFT_FILE], At([], [SPLIT_FILE, LEFT_FILE]));
  }

  lemma Compacted(db: DB, in0: seq<File>, in1: seq<File>, outs: seq<File>, w: Version)
    requires ClosedInputs(db.version, 1, in0, in1) && Outputs(db.version, 1, in0, in1, SmallestSnapshot(db), outs)
    requires Numbered(outs, db.nextFile) && Installed(db.version, CompactionEdit(1, in0, in1, outs), w)
    ensures Takes(db, Compact(1, in0, in1, outs), db.(version := w, nextFile := db.nextFile + |outs|))
  {
  }

  /** Without a snapshot the deletion is obsolete, since no level below level 2 has key 2. */
  lemma SecondCompactionKeeps()
    ensures var ins := {UPPER_ENTRY, LOWER_ENTRY, TOMBSTONE};
      Ins([UPPER_FILE], [SPLIT_FILE]) == ins &&
      Kept(ins, 4, BaseKeys(At([UPPER_FILE], [SPLIT_FILE, LEFT_FILE]), 1, ins)) == {UPPER_ENTRY}
  {
    EntriesOf(UPPER_FILE, UPPER_FILE);
    EntriesOf(SPLIT_FILE, SPLIT_FILE);
    var e: File, c: File := UPPER_FILE, SPLIT_FILE;
    assert Elements(e.entries) == {UPPER_ENTRY} && Elements(c.entries) == {LOWER_ENTRY, TOMBSTONE};
    var ins := {UPPER_ENTRY, LOWER_ENTRY, TOMBSTONE};
    var base := BaseKeys(At([UPPER_FILE], [SPLIT_FILE, LEFT_FILE]), 1, ins);
    NothingDeeper([UPPER_FILE], [SPLIT_FILE, LEFT_FILE], 2.0);
    assert TOMBSTONE.key.user in base && Obsolete(TOMBSTONE, 4, base);
    assert Hidden(ins, LOWER_ENTRY, 4) by {
      assert UPPER_ENTRY in ins;
    }
    assert !Hidden(ins, UPPER_ENTRY, 4);
  }

  lemma SecondInputs()
    ensures ClosedInputs(At([UPPER_FILE], [SPLIT_FILE, LEFT_FILE]), 1, [UPPER_FILE], [SPLIT_FILE])
  {
    var c: File, d: File := SPLIT_FILE, LEFT_FILE;
    assert Overlapping([c, d], Some(1.0), Some(1.0)) == [c] by {
      assert [c, d][..1] == [c] && [c][..0] == [];
      assert Overlapping([c], Some(1.0), Some(1.0)) == Overlapping([], Some(1.0), Some(1.0)) + [c];
    }
    ClosedAt(UPPER_FILE, [c, d], [c]);
  }

  lemma SecondOutputs()
    ensures Outputs(At([UPPER_FILE], [SPLIT_FILE, LEFT_FILE]), 1, [UPPER_FILE], [SPLIT_FILE], 4, [MERGED_FILE])
  {
    var m: File := MERGED_FILE;
    SecondCompactionKeeps();
    EntriesOf(m, m);
    assert Elements(m.entries) == {UPPER_ENTRY} && ValidFile(m);
  }

  lemma SecondInstalls()
    ensures Installed(At([UPPER_FILE], [SPLIT_FILE, LEFT_FILE]),
                      CompactionEdit(1, [UPPER_FILE], [SPLIT_FILE], [MERGED_FILE]), At([], [MERGED_FILE, LEFT_FILE]))
  {
    var c: File, d: File, m: File := SPLIT_FILE, LEFT_FILE, MERGED_FILE;
    assert [c] + [d] == [c, d];
    CompactionInstalls(UPPER_FILE, c, [d], [m], [m, d]);
  }

  lemma SecondCompaction()
    ensures Takes(States()[12], Steps()[12], States()[13])
  {
    SecondInputs();
    SecondOutputs();
    SecondInstalls();
    Compacted(States()[12], [UPPER_FILE], [SPLIT_FILE], [MERGED_FILE], At([], [MERGED_FILE, LEFT_FILE]));
  }

  lemma StepsFollow(i: nat)
    requires i < |Steps()|
    ensures Takes(States()[i], Steps()[i], States()[i + 1])
  {
    match i
    case 0 => Written(States()[0], [Op(2.0, TypeValue, [7])], States()[1]);
    case 3 => FirstFlush();
    case 4 => Written(States()[4], [Op(1.0, TypeValue, [2]), Op(2.0, TypeDeletion, [])], States()[5]);
    case 6 => SecondFlush();
    case 7 => FirstCompaction();
    case 9 => Written(States()[9], [Op(1.0, TypeValue, [1])], States()[10]);
    case 11 => ThirdFlush();
    case 12 => SecondCompaction();
    case _ => SmallStep(i);
  }

  lemma SmallStep(i: nat)
    requires i == 1 || i == 2 || i == 5 || i == 8 || i == 10
    ensures Takes(States()[i], Steps()[i], States()[i + 1])
  {
    var one: seq<SequenceNumber> := [1];
    assert one[..0] + one[1..] == [] && [] + one == one;
  }

  lemma EmptyIsValid()
    ensures ValidDB(EMPTY_DB) && All(EMPTY_DB) == {}
  {
    EntriesAt([], []);
    assert Elements([]) == {} && All(EMPTY_DB) == {};
    assert forall l: nat | l < NUM_LEVELS :: At([], [])[l] == [];
  }

  /** What the last two states hold. */
  lemma EntriesBefore()
    ensures All(States()[12]) == {UPPER_ENTRY, LOWER_ENTRY, TOMBSTONE, OLD_VALUE}
  {
    EntriesAt([UPPER_FILE], [SPLIT_FILE, LEFT_FILE]);
    EntriesOf(UPPER_FILE, UPPER_FILE);
    EntriesOf(SPLIT_FILE, LEFT_FILE);
    var e: File, c: File, d: File := UPPER_FILE, SPLIT_FILE, LEFT_FILE;
    assert Elements(e.entries) == {UPPER_ENTRY} && Elements(c.entries) == {LOWER_ENTRY, TOMBSTONE};
    assert Elements(d.entries) == {OLD_VALUE} && Elements([]) == {};
  }

  lemma EntriesAfter()
    ensures All(States()[13]) == {UPPER_ENTRY, OLD_VALUE}
  {
    EntriesAt([], [MERGED_FILE, LEFT_FILE]);
    EntriesOf(MERGED_FILE, LEFT_FILE);
    var d: File, m: File := LEFT_FILE, MERGED_FILE;
    assert Elements(d.entries) == {OLD_VALUE} && Elements(m.entries) == {UPPER_ENTRY} && Elements([]) == {};
  }

  lemma LastReads()
    ensures Answers(All(States()[12]), 2.0, 4, None) && Answers(All(States()[13]), 2.0, 4, Some([7]))
    ensures !SameReads(All(States()[12]), All(States()[13]), 4)
  {
    EntriesBefore();
    EntriesAfter();
    ReadsDiffer(All(States()[12]), All(States()[13]));
  }

  lemma LastUncovers()
    ensures Uncovering(States()[12], Steps()[12])
  {
    EmptyIsValid();
    IsARun();
    RunKeepsValid(States(), Steps(), 12);
    LastReads();
    StepsFollow(12);
    ChangeUncovers(States()[12], Steps()[12], States()[13]);
  }

  lemma ReadsDiffer(before: set<Entry>, after: set<Entry>)
    requires before == {UPPER_ENTRY, LOWER_ENTRY, TOMBSTONE, OLD_VALUE} && after == {UPPER_ENTRY, OLD_VALUE}
    ensures Answers(before, 2.0, 4, None) && Answers(after, 2.0, 4, Some([7])) && !SameReads(before, after, 4)
  {
    assert IsNewest(before, 2.0, 4, TOMBSTONE);
    assert IsNewest(after, 2.0, 4, OLD_VALUE);
    assert Unique(before);
    var r := AnswerUnique(before, 2.0, 4);
    assert !Answers(before, 2.0, 4, Some([7]));
  }

  lemma IsARun()
    ensures IsRun(States(), Steps())
  {
    forall i | 0 <= i < |Steps()|
      ensures Takes(States()[i], Steps()[i], States()[i + 1])
    {
      StepsFollow(i);
    }
  }

  /** Whenever a compaction changes a read, a deletion it dropped was hiding a value it left behind. */
  lemma ChangeUncovers(db: DB, step: Step, db2: DB)
    requires ValidDB(db) && Takes(db, step, db2) && step.Compact? && !SameReads(All(db), All(db2), SmallestSnapshot(db))
    ensures Uncovering(db, step)
  {
    CompactExact(db, step.level, step.in0, step.in1, step.outs, db2);
  }

  /** A run of the engine from the empty database whose last step, a compaction, changes what the newest snapshot reads:
      key 2 was deleted and is back. */
  lemma CompactionCanResurrect() returns (states: seq<DB>, steps: seq<Step>)
    ensures IsRun(states, steps) && states[0] == EMPTY_DB && ValidDB(EMPTY_DB) && All(EMPTY_DB) == {}
    ensures |steps| == 13 && steps[12].Compact? && SmallestSnapshot(states[12]) == states[12].last == 4
    ensures Answers(All(states[12]), 2.0, 4, None) && Answers(All(states[13]), 2.0, 4, Some([7]))
    ensures Uncovering(states[12], steps[12])
  {
    EmptyIsValid();
    IsARun();
    LastReads();
    LastUncovers();
    states, steps := States(), Steps();
  }
}
