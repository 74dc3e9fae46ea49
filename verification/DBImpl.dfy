// The database object and its operations (db/db_impl.cc), each proved to be a step of Engine.

module DBImpls {
  import opened Keys
  import opened Reads
  import opened Versions
  import opened Inputs
  import opened Compactions
  import opened OutputCuts
  import opened Builders
  import opened Manifests
  import opened CompactionSafety
  import opened CompactionRun
  import opened Flushes
  import opened Engine

  /** The options that only decide when and how finely to compact. */
  datatype Options = Options(maxGrandParentOverlap: nat, expandedCompactionLimit: nat, maxFileSize: nat,
                             sizeOf: seq<Entry> -> nat)
  {
    /** Where a compaction cuts its output. */
    function OutputLimits(): Limits {
      Limits(maxGrandParentOverlap, maxFileSize, sizeOf)
    }
  }

  class DBImpl {
    var mem: seq<Entry>
    var imm: Option<seq<Entry>>
    var version: Version
    var lastSequence: SequenceNumber
    var nextFile: nat
    var snapshots: seq<SequenceNumber>
    const options: Options

    ghost function View(): DB
      reads this
    {
      DB(mem, imm, version, lastSequence, nextFile, snapshots)
    }

    ghost predicate Valid()
      reads this
    {
      ValidDB(View())
    }

    constructor (options: Options)
      ensures Valid() && All(View()) == {} && snapshots == []
    {
      this.options := options;
      mem, imm, version, lastSequence, nextFile, snapshots := [], None, NO_FILES, 0, 2, [];
      new;
      EmptyVersionValid();
    }

    /** Applies a batch to the memtable at the next sequence numbers. */
    method Write(ops: seq<Op>)
      requires Valid() && lastSequence + |ops| < MAX_SEQUENCE_NUMBER
      modifies this
      ensures Valid() && Takes(old(View()), Step.Write(ops), View())
    {
      mem := InsertInto(mem, lastSequence + 1, ops);
      lastSequence := lastSequence + |ops|;
      StepKeepsValid(old(View()), Step.Write(ops), View());
    }

    /** The last branch of MakeRoomForWrite: the memtable becomes immutable. */
    method SwitchMemTables()
      requires Valid() && imm.None?
      modifies this
      ensures Valid() && Takes(old(View()), SwitchMemTable, View())
    {
      imm, mem := Some(mem), [];
      StepKeepsValid(old(View()), SwitchMemTable, View());
    }

    /** Writes the immutable memtable to a table file at the level PickLevelForMemTableOutput picks. */
    method CompactMemTable() returns (ghost step: Step)
      requires Valid() && imm.Some?
      modifies this
      ensures step.Flush? && Valid() && Takes(old(View()), step, View())
      ensures old(imm).value == [] ==> step.toLevel == 0
      ensures old(imm).value != [] ==>
                var entries := old(imm).value;
                IsFlushLevel(old(version), entries[0].key.user, entries[|entries| - 1].key.user,
                          options.maxGrandParentOverlap, step.toLevel)
    {
      hide IsFlushLevel;
      var entries := imm.value;
      var level := 0;
      if entries != [] {
        var f := FileOf(nextFile, options.sizeOf(entries), entries);
        level := PickLevelForMemTableOutput(version, f.smallest.user, f.largest.user, options.maxGrandParentOverlap);
        FlushAddsFresh(version, nextFile, level, f);
        var w := LogAndApply(version, FlushEdit(level, f));
        version := w;
      }
      nextFile := nextFile + 1;
      imm := None;
      step := Flush(level, options.sizeOf(entries));
      StepKeepsValid(old(View()), step, View());
    }

    /** VersionSet::PickCompaction, for whichever file its scores pick. */
    method PickCompaction(level: nat, index: nat) returns (c: Compaction)
      requires Valid() && level + 1 < NUM_LEVELS && index < |version[level]|
      ensures fresh(c) && fresh(c.levelPtrs) && c.Valid() && c.v == version && c.level == level && c.Unused()
      ensures ClosedInputs(version, level, c.inputs0, c.inputs1) && version[level][index] in c.inputs0
      ensures Grandparents(version, level, c.inputs0 + c.inputs1, c.grandparents)
      ensures exists chosen :: Picked(level, version[level], version[level][index], chosen) &&
                IsSetup(version, level, chosen, options.expandedCompactionLimit, c.inputs0, c.inputs1)
    {
      hide Selected, ClosedInputs, Grandparents, IsSetup, Picked;
      c := new Compaction(version, level);
      c.inputs0 := PickedInputs(level, version[level], index);
      c.SetupOtherInputs(options.expandedCompactionLimit);
    }

    /** VersionSet::CompactRange: the files of a level that meet a range, or a prefix of them. */
    method CompactRange(level: nat, begin: Option<UserKey>, end: Option<UserKey>) returns (c: Compaction?)
      requires Valid() && level + 1 < NUM_LEVELS
      ensures c == null <==> forall f | f in version[level] :: !Overlaps(f, begin, end)
      ensures c != null ==> fresh(c) && fresh(c.levelPtrs) && c.Valid() && c.v == version && c.level == level
      ensures c != null ==> c.Unused() && ClosedInputs(version, level, c.inputs0, c.inputs1)
      ensures c != null ==> Grandparents(version, level, c.inputs0 + c.inputs1, c.grandparents)
      ensures c != null ==>
                exists chosen :: RangeChoice(level, version[level], begin, end, options.maxFileSize, chosen) &&
                  IsSetup(version, level, chosen, options.expandedCompactionLimit, c.inputs0, c.inputs1)
    {
      hide Selected, ClosedInputs, Grandparents, IsSetup, RangeChoice;
      assert ValidLevel(level, version[level]);
      var inputs := RangeInputs(level, version[level], begin, end, options.maxFileSize);
      if inputs == [] {
        return null;
      }
      c := new Compaction(version, level);
      c.inputs0 := inputs;
      c.SetupOtherInputs(options.expandedCompactionLimit);
    }

    /** The trivial-move branch of BackgroundCompaction. */
    method MoveFile(level: nat, f: File)
      requires Valid() && ClosedInputs(version, level, [f], [])
      modifies this
      ensures Valid() && Takes(old(View()), TrivialMove(level, f), View())
    {
      MoveAddsFresh(version, nextFile, level, f);
      var w := LogAndApply(version, CompactionEdit(level, [f], [], [f]));
      version := w;
      StepKeepsValid(old(View()), TrivialMove(level, f), View());
    }

    /** DoCompactionWork and InstallCompactionResults. */
    method RewriteInputs(c: Compaction) returns (ghost step: Step)
      requires Valid() && c.Valid() && c.v == version && c.Unused()
      requires ClosedInputs(version, c.level, c.inputs0, c.inputs1)
      requires Grandparents(version, c.level, c.inputs0 + c.inputs1, c.grandparents)
      modifies this, c, c.levelPtrs
      ensures step.Compact? && Valid() && Takes(old(View()), step, View())
      ensures step.level == c.level && step.in0 == old(c.inputs0) && step.in1 == old(c.inputs1)
      ensures WellCut(old(c.grandparents), step.outs, options.OutputLimits())
    {
      hide WellCut, Grandparents;
      ghost var db := View();
      var smallestSnapshot := if snapshots == [] then lastSequence else snapshots[0];
      assert smallestSnapshot == SmallestSnapshot(db);
      var outs, next, w := CompactAndApply(c, smallestSnapshot, nextFile, options, db);
      version, nextFile := w, next;
      step := Compact(c.level, c.inputs0, c.inputs1, outs);
    }

    /** BackgroundCompaction once the compaction is chosen: move the file down, or rewrite the inputs. */
    method RunBackgroundCompaction(c: Compaction, manual: bool) returns (ghost step: Step)
      requires Valid() && c.Valid() && c.v == version && c.Unused()
      requires ClosedInputs(version, c.level, c.inputs0, c.inputs1)
      requires Grandparents(version, c.level, c.inputs0 + c.inputs1, c.grandparents)
      modifies this, c, c.levelPtrs
      ensures Valid() && Takes(old(View()), step, View())
      ensures step.TrivialMove? || step.Compact?
      ensures step.TrivialMove? <==>
                !manual &&
                MovesDown(old(version), c.level, old(c.inputs0), old(c.inputs1), options.maxGrandParentOverlap)
      ensures step.TrivialMove? ==> old(c.inputs0) == [step.file] && step.level == c.level
      ensures step.Compact? ==>
                step.level == c.level && step.in0 == old(c.inputs0) && step.in1 == old(c.inputs1) &&
                WellCut(old(c.grandparents), step.outs, options.OutputLimits())
    {
      MovesDownDecided(version, c.level, c.inputs0, c.inputs1, c.grandparents, options.maxGrandParentOverlap);
      hide MovesDown, Grandparents, WellCut;
      if !manual && c.IsTrivialMove(options.maxGrandParentOverlap) {
        assert c.inputs0 == [c.inputs0[0]];
        step := TrivialMove(c.level, c.inputs0[0]);
        MoveFile(c.level, c.inputs0[0]);
      } else {
        step := RewriteInputs(c);
      }
    }

    /** DBImpl::Get: memtable, immutable memtable, then the version; the first hit answers. */
    method Get(u: UserKey, snapshot: Option<SequenceNumber>) returns (r: Option<Bytes>)
      requires Valid()
      ensures Answers(All(View()), u, if snapshot.Some? then snapshot.value else lastSequence, r)
    {
      var s := if snapshot.Some? then snapshot.value else lastSequence;
      ghost var memSet, immSet, files := Elements(mem), Elements(Imm(View())), VersionEntries(version);
      assert All(View()) == memSet + (immSet + files);
      var hit := SeekGet(mem, u, s);
      if hit.Some? {
        TopLayerDecides(memSet, immSet + files, u, s, hit.value);
        return Outcome(hit.value);
      }
      if imm.Some? {
        hit := SeekGet(imm.value, u, s);
        if hit.Some? {
          TopLayerDecides(immSet, files, u, s, hit.value);
          LowerLayerAnswers(memSet, immSet + files, u, s, Outcome(hit.value));
          return Outcome(hit.value);
        }
      }
      r := Versions.Get(version, u, s);
      LowerLayerAnswers(immSet, files, u, s, r);
      LowerLayerAnswers(memSet, immSet + files, u, s, r);
    }

    method GetSnapshot() returns (s: SequenceNumber)
      requires Valid()
      modifies this
      ensures Valid() && Takes(old(View()), TakeSnapshot, View()) && s == lastSequence && s in snapshots
    {
      s := lastSequence;
      snapshots := snapshots + [s];
      StepKeepsValid(old(View()), TakeSnapshot, View());
    }

    method ReleaseSnapshotAt(i: nat)
      requires Valid() && i < |snapshots|
      modifies this
      ensures Valid() && Takes(old(View()), ReleaseSnapshot(i), View())
    {
      snapshots := snapshots[..i] + snapshots[i + 1..];
      StepKeepsValid(old(View()), ReleaseSnapshot(i), View());
    }
  }

  /** Runs the compaction and applies its edit to the version it started from. */
  method CompactAndApply(c: Compaction, ss: SequenceNumber, first: nat, options: Options, ghost db: DB)
    returns (outs: seq<File>, next: nat, w: Version)
    requires ValidDB(db) &&
             c.Valid() && c.v == db.version && c.Unused() && ss == SmallestSnapshot(db) && first == db.nextFile
    requires ClosedInputs(c.v, c.level, c.inputs0, c.inputs1)
    requires Grandparents(c.v, c.level, c.inputs0 + c.inputs1, c.grandparents)
    modifies c.levelPtrs, c`asked, c`grandparentIndex, c`seenKey, c`overlappedBytes, c`mark
    ensures WellCut(c.grandparents, outs, options.OutputLimits())
    ensures Takes(db, Compact(c.level, c.inputs0, c.inputs1, outs), db.(version := w, nextFile := next))
    ensures ValidDB(db.(version := w, nextFile := next))
  {
    hide ValidVersion, NumbersIssued, ClosedInputs, InOrder, AddsFresh, Grandparents, Rising, WellCut;
    GrandparentsRise(c.v, c.level, c.inputs0 + c.inputs1, c.grandparents);
    outs, next := DoCompactionWork(c, ss, first, options.OutputLimits());
    CompactAddsFresh(c.v, first, c.level, c.inputs0, c.inputs1, outs);
    w := LogAndApply(c.v, CompactionEdit(c.level, c.inputs0, c.inputs1, outs));
    CompactKeepsValid(db, c.level, c.inputs0, c.inputs1, outs, db.(version := w, nextFile := next));
  }

  /** WriteBatchInternal::InsertInto. */
  method InsertInto(mem: seq<Entry>, sequence: nat, ops: seq<Op>) returns (r: seq<Entry>)
    requires sequence + |ops| <= MAX_SEQUENCE_NUMBER + 1
    ensures r == AddBatch(mem, sequence, ops)
  {
    r := mem;
    for i := 0 to |ops|
      invariant AddBatch(r, sequence + i, ops[i..]) == AddBatch(mem, sequence, ops)
    {
      assert ops[i..][1..] == ops[i + 1..];
      r := AddEntry(r, Entry(IKey(ops[i].user, sequence + i, ops[i].kind), ops[i].value));
    }
  }

  /** A picked file, on level 0 with all that its range overlaps, directly or through others. */
  method PickedInputs(level: nat, files: seq<File>, index: nat) returns (inputs: seq<File>)
    requires ValidLevel(level, files) && index < |files|
    ensures Selected(level, files, inputs) && files[index] in inputs
    ensures Picked(level, files, files[index], inputs)
  {
    hide Selected, ClosedRange, InLeastClosedRange, InRange;
    var f := files[index];
    inputs := [f];
    if level == 0 {
      ghost var lo, hi;
      assert ValidFile(f);
      FileBounds(f, f.entries[0]);
      assert Overlaps(f, Some(f.smallest.user), Some(f.largest.user));
      inputs, lo, hi := GetOverlappingInputs(0, files, Some(f.smallest.user), Some(f.largest.user));
      OverlappingIsSelected(0, files, lo, hi);
    } else {
      OneFileSelected(level, files, index);
    }
  }

  /** What PickCompaction starts from. */
  ghost predicate Picked(level: nat, files: seq<File>, f: File, chosen: seq<File>) {
    if level == 0 then InRange(0, files, Some(f.smallest.user), Some(f.largest.user), chosen) else chosen == [f]
  }

  /** A single file with nothing to merge it with one level down, and at most `limit` bytes of files two levels down
      that meet its range. */
  predicate MovesDown(v: Version, level: nat, in0: seq<File>, in1: seq<File>, limit: nat) {
    |in0| == 1 && in1 == [] &&
    (level + 2 < |v| ==>
       TotalFileSize(Overlapping(v[level + 2], Some(in0[0].smallest.user), Some(in0[0].largest.user))) <= limit)
  }

  lemma MovesDownDecided(v: Version, level: nat, in0: seq<File>, in1: seq<File>, grandparents: seq<File>, limit: nat)
    requires Grandparents(v, level, in0 + in1, grandparents)
    ensures MovesDown(v, level, in0, in1, limit) <==>
              |in0| == 1 && in1 == [] && TotalFileSize(grandparents) <= limit
  {
    if |in0| == 1 && in1 == [] && level + 2 < |v| {
      var lo, hi :| Spans(lo, hi, in0 + in1) && grandparents == Overlapping(v[level + 2], Some(lo), Some(hi));
      assert in0 + in1 == [in0[0]];
      assert lo == in0[0].smallest.user && hi == in0[0].largest.user;
    }
  }

  /** What CompactRange starts from: on level 0 the files that a range query takes; deeper, the first of them, just as
      many as reach the size limit, or all. */
  ghost predicate RangeChoice(level: nat, files: seq<File>, begin: Option<UserKey>, end: Option<UserKey>, limit: nat,
                              chosen: seq<File>)
  {
    var all := Overlapping(files, begin, end);
    if level == 0 then InRange(0, files, begin, end, chosen)
    else
      chosen != [] && chosen <= all && (chosen == all || TotalFileSize(chosen) >= limit) &&
      (|chosen| == 1 || TotalFileSize(chosen[..|chosen| - 1]) < limit)
  }

  /** The files CompactRange starts from: those that meet the range, below level 0 only up to a size. */
  method RangeInputs(level: nat, files: seq<File>, begin: Option<UserKey>, end: Option<UserKey>, limit: nat)
    returns (inputs: seq<File>)
    requires ValidLevel(level, files)
    ensures inputs == [] <==> forall f | f in files :: !Overlaps(f, begin, end)
    ensures inputs != [] ==> Selected(level, files, inputs) && RangeChoice(level, files, begin, end, limit, inputs)
  {
    hide Selected, TotalFileSize, ClosedRange, InLeastClosedRange, InRange;
    ghost var lo, hi;
    inputs, lo, hi := GetOverlappingInputs(level, files, begin, end);
    OverlappingIsSelected(level, files, lo, hi);
    WidenedNonempty(level, files, begin, end, lo, hi);
    if level > 0 && inputs != [] {
      var n := PrefixOfSize(inputs, limit);
      PrefixSelected(level, files, inputs, n);
      PrefixChosen(level, files, begin, end, limit, n);
      inputs := inputs[..n];
    }
  }

  lemma PrefixChosen(level: nat, files: seq<File>, begin: Option<UserKey>, end: Option<UserKey>, limit: nat, n: nat)
    requires level > 0 && 0 < n <= |Overlapping(files, begin, end)|
    requires var all := Overlapping(files, begin, end);
      (n < |all| ==> TotalFileSize(all[..n]) >= limit) && (TotalFileSize(all[..n - 1]) < limit || n == 1)
    ensures RangeChoice(level, files, begin, end, limit, Overlapping(files, begin, end)[..n])
  {
    var all := Overlapping(files, begin, end);
    assert all[..n][..n - 1] == all[..n - 1];
  }

  /** How many of the files CompactRange takes: enough to reach the size limit, or all. */
  method PrefixOfSize(inputs: seq<File>, limit: nat) returns (n: nat)
    requires inputs != []
    ensures 0 < n <= |inputs|
    ensures n < |inputs| ==> TotalFileSize(inputs[..n]) >= limit
    ensures TotalFileSize(inputs[..n - 1]) < limit || n == 1
  {
    var total := 0;
    n := 0;
    while n < |inputs|
      invariant n <= |inputs| && total == TotalFileSize(inputs[..n]) && (n > 0 ==> total < limit)
    {
      TotalOfPrefix(inputs, n);
      total := total + inputs[n].size;
      n := n + 1;
      if total >= limit {
        assert inputs[..n - 1] == inputs[..n][..n - 1];
        return;
      }
    }
    TotalOfPrefix(inputs, n - 1);
  }

  // ------------------------------------------------------------------ lemmas for the methods

  lemma EmptyVersionValid()
    ensures ValidVersion(NO_FILES) && VersionEntries(NO_FILES) == {} && NumbersIssued(NO_FILES, 2)
  {
    assert forall l | 0 <= l < NUM_LEVELS :: NO_FILES[l] == [] && LevelEntries(NO_FILES[l]) == {};
    assert VersionEntries(NO_FILES) == {};
  }

  lemma TopLayerDecides(top: set<Entry>, below: set<Entry>, u: UserKey, s: SequenceNumber, e: Entry)
    requires Newer(top, below) && IsNewest(top, u, s, e)
    ensures Answers(top + below, u, s, Outcome(e))
  {
    assert IsNewest(top + below, u, s, e);
  }

  lemma LowerLayerAnswers(top: set<Entry>, below: set<Entry>, u: UserKey, s: SequenceNumber, r: Option<Bytes>)
    requires NoneVisible(top, u, s) && Answers(below, u, s, r)
    ensures Answers(top + below, u, s, r)
  {
    if e :| IsNewest(below, u, s, e) && r == Outcome(e) {
      assert IsNewest(top + below, u, s, e);
    }
  }

  lemma FlushAddsFresh(v: Version, next: nat, level: nat, f: File)
    requires ValidVersion(v) && NumbersIssued(v, next) && level < NUM_LEVELS && f.number == next
    ensures (forall l | 0 <= l < NUM_LEVELS :: InOrder(v[l])) && AddsFresh(v, FlushEdit(level, f))
  {
    LevelsInOrder(v);
    forall l: nat | l < NUM_LEVELS
      ensures NumbersName(AddedFiles(FlushEdit(level, f), l))
      ensures NumbersOf(AddedFiles(FlushEdit(level, f), l)) !! NumbersOf(FilesOf(v[l]))
    {
      assert AddedFiles(FlushEdit(level, f), l) <= {f};
    }
  }

  lemma LevelsInOrder(v: Version)
    requires ValidVersion(v)
    ensures forall l | 0 <= l < NUM_LEVELS :: InOrder(v[l])
  {
    forall l: nat | l < NUM_LEVELS
      ensures InOrder(v[l])
    {
      assert ValidLevel(l, v[l]);
    }
  }

  lemma EditAddsFresh(v: Version, level: nat, in0: seq<File>, in1: seq<File>, outs: seq<File>)
    requires ValidVersion(v) && level + 1 < NUM_LEVELS && NumbersName(FilesOf(outs)) && FreshNumbers(v[level + 1], outs)
    ensures |v| == NUM_LEVELS && (forall l | 0 <= l < NUM_LEVELS :: InOrder(v[l]))
    ensures AddsFresh(v, CompactionEdit(level, in0, in1, outs))
  {
    LevelsInOrder(v);
    forall l: nat | l < NUM_LEVELS
      ensures NumbersName(AddedFiles(CompactionEdit(level, in0, in1, outs), l))
      ensures NumbersOf(AddedFiles(CompactionEdit(level, in0, in1, outs), l)) !! NumbersOf(FilesOf(v[l]))
    {
      CompactionAdds(level, in0, in1, outs, l);
    }
  }

  lemma MoveAddsFresh(v: Version, next: nat, level: nat, f: File)
    requires ValidVersion(v) && NumbersIssued(v, next) && ClosedInputs(v, level, [f], [])
    ensures (forall l | 0 <= l < NUM_LEVELS :: InOrder(v[l])) && AddsFresh(v, CompactionEdit(level, [f], [], [f]))
  {
    assert f in [f] && f in v[level];
    MovedFileFresh(v, next, level, f);
    EditAddsFresh(v, level, [f], [], [f]);
  }

  lemma CompactAddsFresh(v: Version, next: nat, level: nat, in0: seq<File>, in1: seq<File>, outs: seq<File>)
    requires ValidVersion(v) && NumbersIssued(v, next) && level + 1 < NUM_LEVELS && Numbered(outs, next)
    ensures |v| == NUM_LEVELS && (forall l | 0 <= l < NUM_LEVELS :: InOrder(v[l]))
    ensures AddsFresh(v, CompactionEdit(level, in0, in1, outs))
  {
    IssuedNumbersFresh(v, next, level + 1, outs);
    EditAddsFresh(v, level, in0, in1, outs);
  }

  lemma OneFileSelected(level: nat, files: seq<File>, index: nat)
    requires level > 0 && ValidLevel(level, files) && index < |files|
    ensures Selected(level, files, [files[index]])
  {
    forall g | g in files && g != files[index]
      ensures Less(g.largest, files[index].smallest) || Less(files[index].largest, g.smallest)
    {
      var j :| 0 <= j < |files| && files[j] == g;
    }
  }

  lemma {:induction false} NoneOverlapping(files: seq<File>, lo: Option<UserKey>, hi: Option<UserKey>)
    requires forall f | f in files :: !Overlaps(f, lo, hi)
    ensures Overlapping(files, lo, hi) == []
  {
    if files != [] {
      assert files[|files| - 1] in files;
      NoneOverlapping(files[..|files| - 1], lo, hi);
    }
  }

  /** The least closed range meets no file exactly when the range asked for meets none. */
  lemma WidenedNonempty(level: nat, files: seq<File>, begin: Option<UserKey>, end: Option<UserKey>,
                        lo: Option<UserKey>, hi: Option<UserKey>)
    requires ValidFiles(files) && (level > 0 ==> lo == begin && hi == end)
    requires level == 0 ==> InLeastClosedRange(files, begin, end, lo, hi)
    ensures Overlapping(files, lo, hi) == [] <==> forall f | f in files :: !Overlaps(f, begin, end)
  {
    if f :| f in files && Overlaps(f, begin, end) {
      assert Overlaps(f, lo, hi) && f in Overlapping(files, lo, hi);
    } else {
      if level == 0 {
        assert ClosedRange(files, begin, end) && Contains(begin, end, begin, end);
        assert Contains(begin, end, lo, hi);
      }
      NoneOverlapping(files, lo, hi);
    }
  }

  /** Compacting only the first few of the overlapping files is still a convex choice. */
  lemma PrefixSelected(level: nat, files: seq<File>, inputs: seq<File>, n: nat)
    requires level > 0 && ValidLevel(level, files) && Selected(level, files, inputs) && 0 < n <= |inputs|
    ensures Selected(level, files, inputs[..n])
  {
    var ins := inputs[..n];
    forall g | g in files && g !in ins
      ensures (forall f | f in ins :: Less(g.largest, f.smallest)) ||
              (forall f | f in ins :: Less(f.largest, g.smallest))
    {
      if g in inputs {
        assert forall k | 0 <= k < n :: inputs[k] == ins[k] && ins[k] in ins;
        var j :| 0 <= j < |inputs| && inputs[j] == g;
        forall f | f in ins
          ensures Less(f.largest, g.smallest)
        {
          var i :| 0 <= i < |ins| && ins[i] == f;
          assert inputs[i] == f;
        }
      }
    }
  }
}
