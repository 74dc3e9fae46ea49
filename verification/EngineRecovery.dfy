// Recovery of any run of the engine: what it logs adds no (level, file number) pair twice, so the manifest rebuilds its
// last version (db/version_set.cc, db/db_impl.cc).

module EngineRecovery {
  import opened Keys
  import opened Versions
  import opened Builders
  import opened Manifests
  import opened CompactionSafety
  import opened CompactionRun
  import opened Flushes
  import opened Engine

  /** The edit that a step passes to LogAndApply, if it does. */
  function EditOf(db: DB, step: Step): Option<VersionEdit> {
    match step
    case Flush(level, size) =>
      if db.imm.None? || db.imm.value == [] then None
      else Some(FlushEdit(level, FileOf(db.nextFile, size, db.imm.value)))
    case TrivialMove(level, f) => Some(CompactionEdit(level, [f], [], [f]))
    case Compact(level, in0, in1, outs) => Some(CompactionEdit(level, in0, in1, outs))
    case _ => None
  }

  /** What a run appends to the manifest. */
  function Logged(states: seq<DB>, steps: seq<Step>): seq<VersionEdit>
    requires |states| == |steps| + 1
    decreases steps
  {
    if steps == [] then []
    else
      var e := EditOf(states[0], steps[0]);
      (if e.Some? then [e.value] else []) + Logged(states[1..], steps[1..])
  }

  lemma EditInstalled(db: DB, step: Step, db2: DB)
    requires ValidDB(db) && Takes(db, step, db2)
    ensures EditOf(db, step).Some? ==> Installed(db.version, EditOf(db, step).value, db2.version)
    ensures EditOf(db, step).None? ==> db2.version == db.version
  {
  }

  /** Numbers once added to level `l` are old, and no file above that level has one of them. */
  ghost predicate Spent(used: set<nat>, v: Version, next: nat, l: nat) {
    (forall n | n in used :: n < next) &&
    forall m, f | 0 <= m < l && m < |v| && f in v[m] :: f.number !in used
  }

  /** A file that is added to level `l` is new, or comes from a level above. */
  ghost predicate AddsUnspent(v: Version, next: nat, edit: VersionEdit, l: nat) {
    NumbersName(AddedFiles(edit, l)) &&
    forall f | f in AddedFiles(edit, l) :: f.number >= next || exists m :: 0 <= m < l && m < |v| && f in v[m]
  }

  lemma FlushUnspent(v: Version, next: nat, level: nat, f: File, l: nat)
    requires f.number >= next
    ensures AddsUnspent(v, next, FlushEdit(level, f), l)
  {
    assert forall g | g in AddedFiles(FlushEdit(level, f), l) :: g == f;
  }

  lemma CompactionUnspent(v: Version, next: nat, level: nat, in0: seq<File>, in1: seq<File>, outs: seq<File>, l: nat)
    requires Numbered(outs, next)
    ensures AddsUnspent(v, next, CompactionEdit(level, in0, in1, outs), l)
  {
    CompactionAdds(level, in0, in1, outs, l);
  }

  lemma MoveUnspent(v: Version, next: nat, level: nat, f: File, l: nat)
    requires level < |v| && f in v[level]
    ensures AddsUnspent(v, next, CompactionEdit(level, [f], [], [f]), l)
  {
    CompactionAdds(level, [f], [], [f], l);
  }

  lemma StepUnspent(db: DB, step: Step, db2: DB, l: nat)
    requires ValidDB(db) && Takes(db, step, db2) && EditOf(db, step).Some?
    ensures AddsUnspent(db.version, db.nextFile, EditOf(db, step).value, l)
  {
    match step
    case Flush(level, size) => FlushUnspent(db.version, db.nextFile, level, FileOf(db.nextFile, size, db.imm.value), l);
    case TrivialMove(level, f) =>
      assert f in [f];
      MoveUnspent(db.version, db.nextFile, level, f, l);
    case Compact(level, in0, in1, outs) => CompactionUnspent(db.version, db.nextFile, level, in0, in1, outs, l);
  }

  /** The file numbers of a level after an edit are those before it and those added. */
  lemma FilesAfter(v: Version, edit: VersionEdit, w: Version, m: nat, f: File)
    requires Installed(v, edit, w) && m < NUM_LEVELS && f in w[m]
    ensures f in v[m] || f in AddedFiles(edit, m)
  {
    assert f in FilesOf(w[m]);
  }

  lemma AddedIsThere(v: Version, edit: VersionEdit, w: Version, l: nat, f: File)
    requires Installed(v, edit, w) && l < NUM_LEVELS && f in AddedFiles(edit, l)
    ensures f in w[l]
  {
    assert f in FilesOf(w[l]);
  }

  /** An edit spends the numbers it adds to a level. */
  lemma EditSpends(v: Version, next: nat, edit: VersionEdit, w: Version, next2: nat, used: set<nat>, l: nat)
    requires Installed(v, edit, w) && l < NUM_LEVELS && NumbersIssued(w, next2) && next <= next2
    requires Spent(used, v, next, l) && forall m: nat | m <= l :: AddsUnspent(v, next, edit, m)
    ensures NumbersOf(AddedFiles(edit, l)) !! used
    ensures Spent(used + NumbersOf(AddedFiles(edit, l)), w, next2, l)
  {
    assert AddsUnspent(v, next, edit, l);
    forall f | f in AddedFiles(edit, l)
      ensures f.number !in used && f.number < next2
    {
      AddedIsThere(v, edit, w, l, f);
    }
    forall m: nat, f | m < l && f in w[m]
      ensures f.number !in used + NumbersOf(AddedFiles(edit, l))
    {
      FilesAfter(v, edit, w, m, f);
      assert AddsUnspent(v, next, edit, m);
      forall g | g in AddedFiles(edit, l)
        ensures g.number != f.number
      {
        AddedIsThere(v, edit, w, l, g);
      }
    }
  }

  lemma StepIssues(db: DB, step: Step, db2: DB)
    requires ValidDB(db) && Takes(db, step, db2)
    ensures NumbersIssued(db2.version, db2.nextFile) && db.nextFile <= db2.nextFile
  {
    StepKeepsValid(db, step, db2);
  }

  lemma StepSpends(db: DB, step: Step, db2: DB, edit: VersionEdit, used: set<nat>, l: nat)
    requires ValidDB(db) && Takes(db, step, db2) && l < NUM_LEVELS && Spent(used, db.version, db.nextFile, l)
    requires EditOf(db, step) == Some(edit)
    ensures NumbersName(AddedFiles(edit, l)) && NumbersOf(AddedFiles(edit, l)) !! used
    ensures Spent(used + NumbersOf(AddedFiles(edit, l)), db2.version, db2.nextFile, l)
  {
    StepIssues(db, step, db2);
    EditInstalled(db, step, db2);
    forall m: nat
      ensures AddsUnspent(db.version, db.nextFile, edit, m)
    {
      StepUnspent(db, step, db2, m);
    }
    EditSpends(db.version, db.nextFile, edit, db2.version, db2.nextFile, used, l);
    assert AddsUnspent(db.version, db.nextFile, edit, l);
  }

  lemma StillSpent(db: DB, step: Step, db2: DB, used: set<nat>, l: nat)
    requires ValidDB(db) && Takes(db, step, db2) && Spent(used, db.version, db.nextFile, l) && EditOf(db, step).None?
    ensures Spent(used, db2.version, db2.nextFile, l)
  {
    StepIssues(db, step, db2);
    EditInstalled(db, step, db2);
  }

  lemma RestOfRun(states: seq<DB>, steps: seq<Step>)
    requires IsRun(states, steps) && ValidDB(states[0]) && steps != []
    ensures Takes(states[0], steps[0], states[1]) && IsRun(states[1..], steps[1..]) && ValidDB(states[1])
    ensures states[1..][0] == states[1] && states[1..][|steps| - 1] == states[|steps|]
  {
    forall i | 0 <= i < |steps[1..]|
      ensures Takes(states[1..][i], steps[1..][i], states[1..][i + 1])
    {
      assert Takes(states[i + 1], steps[i + 1], states[i + 2]);
    }
    StepKeepsValid(states[0], steps[0], states[1]);
  }

  /** What a run logs adds no pair of level and file number twice, nor one of those spent before. */
  lemma {:induction false} RunAddsOnce(states: seq<DB>, steps: seq<Step>, used: set<nat>, l: nat)
    requires IsRun(states, steps) && ValidDB(states[0]) && l < NUM_LEVELS
    requires Spent(used, states[0].version, states[0].nextFile, l)
    ensures AddedOnce(used, Logged(states, steps), l)
    decreases steps
  {
    if steps != [] {
      RestOfRun(states, steps);
      var e := EditOf(states[0], steps[0]);
      var rest := Logged(states[1..], steps[1..]);
      if e.Some? {
        StepSpends(states[0], steps[0], states[1], e.value, used, l);
        RunAddsOnce(states[1..], steps[1..], used + NumbersOf(AddedFiles(e.value, l)), l);
        assert ([e.value] + rest)[1..] == rest;
      } else {
        StillSpent(states[0], steps[0], states[1], used, l);
        RunAddsOnce(states[1..], steps[1..], used, l);
        assert [] + rest == rest;
      }
    }
  }

  /** Replaying what a run logs gives the files of its last version. */
  lemma {:induction false} RunReplays(states: seq<DB>, steps: seq<Step>, l: nat)
    requires IsRun(states, steps) && ValidDB(states[0]) && l < NUM_LEVELS
    ensures |states[|steps|].version| == NUM_LEVELS
    ensures Replay(FilesOf(states[0].version[l]), Logged(states, steps), l) == FilesOf(states[|steps|].version[l])
    decreases steps
  {
    if steps != [] {
      RestOfRun(states, steps);
      EditInstalled(states[0], steps[0], states[1]);
      RunReplays(states[1..], steps[1..], l);
      var e := EditOf(states[0], steps[0]);
      var rest := Logged(states[1..], steps[1..]);
      if e.Some? {
        assert ([e.value] + rest)[1..] == rest;
      } else {
        assert [] + rest == rest;
      }
    }
  }

  lemma EditLevels(db: DB, step: Step, db2: DB)
    requires ValidDB(db) && Takes(db, step, db2) && EditOf(db, step).Some?
    ensures LevelsInRange(EditOf(db, step).value)
  {
  }

  lemma {:induction false} LoggedLevels(states: seq<DB>, steps: seq<Step>)
    requires IsRun(states, steps) && ValidDB(states[0])
    ensures forall e | e in Logged(states, steps) :: LevelsInRange(e)
    decreases steps
  {
    if steps != [] {
      RestOfRun(states, steps);
      LoggedLevels(states[1..], steps[1..]);
      if EditOf(states[0], steps[0]).Some? {
        EditLevels(states[0], steps[0], states[1]);
      }
    }
  }

  /** The numbers of the first version's files are spent once its snapshot record is written. */
  lemma SnapshotSpends(db: DB, snapshot: VersionEdit, l: nat)
    requires ValidDB(db) && IsSnapshot(snapshot, db.version) && l < NUM_LEVELS
    ensures NumbersName(AddedFiles(snapshot, l))
    ensures Spent(NumbersOf(AddedFiles(snapshot, l)), db.version, db.nextFile, l)
  {
    var files := db.version[l];
    assert ValidLevel(l, files);
    forall f, g | f in FilesOf(files) && g in FilesOf(files) && f.number == g.number
      ensures f == g
    {
      NumberIdentifies(files, f, g);
    }
  }

  /** The histories of the engine meet the condition of recovery. */
  lemma {:induction false} HistoryAddsOnce(states: seq<DB>, steps: seq<Step>, snapshot: VersionEdit, l: nat)
    requires IsRun(states, steps) && ValidDB(states[0]) && IsSnapshot(snapshot, states[0].version) && l < NUM_LEVELS
    ensures AddedOnce({}, [snapshot] + Logged(states, steps), l)
  {
    SnapshotSpends(states[0], snapshot, l);
    RunAddsOnce(states, steps, NumbersOf(AddedFiles(snapshot, l)), l);
    assert {} + NumbersOf(AddedFiles(snapshot, l)) == NumbersOf(AddedFiles(snapshot, l));
    assert ([snapshot] + Logged(states, steps))[1..] == Logged(states, steps);
  }

  /** After any run from a valid state, recovering from the snapshot record of its first version and what was logged
      since rebuilds the last version. */
  method RecoverRun(edits: seq<VersionEdit>, ghost snapshot: VersionEdit, ghost states: seq<DB>, ghost steps: seq<Step>)
    returns (v: Version)
    requires IsRun(states, steps) && ValidDB(states[0])
    requires IsSnapshot(snapshot, states[0].version) && LevelsInRange(snapshot)
    requires edits == [snapshot] + Logged(states, steps)
    ensures v == states[|steps|].version
  {
    LoggedLevels(states, steps);
    forall l: nat | l < NUM_LEVELS
      ensures AddedOnce({}, edits, l)
    {
      HistoryAddsOnce(states, steps, snapshot, l);
    }
    v := Recover(edits);
    RunKeepsValid(states, steps, |steps|);
    forall l: nat | l < NUM_LEVELS
      ensures v[l] == states[|steps|].version[l]
    {
      SameLevel(edits, snapshot, states, steps, v[l], l);
    }
  }

  lemma {:induction false} SameLevel(edits: seq<VersionEdit>, snapshot: VersionEdit, states: seq<DB>, steps: seq<Step>,
                                     files: seq<File>, l: nat)
    requires IsRun(states, steps) && ValidDB(states[0]) && IsSnapshot(snapshot, states[0].version) && l < NUM_LEVELS
    requires edits == [snapshot] + Logged(states, steps) && InOrder(files) && FilesOf(files) == Replay({}, edits, l)
    requires ValidDB(states[|steps|])
    ensures files == states[|steps|].version[l]
  {
    RunReplays(states, steps, l);
    assert edits[1..] == Logged(states, steps);
    assert AfterEdit({}, snapshot, l) == FilesOf(states[0].version[l]);
    assert ValidLevel(l, states[|steps|].version[l]);
    OrderDetermines(files, states[|steps|].version[l]);
  }
}
