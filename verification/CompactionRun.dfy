// DoCompactionWork: merging the inputs, dropping what no reader needs, and cutting the rest into
// output files (db/db_impl.cc, VersionSet::MakeInputIterator in db/version_set.cc).

module CompactionRun {
  import opened Keys
  import opened Reads
  import opened Versions
  import opened Inputs
  import opened Cursors
  import MergingIterators
  import opened DropRule
  import opened Compactions
  import opened OutputCuts
  import opened CompactionSafety

  // ------------------------------------------------------------------ MakeInputIterator

  type MergingIterator = MergingIterators.MergingIterator

  /** What a concatenating iterator over a level's files yields. */
  function Concat(files: seq<File>): (r: seq<Entry>)
    ensures forall e :: e in r <==> e in LevelEntries(files)
  {
    if files == [] then []
    else
      assert forall f :: f in files <==> f == files[0] || f in files[1..];
      files[0].entries + Concat(files[1..])
  }

  lemma FirstBeforeRest(files: seq<File>)
    requires files != [] && ValidFiles(files) && Disjoint(files)
    ensures forall x, y | x in files[0].entries && y in Concat(files[1..]) :: Less(x.key, y.key)
  {
    assert files[0] in files;
    forall x, y | x in files[0].entries && y in Concat(files[1..])
      ensures Less(x.key, y.key)
    {
      var f :| f in files[1..] && y in f.entries;
      var j :| 0 <= j < |files[1..]| && files[1..][j] == f;
      assert files[j + 1] == f;
      FileBounds(files[0], x);
      FileBounds(f, y);
    }
  }

  lemma {:induction false} ConcatSorted(files: seq<File>)
    requires ValidFiles(files) && Disjoint(files)
    ensures Sorted(Concat(files))
  {
    if files != [] {
      assert files[0] in files;
      var a, b := files[0].entries, Concat(files[1..]);
      assert ValidFiles(files[1..]) && Disjoint(files[1..]);
      ConcatSorted(files[1..]);
      FirstBeforeRest(files);
      AppendSorted(a, b);
    }
  }

  lemma AppendSorted(a: seq<Entry>, b: seq<Entry>)
    requires Sorted(a) && Sorted(b) && forall x, y | x in a && y in b :: Less(x.key, y.key)
    ensures Sorted(a + b)
  {
  }

  lemma NewerKeysApart(a: seq<Entry>, b: seq<Entry>)
    requires Newer(Elements(a), Elements(b)) || Newer(Elements(b), Elements(a))
    ensures KeysApart(a, b)
  {
    forall x, y | x in a && y in b
      ensures x.key != y.key
    {
      assert x in Elements(a) && y in Elements(b);
    }
  }

  lemma Level0KeysApart(files: seq<File>, f: File, g: File)
    requires NumberOrder(files) && f in files && g in files && f.number != g.number
    ensures KeysApart(f.entries, g.entries)
  {
    assert if f.number > g.number then Newer(Elements(f.entries), Elements(g.entries))
           else Newer(Elements(g.entries), Elements(f.entries));
    NewerKeysApart(f.entries, g.entries);
  }

  lemma LevelKeysApart(v: Version, level: nat, a: seq<Entry>, b: seq<Entry>)
    requires LevelOrder(v) && level + 1 < |v|
    requires Elements(a) <= LevelEntries(v[level]) && Elements(b) <= LevelEntries(v[level + 1])
    ensures KeysApart(a, b)
  {
    assert Newer(LevelEntries(v[level]), LevelEntries(v[level + 1]));
    NewerKeysApart(a, b);
  }

  /** The entries of the runs, taken together. */
  ghost predicate RunsHold(runs: seq<seq<Entry>>, es: set<Entry>) {
    (forall e :: (exists i :: 0 <= i < |runs| && e in runs[i]) <==> e in es) &&
    forall i | 0 <= i < |runs| :: Elements(runs[i]) <= es
  }

  /** The input level: each level-0 file is a run by itself, a deeper level is one run. */
  method UpperRuns(level: nat, files: seq<File>, in0: seq<File>) returns (runs: seq<seq<Entry>>)
    requires ValidLevel(level, files) && Subset(in0, files) && DistinctNumbers(in0)
    requires level > 0 ==> Disjoint(in0)
    ensures RunsApart(runs) && RunsHold(runs, LevelEntries(in0))
  {
    runs := [];
    if level == 0 {
      for i := 0 to |in0|
        invariant |runs| == i && forall j | 0 <= j < i :: runs[j] == in0[j].entries
      {
        runs := runs + [in0[i].entries];
      }
      forall i | 0 <= i < |runs|
        ensures Sorted(runs[i])
      {
        assert in0[i] in in0 && ValidFile(in0[i]);
      }
      forall i, j | 0 <= i < j < |runs|
        ensures KeysApart(runs[i], runs[j])
      {
        Level0KeysApart(files, in0[i], in0[j]);
      }
    } else {
      runs := [Concat(in0)];
      ConcatSorted(in0);
    }
    FileRuns(level, in0, runs);
  }

  /** The runs the input iterator merges. */
  method InputRuns(c: Compaction) returns (runs: seq<seq<Entry>>)
    requires c.Valid() && ClosedInputs(c.v, c.level, c.inputs0, c.inputs1)
    ensures RunsApart(runs) && RunsHold(runs, Ins(c.inputs0, c.inputs1))
  {
    InputLevelsValid(c.v, c.level, c.inputs0, c.inputs1);
    runs := UpperRuns(c.level, c.v[c.level], c.inputs0);
    if c.inputs1 != [] {
      LowerRunApart(c.v, c.level, c.inputs0, c.inputs1, runs);
      runs := runs + [Concat(c.inputs1)];
    } else {
      assert Ins(c.inputs0, c.inputs1) == LevelEntries(c.inputs0);
    }
  }

  lemma InputLevelsValid(v: Version, level: nat, in0: seq<File>, in1: seq<File>)
    requires ValidVersion(v) && ClosedInputs(v, level, in0, in1)
    ensures ValidLevel(level, v[level]) && Sorted(Concat(in1))
  {
    assert ValidLevel(level + 1, v[level + 1]);
    OverlappingDisjoint(v, level, in0, in1);
    ConcatSorted(in1);
  }

  lemma LowerRunApart(v: Version, level: nat, in0: seq<File>, in1: seq<File>, runs: seq<seq<Entry>>)
    requires LevelOrder(v) && level + 1 < |v| && Subset(in0, v[level]) && Subset(in1, v[level + 1])
    requires RunsApart(runs) && RunsHold(runs, LevelEntries(in0)) && Sorted(Concat(in1))
    ensures RunsApart(runs + [Concat(in1)]) && RunsHold(runs + [Concat(in1)], Ins(in0, in1))
  {
    InLevel(v[level], in0);
    InLevel(v[level + 1], in1);
    forall i | 0 <= i < |runs|
      ensures KeysApart(runs[i], Concat(in1))
    {
      LevelKeysApart(v, level, runs[i], Concat(in1));
    }
    AddRun(runs, LevelEntries(in0), Concat(in1));
  }

  lemma FileRuns(level: nat, in0: seq<File>, runs: seq<seq<Entry>>)
    requires level == 0 ==> |runs| == |in0| && forall j | 0 <= j < |in0| :: runs[j] == in0[j].entries
    requires level > 0 ==> runs == [Concat(in0)]
    ensures RunsHold(runs, LevelEntries(in0))
  {
    forall e | e in LevelEntries(in0)
      ensures exists i :: 0 <= i < |runs| && e in runs[i]
    {
      if level == 0 {
        var f :| f in in0 && e in f.entries;
        var i :| 0 <= i < |in0| && in0[i] == f;
        assert e in runs[i];
      } else {
        assert e in runs[0];
      }
    }
    forall i, e | 0 <= i < |runs| && e in runs[i]
      ensures e in LevelEntries(in0)
    {
      if level == 0 {
        assert in0[i] in in0;
      }
    }
  }

  lemma AddRun(runs: seq<seq<Entry>>, es: set<Entry>, run: seq<Entry>)
    requires RunsHold(runs, es)
    ensures RunsHold(runs + [run], es + Elements(run))
  {
    forall e | e in es || e in run
      ensures exists i :: 0 <= i < |runs + [run]| && e in (runs + [run])[i]
    {
      if e in run {
        assert e in (runs + [run])[|runs|];
      } else {
        var i :| 0 <= i < |runs| && e in runs[i];
        assert e in (runs + [run])[i];
      }
    }
  }

  lemma InLevel(files: seq<File>, ins: seq<File>)
    requires Subset(ins, files)
    ensures LevelEntries(ins) <= LevelEntries(files)
  {
  }

  lemma OverlappingDisjoint(v: Version, level: nat, in0: seq<File>, in1: seq<File>)
    requires ClosedInputs(v, level, in0, in1) && ValidLevel(level + 1, v[level + 1])
    ensures ValidFiles(in1) && Disjoint(in1) && Subset(in1, v[level + 1])
  {
    var lo, hi :| Covers(lo, hi, in0) && in1 == Overlapping(v[level + 1], Some(lo), Some(hi));
    OverlappingInOrder(v[level + 1], Some(lo), Some(hi));
  }

  /** The merging iterator over the inputs. */
  method MakeInputIterator(c: Compaction) returns (input: MergingIterator)
    requires c.Valid() && ClosedInputs(c.v, c.level, c.inputs0, c.inputs1)
    ensures fresh(input) && fresh(input.children) && input.Ok()
    ensures Elements(input.merged) == Ins(c.inputs0, c.inputs1)
  {
    var runs := InputRuns(c);
    input := MergingIterators.NewMergingIterator(runs);
  }

  // ------------------------------------------------------------------ DoCompactionWork

  /** The finished files, the entries of the file being written, and what is still to come. */
  ghost predicate Written(outputs: seq<File>, builder: seq<Entry>, rest: seq<Entry>) {
    ValidFiles(outputs) && Disjoint(outputs) && Sorted(builder) && Sorted(rest) &&
    (forall f, e | f in outputs && e in builder :: Less(f.largest, e.key)) &&
    (forall f, e | f in outputs && e in rest :: Less(f.largest, e.key)) &&
    forall e, x | e in builder && x in rest :: Less(e.key, x.key)
  }

  lemma WriteEntry(outputs: seq<File>, builder: seq<Entry>, rest: seq<Entry>)
    requires Written(outputs, builder, rest) && rest != []
    ensures Written(outputs, builder, rest[1..])
    ensures Written(outputs, builder + [rest[0]], rest[1..])
  {
    forall e | e in rest[1..]
      ensures Less(rest[0].key, e.key)
    {
    }
  }

  /** The open file joins the finished ones. */
  lemma FinishWritten(outputs: seq<File>, number: nat, builder: seq<Entry>, rest: seq<Entry>, l: Limits)
    requires Written(outputs, builder, rest) && builder != []
    ensures Written(outputs + [FileFrom(number, builder, l)], [], rest)
    ensures LevelEntries(outputs + [FileFrom(number, builder, l)]) == LevelEntries(outputs) + Elements(builder)
  {
    var f := FileFrom(number, builder, l);
    var all := outputs + [f];
    assert ValidFile(f);
    forall g | g in all
      ensures g in outputs || g == f
    {
    }
    forall i | 0 <= i < |outputs|
      ensures Less(all[i].largest, f.smallest)
    {
      assert outputs[i] in outputs && builder[0] in builder;
    }
    assert f in all && forall g | g in outputs :: g in all;
  }

  /** Consecutive numbers starting at `first`. */
  predicate Numbered(outputs: seq<File>, first: nat) {
    forall i | 0 <= i < |outputs| :: outputs[i].number == first + i
  }

  /** The test on the previous sequence number decides rule (A). */
  lemma HiddenByPrevious(data: seq<Entry>, i: nat, ss: SequenceNumber)
    requires Sorted(data) && Unique(Elements(data)) && i < |data|
    ensures Hidden(Elements(data), data[i], ss) <==>
            i > 0 && data[i - 1].key.user == data[i].key.user && data[i - 1].key.sequence <= ss
  {
    var e := data[i];
    if Hidden(Elements(data), e, ss) {
      var x :| x in Elements(data) && x.key.user == e.key.user && x.key.sequence > e.key.sequence &&
               x.key.sequence <= ss;
      var j :| 0 <= j < |data| && data[j] == x;
      assert j < i;
      assert j == i - 1 || Less(data[j].key, data[i - 1].key);
      assert Less(data[i - 1].key, data[i].key);
    }
  }

  /** The entries among the first `i` that the drop rule keeps. */
  ghost function KeptSoFar(data: seq<Entry>, i: nat, ss: SequenceNumber, base: set<UserKey>): set<Entry>
    requires i <= |data|
  {
    Kept(Elements(data), ss, base) * Elements(data[..i])
  }

  lemma KeptStep(data: seq<Entry>, i: nat, ss: SequenceNumber, base: set<UserKey>)
    requires i < |data|
    ensures KeptSoFar(data, i + 1, ss, base) == KeptSoFar(data, i, ss, base) +
            if Hidden(Elements(data), data[i], ss) || Obsolete(data[i], ss, base) then {} else {data[i]}
  {
    assert data[..i + 1] == data[..i] + [data[i]];
  }

  /** DBImpl::CompactionState: the finished files, the entries of the open one and its number, and the
      next file number the version set would hand out. */
  datatype CompactionState = CompactionState(outputs: seq<File>, builder: seq<Entry>, number: nat, nextNumber: nat)

  /** After `pos` input entries: what has been written is what the drop rule keeps of them, in order,
      in numbered files. */
  ghost predicate Progress(data: seq<Entry>, pos: nat, kept: set<Entry>, st: CompactionState, first: nat) {
    pos <= |data| && Written(st.outputs, st.builder, data[pos..]) &&
    LevelEntries(st.outputs) + Elements(st.builder) == kept && Numbered(st.outputs, first) &&
    st.nextNumber == first + |st.outputs| + (if st.builder == [] then 0 else 1) &&
    (st.builder != [] ==> st.number == first + |st.outputs|)
  }

  /** What FinishCompactionOutputFile does. */
  function Finished(st: CompactionState, l: Limits): CompactionState
    requires st.builder != []
  {
    st.(outputs := st.outputs + [FileFrom(st.number, st.builder, l)], builder := [])
  }

  method FinishCompactionOutputFile(st: CompactionState, l: Limits,
                                    ghost data: seq<Entry>, ghost pos: nat, ghost kept: set<Entry>, ghost first: nat)
    returns (finished: CompactionState)
    requires Progress(data, pos, kept, st, first) && st.builder != []
    ensures Progress(data, pos, kept, finished, first) && finished == Finished(st, l)
  {
    FinishWritten(st.outputs, st.number, st.builder, data[pos..], l);
    finished := st.(outputs := st.outputs + [FileFrom(st.number, st.builder, l)], builder := []);
  }

  /** The entry is in the open file, or in the last one, which was big enough with it. */
  ghost predicate Added(st: CompactionState, e: Entry, l: Limits, added: CompactionState) {
    var more := st.builder + [e];
    if l.sizeOf(more) < l.size then added.outputs == st.outputs && added.builder == more
    else added.builder == [] && exists number :: added.outputs == st.outputs + [FileFrom(number, more, l)]
  }

  /** Adds an entry to the open output file, opening one if necessary and closing it when big enough. */
  method AddToOutput(st: CompactionState, e: Entry, l: Limits,
                     ghost data: seq<Entry>, ghost pos: nat, ghost kept: set<Entry>, ghost first: nat)
    returns (added: CompactionState)
    requires Progress(data, pos, kept, st, first) && pos < |data| && e == data[pos]
    ensures Progress(data, pos + 1, kept + {e}, added, first) && Added(st, e, l, added)
  {
    WriteEntry(st.outputs, st.builder, data[pos..]);
    assert data[pos..][1..] == data[pos + 1..];
    assert Elements(st.builder + [e]) == Elements(st.builder) + {e};
    added := st;
    if added.builder == [] {
      added := added.(number := added.nextNumber, nextNumber := added.nextNumber + 1);
    }
    added := added.(builder := added.builder + [e]);
    if l.sizeOf(added.builder) >= l.size {
      added := FinishCompactionOutputFile(added, l, data, pos + 1, kept + {e}, first);
    }
  }

  /** A file that is open when the test says stop is finished. */
  ghost predicate Stopped(st: CompactionState, stop: bool, l: Limits, next: CompactionState) {
    next.builder == (if stop then [] else st.builder) &&
    next.outputs ==
    st.outputs + if stop && st.builder != [] then [FileFrom(st.number, st.builder, l)] else []
  }

  /** Once the test was asked, the entry is added unless it is dropped. */
  ghost predicate Stepped(st: CompactionState, stop: bool, drop: bool, e: Entry, l: Limits, next: CompactionState) {
    exists st1 :: Stopped(st, stop, l, st1) && if drop then next == st1 else Added(st1, e, l, next)
  }

  /** What one input entry does to the output. */
  method WriteStep(st: CompactionState, stop: bool, drop: bool, e: Entry, l: Limits,
                   ghost data: seq<Entry>, ghost pos: nat, ghost kept: set<Entry>, ghost first: nat)
    returns (next: CompactionState)
    requires Progress(data, pos, kept, st, first) && pos < |data| && e == data[pos]
    ensures Progress(data, pos + 1, kept + (if drop then {} else {e}), next, first)
    ensures Stepped(st, stop, drop, e, l, next)
  {
    next := st;
    if stop && next.builder != [] {
      next := FinishCompactionOutputFile(next, l, data, pos, kept, first);
    }
    assert Stopped(st, stop, l, next);
    if !drop {
      next := AddToOutput(next, e, l, data, pos, kept, first);
    } else {
      WriteEntry(next.outputs, next.builder, data[pos..]);
      assert data[pos..][1..] == data[pos + 1..];
      assert kept + {} == kept;
    }
  }

  /** One entry keeps the cuts right. */
  lemma StepCuts(grandparents: seq<File>, mark: nat, index: nat, st: CompactionState, last: Option<IKey>, l: Limits,
                 stop: bool, mark2: nat, index2: nat, drop: bool, e: Entry, next: CompactionState)
    requires Rising(grandparents) && Cutting(grandparents, mark, index, st.outputs, st.builder, last, l)
    requires index <= index2 <= |grandparents| && PassedBefore(grandparents, index2, e.key)
    requires last.Some? ==> Less(last.value, e.key)
    requires stop <==> last.Some? && TotalFileSize(grandparents[mark..index2]) > l.overlap
    requires mark2 == (if stop || last.None? then index2 else mark) && Stepped(st, stop, drop, e, l, next)
    ensures Cutting(grandparents, mark2, index2, next.outputs, next.builder, Some(e.key), l)
  {
    hide Cutting, Rising, PassedBefore, Added;
    var st1 :| Stopped(st, stop, l, st1) && if drop then next == st1 else Added(st1, e, l, next);
    if stop {
      Stops(grandparents, mark, index, st.outputs, st.builder, last, l, index2, e.key, st.number);
    } else {
      GoesOn(grandparents, mark, index, st.outputs, st.builder, last, l, mark2, index2, e.key);
    }
    assert st.outputs + [] == st.outputs;
    if !drop {
      AddCuts(grandparents, mark2, index2, st1, e, l, next);
    }
  }

  lemma AddCuts(grandparents: seq<File>, mark: nat, index: nat, st: CompactionState, e: Entry, l: Limits,
                next: CompactionState)
    requires Rising(grandparents) && Cutting(grandparents, mark, index, st.outputs, st.builder, Some(e.key), l)
    requires Added(st, e, l, next)
    ensures Cutting(grandparents, mark, index, next.outputs, next.builder, Some(e.key), l)
  {
    hide Cutting, Rising;
    var more := st.builder + [e];
    if l.sizeOf(more) < l.size {
      Joins(grandparents, mark, index, st.outputs, st.builder, e, l, 0);
    } else {
      var number :| next.outputs == st.outputs + [FileFrom(number, more, l)];
      Joins(grandparents, mark, index, st.outputs, st.builder, e, l, number);
    }
  }

  /** The user key of the previous entry, and the sequence number rule (A) compares. */
  datatype DropState = DropState(currentUserKey: Option<UserKey>, lastSequenceForKey: SequenceNumber)

  predicate Remembers(data: seq<Entry>, pos: nat, ds: DropState) {
    pos <= |data| &&
    ds.currentUserKey == (if pos == 0 then None else Some(data[pos - 1].key.user)) &&
    (pos > 0 ==> ds.lastSequenceForKey == data[pos - 1].key.sequence)
  }

  /** The drop test for one entry. */
  method DropStep(c: Compaction, ss: SequenceNumber, ds: DropState, ghost data: seq<Entry>, ghost pos: nat, ikey: IKey)
    returns (drop: bool, next: DropState)
    requires c.Valid() && pos < |data| && ikey == data[pos].key && Remembers(data, pos, ds)
    requires c.asked.Some? ==> pos > 0 && c.asked.value <= data[pos - 1].key.user
    requires Sorted(data) && Unique(Elements(data)) && ss < MAX_SEQUENCE_NUMBER
    modifies c.levelPtrs, c`asked
    ensures c.Valid() && Remembers(data, pos + 1, next)
    ensures c.asked.Some? ==> c.asked.value <= data[pos].key.user
    ensures KeptSoFar(data, pos + 1, ss, BaseKeys(c.v, c.level, Elements(data))) ==
            KeptSoFar(data, pos, ss, BaseKeys(c.v, c.level, Elements(data))) + if drop then {} else {data[pos]}
  {
    UsersNondecreasing(data, pos);
    var lastSequenceForKey := ds.lastSequenceForKey;
    if ds.currentUserKey != Some(ikey.user) {
      lastSequenceForKey := MAX_SEQUENCE_NUMBER;
    }
    drop := false;
    if lastSequenceForKey <= ss {
      drop := true;
    } else if ikey.kind.TypeDeletion? && ikey.sequence <= ss {
      drop := c.IsBaseLevelForKey(ikey.user);
    }
    next := DropState(Some(ikey.user), ikey.sequence);
    DropDecidesKept(c.v, c.level, data, pos, ss, ds, drop);
  }

  /** What the drop test decides is whether the entry is kept. */
  lemma DropDecidesKept(v: Version, level: nat, data: seq<Entry>, pos: nat, ss: SequenceNumber,
                        ds: DropState, drop: bool)
    requires Sorted(data) && Unique(Elements(data)) && pos < |data| && ss < MAX_SEQUENCE_NUMBER
    requires Remembers(data, pos, ds)
    requires drop <==>
      (if ds.currentUserKey != Some(data[pos].key.user) then MAX_SEQUENCE_NUMBER else ds.lastSequenceForKey) <= ss ||
      (data[pos].key.kind.TypeDeletion? && data[pos].key.sequence <= ss && IsBase(v, level, data[pos].key.user))
    ensures KeptSoFar(data, pos + 1, ss, BaseKeys(v, level, Elements(data))) ==
            KeptSoFar(data, pos, ss, BaseKeys(v, level, Elements(data))) + if drop then {} else {data[pos]}
  {
    HiddenByPrevious(data, pos, ss);
    assert data[pos] in Elements(data);
    KeptStep(data, pos, ss, BaseKeys(v, level, Elements(data)));
  }

  lemma StartProgress(data: seq<Entry>, ss: SequenceNumber, base: set<UserKey>, first: nat)
    requires Sorted(data)
    ensures Progress(data, 0, KeptSoFar(data, 0, ss, base), CompactionState([], [], 0, first), first)
  {
    assert data[0..] == data;
  }

  lemma EndProgress(data: seq<Entry>, ss: SequenceNumber, base: set<UserKey>, st: CompactionState, first: nat)
    requires Progress(data, |data|, KeptSoFar(data, |data|, ss, base), st, first) && st.builder == []
    ensures ValidFiles(st.outputs) && Disjoint(st.outputs) && DistinctNumbers(st.outputs)
    ensures LevelEntries(st.outputs) == Kept(Elements(data), ss, base)
    ensures st.nextNumber == first + |st.outputs| && Numbered(st.outputs, first)
  {
    assert data[..|data|] == data;
  }

  /** Runs a compaction. The result is right for every size of the grandparents' overlap and of the outputs at which a
      file is finished, and for every estimate of a file's size; the outputs are cut by these rules. */
  method DoCompactionWork(c: Compaction, ss: SequenceNumber, first: nat, l: Limits)
    returns (outputs: seq<File>, nextNumber: nat)
    requires c.Valid() && c.Unused() && ClosedInputs(c.v, c.level, c.inputs0, c.inputs1)
    requires ss < MAX_SEQUENCE_NUMBER && Rising(c.grandparents)
    modifies c.levelPtrs, c`asked, c`grandparentIndex, c`seenKey, c`overlappedBytes, c`mark
    ensures Outputs(c.v, c.level, c.inputs0, c.inputs1, ss, outputs)
    ensures nextNumber == first + |outputs| && Numbered(outputs, first)
    ensures WellCut(c.grandparents, outputs, l)
  {
    hide KeptSoFar, ValidVersion, MergingIterator.Ok, Cutting, Rising, WellCut;
    var input := MakeInputIterator(c);
    InputsUnique(c.v, c.level, c.inputs0, c.inputs1);
    ghost var base := BaseKeys(c.v, c.level, Elements(input.merged));
    var st := RunCompaction(c, input, ss, first, l);
    Ends(c.grandparents, c.mark, c.grandparentIndex, st.outputs, st.builder, LastKey(input.merged, |input.merged|), l,
         st.number);
    if st.builder != [] {
      st := FinishCompactionOutputFile(st, l, input.merged, |input.merged|,
                                       KeptSoFar(input.merged, |input.merged|, ss, base), first);
    }
    EndProgress(input.merged, ss, base, st, first);
    outputs, nextNumber := st.outputs, st.nextNumber;
  }

  function LastKey(data: seq<Entry>, pos: nat): Option<IKey>
    requires pos <= |data|
  {
    if pos == 0 then None else Some(data[pos - 1].key)
  }

  /** What holds before input entry `pos`. */
  ghost predicate Running(c: Compaction, data: seq<Entry>, pos: nat, ds: DropState, st: CompactionState,
                          ss: SequenceNumber, first: nat)
    reads c, c.levelPtrs
  {
    c.Valid() && Remembers(data, pos, ds) &&
    (c.asked.Some? ==> pos > 0 && c.asked.value <= data[pos - 1].key.user) &&
    Progress(data, pos, KeptSoFar(data, pos, ss, BaseKeys(c.v, c.level, Elements(data))), st, first)
  }

  ghost predicate CutsBefore(c: Compaction, data: seq<Entry>, pos: nat, st: CompactionState, l: Limits)
    reads c
  {
    pos <= |data| && c.Tracks() && (c.seenKey <==> pos > 0) && Rising(c.grandparents) &&
    Cutting(c.grandparents, c.mark, c.grandparentIndex, st.outputs, st.builder, LastKey(data, pos), l)
  }

  /** One turn of the loop. */
  method RunEntry(c: Compaction, e: Entry, ss: SequenceNumber, l: Limits,
                  ds: DropState, st: CompactionState, ghost data: seq<Entry>, ghost pos: nat, ghost first: nat)
    returns (ds2: DropState, st2: CompactionState)
    requires Sorted(data) && Unique(Elements(data)) && pos < |data| && e == data[pos] && ss < MAX_SEQUENCE_NUMBER
    requires Running(c, data, pos, ds, st, ss, first) && CutsBefore(c, data, pos, st, l)
    modifies c.levelPtrs, c`asked, c`grandparentIndex, c`seenKey, c`overlappedBytes, c`mark
    ensures Running(c, data, pos + 1, ds2, st2, ss, first) && CutsBefore(c, data, pos + 1, st2, l)
  {
    hide Progress, Cutting, Rising, PassedBefore, Stepped, KeptSoFar, Compaction.Valid;
    ghost var mark, index := c.mark, c.grandparentIndex;
    LastLess(data, pos);
    var stop := AskStop(c, e.key, data, pos, st, l);
    var drop;
    drop, ds2 := DropStep(c, ss, ds, data, pos, e.key);
    st2 := WriteStep(st, stop, drop, e, l, data, pos,
                     KeptSoFar(data, pos, ss, BaseKeys(c.v, c.level, Elements(data))), first);
    StepCuts(c.grandparents, mark, index, st, LastKey(data, pos), l, stop, c.mark, c.grandparentIndex, drop, e, st2);
  }

  lemma LastLess(data: seq<Entry>, pos: nat)
    requires Sorted(data) && pos < |data|
    ensures LastKey(data, pos).Some? ==> Less(LastKey(data, pos).value, data[pos].key)
  {
  }

  /** ShouldStopBefore for the next entry. */
  method AskStop(c: Compaction, key: IKey, ghost data: seq<Entry>, ghost pos: nat, ghost st: CompactionState, l: Limits)
    returns (stop: bool)
    requires Sorted(data) && pos < |data| && key == data[pos].key && c.Valid() && CutsBefore(c, data, pos, st, l)
    modifies c`grandparentIndex, c`seenKey, c`overlappedBytes, c`mark
    ensures c.Valid() && c.Tracks() && c.seenKey && old(c.grandparentIndex) <= c.grandparentIndex <= |c.grandparents|
    ensures PassedBefore(c.grandparents, c.grandparentIndex, key)
    ensures old(c.mark) <= c.grandparentIndex
    ensures stop <==> pos > 0 && TotalFileSize(c.grandparents[old(c.mark)..c.grandparentIndex]) > l.overlap
    ensures c.mark == if stop || pos == 0 then c.grandparentIndex else old(c.mark)
  {
    assert pos > 0 ==> Less(data[pos - 1].key, key);
    stop := c.ShouldStopBefore(key, l.overlap);
  }

  /** The loop of DoCompactionWork. */
  method RunCompaction(c: Compaction, input: MergingIterator, ss: SequenceNumber, first: nat, l: Limits)
    returns (st: CompactionState)
    requires c.Valid() && c.Unused() && Rising(c.grandparents)
    requires input.Ok() && Unique(Elements(input.merged)) && ss < MAX_SEQUENCE_NUMBER
    modifies c.levelPtrs, c`asked, c`grandparentIndex, c`seenKey, c`overlappedBytes, c`mark, input, input.children
    ensures Progress(input.merged, |input.merged|,
                     KeptSoFar(input.merged, |input.merged|, ss, BaseKeys(c.v, c.level, Elements(input.merged))), st,
                     first)
    ensures Cutting(c.grandparents, c.mark, c.grandparentIndex, st.outputs, st.builder,
                    LastKey(input.merged, |input.merged|), l)
  {
    hide Running, Remembers, MergingIterator.Ok, CutsBefore;
    st := CompactionState([], [], 0, first);
    var ds := DropState(None, MAX_SEQUENCE_NUMBER);
    input.SeekToFirst();
    StartRunning(c, input.merged, ss, first, l);
    while input.Valid()
      invariant input.Ok() && Running(c, input.merged, input.pos, ds, st, ss, first)
      invariant CutsBefore(c, input.merged, input.pos, st, l)
      decreases |input.merged| - input.pos
    {
      var e := Entry(input.Key(), input.Value());
      input.Next();
      ds, st := RunEntry(c, e, ss, l, ds, st, input.merged, input.pos - 1, first);
    }
    EndRunning(c, input.merged, ds, st, ss, first, l);
  }

  lemma StartRunning(c: Compaction, data: seq<Entry>, ss: SequenceNumber, first: nat, l: Limits)
    requires c.Valid() && c.Unused() && Sorted(data) && Rising(c.grandparents)
    ensures Running(c, data, 0, DropState(None, MAX_SEQUENCE_NUMBER), CompactionState([], [], 0, first), ss, first)
    ensures CutsBefore(c, data, 0, CompactionState([], [], 0, first), l)
  {
    StartProgress(data, ss, BaseKeys(c.v, c.level, Elements(data)), first);
    assert c.grandparents[0..0] == [] && c.grandparents[..0] == [];
  }

  lemma EndRunning(c: Compaction, data: seq<Entry>, ds: DropState, st: CompactionState, ss: SequenceNumber, first: nat,
                   l: Limits)
    requires Running(c, data, |data|, ds, st, ss, first) && CutsBefore(c, data, |data|, st, l)
    ensures Progress(data, |data|, KeptSoFar(data, |data|, ss, BaseKeys(c.v, c.level, Elements(data))), st, first)
    ensures Cutting(c.grandparents, c.mark, c.grandparentIndex, st.outputs, st.builder, LastKey(data, |data|), l)
  {
  }

  lemma UsersNondecreasing(data: seq<Entry>, i: nat)
    requires Sorted(data) && i < |data|
    ensures i > 0 ==> data[i - 1].key.user <= data[i].key.user
  {
  }

  lemma InputsUnique(v: Version, level: nat, in0: seq<File>, in1: seq<File>)
    requires ValidVersion(v) && level + 1 < |v| && Subset(in0, v[level]) && Subset(in1, v[level + 1])
    ensures Unique(Ins(in0, in1))
  {
    Partition(v, level, in0, in1);
  }
}
