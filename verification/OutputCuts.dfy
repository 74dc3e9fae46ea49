// Where a compaction cuts its output into files: when a file is big enough, and before it overlaps too much two levels
// down (Compaction::ShouldStopBefore in db/version_set.cc, DoCompactionWork in db/db_impl.cc).

module OutputCuts {
  import opened Keys
  import opened Versions
  import opened Inputs
  import opened Compactions

  /** `overlap` bounds the grandparent bytes, and `size` is when a file is big enough. */
  datatype Limits = Limits(overlap: nat, size: nat, sizeOf: seq<Entry> -> nat)

  /** Each file ends before the next one does. */
  ghost predicate Rising(files: seq<File>) {
    forall i, j | 0 <= i < j < |files| :: Less(files[i].largest, files[j].largest)
  }

  lemma GrandparentsRise(v: Version, level: nat, ins: seq<File>, files: seq<File>)
    requires ValidVersion(v) && Grandparents(v, level, ins, files)
    ensures Rising(files)
  {
    if level + 2 < |v| {
      var lo, hi :| Spans(lo, hi, ins) && files == Overlapping(v[level + 2], Some(lo), Some(hi));
      assert ValidLevel(level + 2, v[level + 2]);
      OverlappingInOrder(v[level + 2], Some(lo), Some(hi));
      forall i, j | 0 <= i < j < |files|
        ensures Less(files[i].largest, files[j].largest)
      {
        assert files[j] in v[level + 2];
        FileBounds(files[j], files[j].entries[0]);
      }
    }
  }

  /** The bytes of the files that end at or after `lo` and before `hi`. */
  function EndingIn(files: seq<File>, lo: IKey, hi: IKey): nat {
    if files == [] then 0
    else
      (if !Less(files[0].largest, lo) && Less(files[0].largest, hi) then files[0].size else 0) +
      EndingIn(files[1..], lo, hi)
  }

  lemma {:induction false} EndingWithin(files: seq<File>, lo: IKey, hi: IKey, m: nat, n: nat)
    requires m <= n <= |files|
    requires forall j | 0 <= j < m :: Less(files[j].largest, lo)
    requires forall j | n <= j < |files| :: !Less(files[j].largest, hi)
    ensures EndingIn(files, lo, hi) <= TotalFileSize(files[m..n])
    decreases |files|
  {
    if files != [] {
      var rest := files[1..];
      if m > 0 {
        assert rest[m - 1..n - 1] == files[m..n];
        EndingWithin(rest, lo, hi, m - 1, n - 1);
      } else if n > 0 {
        assert files[0..n][1..] == rest[0..n - 1];
        EndingWithin(rest, lo, hi, 0, n - 1);
      } else {
        EndingWithin(rest, lo, hi, 0, 0);
        assert rest[0..0] == files[0..0] == [];
      }
    }
  }

  /** The first `n` entries were never big enough for a file. */
  ghost predicate Growing(entries: seq<Entry>, n: nat, l: Limits)
    requires n <= |entries|
  {
    forall k | 0 < k <= n :: l.sizeOf(entries[..k]) < l.size
  }

  /** The grandparents that end inside the file's range have at most the limit of bytes, and the file was not big enough
      before its last entry. */
  ghost predicate InLimits(grandparents: seq<File>, f: File, l: Limits) {
    EndingIn(grandparents, f.smallest, f.largest) <= l.overlap &&
    (f.entries != [] ==> Growing(f.entries, |f.entries| - 1, l))
  }

  ghost predicate AllInLimits(grandparents: seq<File>, outputs: seq<File>, l: Limits) {
    forall f | f in outputs :: InLimits(grandparents, f, l)
  }

  /** How many files are not big enough. */
  function Small(outputs: seq<File>, l: Limits): nat {
    if outputs == [] then 0
    else
      Small(outputs[..|outputs| - 1], l) + if l.sizeOf(outputs[|outputs| - 1].entries) < l.size then 1 else 0
  }

  /** The file made of the open entries. */
  function FileFrom(number: nat, builder: seq<Entry>, l: Limits): File
    requires builder != []
  {
    File(number, l.sizeOf(builder), builder[0].key, builder[|builder| - 1].key, builder)
  }

  /** Between two input entries, `last` being the key of the one before: the grandparents passed over end before it, and
      those from the mark on are within the limit. The open file began after the mark. Every small file has used up more
      than the limit of grandparents before the mark. */
  ghost predicate Cutting(grandparents: seq<File>, mark: nat, index: nat, outputs: seq<File>, builder: seq<Entry>,
                          last: Option<IKey>, l: Limits)
  {
    mark <= index <= |grandparents| && TotalFileSize(grandparents[mark..index]) <= l.overlap &&
    (last.None? ==> index == 0) &&
    (last.Some? ==> PassedBefore(grandparents, index, last.value)) &&
    (builder != [] ==>
       last.Some? && LessEq(builder[|builder| - 1].key, last.value) && Growing(builder, |builder|, l) &&
       forall j | 0 <= j < mark :: Less(grandparents[j].largest, builder[0].key)) &&
    AllInLimits(grandparents, outputs, l) && UsedUp(grandparents, mark, outputs, l)
  }

  ghost predicate PassedBefore(grandparents: seq<File>, index: nat, key: IKey)
    requires index <= |grandparents|
  {
    (forall j | 0 <= j < index :: Less(grandparents[j].largest, key)) &&
    (index < |grandparents| ==> !Less(grandparents[index].largest, key))
  }

  predicate UsedUp(grandparents: seq<File>, mark: nat, outputs: seq<File>, l: Limits)
    requires mark <= |grandparents|
  {
    Small(outputs, l) * (l.overlap + 1) <= TotalFileSize(grandparents[..mark])
  }

  /** The open entries end before the grandparent at `index` does. */
  lemma FileInLimits(grandparents: seq<File>, mark: nat, index: nat, number: nat, builder: seq<Entry>, key: IKey,
                     l: Limits)
    requires Rising(grandparents) && mark <= index <= |grandparents| && builder != []
    requires TotalFileSize(grandparents[mark..index]) <= l.overlap && PassedBefore(grandparents, index, key)
    requires LessEq(builder[|builder| - 1].key, key)
    requires Growing(builder, |builder| - 1, l)
    requires forall j | 0 <= j < mark :: Less(grandparents[j].largest, builder[0].key)
    ensures InLimits(grandparents, FileFrom(number, builder, l), l)
  {
    forall j | index <= j < |grandparents|
      ensures !Less(grandparents[j].largest, builder[|builder| - 1].key)
    {
      assert j > index ==> Less(grandparents[index].largest, grandparents[j].largest);
    }
    EndingWithin(grandparents, builder[0].key, builder[|builder| - 1].key, mark, index);
  }

  lemma OneMore(outputs: seq<File>, f: File, l: Limits)
    ensures Small(outputs + [f], l) == Small(outputs, l) + if l.sizeOf(f.entries) < l.size then 1 else 0
  {
    assert (outputs + [f])[..|outputs|] == outputs;
  }

  lemma {:induction false} TotalSplits(files: seq<File>, m: nat, n: nat)
    requires m <= n <= |files|
    ensures TotalFileSize(files[..n]) == TotalFileSize(files[..m]) + TotalFileSize(files[m..n])
    decreases n - m
  {
    if m < n {
      TotalSplits(files, m, n - 1);
      TotalOfPrefix(files, n - 1);
      TotalOfSlice(files, m, n - 1);
    }
  }

  lemma MoreUsedUp(grandparents: seq<File>, mark: nat, index: nat, outputs: seq<File>, l: Limits)
    requires mark <= index <= |grandparents| && UsedUp(grandparents, mark, outputs, l)
    ensures UsedUp(grandparents, index, outputs, l)
  {
    TotalSplits(grandparents, mark, index);
  }

  lemma OneUsedUp(grandparents: seq<File>, mark: nat, index: nat, outputs: seq<File>, f: File, l: Limits)
    requires mark <= index <= |grandparents| && UsedUp(grandparents, mark, outputs, l)
    requires TotalFileSize(grandparents[mark..index]) > l.overlap
    ensures UsedUp(grandparents, index, outputs + [f], l)
  {
    TotalSplits(grandparents, mark, index);
    OneMore(outputs, f, l);
    OneTimesMore(Small(outputs, l), l.overlap + 1);
  }

  lemma OneTimesMore(n: nat, k: nat)
    ensures (n + 1) * k == n * k + k
  {
  }

  // ------------------------------------------------------------------ what one entry does

  /** The test before a key said stop: the open file, if any, is finished. */
  lemma Stops(grandparents: seq<File>, mark: nat, index: nat, outputs: seq<File>, builder: seq<Entry>,
              last: Option<IKey>, l: Limits, index2: nat, key: IKey, number: nat)
    requires Rising(grandparents) && Cutting(grandparents, mark, index, outputs, builder, last, l)
    requires index <= index2 <= |grandparents| && PassedBefore(grandparents, index2, key)
    requires TotalFileSize(grandparents[mark..index2]) > l.overlap
    ensures builder == [] ==> Cutting(grandparents, index2, index2, outputs, [], Some(key), l)
    ensures builder != [] ==>
              Cutting(grandparents, index2, index2, outputs + [FileFrom(number, builder, l)], [], Some(key), l)
  {
    assert grandparents[index2..index2] == [];
    if builder == [] {
      MoreUsedUp(grandparents, mark, index2, outputs, l);
    } else {
      FileInLimits(grandparents, mark, index, number, builder, last.value, l);
      OneUsedUp(grandparents, mark, index2, outputs, FileFrom(number, builder, l), l);
    }
  }

  /** It said go on: the open file stays as it is. */
  lemma GoesOn(grandparents: seq<File>, mark: nat, index: nat, outputs: seq<File>, builder: seq<Entry>,
               last: Option<IKey>, l: Limits, mark2: nat, index2: nat, key: IKey)
    requires Cutting(grandparents, mark, index, outputs, builder, last, l)
    requires index <= index2 <= |grandparents| && PassedBefore(grandparents, index2, key)
    requires last.Some? ==> Less(last.value, key)
    requires mark2 == if last.None? then index2 else mark
    requires last.Some? ==> TotalFileSize(grandparents[mark..index2]) <= l.overlap
    ensures Cutting(grandparents, mark2, index2, outputs, builder, Some(key), l)
  {
    if last.None? {
      assert grandparents[index2..index2] == [];
      MoreUsedUp(grandparents, mark, index2, outputs, l);
    }
  }

  /** An entry joins the open file, which is finished if it is big enough now. */
  lemma Joins(grandparents: seq<File>, mark: nat, index: nat, outputs: seq<File>, builder: seq<Entry>, e: Entry,
              l: Limits, number: nat)
    requires Rising(grandparents) && Cutting(grandparents, mark, index, outputs, builder, Some(e.key), l)
    ensures var more := builder + [e];
      if l.sizeOf(more) < l.size then Cutting(grandparents, mark, index, outputs, more, Some(e.key), l)
      else Cutting(grandparents, mark, index, outputs + [FileFrom(number, more, l)], [], Some(e.key), l)
  {
    var more := builder + [e];
    assert forall k | 0 < k <= |builder| :: more[..k] == builder[..k];
    assert more[..|more|] == more;
    if l.sizeOf(more) >= l.size {
      FileInLimits(grandparents, mark, index, number, more, e.key, l);
      OneMore(outputs, FileFrom(number, more, l), l);
    }
  }

  /** At the end the open file is finished. */
  lemma Ends(grandparents: seq<File>, mark: nat, index: nat, outputs: seq<File>, builder: seq<Entry>,
             last: Option<IKey>, l: Limits, number: nat)
    requires Rising(grandparents) && Cutting(grandparents, mark, index, outputs, builder, last, l)
    ensures var all := if builder == [] then outputs else outputs + [FileFrom(number, builder, l)];
      WellCut(grandparents, all, l)
  {
    hide InLimits;
    TotalSplits(grandparents, mark, |grandparents|);
    assert grandparents[..|grandparents|] == grandparents;
    if builder != [] {
      FileInLimits(grandparents, mark, index, number, builder, last.value, l);
      OneMore(outputs, FileFrom(number, builder, l), l);
      OneTimesMore(Small(outputs, l), l.overlap + 1);
    }
  }

  /** Every output is within the limits, and there are only as many small ones as the grandparents' bytes allow, and one
      more. */
  ghost predicate WellCut(grandparents: seq<File>, outputs: seq<File>, l: Limits) {
    AllInLimits(grandparents, outputs, l) &&
    Small(outputs, l) * (l.overlap + 1) <= TotalFileSize(grandparents) + l.overlap + 1
  }
}
