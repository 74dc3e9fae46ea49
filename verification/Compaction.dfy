// Choosing and running a compaction (db/version_set.cc, db/db_impl.cc).

module Compactions {
  import opened Keys
  import opened Versions
  import opened Inputs

  // ------------------------------------------------------------------ what the inputs satisfy

  ghost predicate Subset(ins: seq<File>, files: seq<File>) {
    forall f | f in ins :: f in files
  }

  /** What PickCompaction and CompactRange hand to SetupOtherInputs. */
  ghost predicate Selected(level: nat, files: seq<File>, ins: seq<File>) {
    ins != [] && Subset(ins, files) && DistinctNumbers(ins) &&
    (level == 0 ==> UserClosed(files, ins)) &&
    (level > 0 ==> Convex(files, ins) && Disjoint(ins))
  }

  /** A file of the level left out either shares no user key with the inputs, or comes before them
      and so holds the newer entries. */
  ghost predicate UpperClosed(level: nat, files: seq<File>, ins: seq<File>) {
    forall g, f | g in files && g !in ins && f in ins ::
      UserApart(g, f) || (level > 0 && Less(g.largest, f.smallest))
  }

  /** [lo, hi] covers the user keys of `ins`. */
  ghost predicate Covers(lo: UserKey, hi: UserKey, ins: seq<File>) {
    forall f | f in ins :: lo <= f.smallest.user && f.largest.user <= hi
  }

  /** [lo, hi] is the least range that covers the user keys of `ins`. */
  ghost predicate Spans(lo: UserKey, hi: UserKey, ins: seq<File>) {
    Covers(lo, hi, ins) && exists f, g :: f in ins && g in ins && lo == f.smallest.user && hi == g.largest.user
  }

  /** `in1` are the files of the next level that meet the range of `in0`. */
  ghost predicate Parents(v: Version, level: nat, in0: seq<File>, in1: seq<File>)
    requires level + 1 < |v|
  {
    exists lo, hi :: Spans(lo, hi, in0) && in1 == Overlapping(v[level + 1], Some(lo), Some(hi))
  }

  /** The files two levels down that meet the range of all inputs, none if there is no such level. */
  ghost predicate Grandparents(v: Version, level: nat, ins: seq<File>, files: seq<File>) {
    if level + 2 >= |v| then files == []
    else exists lo, hi :: Spans(lo, hi, ins) && files == Overlapping(v[level + 2], Some(lo), Some(hi))
  }

  /** `wide0` are the files of this level that meet the range of all inputs, closed above. */
  ghost predicate IsWider(v: Version, level: nat, in0: seq<File>, in1: seq<File>, wide0: seq<File>)
    requires level < |v|
  {
    exists lo, hi, met :: Spans(lo, hi, in0 + in1) && InRange(level, v[level], Some(lo), Some(hi), met) &&
      IsClosure(v[level], met, wide0)
  }

  /** `wide0` are more files, together with `in1` not too many, and meet just as many files of the next level. */
  ghost predicate WorthIt(v: Version, level: nat, in0: seq<File>, in1: seq<File>, wide0: seq<File>, limit: nat)
    requires level + 1 < |v|
  {
    |wide0| > |in0| && TotalFileSize(in1) + TotalFileSize(wide0) < limit &&
    exists wide1 :: Parents(v, level, wide0, wide1) && |wide1| == |in1|
  }

  /** What SetupOtherInputs makes of the chosen files: their closure, or the wider choice if it is worth it, and the
      files of the next level that meet them. */
  ghost predicate IsSetup(v: Version, level: nat, chosen: seq<File>, limit: nat, out0: seq<File>, out1: seq<File>)
    requires level + 1 < |v|
  {
    Parents(v, level, out0, out1) &&
    exists in0 ::
      IsClosure(v[level], chosen, in0) && Parents(v, level, in0, out1) && IsGrown(v, level, in0, limit, out0, out1)
  }

  ghost predicate IsGrown(v: Version, level: nat, in0: seq<File>, limit: nat, out0: seq<File>, in1: seq<File>)
    requires level + 1 < |v|
  {
    if in1 == [] then out0 == in0
    else
      exists wide0 ::
        IsWider(v, level, in0, in1, wide0) &&
        out0 == if WorthIt(v, level, in0, in1, wide0, limit) then wide0 else in0
  }

  /** What SetupOtherInputs establishes. */
  ghost predicate ClosedInputs(v: Version, level: nat, in0: seq<File>, in1: seq<File>) {
    level + 1 < |v| &&
    in0 != [] && Subset(in0, v[level]) && DistinctNumbers(in0) && UpperClosed(level, v[level], in0) &&
    (level > 0 ==> Disjoint(in0)) &&
    exists lo, hi :: Covers(lo, hi, in0) && in1 == Overlapping(v[level + 1], Some(lo), Some(hi))
  }

  lemma ConvexIsUpperClosed(level: nat, files: seq<File>, ins: seq<File>)
    requires level > 0 && ValidFiles(files) && Subset(ins, files) && ins != []
    requires Convex(files, ins) && BoundaryClosed(files, ins)
    ensures UpperClosed(level, files, ins)
  {
    var k := LargestOf(ins);
    forall g, f | g in files && g !in ins && f in ins
      ensures UserApart(g, f) || Less(g.largest, f.smallest)
    {
      FileBounds(g, g.entries[0]);
      var top :| top in ins && top.largest == k;
      assert !IsBoundary(g, k);
    }
  }

  lemma {:induction false} LargestOf(ins: seq<File>) returns (k: IKey)
    requires ins != []
    ensures IsLargest(ins, k)
  {
    k := ins[0].largest;
    if |ins| > 1 {
      var k2 := LargestOf(ins[1..]);
      assert forall f :: f in ins <==> f == ins[0] || f in ins[1..];
      k := if Less(k, k2) then k2 else k;
      assert exists f :: f in ins && f.largest == k;
    }
  }

  /** VersionSet::GetRange: the least range of internal keys that covers all inputs. */
  method GetRange(ins: seq<File>) returns (smallest: IKey, largest: IKey)
    requires ins != []
    ensures forall f | f in ins :: LessEq(smallest, f.smallest) && LessEq(f.largest, largest)
    ensures exists f, g :: f in ins && g in ins && smallest == f.smallest && largest == g.largest
  {
    smallest, largest := ins[0].smallest, ins[0].largest;
    ghost var a, b := 0, 0;
    for i := 1 to |ins|
      invariant 0 <= a < i && 0 <= b < i && smallest == ins[a].smallest && largest == ins[b].largest
      invariant forall j | 0 <= j < i :: LessEq(smallest, ins[j].smallest) && LessEq(ins[j].largest, largest)
    {
      if Compare(ins[i].smallest, smallest) < 0 {
        smallest := ins[i].smallest;
        a := i;
      }
      if Compare(ins[i].largest, largest) > 0 {
        largest := ins[i].largest;
        b := i;
      }
    }
    assert ins[a] in ins && ins[b] in ins;
  }

  /** No file in the levels below level+1 has a range around `u`. */
  ghost predicate IsBase(v: Version, level: nat, u: UserKey) {
    forall l, f | level + 2 <= l < |v| && f in v[l] :: !(f.smallest.user <= u <= f.largest.user)
  }

  /** The first `p` files end before the last user key asked about. */
  ghost predicate PassedOver(files: seq<File>, p: nat, asked: Option<UserKey>) {
    p <= |files| && forall j | 0 <= j < p :: asked.Some? && files[j].largest.user < asked.value
  }

  class Compaction {
    const v: Version
    const level: nat
    var inputs0: seq<File>
    var inputs1: seq<File>
    var grandparents: seq<File>
    const levelPtrs: array<nat>
    ghost var asked: Option<UserKey>
    var grandparentIndex: nat
    var seenKey: bool
    var overlappedBytes: nat
    /** The grandparents before this one no longer count. */
    ghost var mark: nat

    ghost predicate Valid()
      reads this, levelPtrs
    {
      ValidVersion(v) && level + 1 < NUM_LEVELS && levelPtrs.Length == NUM_LEVELS &&
      forall l | level + 2 <= l < NUM_LEVELS ::
        PassedOver(v[l], levelPtrs[l], asked)
    }

    /** The overlap counted is that of the grandparents passed over since the mark. */
    ghost predicate Tracks()
      reads this
    {
      mark <= grandparentIndex <= |grandparents| &&
      overlappedBytes == TotalFileSize(grandparents[mark..grandparentIndex]) && (!seenKey ==> mark == grandparentIndex)
    }

    /** No key was asked about yet. */
    ghost predicate Unused()
      reads this
    {
      asked.None? && grandparentIndex == 0 && mark == 0 && overlappedBytes == 0 && !seenKey
    }

    constructor (v: Version, level: nat)
      requires ValidVersion(v) && level + 1 < NUM_LEVELS
      ensures Valid() && fresh(levelPtrs) && Unused()
      ensures this.v == v && this.level == level && inputs0 == [] && inputs1 == [] && grandparents == []
    {
      this.v, this.level := v, level;
      inputs0, inputs1, grandparents := [], [], [];
      asked := None;
      grandparentIndex, seenKey, overlappedBytes, mark := 0, false, 0, 0;
      levelPtrs := new nat[NUM_LEVELS](_ => 0);
    }

    /** AddBoundaryInputs on this level, which SetupOtherInputs does for its first and for its
        expanded choice. */
    method CloseAbove(chosen: seq<File>) returns (ins: seq<File>)
      requires Valid() && DistinctNumbers(chosen) && Subset(chosen, v[level])
      requires chosen != [] ==> Selected(level, v[level], chosen)
      ensures chosen <= ins && DistinctNumbers(ins) && Subset(ins, v[level])
      ensures UpperClosed(level, v[level], ins) && (level > 0 ==> Disjoint(ins))
      ensures IsClosure(v[level], chosen, ins)
    {
      assert ValidLevel(level, v[level]);
      ins := AddBoundaryInputs(v[level], chosen);
      BoundaryClosedInputs(level, v[level], chosen, ins);
    }

    /** The files of the next level that meet the range of `in0`. */
    method ParentInputs(in0: seq<File>) returns (in1: seq<File>)
      requires Valid() && in0 != [] && Subset(in0, v[level]) && DistinctNumbers(in0)
      requires UpperClosed(level, v[level], in0) && (level > 0 ==> Disjoint(in0))
      ensures ClosedInputs(v, level, in0, in1) && Parents(v, level, in0, in1)
    {
      hide UpperClosed, Disjoint, Overlapping, ClosedInputs, Parents;
      assert ValidLevel(level + 1, v[level + 1]);
      var smallest, largest := GetRange(in0);
      ghost var lo, hi;
      in1, lo, hi := GetOverlappingInputs(level + 1, v[level + 1], Some(smallest.user), Some(largest.user));
      SpannedIsClosed(v, level, in0, smallest.user, largest.user);
    }

    /** More inputs at this level for the same inputs at the next, if there are any and they are not too many. */
    method Expand(in0: seq<File>, in1: seq<File>, limit: nat) returns (out0: seq<File>, out1: seq<File>)
      requires Valid() && ClosedInputs(v, level, in0, in1) && Parents(v, level, in0, in1)
      ensures ClosedInputs(v, level, out0, out1) && out1 == in1 && forall f | f in in0 :: f in out0
      ensures Parents(v, level, out0, out1)
      ensures exists wide0 :: IsWider(v, level, in0, in1, wide0) &&
                out0 == if WorthIt(v, level, in0, in1, wide0, limit) then wide0 else in0
    {
      hide ClosedInputs, Parents, IsWider;
      var expanded0 := ExpandedRange(in0, in1);
      out0, out1 := in0, in1;
      if |expanded0| > |in0| && TotalFileSize(in1) + TotalFileSize(expanded0) < limit {
        var expanded1 := ParentInputs(expanded0);
        if |expanded1| == |in1| {
          SameParents(v, level, in0, in1, expanded0, expanded1);
          out0, out1 := expanded0, expanded1;
        } else {
          OneParents(v, level, expanded0, expanded1);
        }
      }
    }

    /** The files of this level that meet the range of all inputs, closed above. */
    method ExpandedRange(in0: seq<File>, in1: seq<File>) returns (expanded0: seq<File>)
      requires Valid() && ClosedInputs(v, level, in0, in1)
      ensures expanded0 != [] && Subset(expanded0, v[level]) && DistinctNumbers(expanded0)
      ensures UpperClosed(level, v[level], expanded0) && (level > 0 ==> Disjoint(expanded0))
      ensures forall f | f in in0 :: f in expanded0
      ensures IsWider(v, level, in0, in1, expanded0)
    {
      hide UpperClosed, Disjoint, Selected, IsClosure, InRange;
      assert ValidLevel(level, v[level]);
      var allStart, allLimit := GetRange(in0 + in1);
      ghost var lo, hi;
      expanded0, lo, hi := GetOverlappingInputs(level, v[level], Some(allStart.user), Some(allLimit.user));
      OverlappingIsSelected(level, v[level], lo, hi);
      RangeHolds(v[level], in0, in1, allStart, allLimit);
      assert in0[0] in expanded0;
      assert Spans(allStart.user, allLimit.user, in0 + in1);
      expanded0 := CloseAbove(expanded0);
    }

    /** Grows the chosen files to inputs that can be compacted together: no further entry of the last
        user key at this level, and every file of the next level that meets their range. */
    method SetupOtherInputs(expandedLimit: nat)
      requires Valid() && Selected(level, v[level], inputs0) && grandparents == []
      modifies this`inputs0, this`inputs1, this`grandparents
      ensures Valid() && ClosedInputs(v, level, inputs0, inputs1)
      ensures forall f | f in old(inputs0) :: f in inputs0
      ensures IsSetup(v, level, old(inputs0), expandedLimit, inputs0, inputs1)
      ensures Grandparents(v, level, inputs0 + inputs1, grandparents)
    {
      hide ClosedInputs, Parents, IsClosure, IsWider, WorthIt, Grandparents, UpperClosed;
      inputs0 := CloseAbove(inputs0);
      inputs1 := ParentInputs(inputs0);
      if inputs1 != [] {
        var expanded0, expanded1 := Expand(inputs0, inputs1, expandedLimit);
        assert inputs0[0] in expanded0;
        inputs0 := expanded0;
        inputs1 := expanded1;
      }
      SetGrandparents();
    }

    /** The files two levels down that meet the whole compaction. */
    method SetGrandparents()
      requires Valid() && inputs0 != [] && grandparents == []
      modifies this`grandparents
      ensures Valid()
      ensures Grandparents(v, level, inputs0 + inputs1, grandparents)
    {
      if level + 2 < NUM_LEVELS {
        assert ValidLevel(level + 2, v[level + 2]);
        var allStart, allLimit := GetRange(inputs0 + inputs1);
        ghost var lo, hi;
        grandparents, lo, hi :=
          GetOverlappingInputs(level + 2, v[level + 2], Some(allStart.user), Some(allLimit.user));
        assert Spans(allStart.user, allLimit.user, inputs0 + inputs1);
      }
    }

    /** One input file, nothing below it, and little two levels down. */
    predicate IsTrivialMove(maxGrandParentOverlap: nat)
      reads this
    {
      |inputs0| == 1 && inputs1 == [] && TotalFileSize(grandparents) <= maxGrandParentOverlap
    }

    /** Decides IsBase with pointers that only move forward, the user keys asked about being
        nondecreasing. */
    method IsBaseLevelForKey(u: UserKey) returns (r: bool)
      requires Valid() && (asked.Some? ==> asked.value <= u)
      modifies levelPtrs, this`asked
      ensures Valid() && asked == Some(u)
      ensures r <==> IsBase(v, level, u)
    {
      forall l | level + 2 <= l < NUM_LEVELS
        ensures PassedOver(v[l], levelPtrs[l], Some(u))
      {
        assert PassedOver(v[l], levelPtrs[l], asked);
      }
      asked := Some(u);
      for lvl := level + 2 to NUM_LEVELS
        invariant Valid() && asked == Some(u)
        invariant forall l, f | level + 2 <= l < lvl && f in v[l] :: !(f.smallest.user <= u <= f.largest.user)
      {
        var files := v[lvl];
        assert ValidLevel(lvl, files);
        while levelPtrs[lvl] < |files|
          invariant Valid() && asked == Some(u)
          decreases |files| - levelPtrs[lvl]
        {
          var f := files[levelPtrs[lvl]];
          assert f in files;
          if u <= f.largest.user {
            if u >= f.smallest.user {
              return false;
            }
            break;
          }
          assert PassedOver(files, levelPtrs[lvl], asked);
          levelPtrs[lvl] := levelPtrs[lvl] + 1;
        }
        PastPointer(files, levelPtrs[lvl], u);
      }
      return true;
    }

    /** Before each key, in ascending order: whether the grandparents that end before it, and did not end before the
        last stop or the first key, have more than the limit of bytes. */
    method ShouldStopBefore(key: IKey, limit: nat) returns (r: bool)
      requires Tracks() && forall j | 0 <= j < grandparentIndex :: Less(grandparents[j].largest, key)
      modifies this`grandparentIndex, this`seenKey, this`overlappedBytes, this`mark
      ensures Tracks() && seenKey && forall j | 0 <= j < grandparentIndex :: Less(grandparents[j].largest, key)
      ensures grandparentIndex < |grandparents| ==> !Less(grandparents[grandparentIndex].largest, key)
      ensures old(grandparentIndex) <= grandparentIndex && old(mark) <= grandparentIndex
      ensures r <==> old(seenKey) && TotalFileSize(grandparents[old(mark)..grandparentIndex]) > limit
      ensures mark == if r || !old(seenKey) then grandparentIndex else old(mark)
    {
      while grandparentIndex < |grandparents| && Compare(key, grandparents[grandparentIndex].largest) > 0
        invariant Tracks() && old(grandparentIndex) <= grandparentIndex && seenKey == old(seenKey)
        invariant seenKey ==> mark == old(mark)
        invariant forall j | 0 <= j < grandparentIndex :: Less(grandparents[j].largest, key)
        decreases |grandparents| - grandparentIndex
      {
        TotalOfSlice(grandparents, mark, grandparentIndex);
        if seenKey {
          overlappedBytes := overlappedBytes + grandparents[grandparentIndex].size;
        } else {
          mark := grandparentIndex + 1;
        }
        grandparentIndex := grandparentIndex + 1;
      }
      seenKey := true;
      if overlappedBytes > limit {
        overlappedBytes := 0;
        mark := grandparentIndex;
        return true;
      }
      return false;
    }
  }

  lemma SpannedIsClosed(v: Version, level: nat, in0: seq<File>, lo: UserKey, hi: UserKey)
    requires level + 1 < |v| && in0 != [] && Subset(in0, v[level]) && DistinctNumbers(in0)
    requires UpperClosed(level, v[level], in0) && (level > 0 ==> Disjoint(in0)) && Spans(lo, hi, in0)
    ensures ClosedInputs(v, level, in0, Overlapping(v[level + 1], Some(lo), Some(hi)))
    ensures Parents(v, level, in0, Overlapping(v[level + 1], Some(lo), Some(hi)))
  {
  }

  /** A wider range meets the same files in the same order, and others. */
  lemma {:induction false} WiderMeetsMore(files: seq<File>, lo: UserKey, hi: UserKey, lo2: UserKey, hi2: UserKey)
    requires lo2 <= lo && hi <= hi2
    ensures |Overlapping(files, Some(lo), Some(hi))| <= |Overlapping(files, Some(lo2), Some(hi2))|
    ensures |Overlapping(files, Some(lo), Some(hi))| == |Overlapping(files, Some(lo2), Some(hi2))| ==>
              Overlapping(files, Some(lo), Some(hi)) == Overlapping(files, Some(lo2), Some(hi2))
  {
    if files != [] {
      WiderMeetsMore(files[..|files| - 1], lo, hi, lo2, hi2);
    }
  }

  /** If more inputs meet as many files of the next level, they meet the same. */
  lemma SameParents(v: Version, level: nat, in0: seq<File>, in1: seq<File>, ex0: seq<File>, ex1: seq<File>)
    requires level + 1 < |v| && Parents(v, level, in0, in1) && Parents(v, level, ex0, ex1)
    requires |ex1| == |in1| && forall f | f in in0 :: f in ex0
    ensures ex1 == in1
  {
    var lo, hi :| Spans(lo, hi, in0) && in1 == Overlapping(v[level + 1], Some(lo), Some(hi));
    var lo2, hi2 :| Spans(lo2, hi2, ex0) && ex1 == Overlapping(v[level + 1], Some(lo2), Some(hi2));
    WiderMeetsMore(v[level + 1], lo, hi, lo2, hi2);
  }

  /** The files of a level whose range is taken meet that range. */
  lemma RangeHolds(files: seq<File>, in0: seq<File>, in1: seq<File>, smallest: IKey, largest: IKey)
    requires ValidFiles(files) && Subset(in0, files)
    requires forall f | f in in0 + in1 :: LessEq(smallest, f.smallest) && LessEq(f.largest, largest)
    ensures forall f | f in in0 :: f in Overlapping(files, Some(smallest.user), Some(largest.user))
  {
    forall f | f in in0
      ensures Overlaps(f, Some(smallest.user), Some(largest.user))
    {
      assert f in in0 + in1;
      FileBounds(f, f.entries[0]);
    }
  }

  /** A choice has one set of parents. */
  lemma OneParents(v: Version, level: nat, in0: seq<File>, in1: seq<File>)
    requires level + 1 < |v| && Parents(v, level, in0, in1)
    ensures forall b | Parents(v, level, in0, b) :: b == in1
  {
  }

  lemma LevelStartsApart(level: nat, files: seq<File>)
    requires ValidLevel(level, files)
    ensures StartsApart(files)
  {
    forall f, g | f in files && g in files && f.smallest == g.smallest
      ensures f == g
    {
      FileBounds(f, f.entries[0]);
      FileBounds(g, g.entries[0]);
      var i :| 0 <= i < |files| && files[i] == f;
      var j :| 0 <= j < |files| && files[j] == g;
      assert level > 0 && i < j ==> Less(f.largest, g.smallest);
      assert level > 0 && j < i ==> Less(g.largest, f.smallest);
    }
  }

  lemma SpansUnique(lo: UserKey, hi: UserKey, x: UserKey, y: UserKey, ins: seq<File>)
    requires Spans(lo, hi, ins) && Spans(x, y, ins)
    ensures lo == x && hi == y
  {
  }

  lemma WiderUnique(v: Version, level: nat, in0: seq<File>, in1: seq<File>, a: seq<File>, b: seq<File>)
    requires level < |v| && StartsApart(v[level]) && IsWider(v, level, in0, in1, a) && IsWider(v, level, in0, in1, b)
    ensures a == b
  {
    hide StartsApart, IsClosure, InRange, Spans;
    var lo, hi, met :| Spans(lo, hi, in0 + in1) && InRange(level, v[level], Some(lo), Some(hi), met) &&
                       IsClosure(v[level], met, a);
    var x, y, met2 :| Spans(x, y, in0 + in1) && InRange(level, v[level], Some(x), Some(y), met2) &&
                      IsClosure(v[level], met2, b);
    SpansUnique(lo, hi, x, y, in0 + in1);
    InRangeUnique(level, v[level], Some(lo), Some(hi), met, met2);
    ClosureUnique(v[level], met, a, b);
  }

  lemma GrownUnique(v: Version, level: nat, in0: seq<File>, limit: nat, in1: seq<File>, a: seq<File>, b: seq<File>)
    requires level + 1 < |v| && StartsApart(v[level])
    requires IsGrown(v, level, in0, limit, a, in1) && IsGrown(v, level, in0, limit, b, in1)
    ensures a == b
  {
    hide StartsApart, IsWider, WorthIt;
    if in1 != [] {
      var wide :| IsWider(v, level, in0, in1, wide) &&
                  a == if WorthIt(v, level, in0, in1, wide, limit) then wide else in0;
      var wide2 :| IsWider(v, level, in0, in1, wide2) &&
                   b == if WorthIt(v, level, in0, in1, wide2, limit) then wide2 else in0;
      WiderUnique(v, level, in0, in1, wide, wide2);
    }
  }

  /** The chosen files and the size limit determine the inputs of the compaction. */
  lemma SetupUnique(v: Version, level: nat, chosen: seq<File>, limit: nat,
                    a0: seq<File>, a1: seq<File>, b0: seq<File>, b1: seq<File>)
    requires level + 1 < |v| && ValidLevel(level, v[level])
    requires IsSetup(v, level, chosen, limit, a0, a1) && IsSetup(v, level, chosen, limit, b0, b1)
    ensures a0 == b0 && a1 == b1
  {
    hide StartsApart, IsClosure, Parents, IsGrown, ValidLevel;
    LevelStartsApart(level, v[level]);
    var a :| IsClosure(v[level], chosen, a) && Parents(v, level, a, a1) && IsGrown(v, level, a, limit, a0, a1);
    var b :| IsClosure(v[level], chosen, b) && Parents(v, level, b, b1) && IsGrown(v, level, b, limit, b0, b1);
    ClosureUnique(v[level], chosen, a, b);
    OneParents(v, level, a, a1);
    GrownUnique(v, level, a, limit, a1, a0, b0);
  }

  lemma PastPointer(files: seq<File>, p: nat, u: UserKey)
    requires ValidFiles(files) && Disjoint(files)
    requires PassedOver(files, p, Some(u))
    requires p < |files| ==> u < files[p].smallest.user
    ensures forall f | f in files :: !(f.smallest.user <= u <= f.largest.user)
  {
    SmallestIncreasing(files);
  }

  /** A sound choice stays sound, and closed above, once AddBoundaryInputs has extended it. */
  lemma BoundaryClosedInputs(level: nat, files: seq<File>, chosen: seq<File>, ins: seq<File>)
    requires ValidLevel(level, files) && (chosen == [] ==> ins == []) &&
             (chosen != [] ==> Selected(level, files, chosen))
    requires Extended(files, chosen, ins) && BoundaryClosed(files, ins)
    ensures UpperClosed(level, files, ins) && (level > 0 ==> Disjoint(ins))
    ensures ins != [] <==> chosen != []
  {
    if chosen != [] && level > 0 {
      ConvexIsUpperClosed(level, files, ins);
    }
  }

  /** The files that meet a closed range (level 0) or any range (deeper) are a sound choice. */
  lemma OverlappingIsSelected(level: nat, files: seq<File>, lo: Option<UserKey>, hi: Option<UserKey>)
    requires ValidLevel(level, files)
    requires level == 0 ==> ClosedRange(files, lo, hi)
    ensures DistinctNumbers(Overlapping(files, lo, hi))
    ensures Overlapping(files, lo, hi) != [] ==> Selected(level, files, Overlapping(files, lo, hi))
  {
    OverlappingInOrder(files, lo, hi);
    if level > 0 {
      OverlappingIsConvex(files, lo, hi);
    }
  }

  lemma OutsideBefore(files: seq<File>, lo: Option<UserKey>, hi: Option<UserKey>, g: File, f: File)
    requires ValidFiles(files) && Disjoint(files) && g in files && f in files
    requires !Overlaps(g, lo, hi) && Overlaps(f, lo, hi)
    ensures AfterFile(lo, g) ==> Less(g.largest, f.smallest)
    ensures !AfterFile(lo, g) ==> Less(f.largest, g.smallest)
  {
    var i :| 0 <= i < |files| && files[i] == g;
    var j :| 0 <= j < |files| && files[j] == f;
    FileBounds(g, g.entries[0]);
    FileBounds(f, f.entries[0]);
  }

  lemma OverlappingIsConvex(files: seq<File>, lo: Option<UserKey>, hi: Option<UserKey>)
    requires ValidFiles(files) && Disjoint(files)
    ensures Convex(files, Overlapping(files, lo, hi))
  {
    var ins := Overlapping(files, lo, hi);
    forall g, f | g in files && g !in ins && f in ins
      ensures AfterFile(lo, g) ==> Less(g.largest, f.smallest)
      ensures !AfterFile(lo, g) ==> Less(f.largest, g.smallest)
    {
      OutsideBefore(files, lo, hi, g, f);
    }
  }
}
