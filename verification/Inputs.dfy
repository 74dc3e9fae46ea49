// Range queries over a level and the choice of compaction inputs (db/version_set.cc).

module Inputs {
  import opened Keys
  import opened Versions

  predicate AfterFile(u: Option<UserKey>, f: File) {
    u.Some? && u.value > f.largest.user
  }

  predicate BeforeFile(u: Option<UserKey>, f: File) {
    u.Some? && u.value < f.smallest.user
  }

  /** The user-key range of `f` meets [lo, hi]; a missing bound is infinite. */
  predicate Overlaps(f: File, lo: Option<UserKey>, hi: Option<UserKey>) {
    !AfterFile(lo, f) && !BeforeFile(hi, f)
  }

  /** The files of a level that meet a range, in level order. */
  function Overlapping(files: seq<File>, lo: Option<UserKey>, hi: Option<UserKey>): (r: seq<File>)
    ensures forall f :: f in r <==> f in files && Overlaps(f, lo, hi)
  {
    if files == [] then []
    else
      var front, last := files[..|files| - 1], files[|files| - 1];
      assert files == front + [last];
      var r := Overlapping(front, lo, hi);
      if Overlaps(last, lo, hi) then r + [last] else r
  }

  lemma {:induction false} OverlappingInOrder(files: seq<File>, lo: Option<UserKey>, hi: Option<UserKey>)
    ensures DistinctNumbers(files) ==> DistinctNumbers(Overlapping(files, lo, hi))
    ensures Disjoint(files) ==> Disjoint(Overlapping(files, lo, hi))
  {
    if files != [] {
      var front, last := files[..|files| - 1], files[|files| - 1];
      OverlappingInOrder(front, lo, hi);
      var r := Overlapping(front, lo, hi);
      forall i | 0 <= i < |r|
        ensures DistinctNumbers(files) ==> r[i].number != last.number
        ensures Disjoint(files) ==> Less(r[i].largest, last.smallest)
      {
        assert r[i] in front;
        var j :| 0 <= j < |front| && front[j] == r[i];
        assert files[j] == r[i];
      }
    }
  }

  function TotalFileSize(files: seq<File>): nat {
    if files == [] then 0 else files[0].size + TotalFileSize(files[1..])
  }

  lemma {:induction false} TotalOfPrefix(files: seq<File>, n: nat)
    requires n < |files|
    ensures TotalFileSize(files[..n + 1]) == TotalFileSize(files[..n]) + files[n].size
  {
    if n > 0 {
      TotalOfPrefix(files[1..], n - 1);
      assert files[..n + 1][1..] == files[1..][..n] && files[..n][1..] == files[1..][..n - 1];
    } else {
      assert files[..1] == [files[0]];
    }
  }

  lemma TotalOfSlice(files: seq<File>, m: nat, n: nat)
    requires m <= n < |files|
    ensures TotalFileSize(files[m..n + 1]) == TotalFileSize(files[m..n]) + files[n].size
  {
    TotalOfPrefix(files[m..], n - m);
    assert files[m..][..n - m] == files[m..n] && files[m..][..n - m + 1] == files[m..n + 1];
  }

  // ------------------------------------------------------------------ SomeFileOverlapsRange

  /** The binary search used on sorted disjoint files decides the same question as the plain scan,
      for every pair of bounds. */
  method SomeFileOverlapsRange(disjointSortedFiles: bool, files: seq<File>, smallest: Option<UserKey>,
                               largest: Option<UserKey>) returns (r: bool)
    requires ValidFiles(files) && (disjointSortedFiles ==> Disjoint(files))
    ensures r <==> exists f :: f in files && Overlaps(f, smallest, largest)
  {
    if !disjointSortedFiles {
      for i := 0 to |files|
        invariant forall j | 0 <= j < i :: !Overlaps(files[j], smallest, largest)
      {
        if AfterFile(smallest, files[i]) || BeforeFile(largest, files[i]) {
        } else {
          assert files[i] in files && Overlaps(files[i], smallest, largest);
          return true;
        }
      }
      return false;
    }
    var index := 0;
    if smallest.Some? {
      index := FindFile(files, IKey(smallest.value, MAX_SEQUENCE_NUMBER, TypeValue));
    }
    if index >= |files| {
      return false;
    }
    r := !BeforeFile(largest, files[index]);
    SmallestIncreasing(files);
    assert files[index] in files;
  }

  lemma SmallestIncreasing(files: seq<File>)
    requires ValidFiles(files) && Disjoint(files)
    ensures forall i, j | 0 <= i <= j < |files| :: LessEq(files[i].smallest, files[j].smallest)
  {
    forall i, j | 0 <= i < j < |files|
      ensures Less(files[i].smallest, files[j].smallest)
    {
      assert files[i] in files;
      FileBounds(files[i], files[i].entries[0]);
    }
  }

  // ------------------------------------------------------------------ GetOverlappingInputs

  predicate Within(f: File, lo: Option<UserKey>, hi: Option<UserKey>) {
    (lo.Some? ==> lo.value <= f.smallest.user) && (hi.Some? ==> f.largest.user <= hi.value)
  }

  /** [lo2, hi2] contains [lo, hi]; a missing bound must stay missing. */
  predicate Contains(lo2: Option<UserKey>, hi2: Option<UserKey>, lo: Option<UserKey>, hi: Option<UserKey>) {
    (lo2.None? <==> lo.None?) && (hi2.None? <==> hi.None?) &&
    (lo.Some? ==> lo2.value <= lo.value) && (hi.Some? ==> hi.value <= hi2.value)
  }

  /** Every file meeting the range lies inside it. */
  ghost predicate ClosedRange(files: seq<File>, lo: Option<UserKey>, hi: Option<UserKey>) {
    forall f | f in files && Overlaps(f, lo, hi) :: Within(f, lo, hi)
  }

  /** [lo, hi] contains [begin, end] and lies inside every closed range that does. */
  ghost predicate InLeastClosedRange(files: seq<File>, begin: Option<UserKey>, end: Option<UserKey>,
                                     lo: Option<UserKey>, hi: Option<UserKey>) {
    Contains(lo, hi, begin, end) &&
    forall x, y | Contains(x, y, begin, end) && ClosedRange(files, x, y) :: Contains(x, y, lo, hi)
  }

  /** Widening to the bounds of an overlapping file stays inside the least closed range. */
  lemma WidenToFile(files: seq<File>, begin: Option<UserKey>, end: Option<UserKey>,
                    lo: Option<UserKey>, hi: Option<UserKey>, f: File)
    requires ValidFiles(files) && InLeastClosedRange(files, begin, end, lo, hi)
    requires f in files && Overlaps(f, lo, hi)
    ensures lo.Some? && f.smallest.user < lo.value
            ==> InLeastClosedRange(files, begin, end, Some(f.smallest.user), hi)
    ensures hi.Some? && f.largest.user > hi.value
            ==> InLeastClosedRange(files, begin, end, lo, Some(f.largest.user))
  {
    forall x, y | Contains(x, y, begin, end) && ClosedRange(files, x, y)
      ensures Within(f, x, y)
    {
      assert Overlaps(f, x, y);
    }
  }

  /** How many files start before `lo`, plus how many end after `hi`: what a restart reduces. */
  function Outside(files: seq<File>, lo: Option<UserKey>, hi: Option<UserKey>): nat {
    if files == [] then 0
    else
      (if lo.Some? && files[0].smallest.user < lo.value then 1 else 0) +
      (if hi.Some? && files[0].largest.user > hi.value then 1 else 0) +
      Outside(files[1..], lo, hi)
  }

  lemma {:induction false} OutsideShrinks(files: seq<File>, lo: Option<UserKey>, hi: Option<UserKey>,
                                          lo2: Option<UserKey>, hi2: Option<UserKey>)
    requires Contains(lo2, hi2, lo, hi)
    ensures Outside(files, lo2, hi2) <= Outside(files, lo, hi)
    ensures lo.Some? && hi == hi2 && (exists f :: f in files && lo2.value <= f.smallest.user < lo.value)
            ==> Outside(files, lo2, hi2) < Outside(files, lo, hi)
    ensures hi.Some? && lo == lo2 && (exists f :: f in files && hi.value < f.largest.user <= hi2.value)
            ==> Outside(files, lo2, hi2) < Outside(files, lo, hi)
  {
    if files != [] {
      assert forall f :: f in files <==> f == files[0] || f in files[1..];
      OutsideShrinks(files[1..], lo, hi, lo2, hi2);
    }
  }

  lemma WiderOverlapsMore(files: seq<File>, begin: Option<UserKey>, end: Option<UserKey>,
                          lo: Option<UserKey>, hi: Option<UserKey>)
    requires InLeastClosedRange(files, begin, end, lo, hi)
    ensures forall f | f in Overlapping(files, begin, end) :: f in Overlapping(files, lo, hi)
  {
  }

  lemma StartsLeast(files: seq<File>, begin: Option<UserKey>, end: Option<UserKey>)
    ensures InLeastClosedRange(files, begin, end, begin, end)
  {
  }

  /** The files of a level that a range query takes: those that meet the range, on level 0 those that meet the least
      closed range around it. */
  ghost predicate InRange(level: nat, files: seq<File>, begin: Option<UserKey>, end: Option<UserKey>, met: seq<File>) {
    if level > 0 then met == Overlapping(files, begin, end)
    else exists lo, hi ::
      ClosedRange(files, lo, hi) && InLeastClosedRange(files, begin, end, lo, hi) && met == Overlapping(files, lo, hi)
  }

  /** A range query has one answer. */
  lemma InRangeUnique(level: nat, files: seq<File>, begin: Option<UserKey>, end: Option<UserKey>, a: seq<File>,
                      b: seq<File>)
    requires InRange(level, files, begin, end, a) && InRange(level, files, begin, end, b)
    ensures a == b
  {
    if level == 0 {
      var lo, hi :| ClosedRange(files, lo, hi) && InLeastClosedRange(files, begin, end, lo, hi) &&
                    a == Overlapping(files, lo, hi);
      var x, y :| ClosedRange(files, x, y) && InLeastClosedRange(files, begin, end, x, y) &&
                  b == Overlapping(files, x, y);
      assert Contains(x, y, lo, hi) && Contains(lo, hi, x, y);
    }
  }

  /** Version::GetOverlappingInputs. Level-0 files may overlap each other, so a file that sticks
      out widens the range and restarts the scan: the result is the files meeting the least closed
      range around [begin, end]. Deeper levels are filtered in one pass. */
  method GetOverlappingInputs(level: nat, files: seq<File>, begin: Option<UserKey>, end: Option<UserKey>)
    returns (inputs: seq<File>, ghost lo: Option<UserKey>, ghost hi: Option<UserKey>)
    requires ValidFiles(files)
    ensures inputs == Overlapping(files, lo, hi)
    ensures level > 0 ==> inputs == Overlapping(files, begin, end) && lo == begin && hi == end
    ensures level == 0 ==> forall f | f in Overlapping(files, begin, end) :: f in inputs
    ensures level == 0 ==> ClosedRange(files, lo, hi) && InLeastClosedRange(files, begin, end, lo, hi)
    ensures InRange(level, files, begin, end, inputs)
  {
    hide ValidFiles, Outside, InLeastClosedRange;
    StartsLeast(files, begin, end);
    inputs := [];
    var userBegin, userEnd := begin, end;
    var i := 0;
    while i < |files|
      invariant 0 <= i <= |files|
      invariant level > 0 ==> userBegin == begin && userEnd == end
      invariant inputs == Overlapping(files[..i], userBegin, userEnd)
      invariant level == 0 ==> ClosedRange(files[..i], userBegin, userEnd)
      invariant InLeastClosedRange(files, begin, end, userBegin, userEnd)
      decreases Outside(files, userBegin, userEnd), |files| - i
    {
      var f := files[i];
      assert files[..i + 1][..i] == files[..i] && files[..i + 1][i] == f;
      assert f in files;
      i := i + 1;
      if AfterFile(userBegin, f) {
      } else if BeforeFile(userEnd, f) {
      } else {
        inputs := inputs + [f];
        if level == 0 {
          WidenToFile(files, begin, end, userBegin, userEnd, f);
          if userBegin.Some? && f.smallest.user < userBegin.value {
            OutsideShrinks(files, userBegin, userEnd, Some(f.smallest.user), userEnd);
            userBegin := Some(f.smallest.user);
            inputs := [];
            i := 0;
          } else if userEnd.Some? && f.largest.user > userEnd.value {
            OutsideShrinks(files, userBegin, userEnd, userBegin, Some(f.largest.user));
            userEnd := Some(f.largest.user);
            inputs := [];
            i := 0;
          }
        }
      }
    }
    assert files[..i] == files;
    lo, hi := userBegin, userEnd;
    WiderOverlapsMore(files, begin, end, lo, hi);
  }

  // ------------------------------------------------------------------ AddBoundaryInputs

  /** `k` is the largest key of `files`. */
  ghost predicate IsLargest(files: seq<File>, k: IKey) {
    (exists f :: f in files && f.largest == k) && forall f | f in files :: LessEq(f.largest, k)
  }

  /** `f` starts after `k` with a further entry of the same user key. */
  predicate IsBoundary(f: File, k: IKey) {
    Less(k, f.smallest) && f.smallest.user == k.user
  }

  /** No file of the level continues the user key at which the chosen files end. */
  ghost predicate BoundaryClosed(files: seq<File>, ins: seq<File>) {
    forall k, g | IsLargest(ins, k) && g in files :: !IsBoundary(g, k)
  }

  /** `b` is the first file that continues the user key at which `ins` end. */
  ghost predicate Continues(files: seq<File>, ins: seq<File>, b: File) {
    exists k :: IsLargest(ins, k) && b in files && IsBoundary(b, k) &&
      forall g | g in files && IsBoundary(g, k) :: LessEq(b.smallest, g.smallest)
  }

  /** `ins` come from `chosen` by adding, one after the other, the file that continues those before it. */
  ghost predicate Chain(files: seq<File>, chosen: seq<File>, ins: seq<File>)
    decreases |ins|
  {
    ins == chosen ||
    (ins != [] && Chain(files, chosen, ins[..|ins| - 1]) && Continues(files, ins[..|ins| - 1], ins[|ins| - 1]))
  }

  /** What AddBoundaryInputs makes of the chosen files. */
  ghost predicate IsClosure(files: seq<File>, chosen: seq<File>, ins: seq<File>) {
    Chain(files, chosen, ins) && BoundaryClosed(files, ins)
  }

  /** Each file left out lies before all the chosen files or after all of them. */
  ghost predicate Convex(files: seq<File>, ins: seq<File>) {
    forall g | g in files && g !in ins ::
      (forall f | f in ins :: Less(g.largest, f.smallest)) || (forall f | f in ins :: Less(f.largest, g.smallest))
  }

  /** The two files share no user key. */
  predicate UserApart(f: File, g: File) {
    f.largest.user < g.smallest.user || g.largest.user < f.smallest.user
  }

  ghost predicate UserClosed(files: seq<File>, ins: seq<File>) {
    forall g, f | g in files && g !in ins && f in ins :: UserApart(g, f)
  }

  method FindLargestKey(files: seq<File>) returns (r: Option<IKey>)
    ensures r.None? <==> files == []
    ensures r.Some? ==> IsLargest(files, r.value)
  {
    if files == [] {
      return None;
    }
    var largest := files[0].largest;
    ghost var at := 0;
    for i := 1 to |files|
      invariant 0 <= at < i && files[at].largest == largest
      invariant forall j | 0 <= j < i :: LessEq(files[j].largest, largest)
    {
      if Compare(files[i].largest, largest) > 0 {
        largest := files[i].largest;
        at := i;
      }
    }
    assert files[at] in files;
    r := Some(largest);
  }

  method FindSmallestBoundaryFile(files: seq<File>, k: IKey) returns (r: Option<File>)
    ensures r.None? ==> forall g | g in files :: !IsBoundary(g, k)
    ensures r.Some? ==> r.value in files && IsBoundary(r.value, k)
    ensures r.Some? ==> forall g | g in files && IsBoundary(g, k) :: LessEq(r.value.smallest, g.smallest)
  {
    r := None;
    for i := 0 to |files|
      invariant r.None? ==> forall j | 0 <= j < i :: !IsBoundary(files[j], k)
      invariant r.Some? ==> r.value in files && IsBoundary(r.value, k)
      invariant r.Some? ==> forall j | 0 <= j < i && IsBoundary(files[j], k) ::
                  LessEq(r.value.smallest, files[j].smallest)
    {
      var f := files[i];
      if Compare(f.smallest, k) > 0 && f.smallest.user == k.user {
        if r.None? || Compare(f.smallest, r.value.smallest) < 0 {
          r := Some(f);
        }
      }
    }
  }

  /** How many files start after `k`: what each added boundary file reduces. */
  function StartingAfter(files: seq<File>, k: IKey): nat {
    if files == [] then 0
    else (if Less(k, files[0].smallest) then 1 else 0) + StartingAfter(files[1..], k)
  }

  lemma {:induction false} StartingAfterShrinks(files: seq<File>, k: IKey, k2: IKey)
    requires LessEq(k, k2)
    ensures StartingAfter(files, k2) <= StartingAfter(files, k)
    ensures (exists f :: f in files && Less(k, f.smallest) && LessEq(f.smallest, k2))
            ==> StartingAfter(files, k2) < StartingAfter(files, k)
  {
    if files != [] {
      assert forall f :: f in files <==> f == files[0] || f in files[1..];
      StartingAfterShrinks(files[1..], k, k2);
    }
  }

  /** A boundary file is new to the choice and moves its largest key up. */
  lemma BoundaryAdvances(files: seq<File>, ins: seq<File>, k: IKey, b: File)
    requires ValidFiles(files) && (forall f | f in ins :: f in files) && IsLargest(ins, k)
    requires b in files && IsBoundary(b, k)
    ensures Less(k, b.largest) && IsLargest(ins + [b], b.largest) && b !in ins
    ensures !UserClosed(files, ins)
  {
    FileBounds(b, b.entries[0]);
    var top :| top in ins && top.largest == k;
    FileBounds(top, top.entries[0]);
    assert b in ins + [b];
    assert forall f | f in ins + [b] :: f == b || f in ins;
    assert !UserApart(b, top);
  }

  /** Adding the first boundary file leaves no gap behind it. */
  lemma BoundaryKeepsConvex(files: seq<File>, ins: seq<File>, k: IKey, b: File)
    requires ValidFiles(files) && (forall f | f in ins :: f in files) && IsLargest(ins, k)
    requires b in files && IsBoundary(b, k)
    requires forall g | g in files && IsBoundary(g, k) :: LessEq(b.smallest, g.smallest)
    requires Disjoint(files) && Convex(files, ins)
    ensures Convex(files, ins + [b])
  {
    var top :| top in ins && top.largest == k;
    FileBounds(top, top.entries[0]);
    forall g | g in files && g !in ins + [b]
      ensures (forall f | f in ins + [b] :: Less(g.largest, f.smallest)) ||
              (forall f | f in ins + [b] :: Less(f.largest, g.smallest))
    {
      assert g !in ins && g != b;
      if forall f | f in ins :: Less(g.largest, f.smallest) {
        assert Less(g.largest, b.smallest);
      } else {
        BoundaryBefore(files, k, b, g);
        assert Less(b.largest, g.smallest);
      }
    }
  }

  lemma BoundaryBefore(files: seq<File>, k: IKey, b: File, g: File)
    requires ValidFiles(files) && Disjoint(files) && g in files && b in files && g != b
    requires Less(k, g.smallest) && IsBoundary(b, k)
    requires IsBoundary(g, k) ==> LessEq(b.smallest, g.smallest)
    ensures Less(b.largest, g.smallest)
  {
    FileBounds(g, g.entries[0]);
    var i :| 0 <= i < |files| && files[i] == g;
    var j :| 0 <= j < |files| && files[j] == b;
    assert j < i;
  }

  /** What holds of the chosen files each time a boundary file has been added. */
  ghost predicate Extended(files: seq<File>, chosen: seq<File>, ins: seq<File>) {
    chosen <= ins && DistinctNumbers(ins) && (forall f | f in ins :: f in files) &&
    (Disjoint(files) && Convex(files, chosen) ==> Convex(files, ins)) &&
    (Disjoint(chosen) ==> Disjoint(ins)) &&
    (UserClosed(files, chosen) ==> ins == chosen)
  }

  lemma BoundaryStep(files: seq<File>, chosen: seq<File>, ins: seq<File>, k: IKey, b: File)
    requires ValidFiles(files) && DistinctNumbers(files) && Extended(files, chosen, ins) && IsLargest(ins, k)
    requires b in files && IsBoundary(b, k)
    requires forall g | g in files && IsBoundary(g, k) :: LessEq(b.smallest, g.smallest)
    ensures Extended(files, chosen, ins + [b]) && IsLargest(ins + [b], b.largest)
    ensures StartingAfter(files, b.largest) < StartingAfter(files, k)
  {
    BoundaryAdvances(files, ins, k, b);
    if Disjoint(files) && Convex(files, ins) {
      BoundaryKeepsConvex(files, ins, k, b);
    }
    BoundaryAppends(files, ins, k, b);
    FileBounds(b, b.entries[0]);
    StartingAfterShrinks(files, k, b.largest);
  }

  /** Extends the chosen files until the level holds no further entry of their last user key. */
  method AddBoundaryInputs(files: seq<File>, chosen: seq<File>) returns (ins: seq<File>)
    requires ValidFiles(files) && DistinctNumbers(files)
    requires DistinctNumbers(chosen) && forall f | f in chosen :: f in files
    ensures Extended(files, chosen, ins) && IsClosure(files, chosen, ins)
  {
    ins := chosen;
    var first := FindLargestKey(ins);
    if first.None? {
      return;
    }
    var largest := first.value;
    var continueSearching := true;
    while continueSearching
      invariant Extended(files, chosen, ins) && IsLargest(ins, largest) && Chain(files, chosen, ins)
      invariant !continueSearching ==> forall g | g in files :: !IsBoundary(g, largest)
      decreases continueSearching, StartingAfter(files, largest)
    {
      var b := FindSmallestBoundaryFile(files, largest);
      if b.Some? {
        BoundaryStep(files, chosen, ins, largest, b.value);
        assert Continues(files, ins, b.value) && (ins + [b.value])[..|ins|] == ins;
        ins := ins + [b.value];
        largest := b.value.largest;
      } else {
        continueSearching := false;
      }
    }
    LargestIsUnique(files, ins, largest);
  }

  /** No two files start at the same key. */
  ghost predicate StartsApart(files: seq<File>) {
    forall f, g | f in files && g in files && f.smallest == g.smallest :: f == g
  }

  lemma {:induction false} ChainLonger(files: seq<File>, chosen: seq<File>, ins: seq<File>, n: nat)
    requires Chain(files, chosen, ins) && |chosen| <= n <= |ins|
    ensures Chain(files, chosen, ins[..n]) && chosen <= ins
    ensures n < |ins| ==> Continues(files, ins[..n], ins[n])
    decreases |ins|
  {
    if ins == chosen || n == |ins| {
      assert ins[..|ins|] == ins;
      if ins != chosen {
        ChainGrows(files, chosen, ins);
      }
    } else {
      ChainGrows(files, chosen, ins);
      ChainLonger(files, chosen, ins[..|ins| - 1], n);
      assert ins[..|ins| - 1][..n] == ins[..n];
    }
  }

  lemma {:induction false} ChainGrows(files: seq<File>, chosen: seq<File>, ins: seq<File>)
    requires Chain(files, chosen, ins)
    ensures chosen <= ins
    decreases |ins|
  {
    if ins != chosen {
      ChainGrows(files, chosen, ins[..|ins| - 1]);
    }
  }

  lemma ContinuesOnce(files: seq<File>, ins: seq<File>, a: File, b: File)
    requires StartsApart(files) && Continues(files, ins, a) && Continues(files, ins, b)
    ensures a == b
  {
  }

  /** Two chains from one choice, the second ending where nothing continues, agree as far as both go. */
  lemma {:induction false} ChainsAgree(files: seq<File>, chosen: seq<File>, a: seq<File>, b: seq<File>, n: nat)
    requires StartsApart(files) && Chain(files, chosen, a) && Chain(files, chosen, b)
    requires |chosen| <= n <= |a| && n <= |b|
    ensures a[..n] == b[..n]
    decreases n
  {
    hide Chain, Continues, StartsApart;
    ChainGrows(files, chosen, a);
    ChainGrows(files, chosen, b);
    if n > |chosen| {
      ChainsAgree(files, chosen, a, b, n - 1);
      ChainLonger(files, chosen, a, n - 1);
      ChainLonger(files, chosen, b, n - 1);
      ContinuesOnce(files, a[..n - 1], a[n - 1], b[n - 1]);
      assert a[..n] == a[..n - 1] + [a[n - 1]] && b[..n] == b[..n - 1] + [b[n - 1]];
    }
  }

  lemma ClosedNotLonger(files: seq<File>, chosen: seq<File>, a: seq<File>, b: seq<File>)
    requires StartsApart(files) && IsClosure(files, chosen, a) && Chain(files, chosen, b)
    ensures |b| <= |a|
  {
    hide Continues, StartsApart, Chain;
    ChainGrows(files, chosen, a);
    ClosedEnds(files, chosen, a);
    assert a[..|a|] == a;
    if |a| < |b| {
      ChainsAgree(files, chosen, a, b, |a|);
      ChainLonger(files, chosen, b, |a|);
    }
  }

  /** The closure is determined by the choice. */
  lemma ClosureUnique(files: seq<File>, chosen: seq<File>, a: seq<File>, b: seq<File>)
    requires StartsApart(files) && IsClosure(files, chosen, a) && IsClosure(files, chosen, b)
    ensures a == b
  {
    hide Chain, Continues, StartsApart;
    ClosedNotLonger(files, chosen, a, b);
    ClosedNotLonger(files, chosen, b, a);
    ChainGrows(files, chosen, a);
    ChainsAgree(files, chosen, a, b, |a|);
    assert a[..|a|] == a && b[..|b|] == b;
  }

  lemma ClosedEnds(files: seq<File>, chosen: seq<File>, ins: seq<File>)
    requires IsClosure(files, chosen, ins)
    ensures forall b :: !Continues(files, ins, b)
  {
  }

  lemma LargestIsUnique(files: seq<File>, ins: seq<File>, k: IKey)
    requires IsLargest(ins, k) && forall g | g in files :: !IsBoundary(g, k)
    ensures BoundaryClosed(files, ins)
  {
  }

  lemma BoundaryAppends(files: seq<File>, ins: seq<File>, k: IKey, b: File)
    requires DistinctNumbers(files) && DistinctNumbers(ins) && forall f | f in ins :: f in files
    requires IsLargest(ins, k) && IsBoundary(b, k)
    requires b in files && b !in ins
    ensures DistinctNumbers(ins + [b])
    ensures Disjoint(ins) ==> Disjoint(ins + [b])
  {
    forall i | 0 <= i < |ins|
      ensures ins[i].number != b.number && Less(ins[i].largest, b.smallest)
    {
      assert ins[i] in ins;
    }
  }
}
