// Installing a compaction keeps the version well formed, and keeps every live read exactly when no
// dropped tombstone was hiding a value in a file left behind (db/db_impl.cc, db/version_set.cc).

module CompactionSafety {
  import opened Keys
  import opened Reads
  import opened Versions
  import opened Inputs
  import opened DropRule
  import opened Compactions
  import opened Builders

  /** Entries of a level's files that are not inputs. */
  ghost function LeftBehind(files: seq<File>, ins: seq<File>): set<Entry> {
    set f, e | f in files && f !in ins && e in f.entries :: e
  }

  ghost function Shallower(v: Version, level: nat): set<Entry> {
    set l, e | 0 <= l < |v| && l < level && e in LevelEntries(v[l]) :: e
  }

  ghost function Up(v: Version, level: nat, in0: seq<File>): set<Entry>
    requires level < |v|
  {
    Shallower(v, level) + LeftBehind(v[level], in0)
  }

  ghost function Deep(v: Version, level: nat): set<Entry> {
    set l, e | level + 2 <= l < |v| && e in LevelEntries(v[l]) :: e
  }

  ghost function Ins(in0: seq<File>, in1: seq<File>): set<Entry> {
    LevelEntries(in0) + LevelEntries(in1)
  }

  /** The input user keys for which IsBaseLevelForKey holds. */
  ghost function BaseKeys(v: Version, level: nat, ins: set<Entry>): set<UserKey> {
    set e | e in ins && IsBase(v, level, e.key.user) :: e.key.user
  }

  lemma Partition(v: Version, level: nat, in0: seq<File>, in1: seq<File>)
    requires level + 1 < |v| && Subset(in0, v[level]) && Subset(in1, v[level + 1])
    ensures VersionEntries(v) == Up(v, level, in0) + LeftBehind(v[level + 1], in1) + Deep(v, level) + Ins(in0, in1)
  {
    var parts := Up(v, level, in0) + LeftBehind(v[level + 1], in1) + Deep(v, level) + Ins(in0, in1);
    forall e | e in VersionEntries(v)
      ensures e in parts
    {
      var l :| 0 <= l < |v| && e in LevelEntries(v[l]);
      var f :| f in v[l] && e in f.entries;
    }
    forall e | e in parts
      ensures e in VersionEntries(v)
    {
      if e in LevelEntries(in0) + LeftBehind(v[level], in0) {
        assert e in LevelEntries(v[level]);
      } else if e in LevelEntries(in1) + LeftBehind(v[level + 1], in1) {
        assert e in LevelEntries(v[level + 1]);
      }
    }
  }

  // ------------------------------------------------------------------ the inputs are surrounded

  /** Within one level, an entry of a file that comes first is the newer one for its user key. */
  lemma FirstFileNewer(es: set<Entry>, g: File, f: File, x: Entry, y: Entry)
    requires ValidFile(g) && ValidFile(f) && x in g.entries && y in f.entries
    requires UserApart(g, f) || Less(g.largest, f.smallest)
    requires Unique(es) && x in es && y in es && x.key.user == y.key.user
    ensures x.key.sequence > y.key.sequence
  {
    FileBounds(g, x);
    FileBounds(f, y);
  }

  /** What is left at the input level is newer than the inputs taken from it. */
  lemma LeftAboveNewer(level: nat, files: seq<File>, in0: seq<File>)
    requires ValidFiles(files) && Unique(LevelEntries(files)) && Subset(in0, files)
    requires UpperClosed(level, files, in0)
    ensures Newer(LeftBehind(files, in0), LevelEntries(in0))
  {
    forall x, y | x in LeftBehind(files, in0) && y in LevelEntries(in0) && x.key.user == y.key.user
      ensures x.key.sequence > y.key.sequence
    {
      var g :| g in files && g !in in0 && x in g.entries;
      var f :| f in in0 && y in f.entries;
      assert x in LevelEntries(files) && y in LevelEntries(files);
      FirstFileNewer(LevelEntries(files), g, f, x, y);
    }
  }

  lemma LevelUnique(v: Version, l: nat)
    requires l < |v| && Unique(VersionEntries(v))
    ensures Unique(LevelEntries(v[l]))
  {
    assert forall e | e in LevelEntries(v[l]) :: e in VersionEntries(v);
  }

  lemma UpNewer(v: Version, level: nat, in0: seq<File>, in1: seq<File>)
    requires ValidVersion(v) && level + 1 < |v| && UpperClosed(level, v[level], in0)
    requires Subset(in0, v[level]) && Subset(in1, v[level + 1])
    ensures Newer(Up(v, level, in0), Ins(in0, in1))
  {
    hide UpperClosed;
    assert ValidLevel(level, v[level]);
    LevelUnique(v, level);
    LeftAboveNewer(level, v[level], in0);
    forall x, y | x in Up(v, level, in0) && y in Ins(in0, in1) && x.key.user == y.key.user
      ensures x.key.sequence > y.key.sequence
    {
      var l :| 0 <= l <= level && x in LevelEntries(v[l]);
      if y in LevelEntries(in1) {
        assert y in LevelEntries(v[level + 1]);
        assert Newer(LevelEntries(v[l]), LevelEntries(v[level + 1]));
      } else if x in LeftBehind(v[level], in0) {
        assert Newer(LeftBehind(v[level], in0), LevelEntries(in0));
      } else {
        assert y in LevelEntries(v[level]);
        var k :| 0 <= k < |v| && k < level && x in LevelEntries(v[k]);
        assert Newer(LevelEntries(v[k]), LevelEntries(v[level]));
      }
    }
  }

  lemma SharedEntry(files: seq<File>, f: File, g: File, e: Entry)
    requires ValidFiles(files) && Disjoint(files) && f in files && g in files
    requires e in f.entries && e in g.entries
    ensures f == g
  {
    FileBounds(f, e);
    FileBounds(g, e);
    var i :| 0 <= i < |files| && files[i] == f;
    var j :| 0 <= j < |files| && files[j] == g;
    assert !(i < j) && !(j < i);
  }

  lemma SideApart(v: Version, level: nat, in0: seq<File>, in1: seq<File>)
    requires ValidVersion(v) && level + 1 < |v| && Subset(in0, v[level]) && Subset(in1, v[level + 1])
    ensures LeftBehind(v[level + 1], in1) !! Ins(in0, in1)
  {
    var files := v[level + 1];
    assert ValidLevel(level + 1, files);
    assert Newer(LevelEntries(v[level]), LevelEntries(files));
    forall e | e in LeftBehind(files, in1)
      ensures e !in LevelEntries(in0) && e !in LevelEntries(in1)
    {
      assert e in LevelEntries(files);
      assert e !in LevelEntries(v[level]);
      var g :| g in files && g !in in1 && e in g.entries;
      forall f | f in in1 && e in f.entries
        ensures false
      {
        SharedEntry(files, f, g, e);
      }
    }
  }

  lemma DeepNotBase(v: Version, level: nat, ins: set<Entry>)
    requires ValidVersion(v)
    ensures forall e | e in Deep(v, level) :: e.key.user !in BaseKeys(v, level, ins)
  {
    forall e | e in Deep(v, level)
      ensures !IsBase(v, level, e.key.user)
    {
      var l :| level + 2 <= l < |v| && e in LevelEntries(v[l]);
      var f :| f in v[l] && e in f.entries;
      assert ValidLevel(l, v[l]);
      FileBounds(f, e);
    }
  }

  lemma InputsSurrounded(v: Version, level: nat, in0: seq<File>, in1: seq<File>)
    requires ValidVersion(v) && ClosedInputs(v, level, in0, in1)
    ensures Surrounded(Up(v, level, in0), LeftBehind(v[level + 1], in1), Deep(v, level), Ins(in0, in1),
                       BaseKeys(v, level, Ins(in0, in1)))
    ensures VersionEntries(v) == Up(v, level, in0) + LeftBehind(v[level + 1], in1) + Deep(v, level) + Ins(in0, in1)
  {
    Partition(v, level, in0, in1);
    UpNewer(v, level, in0, in1);
    SideApart(v, level, in0, in1);
    DeepNotBase(v, level, Ins(in0, in1));
  }

  // ------------------------------------------------------------------ installing the outputs

  /** AddInputDeletions followed by the outputs, as in InstallCompactionResults. */
  function CompactionEdit(level: nat, in0: seq<File>, in1: seq<File>, outs: seq<File>): VersionEdit {
    VersionEdit((set f | f in in0 :: (level, f.number)) + (set f | f in in1 :: (level + 1, f.number)),
                seq(|outs|, i requires 0 <= i < |outs| => (level + 1, outs[i])))
  }

  /** The files DoCompactionWork writes. */
  ghost predicate Outputs(v: Version, level: nat, in0: seq<File>, in1: seq<File>, ss: SequenceNumber, outs: seq<File>) {
    ValidFiles(outs) && Disjoint(outs) && DistinctNumbers(outs) &&
    LevelEntries(outs) == Kept(Ins(in0, in1), ss, BaseKeys(v, level, Ins(in0, in1)))
  }

  /** No output reuses the number of a file of the level it goes to. */
  ghost predicate FreshNumbers(files: seq<File>, outs: seq<File>) {
    forall f, g | f in files && g in outs :: f.number != g.number
  }

  lemma CompactionAdds(level: nat, in0: seq<File>, in1: seq<File>, outs: seq<File>, l: nat)
    ensures AddedFiles(CompactionEdit(level, in0, in1, outs), l) == if l == level + 1 then FilesOf(outs) else {}
  {
    var edit := CompactionEdit(level, in0, in1, outs);
    forall f
      ensures f in AddedFiles(edit, l) <==> l == level + 1 && f in outs
    {
      if l == level + 1 && f in outs {
        var i :| 0 <= i < |outs| && outs[i] == f;
        assert edit.newFiles[i] == (l, f);
      }
    }
  }

  /** Which files of level `l` an installed compaction leaves there. */
  lemma CompactionFilesAt(v: Version, level: nat, in0: seq<File>, in1: seq<File>, outs: seq<File>, w: Version, l: nat,
                          f: File)
    requires level + 1 < |v| && Subset(in0, v[level]) && Subset(in1, v[level + 1])
    requires l < |v| && ValidLevel(l, v[l]) && FreshNumbers(v[level + 1], outs)
    requires Installed(v, CompactionEdit(level, in0, in1, outs), w)
    ensures l != level && l != level + 1 ==> (f in w[l] <==> f in v[l])
    ensures l == level ==> (f in w[l] <==> f in v[l] && f !in in0)
    ensures l == level + 1 ==> (f in w[l] <==> (f in v[l] && f !in in1) || f in outs)
  {
    var edit := CompactionEdit(level, in0, in1, outs);
    CompactionAdds(level, in0, in1, outs, l);
    assert f in w[l] <==> f in FilesOf(w[l]);
    assert f in w[l] <==> f in AfterEdit(FilesOf(v[l]), edit, l);
    if f in v[l] {
      assert f.number !in NumbersOf(AddedFiles(edit, l));
      if l == level {
        DeletedIffInput(v, level, l, in0, in1, in0, outs, f);
      } else if l == level + 1 {
        DeletedIffInput(v, level, l, in0, in1, in1, outs, f);
      }
    }
  }

  lemma CompactionFiles(v: Version, level: nat, in0: seq<File>, in1: seq<File>, outs: seq<File>, w: Version)
    requires ValidVersion(v) && level + 1 < |v| && Subset(in0, v[level]) && Subset(in1, v[level + 1])
    requires FreshNumbers(v[level + 1], outs)
    requires Installed(v, CompactionEdit(level, in0, in1, outs), w)
    ensures forall l: nat | l < |v| && l != level && l != level + 1 :: FilesOf(w[l]) == FilesOf(v[l])
    ensures forall f :: f in w[level] <==> f in v[level] && f !in in0
    ensures forall f :: f in w[level + 1] <==> (f in v[level + 1] && f !in in1) || f in outs
  {
    forall l: nat | l < |v| && l != level && l != level + 1
      ensures FilesOf(w[l]) == FilesOf(v[l])
    {
      forall f
        ensures f in FilesOf(w[l]) <==> f in FilesOf(v[l])
      {
        CompactionFilesAt(v, level, in0, in1, outs, w, l, f);
      }
    }
    forall f
      ensures f in w[level] <==> f in v[level] && f !in in0
      ensures f in w[level + 1] <==> (f in v[level + 1] && f !in in1) || f in outs
    {
      CompactionFilesAt(v, level, in0, in1, outs, w, level, f);
      CompactionFilesAt(v, level, in0, in1, outs, w, level + 1, f);
    }
  }

  lemma DeletedIffInput(v: Version, level: nat, l: nat, in0: seq<File>, in1: seq<File>, ins: seq<File>,
                        outs: seq<File>, f: File)
    requires l < |v| && ValidLevel(l, v[l]) && Subset(ins, v[l]) && f in v[l]
    requires (l == level && ins == in0) || (l == level + 1 && ins == in1)
    ensures f.number in DeletedAt(CompactionEdit(level, in0, in1, outs), l) <==> f in ins
  {
    var edit := CompactionEdit(level, in0, in1, outs);
    if f in ins {
      assert (l, f.number) in edit.deletedFiles;
    }
    if f.number in DeletedAt(edit, l) {
      assert (l, f.number) in edit.deletedFiles;
      var g :| g in ins && g.number == f.number;
      NumberIdentifies(v[l], f, g);
    }
  }

  /** The level-by-level effect of a compaction. */
  ghost predicate Compacted(v: Version, level: nat, in0: seq<File>, in1: seq<File>, outs: seq<File>, w: Version)
    requires level + 1 < |v| == |w|
  {
    (forall l | 0 <= l < |v| && l != level && l != level + 1 :: LevelEntries(w[l]) == LevelEntries(v[l])) &&
    LevelEntries(w[level]) == LeftBehind(v[level], in0) &&
    LevelEntries(w[level + 1]) == LeftBehind(v[level + 1], in1) + LevelEntries(outs)
  }

  lemma CompactedLevels(v: Version, level: nat, in0: seq<File>, in1: seq<File>, outs: seq<File>, w: Version)
    requires level + 1 < |v| == |w|
    requires forall l: nat | l < |v| && l != level && l != level + 1 :: FilesOf(w[l]) == FilesOf(v[l])
    requires forall f :: f in w[level] <==> f in v[level] && f !in in0
    requires forall f :: f in w[level + 1] <==> (f in v[level + 1] && f !in in1) || f in outs
    ensures Compacted(v, level, in0, in1, outs, w)
  {
    forall l: nat | l < |v| && l != level && l != level + 1
      ensures LevelEntries(w[l]) == LevelEntries(v[l])
    {
      SameFilesSameEntries(w[l], v[l]);
    }
  }

  lemma SameFilesSameEntries(a: seq<File>, b: seq<File>)
    requires FilesOf(a) == FilesOf(b)
    ensures LevelEntries(a) == LevelEntries(b) && Subset(a, b)
  {
    forall f
      ensures f in a <==> f in b
    {
      assert f in a <==> f in FilesOf(a);
    }
  }

  lemma CompactedEntries(v: Version, level: nat, in0: seq<File>, in1: seq<File>, outs: seq<File>, w: Version)
    requires level + 1 < |v| == |w| && Compacted(v, level, in0, in1, outs, w)
    ensures VersionEntries(w) == Up(v, level, in0) + LeftBehind(v[level + 1], in1) + Deep(v, level) + LevelEntries(outs)
  {
    var parts := Up(v, level, in0) + LeftBehind(v[level + 1], in1) + Deep(v, level) + LevelEntries(outs);
    forall e | e in VersionEntries(w)
      ensures e in parts
    {
      var l :| 0 <= l < |w| && e in LevelEntries(w[l]);
    }
    forall e | e in parts
      ensures e in VersionEntries(w)
    {
      if e in Shallower(v, level) {
        var l :| 0 <= l < |v| && l < level && e in LevelEntries(v[l]);
        assert e in LevelEntries(w[l]);
      } else if e in Deep(v, level) {
        var l :| level + 2 <= l < |v| && e in LevelEntries(v[l]);
        assert e in LevelEntries(w[l]);
      } else {
        assert e in LevelEntries(w[level]) || e in LevelEntries(w[level + 1]);
      }
    }
  }

  lemma CompactionEntries(v: Version, level: nat, in0: seq<File>, in1: seq<File>, outs: seq<File>, w: Version)
    requires ValidVersion(v) && level + 1 < |v| && Subset(in0, v[level]) && Subset(in1, v[level + 1])
    requires FreshNumbers(v[level + 1], outs)
    requires Installed(v, CompactionEdit(level, in0, in1, outs), w)
    ensures |w| == |v| && Compacted(v, level, in0, in1, outs, w)
    ensures VersionEntries(w) == Up(v, level, in0) + LeftBehind(v[level + 1], in1) + Deep(v, level) + LevelEntries(outs)
  {
    CompactionFiles(v, level, in0, in1, outs, w);
    CompactedLevels(v, level, in0, in1, outs, w);
    CompactedEntries(v, level, in0, in1, outs, w);
  }

  /** No tombstone the compaction drops was hiding a value in a file left behind at level+1 from a
      reader at the smallest snapshot; `newer` is what the memtables hold. */
  ghost predicate UncoversNothing(newer: set<Entry>, v: Version, level: nat, in0: seq<File>, in1: seq<File>,
                                  ss: SequenceNumber)
    requires level + 1 < |v|
  {
    ResurrectsNothing(newer + VersionEntries(v), LeftBehind(v[level + 1], in1), Ins(in0, in1), ss,
                      BaseKeys(v, level, Ins(in0, in1)))
  }

  lemma DropExactInVersion(newer: set<Entry>, v: Version, level: nat, in0: seq<File>, in1: seq<File>,
                           ss: SequenceNumber, after: set<Entry>)
    requires ValidVersion(v) && ClosedInputs(v, level, in0, in1)
    requires Newer(newer, VersionEntries(v)) && Unique(newer + VersionEntries(v))
    requires after == Up(v, level, in0) + LeftBehind(v[level + 1], in1) + Deep(v, level) +
                      Kept(Ins(in0, in1), ss, BaseKeys(v, level, Ins(in0, in1)))
    ensures SameReads(newer + VersionEntries(v), newer + after, ss) <==> UncoversNothing(newer, v, level, in0, in1, ss)
  {
    InputsSurrounded(v, level, in0, in1);
    DropRuleExactBelow(newer, Up(v, level, in0), LeftBehind(v[level + 1], in1), Deep(v, level), Ins(in0, in1),
                       BaseKeys(v, level, Ins(in0, in1)), ss, VersionEntries(v), after);
  }

  /** Installing a compaction changes no read at or above the smallest snapshot if and only if it
      uncovers nothing. */
  lemma CompactionExact(newer: set<Entry>, v: Version, level: nat, in0: seq<File>, in1: seq<File>,
                        ss: SequenceNumber, outs: seq<File>, w: Version)
    requires ValidVersion(v) && ClosedInputs(v, level, in0, in1)
    requires Newer(newer, VersionEntries(v)) && Unique(newer + VersionEntries(v))
    requires Outputs(v, level, in0, in1, ss, outs) && FreshNumbers(v[level + 1], outs)
    requires Installed(v, CompactionEdit(level, in0, in1, outs), w)
    ensures SameReads(newer + VersionEntries(v), newer + VersionEntries(w), ss)
            <==> UncoversNothing(newer, v, level, in0, in1, ss)
  {
    CompactionEntries(v, level, in0, in1, outs, w);
    DropExactInVersion(newer, v, level, in0, in1, ss, VersionEntries(w));
  }

  // ------------------------------------------------------------------ the version stays valid

  lemma OrderInLevel(files: seq<File>, f: File, g: File)
    requires InOrder(files) && f in files && g in files && FileBefore(f, g)
    ensures exists i, j :: 0 <= i < j < |files| && files[i] == f && files[j] == g
  {
    var i :| 0 <= i < |files| && files[i] == f;
    var j :| 0 <= j < |files| && files[j] == g;
    assert !FileBefore(g, f) && f != g;
    assert i < j;
  }

  /** Removing files keeps a level valid. */
  lemma SubsetLevel(l: nat, files: seq<File>, sub: seq<File>)
    requires ValidLevel(l, files) && InOrder(sub) && Subset(sub, files)
    ensures ValidLevel(l, sub)
  {
    forall i, j | 0 <= i < j < |sub|
      ensures sub[i].number != sub[j].number
      ensures l > 0 ==> Less(sub[i].largest, sub[j].smallest)
    {
      OrderInLevel(files, sub[i], sub[j]);
    }
  }

  predicate Apart(f: File, g: File) {
    Less(f.largest, g.smallest) || Less(g.largest, f.smallest)
  }

  /** Two disjoint runs of files whose ranges do not meet merge into one. */
  lemma MergedLevel(l: nat, a: seq<File>, b: seq<File>, sub: seq<File>)
    requires l > 0 && ValidLevel(l, a) && ValidFiles(b) && Disjoint(b) && DistinctNumbers(b) && FreshNumbers(a, b)
    requires InOrder(sub) && forall f | f in sub :: f in a || f in b
    requires forall f, g | f in sub && g in b :: f in b || Apart(f, g)
    ensures ValidLevel(l, sub)
  {
    forall i, j | 0 <= i < j < |sub|
      ensures sub[i].number != sub[j].number
      ensures Less(sub[i].largest, sub[j].smallest)
    {
      var f, g := sub[i], sub[j];
      assert f in sub && g in sub && FileBefore(f, g);
      FileBounds(f, f.entries[0]);
      FileBounds(g, g.entries[0]);
      if f in b && g in b {
        DisjointBefore(b, f, g);
      } else if f in b || g in b {
        assert Apart(f, g) || Apart(g, f);
        assert f.number != g.number;
      } else {
        OrderInLevel(a, f, g);
      }
    }
  }

  lemma DisjointBefore(b: seq<File>, f: File, g: File)
    requires ValidFiles(b) && Disjoint(b) && DistinctNumbers(b) && f in b && g in b && FileBefore(f, g)
    ensures Less(f.largest, g.smallest) && f.number != g.number
  {
    FileBounds(f, f.entries[0]);
    FileBounds(g, g.entries[0]);
    var i :| 0 <= i < |b| && b[i] == f;
    var j :| 0 <= j < |b| && b[j] == g;
    assert i != j;
    assert !(j < i);
  }

  lemma SideOfInput(files: seq<File>, lo: UserKey, hi: UserKey, g: File, f: File)
    requires ValidFiles(files) && Disjoint(files)
    requires g in files && !Overlaps(g, Some(lo), Some(hi)) && f in files && Overlaps(f, Some(lo), Some(hi))
    ensures g.largest.user < lo || hi < g.smallest.user
    ensures g.largest.user < lo ==> Less(g.largest, f.smallest)
    ensures hi < g.smallest.user ==> Less(f.largest, g.smallest)
  {
    FileBounds(f, f.entries[0]);
    FileBounds(g, g.entries[0]);
    var i :| 0 <= i < |files| && files[i] == g;
    var j :| 0 <= j < |files| && files[j] == f;
  }

  /** A level+1 file left out lies wholly before or wholly after everything being compacted. */
  lemma SideSeparated(files: seq<File>, in0: seq<File>, lo: UserKey, hi: UserKey, g: File, e: Entry)
    requires ValidFiles(files) && Disjoint(files) && ValidFiles(in0) && Covers(lo, hi, in0)
    requires g in files && g !in Overlapping(files, Some(lo), Some(hi))
    requires e in LevelEntries(in0) || e in LevelEntries(Overlapping(files, Some(lo), Some(hi)))
    ensures g.largest.user < lo || hi < g.smallest.user
    ensures g.largest.user < lo ==> Less(g.largest, e.key)
    ensures hi < g.smallest.user ==> Less(e.key, g.smallest)
  {
    if e in LevelEntries(in0) {
      var f :| f in in0 && e in f.entries;
      FileBounds(f, e);
    } else {
      var f :| f in Overlapping(files, Some(lo), Some(hi)) && e in f.entries;
      FileBounds(f, e);
      SideOfInput(files, lo, hi, g, f);
    }
  }

  lemma OutputApart(files: seq<File>, in0: seq<File>, lo: UserKey, hi: UserKey, outs: seq<File>, g: File, o: File)
    requires ValidFiles(files) && Disjoint(files) && ValidFiles(in0) && Covers(lo, hi, in0)
    requires g in files && g !in Overlapping(files, Some(lo), Some(hi))
    requires o in outs && ValidFile(o) && LevelEntries(outs) <= Ins(in0, Overlapping(files, Some(lo), Some(hi)))
    ensures Apart(g, o)
  {
    var first, last := o.entries[0], o.entries[|o.entries| - 1];
    assert first in o.entries && last in o.entries;
    assert first in LevelEntries(outs) && last in LevelEntries(outs);
    SideSeparated(files, in0, lo, hi, g, first);
    SideSeparated(files, in0, lo, hi, g, last);
  }

  /** The two levels a compaction touches keep their place between the others. */
  lemma CompactedOrder(v: Version, level: nat, in0: seq<File>, in1: seq<File>, outs: seq<File>, w: Version)
    requires LevelOrder(v) && |w| == |v| && level + 1 < |v| && Subset(in0, v[level]) && Subset(in1, v[level + 1])
    requires Newer(LeftBehind(v[level], in0), LevelEntries(in0))
    requires Compacted(v, level, in0, in1, outs, w) && LevelEntries(outs) <= Ins(in0, in1)
    ensures LevelOrder(w)
  {
    forall l, m | 0 <= l < m < |w|
      ensures Newer(LevelEntries(w[l]), LevelEntries(w[m]))
    {
      assert Newer(LevelEntries(v[l]), LevelEntries(v[m]));
      assert m != level + 1 || l == level || Newer(LevelEntries(v[l]), LevelEntries(v[level]));
      assert l != level + 1 || Newer(LevelEntries(v[level]), LevelEntries(v[m]));
      forall x, y | x in LevelEntries(w[l]) && y in LevelEntries(w[m]) && x.key.user == y.key.user
        ensures x.key.sequence > y.key.sequence
      {
        WhereFrom(v, level, in0, in1, outs, w, l, x);
        WhereFrom(v, level, in0, in1, outs, w, m, y);
      }
    }
  }

  lemma WhereFrom(v: Version, level: nat, in0: seq<File>, in1: seq<File>, outs: seq<File>, w: Version, l: nat, e: Entry)
    requires level + 1 < |v| == |w| && Subset(in0, v[level]) && Subset(in1, v[level + 1])
    requires Compacted(v, level, in0, in1, outs, w) && LevelEntries(outs) <= Ins(in0, in1)
    requires l < |w| && e in LevelEntries(w[l])
    ensures e in LevelEntries(v[l]) || (l == level + 1 && e in LevelEntries(in0) && e in LevelEntries(v[level]))
  {
    if l == level + 1 {
      assert e in LeftBehind(v[level + 1], in1) || e in LevelEntries(in0) || e in LevelEntries(in1);
    }
  }

  lemma CompactedLevelValid(v: Version, level: nat, in0: seq<File>, in1: seq<File>, outs: seq<File>, sub: seq<File>)
    requires level + 1 < |v| && ClosedInputs(v, level, in0, in1)
    requires ValidLevel(level, v[level]) && ValidLevel(level + 1, v[level + 1])
    requires ValidFiles(outs) && Disjoint(outs) && DistinctNumbers(outs) && FreshNumbers(v[level + 1], outs)
    requires LevelEntries(outs) <= Ins(in0, in1)
    requires InOrder(sub) && forall f :: f in sub <==> (f in v[level + 1] && f !in in1) || f in outs
    ensures ValidLevel(level + 1, sub)
  {
    var lo, hi :| Covers(lo, hi, in0) && in1 == Overlapping(v[level + 1], Some(lo), Some(hi));
    forall f, g | f in sub && g in outs
      ensures f in outs || Apart(f, g)
    {
      if f !in outs {
        OutputApart(v[level + 1], in0, lo, hi, outs, f, g);
      }
    }
    MergedLevel(level + 1, v[level + 1], outs, sub);
  }

  lemma CompactionLevelsValid(v: Version, level: nat, in0: seq<File>, in1: seq<File>, outs: seq<File>, w: Version)
    requires |v| == |w| &&
             (forall l: nat | l < |v| :: ValidLevel(l, v[l]) && InOrder(w[l])) && ClosedInputs(v, level, in0, in1)
    requires ValidFiles(outs) && Disjoint(outs) && DistinctNumbers(outs) && FreshNumbers(v[level + 1], outs)
    requires LevelEntries(outs) <= Ins(in0, in1)
    requires forall l: nat | l < |v| && l != level && l != level + 1 :: FilesOf(w[l]) == FilesOf(v[l])
    requires forall f :: f in w[level] <==> f in v[level] && f !in in0
    requires forall f :: f in w[level + 1] <==> (f in v[level + 1] && f !in in1) || f in outs
    ensures forall l: nat | l < |v| :: ValidLevel(l, w[l])
  {
    forall l: nat | l < |v|
      ensures ValidLevel(l, w[l])
    {
      if l == level + 1 {
        CompactedLevelValid(v, level, in0, in1, outs, w[l]);
      } else {
        if l != level {
          SameFilesSameEntries(w[l], v[l]);
        }
        SubsetLevel(l, v[l], w[l]);
      }
    }
  }

  lemma InputLevelNewer(v: Version, level: nat, in0: seq<File>)
    requires ValidVersion(v) && level < |v| && Subset(in0, v[level]) && UpperClosed(level, v[level], in0)
    ensures Newer(LeftBehind(v[level], in0), LevelEntries(in0))
  {
    assert ValidLevel(level, v[level]);
    LevelUnique(v, level);
    LeftAboveNewer(level, v[level], in0);
  }

  lemma CompactionUnique(v: Version, level: nat, in0: seq<File>, in1: seq<File>, outs: seq<File>, w: Version)
    requires level + 1 < |v| && Subset(in0, v[level]) && Subset(in1, v[level + 1]) && Unique(VersionEntries(v))
    requires VersionEntries(w) ==
             Up(v, level, in0) + LeftBehind(v[level + 1], in1) + Deep(v, level) + LevelEntries(outs)
    requires LevelEntries(outs) <= Ins(in0, in1)
    ensures Unique(VersionEntries(w))
  {
    Partition(v, level, in0, in1);
    assert VersionEntries(w) <= VersionEntries(v);
  }

  lemma CompactionOrderValid(v: Version, level: nat, in0: seq<File>, in1: seq<File>, outs: seq<File>, w: Version)
    requires ValidVersion(v) && ClosedInputs(v, level, in0, in1) && FreshNumbers(v[level + 1], outs)
    requires LevelEntries(outs) <= Ins(in0, in1)
    requires Installed(v, CompactionEdit(level, in0, in1, outs), w)
    ensures LevelOrder(w) && Unique(VersionEntries(w))
  {
    CompactionEntries(v, level, in0, in1, outs, w);
    CompactionUnique(v, level, in0, in1, outs, w);
    InputLevelNewer(v, level, in0);
    CompactedOrder(v, level, in0, in1, outs, w);
  }

  lemma CompactionFilesValid(v: Version, level: nat, in0: seq<File>, in1: seq<File>, outs: seq<File>, w: Version)
    requires ValidVersion(v) && ClosedInputs(v, level, in0, in1)
    requires ValidFiles(outs) && Disjoint(outs) && DistinctNumbers(outs) && FreshNumbers(v[level + 1], outs)
    requires LevelEntries(outs) <= Ins(in0, in1)
    requires Installed(v, CompactionEdit(level, in0, in1, outs), w)
    ensures forall l: nat | l < |v| :: ValidLevel(l, w[l])
  {
    CompactionFiles(v, level, in0, in1, outs, w);
    CompactionLevelsValid(v, level, in0, in1, outs, w);
  }

  /** The invariant of the level structure survives every compaction, whether or not it uncovers
      anything; a trivial move is the case where the output is the input file. */
  lemma CompactionKeepsValid(v: Version, level: nat, in0: seq<File>, in1: seq<File>, outs: seq<File>, w: Version)
    requires ValidVersion(v) && ClosedInputs(v, level, in0, in1)
    requires ValidFiles(outs) && Disjoint(outs) && DistinctNumbers(outs) && FreshNumbers(v[level + 1], outs)
    requires LevelEntries(outs) <= Ins(in0, in1)
    requires Installed(v, CompactionEdit(level, in0, in1, outs), w)
    ensures ValidVersion(w)
  {
    CompactionFilesValid(v, level, in0, in1, outs, w);
    CompactionOrderValid(v, level, in0, in1, outs, w);
  }

  // ------------------------------------------------------------------ when nothing is uncovered

  lemma NoSharedUserKey(files: seq<File>, in0: seq<File>, lo: UserKey, hi: UserKey, g: File, q: Entry, t: Entry)
    requires ValidFiles(files) && ValidFiles(in0) && Covers(lo, hi, in0)
    requires g in files && g !in Overlapping(files, Some(lo), Some(hi)) && q in g.entries
    requires UserClosed(files, Overlapping(files, Some(lo), Some(hi)))
    requires t in Ins(in0, Overlapping(files, Some(lo), Some(hi)))
    ensures t.key.user != q.key.user
  {
    FileBounds(g, q);
    if t in LevelEntries(in0) {
      var f :| f in in0 && t in f.entries;
      FileBounds(f, t);
    } else {
      var f :| f in Overlapping(files, Some(lo), Some(hi)) && t in f.entries;
      FileBounds(f, t);
      assert UserApart(g, f);
    }
  }

  /** Boundary-closed level+1 inputs (what AddBoundaryInputs would give there, before and after the
      range) are enough: then no live read changes. */
  lemma ClosedBelowUncoversNothing(newer: set<Entry>, v: Version, level: nat, in0: seq<File>, in1: seq<File>,
                                   ss: SequenceNumber)
    requires ValidVersion(v) && ClosedInputs(v, level, in0, in1) && UserClosed(v[level + 1], in1)
    ensures UncoversNothing(newer, v, level, in0, in1, ss)
  {
    var files := v[level + 1];
    assert ValidLevel(level, v[level]) && ValidLevel(level + 1, files);
    var lo, hi :| Covers(lo, hi, in0) && in1 == Overlapping(files, Some(lo), Some(hi));
    forall t, q | t in Ins(in0, in1) && q in LeftBehind(files, in1)
      ensures t.key.user != q.key.user
    {
      var g :| g in files && g !in in1 && q in g.entries;
      NoSharedUserKey(files, in0, lo, hi, g, q, t);
    }
  }
}
