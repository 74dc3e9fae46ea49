// A version: seven levels of sorted table files, and newest-first lookup over them
// (db/version_set.cc, db/version_edit.h).

module Versions {
  import opened Keys
  import opened Reads

  const NUM_LEVELS: nat := 7

  /** FileMetaData together with the sorted entries stored in the table file. */
  datatype File = File(number: nat, size: nat, smallest: IKey, largest: IKey, entries: seq<Entry>)

  /** Version::files_: one list of files per level. */
  type Version = seq<seq<File>>

  ghost predicate ValidFile(f: File) {
    f.entries != [] && Sorted(f.entries) &&
    f.smallest == f.entries[0].key && f.largest == f.entries[|f.entries| - 1].key
  }

  ghost predicate ValidFiles(files: seq<File>) {
    forall f | f in files :: ValidFile(f)
  }

  /** Sorted by key with no two ranges meeting, as levels 1 and up must be. */
  ghost predicate Disjoint(files: seq<File>) {
    forall i, j | 0 <= i < j < |files| :: Less(files[i].largest, files[j].smallest)
  }

  ghost predicate DistinctNumbers(files: seq<File>) {
    forall i, j | 0 <= i < j < |files| :: files[i].number != files[j].number
  }

  /** VersionSet::Builder::BySmallestKey: by smallest key, ties broken by file number. */
  predicate FileBefore(f: File, g: File) {
    Less(f.smallest, g.smallest) || (f.smallest == g.smallest && f.number < g.number)
  }

  ghost predicate InOrder(files: seq<File>) {
    forall i, j | 0 <= i < j < |files| :: FileBefore(files[i], files[j])
  }

  ghost function LevelEntries(files: seq<File>): set<Entry> {
    set f, e | f in files && e in f.entries :: e
  }

  ghost function VersionEntries(v: Version): set<Entry> {
    set l, e | 0 <= l < |v| && e in LevelEntries(v[l]) :: e
  }

  /** Level-0 files may overlap, but a larger file number means newer entries. */
  ghost predicate NumberOrder(files: seq<File>) {
    forall f, g | f in files && g in files && f.number > g.number ::
      Newer(Elements(f.entries), Elements(g.entries))
  }

  /** Entries at a shallower level are newer than entries of the same user key further down. */
  ghost predicate LevelOrder(v: Version) {
    forall l, m | 0 <= l < m < |v| :: Newer(LevelEntries(v[l]), LevelEntries(v[m]))
  }

  ghost predicate ValidLevel(l: nat, files: seq<File>) {
    ValidFiles(files) && DistinctNumbers(files) && InOrder(files) &&
    (l > 0 ==> Disjoint(files)) && (l == 0 ==> NumberOrder(files))
  }

  /** What flush, trivial move and compaction all keep. */
  ghost predicate ValidVersion(v: Version) {
    |v| == NUM_LEVELS && (forall l: nat | l < |v| :: ValidLevel(l, v[l])) &&
    LevelOrder(v) && Unique(VersionEntries(v))
  }

  // ------------------------------------------------------------------ searching one file

  lemma FileBounds(f: File, e: Entry)
    requires ValidFile(f) && e in f.entries
    ensures LessEq(f.smallest, e.key) && LessEq(e.key, f.largest)
  {
    var i :| 0 <= i < |f.entries| && f.entries[i] == e;
  }

  /** Seeks the lookup key in a sorted run and reports the entry found there, when that entry belongs
      to the user key asked for. This is MemTable::Get, and TableCache::Get followed by SaveValue. */
  method SeekGet(entries: seq<Entry>, u: UserKey, s: SequenceNumber) returns (r: Option<Entry>)
    requires Sorted(entries)
    ensures r.Some? ==> IsNewest(Elements(entries), u, s, r.value)
    ensures r.None? ==> NoneVisible(Elements(entries), u, s)
  {
    var i := 0;
    while i < |entries| && Less(entries[i].key, LookupKey(u, s))
      invariant 0 <= i <= |entries|
      invariant forall j | 0 <= j < i :: Less(entries[j].key, LookupKey(u, s))
    {
      i := i + 1;
    }
    if i < |entries| && entries[i].key.user == u {
      r := Some(entries[i]);
    } else {
      r := None;
    }
  }

  // ------------------------------------------------------------------ FindFile

  /** Binary search for the first file whose largest key is at or after `key`. */
  method FindFile(files: seq<File>, key: IKey) returns (right: nat)
    requires ValidFiles(files) && Disjoint(files)
    ensures right <= |files|
    ensures forall i | 0 <= i < right :: Less(files[i].largest, key)
    ensures forall i | right <= i < |files| :: !Less(files[i].largest, key)
  {
    LargestIncreasing(files);
    var left := 0;
    right := |files|;
    while left < right
      invariant 0 <= left <= right <= |files|
      invariant forall i | 0 <= i < left :: Less(files[i].largest, key)
      invariant forall i | right <= i < |files| :: !Less(files[i].largest, key)
    {
      var mid := (left + right) / 2;
      if Compare(files[mid].largest, key) < 0 {
        left := mid + 1;
      } else {
        right := mid;
      }
    }
  }

  lemma LargestIncreasing(files: seq<File>)
    requires ValidFiles(files) && Disjoint(files)
    ensures forall i, j | 0 <= i < j < |files| :: Less(files[i].largest, files[j].largest)
  {
    forall i, j | 0 <= i < j < |files|
      ensures Less(files[i].largest, files[j].largest)
    {
      var f := files[j];
      assert f in files;
      FileBounds(f, f.entries[0]);
    }
  }

  // ------------------------------------------------------------------ Version::Get

  function InsertByNumber(f: File, sorted: seq<File>): (r: seq<File>)
    ensures multiset(r) == multiset(sorted) + multiset{f}
  {
    if sorted == [] || f.number > sorted[0].number then [f] + sorted
    else
      assert sorted == [sorted[0]] + sorted[1..];
      [sorted[0]] + InsertByNumber(f, sorted[1..])
  }

  /** std::sort with NewestFirst. */
  function SortNewestFirst(files: seq<File>): (r: seq<File>)
    ensures multiset(r) == multiset(files)
  {
    if files == [] then []
    else
      assert files == [files[0]] + files[1..];
      InsertByNumber(files[0], SortNewestFirst(files[1..]))
  }

  ghost predicate NewestFirst(files: seq<File>) {
    forall i, j | 0 <= i < j < |files| :: files[i].number >= files[j].number
  }

  lemma {:induction false} InsertKeepsOrder(f: File, sorted: seq<File>)
    requires NewestFirst(sorted)
    ensures NewestFirst(InsertByNumber(f, sorted))
  {
    if sorted == [] || f.number > sorted[0].number {
    } else {
      var rest := InsertByNumber(f, sorted[1..]);
      InsertKeepsOrder(f, sorted[1..]);
      forall g | g in rest
        ensures sorted[0].number >= g.number
      {
        assert g in multiset(rest);
      }
    }
  }

  lemma {:induction false} SortOrders(files: seq<File>)
    ensures NewestFirst(SortNewestFirst(files))
    ensures forall f :: f in SortNewestFirst(files) <==> f in files
  {
    if files != [] {
      SortOrders(files[1..]);
      InsertKeepsOrder(files[0], SortNewestFirst(files[1..]));
    }
    forall f
      ensures f in SortNewestFirst(files) <==> f in files
    {
      assert f in SortNewestFirst(files) <==> f in multiset(SortNewestFirst(files));
    }
  }

  /** In a sorted, disjoint level the file FindFile picks is the only one that can decide. */
  lemma DeepProbe(files: seq<File>, u: UserKey, s: SequenceNumber, index: nat)
    requires ValidFiles(files) && Disjoint(files) && index <= |files|
    requires forall i | 0 <= i < index :: Less(files[i].largest, LookupKey(u, s))
    requires forall i | index <= i < |files| :: !Less(files[i].largest, LookupKey(u, s))
    ensures index == |files| || u < files[index].smallest.user ==> NoneVisible(LevelEntries(files), u, s)
    ensures index < |files| && NoneVisible(Elements(files[index].entries), u, s)
            ==> NoneVisible(LevelEntries(files), u, s)
    ensures forall e | index < |files| && IsNewest(Elements(files[index].entries), u, s, e) ::
              IsNewest(LevelEntries(files), u, s, e)
  {
    forall x | x in LevelEntries(files) && Visible(x, u, s)
      ensures index < |files| && files[index].smallest.user <= u
      ensures exists y :: y in files[index].entries && Visible(y, u, s) && y.key.sequence >= x.key.sequence
    {
      var f :| f in files && x in f.entries;
      var j :| 0 <= j < |files| && files[j] == f;
      FileBounds(f, x);
      assert index <= j;
      var g := files[index];
      assert g in files;
      var y := if index == j then x else g.entries[|g.entries| - 1];
      FileBounds(g, y);
      assert y in g.entries && Visible(y, u, s) && y.key.sequence >= x.key.sequence;
    }
  }

  /** The newest entry of the first level that has a visible one is the newest of all. */
  lemma FirstLevelDecides(v: Version, l: nat, u: UserKey, s: SequenceNumber, e: Entry)
    requires l < |v| && LevelOrder(v)
    requires forall m | 0 <= m < l :: NoneVisible(LevelEntries(v[m]), u, s)
    requires IsNewest(LevelEntries(v[l]), u, s, e)
    ensures IsNewest(VersionEntries(v), u, s, e)
  {
    forall x | x in VersionEntries(v) && Visible(x, u, s)
      ensures x.key.sequence <= e.key.sequence
    {
      var m :| 0 <= m < |v| && x in LevelEntries(v[m]);
      if m > l {
        assert Newer(LevelEntries(v[l]), LevelEntries(v[m]));
      }
    }
  }

  /** The level-0 files whose user-key range contains `u`. */
  method Level0Candidates(files: seq<File>, u: UserKey) returns (tmp: seq<File>)
    requires ValidFiles(files)
    ensures forall f | f in tmp :: f in files
    ensures forall f, e | f in files && f !in tmp && e in f.entries :: e.key.user != u
  {
    tmp := [];
    for i := 0 to |files|
      invariant forall f | f in tmp :: f in files
      invariant forall j, e | 0 <= j < i && files[j] !in tmp && e in files[j].entries :: e.key.user != u
    {
      var f := files[i];
      if u >= f.smallest.user && u <= f.largest.user {
        tmp := tmp + [f];
      } else {
        forall e | e in f.entries
          ensures e.key.user != u
        {
          FileBounds(f, e);
        }
      }
    }
  }

  /** The level-0 half of ForEachOverlapping, with the Match callback inlined. */
  method SearchLevel0(files: seq<File>, u: UserKey, s: SequenceNumber) returns (r: Option<Entry>)
    requires ValidFiles(files) && NumberOrder(files) && DistinctNumbers(files)
    ensures r.Some? ==> IsNewest(LevelEntries(files), u, s, r.value)
    ensures r.None? ==> NoneVisible(LevelEntries(files), u, s)
  {
    hide NumberOrder, DistinctNumbers, IsNewest, Sorted;
    var candidates := Level0Candidates(files, u);
    SortOrders(candidates);
    var tmp := SortNewestFirst(candidates);
    forall f | f in files
      ensures f in tmp || NoneVisible(Elements(f.entries), u, s)
    {
      assert f in tmp <==> f in candidates;
    }
    for i := 0 to |tmp|
      invariant forall j | 0 <= j < i :: NoneVisible(Elements(tmp[j].entries), u, s)
    {
      assert tmp[i] in files;
      r := SeekGet(tmp[i].entries, u, s);
      if r.Some? {
        NewestFileDecides(files, tmp, i, u, s, r.value);
        return;
      }
    }
    NoFileDecides(files, tmp, u, s);
    r := None;
  }

  lemma NoFileDecides(files: seq<File>, tmp: seq<File>, u: UserKey, s: SequenceNumber)
    requires forall f | f in files :: f in tmp || NoneVisible(Elements(f.entries), u, s)
    requires forall j | 0 <= j < |tmp| :: NoneVisible(Elements(tmp[j].entries), u, s)
    ensures NoneVisible(LevelEntries(files), u, s)
  {
    forall x | x in LevelEntries(files)
      ensures !Visible(x, u, s)
    {
      var f :| f in files && x in f.entries;
      assert x in Elements(f.entries);
    }
  }

  lemma NumberIdentifies(files: seq<File>, f: File, g: File)
    requires DistinctNumbers(files) && f in files && g in files && f.number == g.number
    ensures f == g
  {
    var i :| 0 <= i < |files| && files[i] == f;
    var j :| 0 <= j < |files| && files[j] == g;
    assert !(i < j) && !(j < i);
  }

  /** `e` is newest in its file, and every file probed before it had nothing visible. */
  lemma NewestFileDecides(files: seq<File>, tmp: seq<File>, i: nat, u: UserKey, s: SequenceNumber, e: Entry)
    requires NumberOrder(files) && DistinctNumbers(files)
    requires NewestFirst(tmp) && i < |tmp| && forall f | f in tmp :: f in files
    requires forall f | f in files :: f in tmp || NoneVisible(Elements(f.entries), u, s)
    requires forall j | 0 <= j < i :: NoneVisible(Elements(tmp[j].entries), u, s)
    requires IsNewest(Elements(tmp[i].entries), u, s, e)
    ensures IsNewest(LevelEntries(files), u, s, e)
  {
    var g := tmp[i];
    assert g in files && e in g.entries;
    forall f, x | f in files && x in f.entries && Visible(x, u, s)
      ensures x.key.sequence <= e.key.sequence
    {
      assert x in Elements(f.entries);
      assert f in tmp;
      var j :| 0 <= j < |tmp| && tmp[j] == f;
      if f.number == g.number {
        NumberIdentifies(files, f, g);
      } else {
        assert j > i;
        assert Newer(Elements(g.entries), Elements(f.entries));
      }
    }
  }

  /** Version::Get probes level 0 newest file first, then one file per deeper level, and stops at
      the first hit; the answer is nevertheless that of the newest entry of the whole version. */
  method Get(v: Version, u: UserKey, s: SequenceNumber) returns (r: Option<Bytes>)
    requires ValidVersion(v)
    ensures Answers(VersionEntries(v), u, s, r)
  {
    hide Sorted, IsNewest, InOrder, NumberOrder;
    assert ValidLevel(0, v[0]);
    var hit := SearchLevel0(v[0], u, s);
    if hit.Some? {
      FirstLevelDecides(v, 0, u, s, hit.value);
      return Outcome(hit.value);
    }
    for level := 1 to NUM_LEVELS
      invariant forall m | 0 <= m < level :: NoneVisible(LevelEntries(v[m]), u, s)
    {
      var files := v[level];
      assert ValidLevel(level, files);
      var index := FindFile(files, LookupKey(u, s));
      DeepProbe(files, u, s, index);
      if index < |files| && !(u < files[index].smallest.user) {
        assert files[index] in files;
        hit := SeekGet(files[index].entries, u, s);
        if hit.Some? {
          FirstLevelDecides(v, level, u, s, hit.value);
          return Outcome(hit.value);
        }
      }
    }
    return None;
  }
}
