// Writing a memtable out as a table file (Version::PickLevelForMemTableOutput in
// db/version_set.cc, DBImpl::WriteLevel0Table in db/db_impl.cc).

module Flushes {
  import opened Keys
  import opened Reads
  import opened Versions
  import opened Inputs
  import opened Builders
  import opened CompactionSafety

  const MAX_MEM_COMPACT_LEVEL: nat := 2

  /** No file in levels 0 to `level` shares a user key with [lo, hi]. */
  ghost predicate NoOverlapUpTo(v: Version, level: nat, lo: UserKey, hi: UserKey) {
    forall l, f | 0 <= l <= level && l < |v| && f in v[l] :: !Overlaps(f, Some(lo), Some(hi))
  }

  ghost predicate OverlapsLevel(v: Version, level: nat, lo: UserKey, hi: UserKey)
    requires level < |v|
  {
    exists f :: f in v[level] && Overlaps(f, Some(lo), Some(hi))
  }

  method OverlapInLevel(v: Version, level: nat, lo: UserKey, hi: UserKey) returns (r: bool)
    requires ValidVersion(v) && level < NUM_LEVELS
    ensures r <==> OverlapsLevel(v, level, lo, hi)
  {
    assert ValidLevel(level, v[level]);
    r := SomeFileOverlapsRange(level > 0, v[level], Some(lo), Some(hi));
  }

  /** From `level` the file may go one level deeper: nothing overlaps there, and not too much two levels down. */
  ghost predicate Descends(v: Version, level: nat, lo: UserKey, hi: UserKey, limit: nat)
    requires level + 1 < |v|
  {
    !OverlapsLevel(v, level + 1, lo, hi) &&
    (level + 2 < |v| ==> TotalFileSize(Overlapping(v[level + 2], Some(lo), Some(hi))) <= limit)
  }

  /** Level 0 if a file there overlaps, and otherwise the deepest level reached by going one level deeper as long as
      that is allowed. */
  ghost predicate IsFlushLevel(v: Version, lo: UserKey, hi: UserKey, limit: nat, level: nat)
    requires |v| == NUM_LEVELS
  {
    level <= MAX_MEM_COMPACT_LEVEL &&
    (OverlapsLevel(v, 0, lo, hi) ==> level == 0) &&
    (forall l: nat | l < level :: Descends(v, l, lo, hi, limit)) &&
    (!OverlapsLevel(v, 0, lo, hi) && level < MAX_MEM_COMPACT_LEVEL ==> !Descends(v, level, lo, hi, limit))
  }

  /** The level a flushed memtable may go to: past level 0 only if nothing down to there overlaps, and as deep as it
      may. */
  method PickLevelForMemTableOutput(v: Version, smallest: UserKey, largest: UserKey, maxGrandParentOverlap: nat)
    returns (level: nat)
    requires ValidVersion(v)
    ensures level > 0 ==> NoOverlapUpTo(v, level, smallest, largest)
    ensures IsFlushLevel(v, smallest, largest, maxGrandParentOverlap, level)
  {
    level := 0;
    var overlap := OverlapInLevel(v, 0, smallest, largest);
    if !overlap {
      while level < MAX_MEM_COMPACT_LEVEL
        invariant level <= MAX_MEM_COMPACT_LEVEL && NoOverlapUpTo(v, level, smallest, largest)
        invariant forall l: nat | l < level :: Descends(v, l, smallest, largest, maxGrandParentOverlap)
      {
        overlap := OverlapInLevel(v, level + 1, smallest, largest);
        if overlap {
          break;
        }
        if level + 2 < NUM_LEVELS {
          assert ValidLevel(level + 2, v[level + 2]);
          ghost var lo, hi;
          var overlaps;
          overlaps, lo, hi := GetOverlappingInputs(level + 2, v[level + 2], Some(smallest), Some(largest));
          if TotalFileSize(overlaps) > maxGrandParentOverlap {
            break;
          }
        }
        level := level + 1;
      }
    }
  }

  /** The file a memtable becomes. */
  function FileOf(number: nat, size: nat, entries: seq<Entry>): (f: File)
    requires entries != []
    ensures Sorted(entries) ==> ValidFile(f)
  {
    File(number, size, entries[0].key, entries[|entries| - 1].key, entries)
  }

  function FlushEdit(level: nat, f: File): VersionEdit {
    VersionEdit({}, [(level, f)])
  }

  /** The file may be added at `level`: newer than everything, with a fresh and larger number. */
  ghost predicate FlushFits(v: Version, level: nat, f: File) {
    level < |v| && ValidFile(f) && (level > 0 ==> NoOverlapUpTo(v, level, f.smallest.user, f.largest.user)) &&
    Newer(Elements(f.entries), VersionEntries(v)) && Unique(Elements(f.entries) + VersionEntries(v)) &&
    forall g | g in v[level] :: g.number < f.number
  }

  lemma FlushedFiles(v: Version, level: nat, f: File, w: Version, l: nat)
    requires Installed(v, FlushEdit(level, f), w) && l < NUM_LEVELS
    ensures FilesOf(w[l]) == if l == level then FilesOf(v[l]) + {f} else FilesOf(v[l])
    ensures LevelEntries(w[l]) == if l == level then LevelEntries(v[l]) + Elements(f.entries) else LevelEntries(v[l])
  {
    var edit := FlushEdit(level, f);
    assert AddedFiles(edit, l) == if l == level then {f} else {} by {
      assert edit.newFiles[0] == (level, f);
    }
    assert DeletedAt(edit, l) == {};
    if l == level {
      EntriesOfAdded(v[l], f, w[l]);
    } else {
      SameFilesSameEntries(w[l], v[l]);
    }
  }

  lemma EntriesOfAdded(files: seq<File>, f: File, more: seq<File>)
    requires FilesOf(more) == FilesOf(files) + {f}
    ensures LevelEntries(more) == LevelEntries(files) + Elements(f.entries)
    ensures forall g :: g in more <==> g in files || g == f
  {
    forall g
      ensures g in more <==> g in files || g == f
    {
      assert g in more <==> g in FilesOf(more);
    }
  }

  lemma Level0WithNewest(files: seq<File>, f: File, more: seq<File>)
    requires ValidLevel(0, files) && ValidFile(f) && InOrder(more)
    requires forall g :: g in more <==> g in files || g == f
    requires Newer(Elements(f.entries), LevelEntries(files)) && forall g | g in files :: g.number < f.number
    ensures ValidLevel(0, more)
  {
    forall i, j | 0 <= i < j < |more|
      ensures more[i].number != more[j].number
    {
      assert more[i] in more && more[j] in more && FileBefore(more[i], more[j]);
      if more[i] != f && more[j] != f {
        OrderInLevel(files, more[i], more[j]);
      }
    }
    forall g, h | g in more && h in more && g.number > h.number
      ensures Newer(Elements(g.entries), Elements(h.entries))
    {
      if g == f {
        assert Elements(h.entries) <= LevelEntries(files);
      } else {
        assert h in files;
      }
    }
  }

  lemma DeepLevelWithFile(l: nat, files: seq<File>, f: File, more: seq<File>)
    requires l > 0 && ValidLevel(l, files) && ValidFile(f) && InOrder(more)
    requires forall g :: g in more <==> g in files || g == f
    requires forall g | g in files :: !Overlaps(g, Some(f.smallest.user), Some(f.largest.user)) && g.number < f.number
    ensures ValidLevel(l, more)
  {
    MergedLevel(l, files, [f], more);
  }

  lemma FlushedLevel(v: Version, level: nat, f: File, w: Version, l: nat)
    requires ValidVersion(v) && FlushFits(v, level, f) && Installed(v, FlushEdit(level, f), w) && l < NUM_LEVELS
    ensures ValidLevel(l, w[l])
  {
    FlushedFiles(v, level, f, w, l);
    assert ValidLevel(l, v[l]);
    if l != level {
      SameFilesSameEntries(w[l], v[l]);
      SubsetLevel(l, v[l], w[l]);
    } else {
      EntriesOfAdded(v[l], f, w[l]);
      if l == 0 {
        assert LevelEntries(v[0]) <= VersionEntries(v);
        Level0WithNewest(v[l], f, w[l]);
      } else {
        DeepLevelWithFile(l, v[l], f, w[l]);
      }
    }
  }

  /** A level the file does not overlap shares no user key with it. */
  lemma NoOverlapNewer(files: seq<File>, f: File)
    requires ValidFiles(files) && ValidFile(f)
    requires forall g | g in files :: !Overlaps(g, Some(f.smallest.user), Some(f.largest.user))
    ensures Newer(LevelEntries(files), Elements(f.entries))
  {
    forall x, y | x in LevelEntries(files) && y in Elements(f.entries)
      ensures x.key.user != y.key.user
    {
      var g :| g in files && x in g.entries;
      FileBounds(g, x);
      FileBounds(f, y);
    }
  }

  lemma FlushedOrder(v: Version, level: nat, f: File, w: Version, l: nat, m: nat)
    requires LevelOrder(v) && FlushFits(v, level, f) && Installed(v, FlushEdit(level, f), w)
    requires forall k: nat | k < |v| :: ValidFiles(v[k])
    requires l < m < NUM_LEVELS
    ensures Newer(LevelEntries(w[l]), LevelEntries(w[m]))
  {
    FlushedFiles(v, level, f, w, l);
    FlushedFiles(v, level, f, w, m);
    assert Newer(LevelEntries(v[l]), LevelEntries(v[m]));
    if l == level {
      assert LevelEntries(v[m]) <= VersionEntries(v);
      assert Newer(Elements(f.entries), LevelEntries(v[m]));
    } else if m == level {
      assert forall g | g in v[l] :: !Overlaps(g, Some(f.smallest.user), Some(f.largest.user));
      NoOverlapNewer(v[l], f);
    }
  }

  lemma FlushKeepsOrder(v: Version, level: nat, f: File, w: Version)
    requires ValidVersion(v) && FlushFits(v, level, f) && Installed(v, FlushEdit(level, f), w)
    ensures LevelOrder(w)
  {
    FlushLevelsValid(v);
    forall l, m | 0 <= l < m < NUM_LEVELS
      ensures Newer(LevelEntries(w[l]), LevelEntries(w[m]))
    {
      FlushedOrder(v, level, f, w, l, m);
    }
  }

  /** Flushing keeps the version valid and adds exactly the memtable's entries. */
  lemma FlushKeepsValid(v: Version, level: nat, f: File, w: Version)
    requires ValidVersion(v) && FlushFits(v, level, f) && Installed(v, FlushEdit(level, f), w)
    ensures ValidVersion(w) && VersionEntries(w) == VersionEntries(v) + Elements(f.entries)
  {
    hide ValidLevel;
    forall l: nat | l < NUM_LEVELS
      ensures ValidLevel(l, w[l])
    {
      FlushedLevel(v, level, f, w, l);
    }
    FlushKeepsOrder(v, level, f, w);
    FlushedEntries(v, level, f, w);
  }

  lemma FlushLevelsValid(v: Version)
    requires ValidVersion(v)
    ensures forall k: nat | k < |v| :: ValidFiles(v[k])
  {
    forall k: nat | k < |v|
      ensures ValidFiles(v[k])
    {
      assert ValidLevel(k, v[k]);
    }
  }

  lemma FlushedEntries(v: Version, level: nat, f: File, w: Version)
    requires Installed(v, FlushEdit(level, f), w) && level < |v|
    ensures VersionEntries(w) == VersionEntries(v) + Elements(f.entries)
  {
    forall e
      ensures e in VersionEntries(w) <==> e in VersionEntries(v) || e in f.entries
    {
      FlushedFiles(v, level, f, w, level);
      if e in f.entries {
        assert e in LevelEntries(w[level]);
      }
      if e in VersionEntries(w) {
        var l :| 0 <= l < |w| && e in LevelEntries(w[l]);
        FlushedFiles(v, level, f, w, l);
      }
      if e in VersionEntries(v) {
        var l :| 0 <= l < |v| && e in LevelEntries(v[l]);
        FlushedFiles(v, level, f, w, l);
        assert e in LevelEntries(w[l]);
      }
    }
  }
}
