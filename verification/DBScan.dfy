// Iterating over the whole database at a snapshot (DBImpl::NewIterator in db/db_impl.cc, Version::AddIterators in
// db/version_set.cc).

module DBScans {
  import opened Keys
  import opened Reads
  import opened Versions
  import opened Cursors
  import opened CompactionSafety
  import opened CompactionRun
  import opened DBIters
  import opened MergingIterators
  import opened Engine
  import opened DBImpls

  // ------------------------------------------------------------------ the runs to merge

  ghost predicate KeysApartFrom(es: set<Entry>, run: seq<Entry>) {
    forall x, y | x in es && y in run :: x.key != y.key
  }

  /** One more run, before or after the others. */
  lemma RunBeside(runs: seq<seq<Entry>>, es: set<Entry>, run: seq<Entry>)
    requires RunsApart(runs) && RunsHold(runs, es) && Sorted(run) && KeysApartFrom(es, run)
    ensures RunsApart(runs + [run]) && RunsHold(runs + [run], es + Elements(run))
  {
    forall i | 0 <= i < |runs|
      ensures KeysApart(runs[i], run)
    {
      assert Elements(runs[i]) <= es;
      forall x, y | x in runs[i] && y in run
        ensures x.key != y.key
      {
        assert x in Elements(runs[i]);
      }
    }
    AddRun(runs, es, run);
  }

  lemma NewerApart(a: set<Entry>, run: seq<Entry>)
    requires Newer(a, Elements(run)) || Newer(Elements(run), a)
    ensures KeysApartFrom(a, run)
  {
    forall x, y | x in a && y in run
      ensures x.key != y.key
    {
      assert y in Elements(run);
    }
  }

  /** Level by level: the entries of the levels above are newer. */
  lemma LevelApart(v: Version, level: nat)
    requires ValidVersion(v) && level < |v|
    ensures KeysApartFrom(Shallower(v, level), Concat(v[level]))
    ensures Shallower(v, level + 1) == Shallower(v, level) + Elements(Concat(v[level]))
  {
    forall x, y | x in Shallower(v, level) && y in Concat(v[level])
      ensures x.key != y.key
    {
      var l :| 0 <= l < |v| && l < level && x in LevelEntries(v[l]);
      assert Newer(LevelEntries(v[l]), LevelEntries(v[level]));
    }
  }

  /** Version::AddIterators: every level-0 file is a run by itself, every deeper level with files is one. */
  method AddIterators(v: Version, runs: seq<seq<Entry>>, ghost es: set<Entry>) returns (all: seq<seq<Entry>>)
    requires ValidVersion(v) && RunsApart(runs) && RunsHold(runs, es) && Newer(es, VersionEntries(v))
    ensures RunsApart(all) && RunsHold(all, es + VersionEntries(v))
  {
    hide RunsApart, RunsHold, Newer;
    all := AddLevel0(v, runs, es);
    FirstLevel(v);
    for level := 1 to NUM_LEVELS
      invariant RunsApart(all) && RunsHold(all, es + Shallower(v, level))
    {
      all := AddLevel(v, level, all, es);
    }
    AllLevels(v);
  }

  method AddLevel0(v: Version, runs: seq<seq<Entry>>, ghost es: set<Entry>) returns (all: seq<seq<Entry>>)
    requires ValidVersion(v) && RunsApart(runs) && RunsHold(runs, es) && Newer(es, VersionEntries(v))
    ensures RunsApart(all) && RunsHold(all, es + LevelEntries(v[0]))
  {
    all := runs;
    assert es + LevelEntries(v[0][..0]) == es;
    for i := 0 to |v[0]|
      invariant RunsApart(all) && RunsHold(all, es + LevelEntries(v[0][..i]))
    {
      all := AddFile(v, i, all, es);
    }
    assert v[0][..|v[0]|] == v[0];
  }

  method AddFile(v: Version, i: nat, runs: seq<seq<Entry>>, ghost es: set<Entry>) returns (all: seq<seq<Entry>>)
    requires ValidVersion(v) && i < |v[0]| && Newer(es, VersionEntries(v))
    requires RunsApart(runs) && RunsHold(runs, es + LevelEntries(v[0][..i]))
    ensures RunsApart(all) && RunsHold(all, es + LevelEntries(v[0][..i + 1]))
  {
    ghost var held := es + LevelEntries(v[0][..i]);
    FileApart(v, es, i);
    RunBeside(runs, held, v[0][i].entries);
    assert held + Elements(v[0][i].entries) == es + LevelEntries(v[0][..i + 1]);
    all := runs + [v[0][i].entries];
  }

  method AddLevel(v: Version, level: nat, runs: seq<seq<Entry>>, ghost es: set<Entry>) returns (all: seq<seq<Entry>>)
    requires ValidVersion(v) && 0 < level < |v| && Newer(es, VersionEntries(v))
    requires RunsApart(runs) && RunsHold(runs, es + Shallower(v, level))
    ensures RunsApart(all) && RunsHold(all, es + Shallower(v, level + 1))
  {
    LevelApart(v, level);
    if v[level] == [] {
      assert Shallower(v, level + 1) == Shallower(v, level);
      return runs;
    }
    LevelRun(v, level, es);
    RunBeside(runs, es + Shallower(v, level), Concat(v[level]));
    all := runs + [Concat(v[level])];
  }

  lemma LevelRun(v: Version, level: nat, es: set<Entry>)
    requires ValidVersion(v) && 0 < level < |v| && Newer(es, VersionEntries(v))
    ensures Sorted(Concat(v[level])) && KeysApartFrom(es + Shallower(v, level), Concat(v[level]))
    ensures es + Shallower(v, level) + Elements(Concat(v[level])) == es + Shallower(v, level + 1)
  {
    assert ValidLevel(level, v[level]);
    ConcatSorted(v[level]);
    LevelApart(v, level);
    BelowApart(v, es, level);
  }

  lemma FirstLevel(v: Version)
    requires |v| > 0
    ensures Shallower(v, 1) == LevelEntries(v[0])
  {
  }

  lemma AllLevels(v: Version)
    ensures Shallower(v, |v|) == VersionEntries(v)
  {
  }

  lemma BelowApart(v: Version, es: set<Entry>, level: nat)
    requires ValidVersion(v) && level < |v| && Newer(es, VersionEntries(v))
    ensures KeysApartFrom(es + Shallower(v, level), Concat(v[level]))
  {
    LevelApart(v, level);
    forall x, y | x in es && y in Concat(v[level])
      ensures x.key != y.key
    {
      assert y in VersionEntries(v);
    }
  }

  lemma FileApart(v: Version, es: set<Entry>, i: nat)
    requires ValidVersion(v) && i < |v[0]| && Newer(es, VersionEntries(v))
    ensures KeysApartFrom(es + LevelEntries(v[0][..i]), v[0][i].entries) && Sorted(v[0][i].entries)
    ensures LevelEntries(v[0][..i + 1]) == LevelEntries(v[0][..i]) + Elements(v[0][i].entries)
  {
    var files := v[0];
    assert ValidLevel(0, files) && files[i] in files && ValidFile(files[i]);
    forall x, y | x in es + LevelEntries(files[..i]) && y in files[i].entries
      ensures x.key != y.key
    {
      assert y in LevelEntries(files) && y in VersionEntries(v);
      if x in LevelEntries(files[..i]) {
        var f :| f in files[..i] && x in f.entries;
        var j :| 0 <= j < i && files[j] == f;
        Level0KeysApart(files, files[j], files[i]);
      }
    }
    assert files[..i + 1] == files[..i] + [files[i]];
  }

  lemma MemoryApart(db: DB)
    requires ValidDB(db)
    ensures KeysApartFrom(Elements(db.mem), Imm(db)) && Newer(InMemory(db), VersionEntries(db.version))
  {
    NewerApart(Elements(db.mem), Imm(db));
  }

  lemma OneRun(run: seq<Entry>)
    requires Sorted(run)
    ensures RunsApart([run]) && RunsHold([run], Elements(run))
  {
    forall e
      ensures (exists i :: 0 <= i < 1 && e in [run][i]) <==> e in Elements(run)
    {
      if e in run {
        assert e in [run][0];
      }
    }
  }

  // ------------------------------------------------------------------ the iterator over a database

  /** DBImpl::NewInternalIterator: the memtable, the immutable one if there is one, and the version, merged. */
  method NewInternalIterator(db: DBImpl) returns (iter: MergingIterator)
    requires db.Valid()
    ensures fresh(iter) && fresh(iter.children) && iter.Ok() && Elements(iter.merged) == All(db.View())
  {
    var list := [db.mem];
    OneRun(db.mem);
    MemoryApart(db.View());
    ghost var held := Elements(db.mem);
    if db.imm.Some? {
      RunBeside(list, held, db.imm.value);
      list := list + [db.imm.value];
      held := held + Elements(db.imm.value);
    } else {
      assert Elements(Imm(db.View())) == {};
    }
    assert held == InMemory(db.View());
    list := AddIterators(db.version, list, held);
    iter := NewMergingIterator(list);
  }

  /** DBImpl::NewIterator: at the given snapshot, or else at the last sequence number. */
  method NewIterator(db: DBImpl, snapshot: Option<SequenceNumber>) returns (it: DBIter)
    requires db.Valid()
    ensures fresh(it) && fresh(it.iter) && fresh(it.iter.children) && it.Ok() && !it.valid
    ensures Elements(it.iter.merged) == All(db.View())
    ensures it.sequence == if snapshot.Some? then snapshot.value else db.lastSequence
  {
    var iter := NewInternalIterator(db);
    it := new DBIter(iter, if snapshot.Some? then snapshot.value else db.lastSequence);
  }

  /** The live entries before position `to`, in order. */
  ghost predicate Listed(data: seq<Entry>, s: SequenceNumber, to: nat, pairs: seq<(UserKey, Bytes)>) {
    (forall i, j | 0 <= i < j < |pairs| :: pairs[i].0 < pairs[j].0) &&
    (forall p {:trigger p in pairs} | p in pairs ::
       exists i: nat :: i < to && Live(data, s, i) && data[i].key.user == p.0 && data[i].value == p.1) &&
    forall i: nat {:trigger Live(data, s, i)} | i < to && Live(data, s, i) :: (data[i].key.user, data[i].value) in pairs
  }

  predicate IsList(q: seq<(UserKey, Bytes)>, pairs: seq<(UserKey, Bytes)>) {
    q == pairs
  }

  ghost predicate Lists(data: seq<Entry>, s: SequenceNumber, to: nat, pairs: seq<(UserKey, Bytes)>) {
    forall q {:trigger IsList(q, pairs)} | IsList(q, pairs) :: Listed(data, s, to, q)
  }

  /** One more live entry, the next after those listed. */
  lemma ListsMore(data: seq<Entry>, s: SequenceNumber, to: nat, pairs: seq<(UserKey, Bytes)>, at: nat)
    requires Sorted(data) && Lists(data, s, to, pairs) && IsNextLive(data, s, to, Some(at))
    ensures Lists(data, s, at + 1, pairs + [(data[at].key.user, data[at].value)])
  {
    assert IsList(pairs, pairs);
    var p := (data[at].key.user, data[at].value);
    forall q | q in pairs
      ensures q.0 < p.0
    {
      var i: nat :| i < to && Live(data, s, i) && data[i].key.user == q.0;
      LiveKeysIncrease(data, s, i, at);
    }
    assert (pairs + [p])[|pairs|] == p;
  }

  lemma ListsAll(data: seq<Entry>, s: SequenceNumber, to: nat, pairs: seq<(UserKey, Bytes)>, es: set<Entry>)
    requires Sorted(data) && Elements(data) == es && Unique(es)
    requires Lists(data, s, to, pairs) && IsNextLive(data, s, to, None)
    ensures forall u, v :: (u, v) in pairs <==> Answers(es, u, s, Some(v))
    ensures forall i, j | 0 <= i < j < |pairs| :: pairs[i].0 < pairs[j].0
  {
    assert IsList(pairs, pairs);
    forall u, v
      ensures (u, v) in pairs <==> Answers(es, u, s, Some(v))
    {
      if (u, v) in pairs {
        var i: nat :| i < to && Live(data, s, i) && data[i].key.user == u && data[i].value == v;
        LiveAnswers(data, s, i);
      }
      if Answers(es, u, s, Some(v)) {
        var i := AnswerIsLive(data, s, u, v);
        assert i < to;
      }
    }
  }

  /** From the first entry to the last. */
  method Collect(it: DBIter) returns (pairs: seq<(UserKey, Bytes)>)
    requires it.Ok() && Unique(Elements(it.iter.merged))
    modifies it, it.iter, it.iter.children
    ensures forall i, j | 0 <= i < j < |pairs| :: pairs[i].0 < pairs[j].0
    ensures forall u, v :: (u, v) in pairs <==> Answers(Elements(it.iter.merged), u, it.sequence, Some(v))
  {
    hide MergingIterator.Ok;
    ghost var data, s, to := it.iter.merged, it.sequence, 0;
    pairs := [];
    it.SeekToFirst();
    while it.valid
      invariant it.Ok() && Lists(data, s, to, pairs) && IsNextLive(data, s, to, it.Position())
      decreases |data| - to
    {
      ListsMore(data, s, to, pairs, it.at);
      to := it.at + 1;
      var k := it.Key();
      var v := it.Value();
      pairs := pairs + [(k, v)];
      it.Next();
    }
    ListsAll(data, s, to, pairs, Elements(data));
  }

  /** A scan from the first to the last entry yields every key that has a value at the snapshot, once, in order, with
      that value, and nothing else. */
  method Scan(db: DBImpl, snapshot: Option<SequenceNumber>) returns (pairs: seq<(UserKey, Bytes)>)
    requires db.Valid()
    ensures var s := if snapshot.Some? then snapshot.value else db.lastSequence;
      (forall i, j | 0 <= i < j < |pairs| :: pairs[i].0 < pairs[j].0) &&
      forall u, v :: (u, v) in pairs <==> Answers(All(db.View()), u, s, Some(v))
  {
    var it := NewIterator(db, snapshot);
    pairs := Collect(it);
  }
}
