// Installing an edit and rebuilding a version from the edits in the manifest
// (VersionSet::LogAndApply, WriteSnapshot and Recover in db/version_set.cc).

module Manifests {
  import opened Versions
  import opened Builders

  /** What a builder's deleted numbers and added files make of the base files of a level. */
  function Surviving(base: set<File>, added: set<File>, deleted: set<nat>): set<File> {
    set f | f in base + added && f.number !in deleted
  }

  lemma SavedIsSurviving(base: seq<File>, added: seq<File>, deleted: set<nat>)
    requires InOrder(base) && InOrder(added) && NumbersApart(base, added)
    ensures InOrder(SaveFrom([], base, added, deleted))
    ensures FilesOf(SaveFrom([], base, added, deleted)) == Surviving(FilesOf(base), FilesOf(added), deleted)
  {
    SavedInOrder([], base, added, deleted);
    forall f
      ensures f in FilesOf(SaveFrom([], base, added, deleted)) <==>
              f in Surviving(FilesOf(base), FilesOf(added), deleted)
    {
      SavedFiles([], base, added, deleted, f);
    }
  }

  /** Whatever the edit adds to a level has numbers the level does not use. */
  ghost predicate AddsFresh(v: Version, edit: VersionEdit)
    requires |v| == NUM_LEVELS
  {
    LevelsInRange(edit) && forall l: nat | l < NUM_LEVELS ::
      NumbersName(AddedFiles(edit, l)) && NumbersOf(AddedFiles(edit, l)) !! NumbersOf(FilesOf(v[l]))
  }

  /** VersionSet::LogAndApply, without the manifest write: one edit through a builder of its own. */
  method LogAndApply(v: Version, edit: VersionEdit) returns (w: Version)
    requires |v| == NUM_LEVELS && (forall l | 0 <= l < NUM_LEVELS :: InOrder(v[l])) && AddsFresh(v, edit)
    ensures Installed(v, edit, w)
  {
    var builder := new Builder(v);
    assert forall l | 0 <= l < NUM_LEVELS :: FilesOf(builder.addedFiles[l]) == {};
    builder.Apply(edit);
    w := builder.SaveTo();
    forall l: nat | l < NUM_LEVELS
      ensures InOrder(w[l]) && FilesOf(w[l]) == AfterEdit(FilesOf(v[l]), edit, l)
    {
      EditSurvivors(v[l], builder.addedFiles[l], builder.deletedFiles[l], edit, l);
    }
  }

  lemma EditSurvivors(base: seq<File>, added: seq<File>, deleted: set<nat>, edit: VersionEdit, l: nat)
    requires InOrder(base) && InOrder(added) && FilesOf(added) == AddedFiles(edit, l)
    requires deleted == DeletedAt(edit, l) - NumbersOf(AddedFiles(edit, l))
    requires NumbersOf(AddedFiles(edit, l)) !! NumbersOf(FilesOf(base))
    ensures InOrder(SaveFrom([], base, added, deleted))
    ensures FilesOf(SaveFrom([], base, added, deleted)) == AfterEdit(FilesOf(base), edit, l)
  {
    DisjointNumbers(base, added);
    SavedIsSurviving(base, added, deleted);
    forall f | f in AddedFiles(edit, l)
      ensures f.number !in deleted
    {
    }
  }

  lemma DisjointNumbers(base: seq<File>, added: seq<File>)
    requires NumbersOf(FilesOf(added)) !! NumbersOf(FilesOf(base))
    ensures NumbersApart(base, added)
  {
    forall f, g | f in base && g in added
      ensures f.number != g.number
    {
      assert f in FilesOf(base) && g in FilesOf(added);
      assert f.number in NumbersOf(FilesOf(base)) && g.number in NumbersOf(FilesOf(added));
    }
  }

  // ------------------------------------------------------------------ replaying a history

  /** Files of level `l` after applying the edits one at a time. */
  function Replay(files: set<File>, edits: seq<VersionEdit>, l: nat): set<File>
    decreases edits
  {
    if edits == [] then files else Replay(AfterEdit(files, edits[0], l), edits[1..], l)
  }

  /** A builder's deleted numbers and added files after applying all edits to it. */
  function BuilderDeleted(deleted: set<nat>, edits: seq<VersionEdit>, l: nat): set<nat>
    decreases edits
  {
    if edits == [] then deleted
    else BuilderDeleted(deleted + DeletedAt(edits[0], l) - NumbersOf(AddedFiles(edits[0], l)), edits[1..], l)
  }

  function BuilderAdded(added: set<File>, edits: seq<VersionEdit>, l: nat): set<File>
    decreases edits
  {
    if edits == [] then added else BuilderAdded(added + AddedFiles(edits[0], l), edits[1..], l)
  }

  /** No (level, number) pair is added twice, nor one of the numbers `used` before. */
  ghost predicate AddedOnce(used: set<nat>, edits: seq<VersionEdit>, l: nat)
    decreases edits
  {
    edits == [] ||
    (NumbersName(AddedFiles(edits[0], l)) && NumbersOf(AddedFiles(edits[0], l)) !! used &&
     AddedOnce(used + NumbersOf(AddedFiles(edits[0], l)), edits[1..], l))
  }

  /** One step: deleting and adding in the builder is deleting and adding in the file list. */
  lemma BuilderStep(base: set<File>, added: set<File>, deleted: set<nat>, edit: VersionEdit, l: nat)
    requires NumbersOf(AddedFiles(edit, l)) !! NumbersOf(base + added)
    ensures Surviving(base, added + AddedFiles(edit, l), deleted + DeletedAt(edit, l) - NumbersOf(AddedFiles(edit, l)))
            == AfterEdit(Surviving(base, added, deleted), edit, l)
  {
    var new' := AddedFiles(edit, l);
    forall f | f in base + added
      ensures f.number !in NumbersOf(new')
    {
      assert f.number in NumbersOf(base + added);
    }
  }

  /** Replaying a whole history through one builder gives the files that applying each edit to its
      own new version gave. */
  lemma {:induction false} ReplayThroughOneBuilder(base: set<File>, added: set<File>, deleted: set<nat>,
                                                  edits: seq<VersionEdit>, l: nat)
    requires AddedOnce(NumbersOf(base + added), edits, l)
    decreases edits
    ensures Surviving(base, BuilderAdded(added, edits, l), BuilderDeleted(deleted, edits, l))
            == Replay(Surviving(base, added, deleted), edits, l)
  {
    if edits != [] {
      var more := AddedFiles(edits[0], l);
      BuilderStep(base, added, deleted, edits[0], l);
      assert NumbersOf(base + (added + more)) == NumbersOf(base + added) + NumbersOf(more);
      ReplayThroughOneBuilder(base, added + more, deleted + DeletedAt(edits[0], l) - NumbersOf(more), edits[1..], l);
    }
  }

  lemma SomeFiles(files: seq<File>)
    requires files != []
    ensures FilesOf(files) != {}
  {
    assert files[0] in FilesOf(files);
  }

  /** Files in key order are determined by which files they are. */
  lemma {:induction false} OrderDetermines(a: seq<File>, b: seq<File>)
    requires InOrder(a) && InOrder(b) && FilesOf(a) == FilesOf(b)
    ensures a == b
  {
    if a != [] {
      assert a[0] in FilesOf(b);
      assert b != [] && b[0] in FilesOf(a);
      assert a[0] == b[0];
      assert FilesOf(a[1..]) == FilesOf(a) - {a[0]};
      assert FilesOf(b[1..]) == FilesOf(b) - {b[0]};
      OrderDetermines(a[1..], b[1..]);
    } else if b != [] {
      SomeFiles(b);
    }
  }

  const NO_FILES: Version := [[], [], [], [], [], [], []]

  /** VersionSet::Recover once the manifest records are decoded: all edits go through one builder. */
  method Recover(edits: seq<VersionEdit>) returns (v: Version)
    requires forall e | e in edits :: LevelsInRange(e)
    requires forall l: nat | l < NUM_LEVELS :: AddedOnce({}, edits, l)
    ensures |v| == NUM_LEVELS
    ensures forall l: nat | l < NUM_LEVELS :: InOrder(v[l]) && FilesOf(v[l]) == Replay({}, edits, l)
  {
    var builder := new Builder(NO_FILES);
    assert edits[0..] == edits;
    assert forall l | 0 <= l < NUM_LEVELS :: FilesOf(builder.addedFiles[l]) == {};
    assert NumbersOf({}) == {};
    for i := 0 to |edits|
      invariant builder.Valid() && fresh(builder) && builder.base == NO_FILES
      invariant forall l: nat | l < NUM_LEVELS ::
                  BuilderAdded(FilesOf(builder.addedFiles[l]), edits[i..], l) == BuilderAdded({}, edits, l) &&
                  BuilderDeleted(builder.deletedFiles[l], edits[i..], l) == BuilderDeleted({}, edits, l) &&
                  AddedOnce(NumbersOf(FilesOf(builder.addedFiles[l])), edits[i..], l)
    {
      assert edits[i..][1..] == edits[i + 1..];
      forall l: nat | l < NUM_LEVELS
        ensures NumbersName(FilesOf(builder.addedFiles[l]) + AddedFiles(edits[i], l))
        ensures NumbersOf(FilesOf(builder.addedFiles[l]) + AddedFiles(edits[i], l)) ==
                NumbersOf(FilesOf(builder.addedFiles[l])) + NumbersOf(AddedFiles(edits[i], l))
      {
        FreshNumbersName(FilesOf(builder.addedFiles[l]), AddedFiles(edits[i], l));
      }
      builder.Apply(edits[i]);
    }
    v := builder.SaveTo();
    forall l: nat | l < NUM_LEVELS
      ensures InOrder(v[l]) && FilesOf(v[l]) == Replay({}, edits, l)
    {
      SavedIsSurviving([], builder.addedFiles[l], builder.deletedFiles[l]);
      assert Surviving({}, {}, {}) == {} && NumbersOf({} + {}) == {};
      ReplayThroughOneBuilder({}, {}, {}, edits, l);
    }
  }

  lemma FreshNumbersName(a: set<File>, b: set<File>)
    requires NumbersName(a) && NumbersName(b) && NumbersOf(b) !! NumbersOf(a)
    ensures NumbersName(a + b) && NumbersOf(a + b) == NumbersOf(a) + NumbersOf(b)
  {
    forall f, g | f in a && g in b
      ensures f.number != g.number
    {
      assert f.number in NumbersOf(a) && g.number in NumbersOf(b);
    }
  }

  /** VersionSet::WriteSnapshot: an edit that adds every file of the version. */
  ghost predicate IsSnapshot(edit: VersionEdit, v: Version)
    requires |v| == NUM_LEVELS
  {
    edit.deletedFiles == {} && forall l: nat | l < NUM_LEVELS :: AddedFiles(edit, l) == FilesOf(v[l])
  }

  /** `versions` is what LogAndApply made of the edits, starting from versions[0]. */
  ghost predicate History(versions: seq<Version>, edits: seq<VersionEdit>) {
    |versions| == |edits| + 1 && (forall v | v in versions :: |v| == NUM_LEVELS) &&
    forall i | 0 <= i < |edits| :: Installed(versions[i], edits[i], versions[i + 1])
  }

  lemma {:induction false} HistoryReplay(versions: seq<Version>, edits: seq<VersionEdit>, l: nat)
    requires History(versions, edits) && l < NUM_LEVELS
    ensures FilesOf(versions[|edits|][l]) == Replay(FilesOf(versions[0][l]), edits, l)
  {
    if edits != [] {
      assert Installed(versions[0], edits[0], versions[1]);
      forall i | 0 <= i < |edits[1..]|
        ensures Installed(versions[1..][i], edits[1..][i], versions[1..][i + 1])
      {
        assert Installed(versions[i + 1], edits[i + 1], versions[i + 2]);
      }
      HistoryReplay(versions[1..], edits[1..], l);
    }
  }

  /** Recovering from the snapshot record and the later edits rebuilds the version LogAndApply
      installed last, provided the history adds no (level, number) pair twice. */
  lemma RecoverRebuilds(versions: seq<Version>, snapshot: VersionEdit, edits: seq<VersionEdit>, recovered: Version)
    requires History(versions, edits) && IsSnapshot(snapshot, versions[0])
    requires forall l: nat | l < NUM_LEVELS :: InOrder(versions[0][l])
    requires |recovered| == NUM_LEVELS && forall l: nat | l < NUM_LEVELS ::
               InOrder(recovered[l]) && FilesOf(recovered[l]) == Replay({}, [snapshot] + edits, l)
    ensures recovered == versions[|edits|]
  {
    var last := versions[|edits|];
    assert last in versions;
    if edits != [] {
      assert Installed(versions[|edits| - 1], edits[|edits| - 1], last);
    }
    forall l: nat | l < NUM_LEVELS
      ensures recovered[l] == last[l]
    {
      HistoryReplay(versions, edits, l);
      assert ([snapshot] + edits)[1..] == edits;
      assert AfterEdit({}, snapshot, l) == FilesOf(versions[0][l]);
      OrderDetermines(recovered[l], last[l]);
    }
  }
}
