// Edits to a version, the builder that applies them, and recovery by replaying them
// (db/version_edit.h, db/version_set.cc).

module Builders {
  import opened Versions

  /** The part of a VersionEdit that changes the file lists: (level, file number) pairs to remove and
      (level, file) pairs to add. */
  datatype VersionEdit = VersionEdit(deletedFiles: set<(nat, nat)>, newFiles: seq<(nat, File)>)

  function DeletedAt(edit: VersionEdit, l: nat): set<nat> {
    set p | p in edit.deletedFiles && p.0 == l :: p.1
  }

  function AddedFiles(edit: VersionEdit, l: nat): set<File> {
    set p | p in edit.newFiles && p.0 == l :: p.1
  }

  function FilesOf(files: seq<File>): set<File> {
    set f | f in files
  }

  function NumbersOf(files: set<File>): set<nat> {
    set f | f in files :: f.number
  }

  /** A file number names one file. */
  ghost predicate NumbersName(files: set<File>) {
    forall f, g | f in files && g in files && f.number == g.number :: f == g
  }

  ghost predicate LevelsInRange(edit: VersionEdit) {
    (forall p | p in edit.deletedFiles :: p.0 < NUM_LEVELS) && forall p | p in edit.newFiles :: p.0 < NUM_LEVELS
  }

  /** `w` is `v` with the edit applied: removed files gone, added files merged in key order. */
  ghost predicate Installed(v: Version, edit: VersionEdit, w: Version) {
    |v| == NUM_LEVELS && |w| == NUM_LEVELS && forall l: nat | l < NUM_LEVELS ::
      InOrder(w[l]) && FilesOf(w[l]) == AfterEdit(FilesOf(v[l]), edit, l)
  }

  function AfterEdit(files: set<File>, edit: VersionEdit, l: nat): set<File> {
    var added := AddedFiles(edit, l);
    added + set f | f in files && (f.number !in DeletedAt(edit, l) || f.number in NumbersOf(added))
  }

  // ------------------------------------------------------------------ Builder::Apply

  /** std::set insertion: nothing happens when an equivalent file is already there. */
  function InsertFile(sorted: seq<File>, f: File): seq<File> {
    if sorted == [] || FileBefore(f, sorted[0]) then [f] + sorted
    else if FileBefore(sorted[0], f) then [sorted[0]] + InsertFile(sorted[1..], f)
    else sorted
  }

  lemma PrependInOrder(f: File, rest: seq<File>, members: set<File>)
    requires InOrder(rest) && FilesOf(rest) == members && forall g | g in members :: FileBefore(f, g)
    ensures InOrder([f] + rest) && FilesOf([f] + rest) == {f} + members
  {
    assert forall i | 0 <= i < |rest| :: rest[i] in FilesOf(rest);
  }

  lemma {:induction false} InsertFileInOrder(sorted: seq<File>, f: File)
    requires InOrder(sorted) && NumbersName(FilesOf(sorted) + {f})
    ensures InOrder(InsertFile(sorted, f)) && FilesOf(InsertFile(sorted, f)) == FilesOf(sorted) + {f}
  {
    if sorted == [] || FileBefore(f, sorted[0]) {
      assert forall g :: g in InsertFile(sorted, f) <==> g == f || g in sorted;
    } else if FileBefore(sorted[0], f) {
      var rest := sorted[1..];
      assert FilesOf(sorted) == {sorted[0]} + FilesOf(rest);
      InsertFileInOrder(rest, f);
      PrependInOrder(sorted[0], InsertFile(rest, f), FilesOf(rest) + {f});
    } else {
      assert sorted[0] in FilesOf(sorted) && sorted[0].number == f.number;
    }
  }

  class Builder {
    const base: Version
    var deletedFiles: seq<set<nat>>
    var addedFiles: seq<seq<File>>

    ghost predicate Valid()
      reads this
    {
      |base| == NUM_LEVELS && |deletedFiles| == NUM_LEVELS && |addedFiles| == NUM_LEVELS &&
      forall l: nat | l < NUM_LEVELS :: InOrder(addedFiles[l]) && NumbersName(FilesOf(addedFiles[l]))
    }

    constructor (base: Version)
      requires |base| == NUM_LEVELS
      ensures Valid() && this.base == base
      ensures forall l | 0 <= l < NUM_LEVELS :: deletedFiles[l] == {} && addedFiles[l] == []
    {
      this.base := base;
      deletedFiles := [{}, {}, {}, {}, {}, {}, {}];
      addedFiles := [[], [], [], [], [], [], []];
    }

    /** Records an edit: deletions first, then additions, each of which cancels a pending deletion of
        its own number. */
    method Apply(edit: VersionEdit)
      requires Valid() && LevelsInRange(edit)
      requires forall l: nat | l < NUM_LEVELS :: NumbersName(FilesOf(addedFiles[l]) + AddedFiles(edit, l))
      modifies this
      ensures Valid()
      ensures forall l: nat | l < NUM_LEVELS ::
                deletedFiles[l] == old(deletedFiles[l]) + DeletedAt(edit, l) - NumbersOf(AddedFiles(edit, l))
      ensures forall l: nat | l < NUM_LEVELS ::
                FilesOf(addedFiles[l]) == FilesOf(old(addedFiles[l])) + AddedFiles(edit, l)
    {
      for l := 0 to NUM_LEVELS
        invariant Valid() && addedFiles == old(addedFiles)
        invariant forall m | 0 <= m < NUM_LEVELS ::
                    deletedFiles[m] == old(deletedFiles[m]) + if m < l then DeletedAt(edit, m) else {}
      {
        deletedFiles := deletedFiles[l := deletedFiles[l] + DeletedAt(edit, l)];
      }
      AddNewFiles(edit);
    }

    method AddNewFiles(edit: VersionEdit)
      requires Valid() && LevelsInRange(edit)
      requires forall l: nat | l < NUM_LEVELS :: NumbersName(FilesOf(addedFiles[l]) + AddedFiles(edit, l))
      modifies this
      ensures Valid()
      ensures forall l: nat | l < NUM_LEVELS :: deletedFiles[l] == old(deletedFiles[l]) - NumbersOf(AddedFiles(edit, l))
      ensures forall l: nat | l < NUM_LEVELS ::
                FilesOf(addedFiles[l]) == FilesOf(old(addedFiles[l])) + AddedFiles(edit, l)
    {
      for i := 0 to |edit.newFiles|
        invariant |deletedFiles| == |addedFiles| == NUM_LEVELS
        invariant forall m: nat | m < NUM_LEVELS ::
                    Applied(old(deletedFiles[m]), old(addedFiles[m]), edit, i, m, deletedFiles[m], addedFiles[m])
      {
        var (level, f) := edit.newFiles[i];
        assert (level, f) in edit.newFiles;
        forall m: nat | m < NUM_LEVELS
          ensures Applied(old(deletedFiles[m]), old(addedFiles[m]), edit, i + 1, m,
                          if m == level then deletedFiles[m] - {f.number} else deletedFiles[m],
                          if m == level then InsertFile(addedFiles[m], f) else addedFiles[m])
        {
          AppliedStep(old(deletedFiles[m]), old(addedFiles[m]), edit, i, m, deletedFiles[m], addedFiles[m]);
        }
        deletedFiles := deletedFiles[level := deletedFiles[level] - {f.number}];
        addedFiles := addedFiles[level := InsertFile(addedFiles[level], f)];
      }
      assert edit.newFiles[..|edit.newFiles|] == edit.newFiles;
    }

    /** Merges the added files into the base files of every level, leaving deleted ones out. */
    method SaveTo() returns (v: Version)
      requires Valid() && forall l | 0 <= l < NUM_LEVELS :: InOrder(base[l])
      ensures |v| == NUM_LEVELS
      ensures forall l | 0 <= l < NUM_LEVELS :: v[l] == SaveFrom([], base[l], addedFiles[l], deletedFiles[l])
    {
      v := [];
      for level := 0 to NUM_LEVELS
        invariant |v| == level
        invariant forall l | 0 <= l < level :: v[l] == SaveFrom([], base[l], addedFiles[l], deletedFiles[l])
      {
        var files := SaveLevel(base[level], addedFiles[level], deletedFiles[level]);
        v := v + [files];
      }
    }
  }

  /** What the first `i` new files of the edit add to level `m`. */
  function AddedPrefix(edit: VersionEdit, i: nat, m: nat): set<File>
    requires i <= |edit.newFiles|
  {
    set p | p in edit.newFiles[..i] && p.0 == m :: p.1
  }

  lemma AddedStep(edit: VersionEdit, i: nat, m: nat)
    requires i < |edit.newFiles|
    ensures AddedPrefix(edit, i + 1, m) ==
            AddedPrefix(edit, i, m) + (if m == edit.newFiles[i].0 then {edit.newFiles[i].1} else {})
    ensures AddedPrefix(edit, i, m) <= AddedFiles(edit, m)
  {
    var done, next := edit.newFiles[..i], edit.newFiles[..i + 1];
    assert next == done + [edit.newFiles[i]];
    forall f
      ensures f in AddedPrefix(edit, i + 1, m) <==>
              f in AddedPrefix(edit, i, m) || (m == edit.newFiles[i].0 && f == edit.newFiles[i].1)
    {
      assert (m, f) in next <==> (m, f) in done || (m, f) == edit.newFiles[i];
    }
  }

  /** A level of the builder after the first `i` new files of the edit. */
  ghost predicate Applied(deleted0: set<nat>, added0: seq<File>, edit: VersionEdit, i: nat, m: nat,
                          deleted: set<nat>, added: seq<File>)
    requires i <= |edit.newFiles|
  {
    InOrder(added) && NumbersName(FilesOf(added0) + AddedFiles(edit, m)) && NumbersName(FilesOf(added)) &&
    deleted == deleted0 - NumbersOf(AddedPrefix(edit, i, m)) &&
    FilesOf(added) == FilesOf(added0) + AddedPrefix(edit, i, m)
  }

  lemma AppliedStep(deleted0: set<nat>, added0: seq<File>, edit: VersionEdit, i: nat, m: nat,
                    deleted: set<nat>, added: seq<File>)
    requires i < |edit.newFiles| && Applied(deleted0, added0, edit, i, m, deleted, added)
    ensures var (level, f) := edit.newFiles[i];
            Applied(deleted0, added0, edit, i + 1, m,
                    if m == level then deleted - {f.number} else deleted,
                    if m == level then InsertFile(added, f) else added)
  {
    var (level, f) := edit.newFiles[i];
    AddedStep(edit, i, m);
    if m == level {
      assert (level, f) in edit.newFiles && f in AddedFiles(edit, m);
      InsertFileInOrder(added, f);
    }
  }

  ghost predicate NumbersApart(base: seq<File>, added: seq<File>) {
    forall f, g | f in base && g in added :: f.number != g.number
  }

  /** std::upper_bound: the first base file at or after `from` that comes after `f`. */
  method UpperBound(base: seq<File>, from: nat, f: File) returns (p: nat)
    requires InOrder(base) && from <= |base|
    ensures from <= p <= |base|
    ensures forall i | from <= i < p :: !FileBefore(f, base[i])
    ensures forall i | p <= i < |base| :: FileBefore(f, base[i])
  {
    p := from;
    while p < |base| && !FileBefore(f, base[p])
      invariant from <= p <= |base|
      invariant forall i | from <= i < p :: !FileBefore(f, base[i])
    {
      p := p + 1;
    }
  }

  /** What Builder::SaveTo makes of one level once `files` have been placed: base and added files
      merged in key order, deleted ones left out. */
  function SaveFrom(files: seq<File>, base: seq<File>, added: seq<File>, deleted: set<nat>): seq<File>
    decreases |base| + |added|
  {
    if base != [] && (added == [] || !FileBefore(added[0], base[0])) then
      SaveFrom(MaybeAddFile(files, base[0], deleted), base[1..], added, deleted)
    else if added != [] then
      SaveFrom(MaybeAddFile(files, added[0], deleted), base, added[1..], deleted)
    else files
  }

  /** Builder::MaybeAddFile. */
  function MaybeAddFile(files: seq<File>, f: File, deleted: set<nat>): seq<File> {
    if f.number in deleted then files else files + [f]
  }

  /** Offers the base files in [from, to) to MaybeAddFile; none of them comes after the added files. */
  method AddBaseFiles(placed: seq<File>, base: seq<File>, from: nat, to: nat, ghost added: seq<File>, deleted: set<nat>)
    returns (files: seq<File>)
    requires from <= to <= |base|
    requires forall i | from <= i < to :: added == [] || !FileBefore(added[0], base[i])
    ensures SaveFrom(files, base[to..], added, deleted) == SaveFrom(placed, base[from..], added, deleted)
  {
    files := placed;
    for i := from to to
      invariant SaveFrom(files, base[i..], added, deleted) == SaveFrom(placed, base[from..], added, deleted)
    {
      assert base[i..][1..] == base[i + 1..];
      files := MaybeAddFile(files, base[i], deleted);
    }
  }

  /** Builder::SaveTo for one level. */
  method SaveLevel(base: seq<File>, added: seq<File>, deleted: set<nat>) returns (files: seq<File>)
    requires InOrder(base) && InOrder(added)
    ensures files == SaveFrom([], base, added, deleted)
  {
    files := [];
    var baseIter := 0;
    assert base[0..] == base && added[0..] == added;
    for a := 0 to |added|
      invariant 0 <= baseIter <= |base|
      invariant SaveFrom(files, base[baseIter..], added[a..], deleted) == SaveFrom([], base, added, deleted)
    {
      var bpos := UpperBound(base, baseIter, added[a]);
      files := AddBaseFiles(files, base, baseIter, bpos, added[a..], deleted);
      baseIter := bpos;
      assert added[a..][1..] == added[a + 1..];
      files := MaybeAddFile(files, added[a], deleted);
    }
    assert added[|added|..] == [];
    files := AddBaseFiles(files, base, baseIter, |base|, [], deleted);
  }

  lemma {:induction false} SavedFiles(files: seq<File>, base: seq<File>, added: seq<File>, deleted: set<nat>, f: File)
    ensures f in SaveFrom(files, base, added, deleted) <==>
            f in files || ((f in base || f in added) && f.number !in deleted)
    decreases |base| + |added|
  {
    if base != [] && (added == [] || !FileBefore(added[0], base[0])) {
      SavedFiles(MaybeAddFile(files, base[0], deleted), base[1..], added, deleted, f);
      assert f in base <==> f == base[0] || f in base[1..];
    } else if added != [] {
      SavedFiles(MaybeAddFile(files, added[0], deleted), base, added[1..], deleted, f);
      assert f in added <==> f == added[0] || f in added[1..];
    }
  }

  /** The files placed so far come before everything still to be placed. */
  ghost predicate Placed(files: seq<File>, base: seq<File>, added: seq<File>) {
    InOrder(files) && InOrder(base) && InOrder(added) && NumbersApart(base, added) &&
    (forall f, g | f in files && g in base :: FileBefore(f, g)) &&
    forall f, g | f in files && g in added :: FileBefore(f, g)
  }

  lemma PlaceBase(files: seq<File>, base: seq<File>, added: seq<File>)
    requires Placed(files, base, added) && base != [] && (added != [] ==> !FileBefore(added[0], base[0]))
    ensures Placed(files, base[1..], added) && Placed(files + [base[0]], base[1..], added)
  {
    var f := base[0];
    assert f in base;
    forall g | g in added
      ensures FileBefore(f, g)
    {
      assert added[0] in added && f.number != added[0].number;
      assert FileBefore(f, added[0]);
    }
  }

  lemma PlaceAdded(files: seq<File>, base: seq<File>, added: seq<File>)
    requires Placed(files, base, added) && added != [] && (base != [] ==> FileBefore(added[0], base[0]))
    ensures Placed(files, base, added[1..]) && Placed(files + [added[0]], base, added[1..])
  {
    assert added[0] in added;
    forall g | g in base
      ensures FileBefore(added[0], g)
    {
    }
  }

  lemma {:induction false} SavedInOrder(files: seq<File>, base: seq<File>, added: seq<File>, deleted: set<nat>)
    requires Placed(files, base, added)
    ensures InOrder(SaveFrom(files, base, added, deleted))
    decreases |base| + |added|
  {
    if base != [] && (added == [] || !FileBefore(added[0], base[0])) {
      PlaceBase(files, base, added);
      SavedInOrder(MaybeAddFile(files, base[0], deleted), base[1..], added, deleted);
    } else if added != [] {
      PlaceAdded(files, base, added);
      SavedInOrder(MaybeAddFile(files, added[0], deleted), base, added[1..], deleted);
    }
  }
}
