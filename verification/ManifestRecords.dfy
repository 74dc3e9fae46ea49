// Recovery from the bytes of the manifest: its records are decoded and replayed
// (VersionSet::WriteSnapshot, LogAndApply and Recover in db/version_set.cc).

module ManifestRecords {
  import opened Keys
  import opened Versions
  import opened Builders
  import opened Manifests
  import E = VersionEdits

  /** The part of a decoded edit that changes the file lists; `open` gives the file that its metadata describes. */
  function Logical(e: E.Fields, open: E.FileMetaData -> File): VersionEdit {
    VersionEdit(set p | p in e.deletedFiles :: (p.0, p.1 as nat),
                seq(|e.newFiles|, i requires 0 <= i < |e.newFiles| => (e.newFiles[i].0, open(e.newFiles[i].1))))
  }

  function LogicalAll(es: seq<E.Fields>, open: E.FileMetaData -> File): seq<VersionEdit> {
    seq(|es|, i requires 0 <= i < |es| => Logical(es[i], open))
  }

  /** The records that LogAndApply appends for the given edits. */
  ghost predicate Records(records: seq<Bytes>, es: seq<E.Fields>) {
    |records| == |es| && forall i {:trigger E.Writes(es[i], records[i])} | 0 <= i < |es| :: E.Writes(es[i], records[i])
  }

  /** Every record is decoded into an edit of its own, which starts empty. */
  method ReadRecords(records: seq<Bytes>, ghost es: seq<E.Fields>) returns (r: Option<seq<E.Fields>>)
    requires Records(records, es)
    ensures r == Some(es)
  {
    var edits := [];
    for i := 0 to |records|
      invariant edits == es[..i]
    {
      assert E.Writes(es[i], records[i]);
      var edit := E.ReadEdit(records[i]);
      if edit.None? {
        return None;
      }
      edits := edits + [edit.value];
    }
    assert es[..|records|] == es;
    return Some(edits);
  }

  lemma LevelsStay(records: seq<Bytes>, es: seq<E.Fields>, open: E.FileMetaData -> File)
    requires Records(records, es)
    ensures forall e | e in LogicalAll(es, open) :: LevelsInRange(e)
  {
    forall i | 0 <= i < |es|
      ensures LevelsInRange(Logical(es[i], open))
    {
      assert E.Writes(es[i], records[i]);
    }
  }

  lemma LogicalFirst(snapshot: E.Fields, es: seq<E.Fields>, open: E.FileMetaData -> File)
    ensures LogicalAll([snapshot] + es, open) == [Logical(snapshot, open)] + LogicalAll(es, open)
  {
  }

  /** VersionSet::Recover from records: a snapshot of the first version, then one record for every edit. The version
      LogAndApply installed last comes back. */
  method RecoverFromRecords(records: seq<Bytes>, open: E.FileMetaData -> File, ghost snapshot: E.Fields,
                            ghost es: seq<E.Fields>, ghost versions: seq<Version>)
    returns (v: Option<Version>)
    requires Records(records, [snapshot] + es)
    requires History(versions, LogicalAll(es, open)) && IsSnapshot(Logical(snapshot, open), versions[0])
    requires forall l: nat | l < NUM_LEVELS ::
               InOrder(versions[0][l]) && AddedOnce({}, LogicalAll([snapshot] + es, open), l)
    ensures v == Some(versions[|es|])
  {
    var decoded := ReadRecords(records, [snapshot] + es);
    LevelsStay(records, [snapshot] + es, open);
    var w := Recover(LogicalAll(decoded.value, open));
    LogicalFirst(snapshot, es, open);
    RecoverRebuilds(versions, Logical(snapshot, open), LogicalAll(es, open), w);
    return Some(w);
  }
}
