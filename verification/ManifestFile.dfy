// The manifest as a file: what a run of the engine logs is encoded, written as log records, read back after the file
// may have lost its end, and replayed (VersionSet::LogAndApply, WriteSnapshot and Recover in db/version_set.cc).

module ManifestFiles {
  import opened Keys
  import opened Versions
  import opened Manifests
  import opened Engine
  import opened EngineRecovery
  import opened LogFormat
  import opened ManifestRecords
  import E = VersionEdits
  import LogRoundTrip

  // ------------------------------------------------------------------ writing

  method EncodeEdit(e: E.Fields) returns (record: Bytes)
    requires E.WellFormed(e)
    ensures E.Writes(e, record)
  {
    var edit := new E.VersionEdit();
    edit.fields := e;
    record := edit.EncodeTo([]);
  }

  /** The file holds one record for each edit, its encoding, each record in fragments. */
  ghost predicate IsManifest(crc: Checksum, file: Bytes, es: seq<E.Fields>, groups: seq<seq<Fragment>>,
                             records: seq<Bytes>)
  {
    SplitsAll(groups, records) && Fits(Flat(groups)) && file == Image(crc, Flat(groups)) && Records(records, es)
  }

  /** Each edit is encoded and added to the log as one record. */
  method WriteManifest(crc: Checksum, es: seq<E.Fields>) returns (file: Bytes)
    requires forall e | e in es :: E.WellFormed(e)
    ensures exists groups, records :: IsManifest(crc, file, es, groups, records)
  {
    hide E.WellFormed, E.Writes, SplitsAll, Fits;
    var writer := new LogWriter(crc);
    for i := 0 to |es|
      invariant fresh(writer) && writer.Valid() && Records(writer.records, es[..i])
    {
      var record := EncodeEdit(es[i]);
      writer.AddRecord(record);
      RecordsMore(writer.records, es, i);
    }
    assert es[..|es|] == es;
    file := writer.dest;
    assert IsManifest(crc, file, es, writer.groups, writer.records);
  }

  lemma RecordsMore(records: seq<Bytes>, es: seq<E.Fields>, i: nat)
    requires i < |es| && |records| == i + 1 && Records(records[..i], es[..i]) && E.Writes(es[i], records[i])
    ensures Records(records, es[..i + 1])
  {
    forall j | 0 <= j < i + 1
      ensures E.Writes(es[..i + 1][j], records[j])
    {
      if j < i {
        assert E.Writes(es[..i][j], records[..i][j]);
      }
    }
  }

  // ------------------------------------------------------------------ how far a run has come

  /** What the first `k` steps of a run log is the first part of what it logs. */
  lemma {:induction false} LoggedSplits(states: seq<DB>, steps: seq<Step>, k: nat)
    requires |states| == |steps| + 1 && k <= |steps|
    ensures Logged(states, steps) == Logged(states[..k + 1], steps[..k]) + Logged(states[k..], steps[k..])
    decreases steps
  {
    if k == 0 {
      assert states[0..] == states && steps[0..] == steps;
    } else {
      LoggedSplits(states[1..], steps[1..], k - 1);
      assert states[1..][..k] == states[..k + 1][1..] && steps[1..][..k - 1] == steps[..k][1..];
      assert states[1..][k - 1..] == states[k..] && steps[1..][k - 1..] == steps[k..];
    }
  }

  /** Any number of logged edits is what some part of the run logs. */
  lemma {:induction false} LoggedReaches(states: seq<DB>, steps: seq<Step>, n: nat) returns (k: nat)
    requires |states| == |steps| + 1 && n <= |Logged(states, steps)|
    ensures k <= |steps| && Logged(states[..k + 1], steps[..k]) == Logged(states, steps)[..n]
    ensures n == |Logged(states, steps)| ==> k == |steps|
    decreases steps
  {
    if n == |Logged(states, steps)| {
      k := |steps|;
      assert states[..k + 1] == states && steps[..k] == steps;
    } else {
      var last := |steps| - 1;
      LoggedSplits(states, steps, last);
      LastLogged(states, steps);
      k := LoggedReaches(states[..last + 1], steps[..last], n);
      assert states[..last + 1][..k + 1] == states[..k + 1] && steps[..last][..k] == steps[..k];
    }
  }

  lemma LastLogged(states: seq<DB>, steps: seq<Step>)
    requires |states| == |steps| + 1 && steps != []
    ensures |Logged(states[|steps| - 1..], steps[|steps| - 1..])| <= 1
  {
    var a, b := states[|steps| - 1..], steps[|steps| - 1..];
    assert b[1..] == [];
  }

  lemma RunPrefix(states: seq<DB>, steps: seq<Step>, k: nat)
    requires IsRun(states, steps) && k <= |steps|
    ensures IsRun(states[..k + 1], steps[..k]) && states[..k + 1][0] == states[0] && states[..k + 1][k] == states[k]
  {
  }

  // ------------------------------------------------------------------ reading

  lemma RecordsPrefix(records: seq<Bytes>, es: seq<E.Fields>, c: nat)
    requires Records(records, es) && c <= |records|
    ensures Records(records[..c], es[..c])
  {
    forall i | 0 <= i < c
      ensures E.Writes(es[..c][i], records[..c][i])
    {
      assert E.Writes(es[i], records[i]);
    }
  }

  lemma LogicalPrefix(snapshot: E.Fields, es: seq<E.Fields>, open: E.FileMetaData -> File, c: nat)
    requires 0 < c <= |es| + 1
    ensures LogicalAll(([snapshot] + es)[..c], open) == [Logical(snapshot, open)] + LogicalAll(es, open)[..c - 1]
    ensures Logical(snapshot, open) in LogicalAll([snapshot] + es, open)
  {
    assert LogicalAll([snapshot] + es, open)[0] == Logical(snapshot, open);
  }

  /** A whole file has no record that is not whole. */
  lemma NothingLost(crc: Checksum, groups: seq<seq<Fragment>>, c: nat)
    requires c <= |groups| && (c < |groups| ==> |LogRoundTrip.FileOf(crc, groups, c + 1)| > |Image(crc, Flat(groups))|)
    ensures c == |groups|
  {
    if c < |groups| {
      LogRoundTrip.FlatPrefix(groups, c + 1);
      LogRoundTrip.ImagePrefix(crc, Flat(groups), |Flat(groups[..c + 1])|);
    }
  }

  lemma WholeRecords(groups: seq<seq<Fragment>>, records: seq<Bytes>, es: seq<E.Fields>)
    requires SplitsAll(groups, records) && Records(records, es)
    ensures |groups| == |records| == |es|
  {
  }

  /** The snapshot record is whole if any record is. */
  lemma FirstIsWhole(crc: Checksum, groups: seq<seq<Fragment>>, c: nat)
    requires 0 < c <= |groups|
    ensures |LogRoundTrip.FileOf(crc, groups, 1)| <= |LogRoundTrip.FileOf(crc, groups, c)|
  {
    var some := groups[..c];
    assert some[..1] == groups[..1];
    LogRoundTrip.FlatPrefix(some, 1);
    LogRoundTrip.ImagePrefix(crc, Flat(some), |Flat(some[..1])|);
  }

  /** VersionSet::Recover on what is left of a manifest: the whole records, a snapshot and then edits, are replayed.
      Without the snapshot there is nothing to recover. `c` is the number of whole records, and `k` the state of the run
      up to which they reach. */
  method RecoverFile(crc: Checksum, file: Bytes, open: E.FileMetaData -> File, ghost whole: Bytes,
                     ghost groups: seq<seq<Fragment>>, ghost records: seq<Bytes>, ghost snapshot: E.Fields,
                     ghost es: seq<E.Fields>, ghost states: seq<DB>, ghost steps: seq<Step>)
    returns (v: Option<Version>, ghost c: nat, ghost k: nat)
    requires IsManifest(crc, whole, [snapshot] + es, groups, records) && file <= whole
    requires IsRun(states, steps) && ValidDB(states[0])
    requires LogicalAll(es, open) == Logged(states, steps) && IsSnapshot(Logical(snapshot, open), states[0].version)
    ensures |groups| > 0 && (v.None? <==> |file| < |LogRoundTrip.FileOf(crc, groups, 1)|)
    ensures file == whole ==> v == Some(states[|steps|].version)
    ensures c <= |groups| && |LogRoundTrip.FileOf(crc, groups, c)| <= |file|
    ensures c < |groups| ==> |LogRoundTrip.FileOf(crc, groups, c + 1)| > |file|
    ensures v.Some? ==> 0 < c && k <= |steps| && v == Some(states[k].version)
    ensures v.Some? ==> Logged(states[..k + 1], steps[..k]) == Logged(states, steps)[..c - 1]
  {
    hide ValidDB, Takes, IsSnapshot, Fits, LogRoundTrip.FileOf, LogRoundTrip.ReadAll;
    c := LogRoundTrip.PrefixReads(crc, file, groups, records);
    k := 0;
    WholeRecords(groups, records, [snapshot] + es);
    if file == whole {
      NothingLost(crc, groups, c);
    }
    var left, drops := LogRoundTrip.ReadFile(crc, file);
    RecordsPrefix(records, [snapshot] + es, c);
    var decoded := ReadRecords(left, ([snapshot] + es)[..c]);
    if decoded.value == [] {
      return None, c, k;
    }
    FirstIsWhole(crc, groups, c);
    LevelsStay(records, [snapshot] + es, open);
    k := LoggedReaches(states, steps, c - 1);
    RunPrefix(states, steps, k);
    LogicalPrefix(snapshot, es, open, c);
    var w := RecoverRun(LogicalAll(decoded.value, open), Logical(snapshot, open), states[..k + 1], steps[..k]);
    v := Some(w);
  }

  /** Writing the manifest of a run, keeping only its first `left` bytes, and recovering gives the version of some state
      of the run: the last one if nothing was lost. */
  method SaveAndRecover(crc: Checksum, open: E.FileMetaData -> File, snapshot: E.Fields, es: seq<E.Fields>,
                        left: nat, ghost states: seq<DB>, ghost steps: seq<Step>)
    returns (file: Bytes, v: Option<Version>)
    requires E.WellFormed(snapshot) && (forall e | e in es :: E.WellFormed(e))
    requires IsRun(states, steps) && ValidDB(states[0])
    requires LogicalAll(es, open) == Logged(states, steps) && IsSnapshot(Logical(snapshot, open), states[0].version)
    ensures exists groups, records :: IsManifest(crc, file, [snapshot] + es, groups, records) &&
              |groups| > 0 && (v.None? <==> left < |LogRoundTrip.FileOf(crc, groups, 1)|)
    ensures v.Some? ==> exists k :: 0 <= k <= |steps| && v == Some(states[k].version)
    ensures left >= |file| ==> v == Some(states[|steps|].version)
  {
    hide *;
    file := WriteManifest(crc, [snapshot] + es);
    ghost var groups, records :| IsManifest(crc, file, [snapshot] + es, groups, records);
    var rest := if left < |file| then file[..left] else file;
    ghost var c, k;
    v, c, k := RecoverFile(crc, rest, open, file, groups, records, snapshot, es, states, steps);
    if left >= |file| {
      FirstIsPart(crc, file, [snapshot] + es, groups, records);
    }
  }

  lemma FirstIsPart(crc: Checksum, file: Bytes, es: seq<E.Fields>, groups: seq<seq<Fragment>>, records: seq<Bytes>)
    requires IsManifest(crc, file, es, groups, records) && es != []
    ensures |groups| > 0 && |LogRoundTrip.FileOf(crc, groups, 1)| <= |file|
  {
    FirstIsWhole(crc, groups, |groups|);
    assert groups[..|groups|] == groups;
  }
}
