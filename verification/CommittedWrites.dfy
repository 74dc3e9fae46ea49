// What group commit does to the database: the published groups are the engine's writes, one after the other
// (DBImpl::Write in db/db_impl.cc).

module CommittedWrites {
  import opened Keys
  import opened Reads
  import opened Engine
  import W = WriteQueue

  /** What a published group does: a write if it succeeded; if it failed, only its sequence numbers are used up. */
  function AfterGroup(db: DB, g: W.Group): DB
    requires db.last + |g.ops| < MAX_SEQUENCE_NUMBER
  {
    db.(mem := if g.status.Ok? then AddBatch(db.mem, db.last + 1, g.ops) else db.mem, last := db.last + |g.ops|)
  }

  /** The groups of a history, one after the other. */
  function Committed(db: DB, h: seq<W.Group>): (r: DB)
    requires W.LastOf(db.last, h) < MAX_SEQUENCE_NUMBER
    ensures r.last == W.LastOf(db.last, h)
  {
    if h == [] then db else AfterGroup(Committed(db, h[..|h| - 1]), h[|h| - 1])
  }

  // ------------------------------------------------------------------ one group

  /** A group that succeeded has stored its batch, one that failed nothing. */
  lemma GroupStores(g: W.Group, last: nat)
    requires W.GroupOk(g, last) && W.Done(g)
    ensures forall e :: W.Stored(g, e) <==> g.status.Ok? && e in BatchEntries(last + 1, g.ops)
  {
    forall e | g.status.Ok? && e in BatchEntries(last + 1, g.ops)
      ensures W.Stored(g, e)
    {
      var k :| 0 <= k < |g.ops| && e == Entry(IKey(g.ops[k].user, last + 1 + k, g.ops[k].kind), g.ops[k].value);
      assert e == W.EntryOf(g.first + k, g.ops[k]);
    }
  }

  /** Passing over sequence numbers changes no entry. */
  lemma PassedOver(db: DB, g: W.Group)
    requires ValidDB(db) && g.status.Failed? && db.last + |g.ops| < MAX_SEQUENCE_NUMBER
    ensures ValidDB(AfterGroup(db, g)) && All(AfterGroup(db, g)) == All(db)
  {
  }

  lemma GroupIsStep(db: DB, g: W.Group)
    requires ValidDB(db) && W.GroupOk(g, db.last) && W.Done(g) && db.last + |g.ops| < MAX_SEQUENCE_NUMBER
    ensures ValidDB(AfterGroup(db, g))
    ensures g.status.Ok? ==> Takes(db, Write(g.ops), AfterGroup(db, g))
    ensures forall e :: e in All(AfterGroup(db, g)) <==> e in All(db) || W.Stored(g, e)
  {
    GroupStores(g, db.last);
    if g.status.Ok? {
      assert Takes(db, Write(g.ops), AfterGroup(db, g));
      WriteKeepsValid(db, g.ops, AfterGroup(db, g));
      WriteAddsBatch(db, g.ops, AfterGroup(db, g));
    } else {
      PassedOver(db, g);
    }
  }

  // ------------------------------------------------------------------ a history

  lemma HistoryPrefix(origin: nat, h: seq<W.Group>)
    requires h != [] && W.HistoryOk(origin, h)
    ensures W.HistoryOk(origin, h[..|h| - 1])
    ensures W.GroupOk(h[|h| - 1], W.LastOf(origin, h[..|h| - 1])) && W.Done(h[|h| - 1])
  {
    var front := h[..|h| - 1];
    assert W.GroupAt(origin, h, |h| - 1);
    forall i | 0 <= i < |front|
      ensures W.GroupAt(origin, front, i)
    {
      assert W.GroupAt(origin, h, i);
      assert front[..i] == h[..i];
    }
  }

  lemma NothingStored()
    ensures forall e :: !W.StoredIn([], e)
  {
  }

  /** The groups together leave a valid database that holds what was there and what they stored. */
  lemma {:induction false} CommittedHolds(db: DB, h: seq<W.Group>)
    requires ValidDB(db) && W.HistoryOk(db.last, h) && W.LastOf(db.last, h) < MAX_SEQUENCE_NUMBER
    ensures ValidDB(Committed(db, h))
    ensures forall e :: e in All(Committed(db, h)) <==> e in All(db) || W.StoredIn(h, e)
    decreases |h|
  {
    hide W.HistoryOk, W.GroupOk, W.Done, W.StoredIn, W.Stored, ValidDB, All, AfterGroup;
    if h == [] {
      NothingStored();
    } else {
      var front, g := h[..|h| - 1], h[|h| - 1];
      HistoryPrefix(db.last, h);
      CommittedHolds(db, front);
      GroupIsStep(Committed(db, front), g);
      forall e
        ensures W.StoredIn(h, e) <==> W.StoredIn(front, e) || W.Stored(g, e)
      {
        W.StoredLast(front, g, e);
        assert front + [g] == h;
      }
    }
  }

  /** Every group that succeeded is a write of the engine; one that failed changes no entry. */
  lemma {:induction false} EveryGroupIsStep(db: DB, h: seq<W.Group>, i: nat)
    requires ValidDB(db) && W.HistoryOk(db.last, h) && W.LastOf(db.last, h) < MAX_SEQUENCE_NUMBER && i < |h|
    ensures W.LastOf(db.last, h[..i]) <= W.LastOf(db.last, h[..i + 1]) < MAX_SEQUENCE_NUMBER
    ensures ValidDB(Committed(db, h[..i]))
    ensures h[i].status.Ok? ==> Takes(Committed(db, h[..i]), Write(h[i].ops), Committed(db, h[..i + 1]))
    ensures h[i].status.Failed? ==> All(Committed(db, h[..i + 1])) == All(Committed(db, h[..i]))
    decreases |h|
  {
    var front, g := h[..|h| - 1], h[|h| - 1];
    HistoryPrefix(db.last, h);
    if i < |h| - 1 {
      assert front[..i] == h[..i] && front[..i + 1] == h[..i + 1];
      EveryGroupIsStep(db, front, i);
    } else {
      assert h[..i + 1] == h;
      CommittedHolds(db, front);
      GroupIsStep(Committed(db, front), g);
      if g.status.Failed? {
        PassedOver(Committed(db, front), g);
      }
    }
  }

  // ------------------------------------------------------------------ a run

  /** What the history of a run stored lies between its first and its last sequence number. */
  lemma StoredBetween(st: W.State, e: Entry)
    requires W.GroupsInv(st)
    ensures W.StoredIn(st.history, e) ==> st.origin < e.key.sequence
    ensures W.StoredIn(W.Groups(st), e) && e.key.sequence <= st.lastSequence ==> W.StoredIn(st.history, e)
    ensures W.StoredIn(st.history, e) ==> W.StoredIn(W.Groups(st), e)
  {
    if W.StoredIn(W.Groups(st), e) {
      var i :| 0 <= i < |W.Groups(st)| && W.Stored(W.Groups(st)[i], e);
      W.GroupIsPlaced(st, i);
      W.StoredRange(W.Groups(st)[i], e);
      if i < |st.history| {
        assert W.Stored(st.history[i], e);
      }
    }
    if W.StoredIn(st.history, e) {
      var i :| 0 <= i < |st.history| && W.Stored(st.history[i], e);
      assert W.Groups(st)[i] == st.history[i];
      W.GroupIsPlaced(st, i);
      W.StoredRange(st.history[i], e);
    }
  }

  /** At every point of every run, what is published is what the engine has after writing the published groups one
      after the other. */
  lemma PublishedIsCommitted(states: seq<W.State>, steps: seq<W.Step>, n: nat, db: DB)
    requires W.IsRun(states, steps) && n < |states| && states[n].lastSequence < MAX_SEQUENCE_NUMBER
    requires ValidDB(db) && db.last == states[0].origin && All(db) == states[0].table
    ensures states[n].lastSequence == W.LastOf(db.last, states[n].history)
    ensures ValidDB(Committed(db, states[n].history)) && Committed(db, states[n].history).last == states[n].lastSequence
    ensures forall e: Entry | e.key.sequence <= states[n].lastSequence ::
              e in states[n].table <==> e in All(Committed(db, states[n].history))
  {
    var st := states[n];
    W.RunKeepsInv(states, steps, n);
    W.RunGrows(states, steps, 0, n);
    CommittedHolds(db, st.history);
    forall e: Entry | e.key.sequence <= st.lastSequence
      ensures e in st.table <==> e in All(Committed(db, st.history))
    {
      StoredBetween(st, e);
      if e.key.sequence <= st.origin {
        W.SnapshotIsStable(states, steps, 0, n, e);
      } else {
        assert e !in All(db);
      }
    }
  }

  lemma SameUpTo(a: set<Entry>, b: set<Entry>, u: UserKey, s: SequenceNumber, r: Option<Bytes>)
    requires forall e: Entry | e.key.sequence <= s :: e in a <==> e in b
    ensures Answers(a, u, s, r) <==> Answers(b, u, s, r)
  {
    forall e
      ensures IsNewest(a, u, s, e) <==> IsNewest(b, u, s, e)
    {
    }
  }

  /** So a reader at any published sequence number, while groups are being written, reads as in the engine. */
  lemma ReadsAreCommitted(states: seq<W.State>, steps: seq<W.Step>, n: nat, db: DB, u: UserKey, s: SequenceNumber,
                          r: Option<Bytes>)
    requires W.IsRun(states, steps) && n < |states| && s <= states[n].lastSequence < MAX_SEQUENCE_NUMBER
    requires ValidDB(db) && db.last == states[0].origin && All(db) == states[0].table
    ensures states[n].lastSequence == W.LastOf(db.last, states[n].history)
    ensures Answers(states[n].table, u, s, r) <==> Answers(All(Committed(db, states[n].history)), u, s, r)
  {
    PublishedIsCommitted(states, steps, n, db);
    SameUpTo(states[n].table, All(Committed(db, states[n].history)), u, s, r);
  }

  /** Between two points without a group at work, the second one group further than the first, the shared state changes
      as a write of the engine changes the database. */
  lemma GroupIsWrite(states: seq<W.State>, steps: seq<W.Step>, n: nat, m: nat, g: W.Group, db: DB, db2: DB)
    requires W.IsRun(states, steps) && n <= m < |states| && states[n].current.None? && states[m].current.None?
    requires states[m].history == states[n].history + [g] && g.status.Ok?
    requires ValidDB(db) && All(db) == states[n].table && db.last == states[n].lastSequence
    requires Writes(db, g.ops, db2)
    ensures All(db2) == states[m].table && db2.last == states[m].lastSequence
  {
    hide *;
    W.RunKeepsInv(states, steps, n);
    W.RunKeepsInv(states, steps, m);
    W.RunGrows(states, steps, n, m);
    GroupBetween(states[n], states[m], g, db, db2);
  }

  lemma GroupBetween(a: W.State, b: W.State, g: W.Group, db: DB, db2: DB)
    requires W.Inv(a) && W.Inv(b) && W.Grew(a, b) && a.current.None? && b.current.None?
    requires b.history == a.history + [g] && g.status.Ok?
    requires ValidDB(db) && All(db) == a.table && db.last == a.lastSequence && Writes(db, g.ops, db2)
    ensures All(db2) == b.table && db2.last == b.lastSequence
  {
    hide W.Inv, W.Stored, W.Done, ValidDB, All, BatchEntries;
    LastGroup(a, b, g);
    GroupStores(g, a.lastSequence);
    WriteFromValid(db, g.ops, db2);
    forall e
      ensures e in All(db2) <==> e in b.table
    {
      OneGroupMore(a, b, g, e);
    }
  }

  lemma WriteFromValid(db: DB, ops: seq<Op>, db2: DB)
    requires ValidDB(db) && Writes(db, ops, db2)
    ensures All(db2) == All(db) + BatchEntries(db.last + 1, ops)
  {
    WriteAddsBatch(db, ops, db2);
  }

  lemma LastGroup(a: W.State, b: W.State, g: W.Group)
    requires W.Inv(a) && W.Inv(b) && W.Grew(a, b) && b.history == a.history + [g]
    ensures W.GroupOk(g, a.lastSequence) && W.Done(g) && b.lastSequence == a.lastSequence + |g.ops|
  {
    W.Last(a.history, g);
    HistoryPrefix(b.origin, b.history);
  }

  lemma OneGroupMore(a: W.State, b: W.State, g: W.Group, e: Entry)
    requires W.Inv(a) && W.Inv(b) && W.Grew(a, b) && a.current.None? && b.current.None?
    requires b.history == a.history + [g]
    ensures e in b.table <==> e in a.table || W.Stored(g, e)
  {
    W.StoredLast(a.history, g, e);
    assert W.Groups(a) == a.history && W.Groups(b) == b.history;
    StoredBetween(b, e);
    if e.key.sequence <= a.origin {
      W.LastGrows(a.origin, a.history, 0, |a.history|);
      assert a.history[..|a.history|] == a.history;
    }
  }
}
