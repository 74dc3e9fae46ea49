// Group commit: the writer queue, its leader, and the order in which a group is logged, inserted and
// published (DBImpl::Write and BuildBatchGroup in db/db_impl.cc).

module WriteQueue {
  import opened Keys
  import Engine

  type Op = Engine.Op

  datatype Batch = Batch(ops: seq<Op>, byteSize: nat)

  /** A caller of Write, numbered in the order of arrival; no batch means a request to switch memtables. */
  datatype Writer = Writer(id: nat, batch: Option<Batch>, sync: bool)

  datatype Status = Ok | Failed

  /** What a leader does for itself and the followers it took along. `applied` counts the operations
      inserted into the memtable. */
  datatype Group = Group(writers: seq<Writer>, refused: bool, first: nat, ops: seq<Op>,
                         logged: bool, synced: bool, applied: nat, status: Status)

  datatype Record = Record(first: nat, ops: seq<Op>)

  /** `table` stands for all that readers search; the queue, the log, the last published sequence number
      and the background error are shared, and the histories record what has happened. */
  datatype State = State(
    queue: seq<Writer>,
    current: Option<Group>,
    lastSequence: nat,
    log: seq<Record>,
    table: set<Entry>,
    backgroundError: bool,
    statuses: map<nat, Status>,
    origin: nat,
    arrived: seq<Writer>,
    history: seq<Group>)

  // ------------------------------------------------------------------ BuildBatchGroup

  function Ops(w: Writer): seq<Op> {
    match w.batch
    case None => []
    case Some(b) => b.ops
  }

  function OpsOf(ws: seq<Writer>): seq<Op> {
    if ws == [] then [] else OpsOf(ws[..|ws| - 1]) + Ops(ws[|ws| - 1])
  }

  function Bytes(ws: seq<Writer>): nat {
    if ws == [] then 0
    else
      var w := ws[|ws| - 1];
      Bytes(ws[..|ws| - 1]) + if w.batch.Some? then w.batch.value.byteSize else 0
  }

  /** A small first write limits the growth of its group. */
  function MaxSize(size: nat): nat {
    if size <= 0x20000 then size + 0x20000 else 0x100000
  }

  /** The k-th queued writer may ride with all those before it. */
  predicate Rides(queue: seq<Writer>, k: nat)
    requires 0 < k < |queue|
  {
    (queue[k].sync ==> queue[0].sync) &&
    (queue[k].batch.Some? ==> Bytes(queue[..k + 1]) <= MaxSize(Bytes(queue[..1])))
  }

  /** The group the first writer leads: it and as many of the next as may ride. */
  ghost predicate IsGroup(queue: seq<Writer>, n: nat) {
    1 <= n <= |queue| && (forall k | 1 <= k < n :: Rides(queue, k)) && (n < |queue| ==> !Rides(queue, n))
  }

  lemma NextRider(queue: seq<Writer>, n: nat)
    requires n < |queue|
    ensures Bytes(queue[..n + 1]) ==
            Bytes(queue[..n]) + if queue[n].batch.Some? then queue[n].batch.value.byteSize else 0
    ensures OpsOf(queue[..n + 1]) == OpsOf(queue[..n]) + Ops(queue[n])
  {
    assert queue[..n + 1][..n] == queue[..n];
  }

  /** The size a group led by a write of `size` bytes may reach: 128 KB more, or 1 MB. */
  predicate InLimit(size: nat, total: nat) {
    total <= if size <= 131072 then size + 131072 else 1048576
  }

  method BuildBatchGroup(queue: seq<Writer>) returns (n: nat, ops: seq<Op>)
    requires queue != [] && queue[0].batch.Some?
    ensures IsGroup(queue, n) && ops == OpsOf(queue[..n])
    ensures var leader := queue[0].batch.value.byteSize;
      Bytes(queue[..n]) == leader || InLimit(leader, Bytes(queue[..n]))
    ensures n < |queue| ==>
              (queue[n].sync && !queue[0].sync) ||
              (queue[n].batch.Some? && !InLimit(queue[0].batch.value.byteSize, Bytes(queue[..n + 1])))
  {
    var size := queue[0].batch.value.byteSize;
    ghost var leader := size;
    var maxSize := if size <= 0x20000 then size + 0x20000 else 0x100000;
    assert forall total: nat | total <= maxSize :: InLimit(leader, total);
    assert forall total: nat | total > maxSize :: !InLimit(leader, total);
    ops := queue[0].batch.value.ops;
    NextRider(queue, 0);
    n := 1;
    hide Bytes, OpsOf, InLimit;
    while n < |queue|
      invariant 1 <= n <= |queue| && size == Bytes(queue[..n]) && maxSize == MaxSize(Bytes(queue[..1]))
      invariant size == leader || size <= maxSize
      invariant ops == OpsOf(queue[..n]) && forall k | 1 <= k < n :: Rides(queue, k)
    {
      var w := queue[n];
      NextRider(queue, n);
      if w.sync && !queue[0].sync {
        break;
      }
      if w.batch.Some? {
        size := size + w.batch.value.byteSize;
        if size > maxSize {
          return;
        }
        ops := ops + w.batch.value.ops;
      }
      n := n + 1;
    }
  }

  // ------------------------------------------------------------------ the steps

  datatype Step =
    | Arrive(w: Writer)        // queued under the mutex
    | Refuse                   // MakeRoomForWrite failed for the first writer
    | Pass                     // the first writer has no batch: nothing to write
    | Begin(n: nat)            // the first writer forms a group and releases the mutex
    | AddRecord(ok: bool)      // the group is added to the log
    | Sync(ok: bool)           // the log is synced, if the leader asked for it
    | Insert                   // one operation goes into the memtable
    | Publish                  // under the mutex again: LastSequence moves and the group leaves the queue

  /** Logged, synced if the leader asked for it: the group may go into the memtable. */
  predicate Durable(g: Group)
    requires g.writers != []
  {
    g.status.Ok? && g.logged && (g.writers[0].sync ==> g.synced)
  }

  predicate Finished(g: Group)
    requires g.writers != []
  {
    g.status.Failed? || (Durable(g) && g.applied == |g.ops|)
  }

  function Leave(statuses: map<nat, Status>, ws: seq<Writer>, status: Status): map<nat, Status> {
    if ws == [] then statuses
    else Leave(statuses, ws[..|ws| - 1], status)[ws[|ws| - 1].id := status]
  }

  /** The group's writers leave the queue with the leader's status. */
  function AfterGroup(st: State, g: Group): State
    requires |g.writers| <= |st.queue|
  {
    st.(queue := st.queue[|g.writers|..],
        current := None,
        lastSequence := st.lastSequence + |g.ops|,
        backgroundError := st.backgroundError || (g.status.Failed? && g.logged),
        statuses := Leave(st.statuses, g.writers, g.status),
        history := st.history + [g])
  }

  /** The first writer by itself, when MakeRoomForWrite fails or it brings no batch. */
  function Alone(st: State, refused: bool): Group
    requires st.queue != []
  {
    Group(st.queue[..1], refused, st.lastSequence + 1, [], false, false, 0, if refused then Failed else Ok)
  }

  ghost predicate Takes(st: State, step: Step, st2: State) {
    match step
    case Arrive(w) =>
      w.id == |st.arrived| && st2 == st.(queue := st.queue + [w], arrived := st.arrived + [w])
    case Refuse =>
      st.current.None? && st.queue != [] &&
      st2 == AfterGroup(st, Alone(st, true))
    case Pass =>
      st.current.None? && st.queue != [] && st.queue[0].batch.None? && !st.backgroundError &&
      st2 == AfterGroup(st, Alone(st, false))
    case Begin(n) =>
      st.current.None? && st.queue != [] && st.queue[0].batch.Some? && !st.backgroundError && IsGroup(st.queue, n) &&
      st.lastSequence + |OpsOf(st.queue[..n])| <= MAX_SEQUENCE_NUMBER &&
      st2 == st.(current := Some(Group(st.queue[..n], false, st.lastSequence + 1, OpsOf(st.queue[..n]), false, false, 0,
                                       Ok)))
    case AddRecord(ok) =>
      st.current.Some? && Adds(st, st.current.value, ok, st2)
    case Sync(ok) =>
      st.current.Some? && Syncs(st, st.current.value, ok, st2)
    case Insert =>
      st.current.Some? && Inserts(st, st.current.value, st2)
    case Publish =>
      st.current.Some? && Publishes(st, st.current.value, st2)
  }

  ghost predicate Adds(st: State, g: Group, ok: bool, st2: State) {
    g.status.Ok? && !g.logged &&
    if ok then st2 == st.(current := Some(g.(logged := true)), log := st.log + [Record(g.first, g.ops)])
    else st2 == st.(current := Some(g.(status := Failed)))
  }

  ghost predicate Syncs(st: State, g: Group, ok: bool, st2: State) {
    g.writers != [] && g.status.Ok? && g.logged && g.writers[0].sync && !g.synced &&
    st2 == st.(current := Some(if ok then g.(synced := true) else g.(status := Failed)))
  }

  ghost predicate Inserts(st: State, g: Group, st2: State) {
    g.writers != [] && Durable(g) && g.applied < |g.ops| && g.first + g.applied <= MAX_SEQUENCE_NUMBER &&
    st2 == st.(current := Some(g.(applied := g.applied + 1)),
               table := st.table + {EntryOf(g.first + g.applied, g.ops[g.applied])})
  }

  ghost predicate Publishes(st: State, g: Group, st2: State) {
    g.writers != [] && |g.writers| <= |st.queue| && Finished(g) && st2 == AfterGroup(st, g)
  }

  function EntryOf(sequence: nat, op: Op): Entry
    requires sequence <= MAX_SEQUENCE_NUMBER
  {
    Entry(IKey(op.user, sequence, op.kind), op.value)
  }

  ghost predicate Initial(st: State) {
    st.queue == [] && st.current == None && st.lastSequence == st.origin && st.log == [] &&
    st.statuses == map[] && st.arrived == [] && st.history == [] && !st.backgroundError &&
    st.origin <= MAX_SEQUENCE_NUMBER &&
    forall e | e in st.table :: e.key.sequence <= st.origin
  }

  // ------------------------------------------------------------------ what every step keeps

  function AllWriters(h: seq<Group>): seq<Writer> {
    if h == [] then [] else AllWriters(h[..|h| - 1]) + h[|h| - 1].writers
  }

  function LastOf(origin: nat, h: seq<Group>): nat {
    if h == [] then origin else LastOf(origin, h[..|h| - 1]) + |h[|h| - 1].ops|
  }

  function Records(h: seq<Group>): seq<Record> {
    if h == [] then []
    else
      var g := h[|h| - 1];
      Records(h[..|h| - 1]) + if g.logged then [Record(g.first, g.ops)] else []
  }

  /** The group was formed by the rules, starts after sequence `last`, and stores all of its operations
      or, if it failed, none. */
  ghost predicate GroupOk(g: Group, last: nat) {
    g.writers != [] && g.first == last + 1 && last + |g.ops| <= MAX_SEQUENCE_NUMBER && g.applied <= |g.ops| &&
    (forall w | w in g.writers :: w.sync ==> g.writers[0].sync) &&
    (g.writers[0].batch.None? ==> |g.writers| == 1) &&
    (if g.refused then |g.writers| == 1 && g.ops == [] && g.status.Failed? else g.ops == OpsOf(g.writers)) &&
    (g.applied > 0 ==> Durable(g))
  }

  /** A finished group answered Ok only after all its steps succeeded. */
  ghost predicate Done(g: Group)
    requires g.writers != []
  {
    g.status.Ok? ==> g.applied == |g.ops| && (g.writers[0].batch.Some? ==> Durable(g))
  }

  ghost predicate HistoryOk(origin: nat, h: seq<Group>) {
    forall i {:trigger GroupAt(origin, h, i)} | 0 <= i < |h| :: GroupAt(origin, h, i)
  }

  ghost predicate GroupAt(origin: nat, h: seq<Group>, i: nat)
    requires i < |h|
  {
    GroupOk(h[i], LastOf(origin, h[..i])) && Done(h[i])
  }

  /** Sequence numbers are handed out group after group, without gaps or overlaps. */
  ghost predicate GroupsInv(st: State) {
    HistoryOk(st.origin, st.history) && st.lastSequence == LastOf(st.origin, st.history) &&
    st.lastSequence <= MAX_SEQUENCE_NUMBER &&
    (st.current.Some? ==> CurrentOk(st, st.current.value))
  }

  ghost predicate CurrentOk(st: State, g: Group) {
    GroupOk(g, st.lastSequence) && !g.refused && g.writers[0].batch.Some?
  }

  /** Writers leave in the order they came, each exactly once. */
  ghost predicate QueueInv(st: State) {
    (forall k | 0 <= k < |st.arrived| :: st.arrived[k].id == k) &&
    st.arrived == AllWriters(st.history) + st.queue &&
    (st.current.Some? ==> st.current.value.writers <= st.queue)
  }

  function Groups(st: State): seq<Group> {
    st.history + if st.current.Some? then [st.current.value] else []
  }

  /** The log holds one record for each group it was written for, in order. */
  ghost predicate LogInv(st: State) {
    st.log == Records(Groups(st))
  }

  /** An operation of group `g` that is in the memtable, as an entry. */
  ghost predicate Stored(g: Group, e: Entry) {
    exists k ::
      0 <= k < g.applied && k < |g.ops| && g.first + k <= MAX_SEQUENCE_NUMBER && e == EntryOf(g.first + k, g.ops[k])
  }

  ghost predicate StoredIn(h: seq<Group>, e: Entry) {
    exists i :: 0 <= i < |h| && Stored(h[i], e)
  }

  /** Beyond what was there at first, readers find the inserted operations and nothing else. */
  ghost predicate TableInv(st: State) {
    forall e: Entry | e.key.sequence > st.origin :: e in st.table <==> StoredIn(Groups(st), e)
  }

  /** Every writer that left got its group's status. */
  ghost predicate StatusInv(st: State) {
    (forall i, w | 0 <= i < |st.history| && w in st.history[i].writers ::
       w.id in st.statuses && st.statuses[w.id] == st.history[i].status) &&
    forall id | id in st.statuses :: id < |AllWriters(st.history)|
  }

  ghost predicate Inv(st: State) {
    QueueInv(st) && GroupsInv(st) && LogInv(st) && TableInv(st) && StatusInv(st)
  }

  lemma InitialInv(st: State)
    requires Initial(st)
    ensures Inv(st)
  {
  }

  lemma Last(h: seq<Group>, g: Group)
    ensures (h + [g])[..|h|] == h
    ensures AllWriters(h + [g]) == AllWriters(h) + g.writers
    ensures Records(h + [g]) == Records(h) + if g.logged then [Record(g.first, g.ops)] else []
    ensures forall origin :: LastOf(origin, h + [g]) == LastOf(origin, h) + |g.ops|
  {
    assert (h + [g])[..|h|] == h;
  }

  lemma StoredLast(h: seq<Group>, g: Group, e: Entry)
    ensures StoredIn(h + [g], e) <==> StoredIn(h, e) || Stored(g, e)
  {
    if StoredIn(h, e) {
      var i :| 0 <= i < |h| && Stored(h[i], e);
      assert (h + [g])[i] == h[i];
    }
    if Stored(g, e) {
      assert (h + [g])[|h|] == g;
    }
  }

  // -- a group finishes

  lemma FinishKeepsQueue(st: State, g: Group)
    requires QueueInv(st) && g.writers <= st.queue
    ensures QueueInv(AfterGroup(st, g))
  {
    Last(st.history, g);
    assert st.queue == g.writers + st.queue[|g.writers|..];
  }

  lemma FinishKeepsGroups(st: State, g: Group)
    requires GroupsInv(st) && GroupOk(g, st.lastSequence) && Done(g) && |g.writers| <= |st.queue|
    ensures GroupsInv(AfterGroup(st, g))
  {
    Last(st.history, g);
    var h := st.history + [g];
    forall i | 0 <= i < |h|
      ensures GroupAt(st.origin, h, i)
    {
      if i < |st.history| {
        assert GroupAt(st.origin, st.history, i);
        assert h[..i] == st.history[..i];
      }
    }
  }

  lemma FinishKeepsLog(st: State, g: Group)
    requires LogInv(st) && |g.writers| <= |st.queue|
    requires if st.current.Some? then g == st.current.value else !g.logged
    ensures LogInv(AfterGroup(st, g))
  {
    Last(st.history, g);
    assert Groups(AfterGroup(st, g)) == st.history + [g];
    assert st.current.None? ==> Groups(st) == st.history;
  }

  lemma FinishKeepsTable(st: State, g: Group)
    requires TableInv(st) && |g.writers| <= |st.queue|
    requires if st.current.Some? then g == st.current.value else g.applied == 0
    ensures TableInv(AfterGroup(st, g))
  {
    assert Groups(AfterGroup(st, g)) == st.history + [g];
    if st.current.None? {
      assert Groups(st) == st.history;
      forall e: Entry | e.key.sequence > st.origin
        ensures e in st.table <==> StoredIn(st.history + [g], e)
      {
        StoredLast(st.history, g, e);
      }
    }
  }

  lemma {:induction false} LeaveGives(statuses: map<nat, Status>, ws: seq<Writer>, status: Status)
    ensures forall w | w in ws :: w.id in Leave(statuses, ws, status) && Leave(statuses, ws, status)[w.id] == status
    ensures forall id | id in Leave(statuses, ws, status) ::
      (id in statuses && Leave(statuses, ws, status)[id] == statuses[id]) || exists w :: w in ws && w.id == id
    ensures forall id | id in statuses :: id in Leave(statuses, ws, status)
  {
    if ws != [] {
      LeaveGives(statuses, ws[..|ws| - 1], status);
      assert forall w | w in ws :: w in ws[..|ws| - 1] || w == ws[|ws| - 1];
      assert ws[|ws| - 1] in ws;
    }
  }

  lemma FinishKeepsStatuses(st: State, g: Group)
    requires StatusInv(st) && QueueInv(st) && g.writers <= st.queue
    ensures StatusInv(AfterGroup(st, g))
  {
    var st2 := AfterGroup(st, g);
    Last(st.history, g);
    LeaveGives(st.statuses, g.writers, g.status);
    forall w | w in g.writers
      ensures |AllWriters(st.history)| <= w.id < |AllWriters(st.history)| + |g.writers|
    {
      var k :| 0 <= k < |g.writers| && g.writers[k] == w;
      assert st.arrived[|AllWriters(st.history)| + k] == w;
    }
    forall i, w | 0 <= i < |st2.history| && w in st2.history[i].writers
      ensures w.id in st2.statuses && st2.statuses[w.id] == st2.history[i].status
    {
      if i < |st.history| {
        assert st2.history[i] == st.history[i];
        assert w.id < |AllWriters(st.history)|;
      }
    }
  }

  lemma FinishKeepsInv(st: State, g: Group)
    requires Inv(st) && g.writers <= st.queue && GroupOk(g, st.lastSequence) && Done(g)
    requires if st.current.Some? then g == st.current.value else !g.logged && g.applied == 0
    ensures Inv(AfterGroup(st, g))
  {
    FinishKeepsQueue(st, g);
    FinishKeepsGroups(st, g);
    FinishKeepsLog(st, g);
    FinishKeepsTable(st, g);
    FinishKeepsStatuses(st, g);
  }

  // -- the other steps

  lemma ArriveKeepsInv(st: State, w: Writer)
    requires Inv(st) && w.id == |st.arrived|
    ensures Inv(st.(queue := st.queue + [w], arrived := st.arrived + [w]))
  {
    var st2 := st.(queue := st.queue + [w], arrived := st.arrived + [w]);
    assert st.current.Some? ==> CurrentOk(st2, st.current.value);
    assert Groups(st2) == Groups(st);
  }

  lemma BeginKeepsInv(st: State, n: nat, g: Group)
    requires Inv(st) && st.current.None? && st.queue != [] && st.queue[0].batch.Some? && IsGroup(st.queue, n)
    requires st.lastSequence + |OpsOf(st.queue[..n])| <= MAX_SEQUENCE_NUMBER
    requires g == Group(st.queue[..n], false, st.lastSequence + 1, OpsOf(st.queue[..n]), false, false, 0, Ok)
    ensures Inv(st.(current := Some(g)))
  {
    forall w | w in g.writers
      ensures w.sync ==> g.writers[0].sync
    {
      var k :| 0 <= k < n && st.queue[k] == w;
      assert k > 0 ==> Rides(st.queue, k);
    }
    CurrentChanges(st, g);
  }

  /** Replacing or setting the current group, with what goes into the log and the table. */
  lemma CurrentChanges(st: State, g: Group)
    requires Inv(st) && CurrentOk(st, g) && g.writers <= st.queue
    requires if st.current.Some? then g.logged == st.current.value.logged && g.applied == st.current.value.applied &&
                                      g.first == st.current.value.first && g.ops == st.current.value.ops
             else !g.logged && g.applied == 0
    ensures Inv(st.(current := Some(g)))
  {
    var st2 := st.(current := Some(g));
    Last(st.history, g);
    if st.current.Some? {
      Last(st.history, st.current.value);
    } else {
      assert Groups(st) == st.history;
    }
    forall e: Entry | e.key.sequence > st.origin
      ensures e in st.table <==> StoredIn(Groups(st2), e)
    {
      StoredLast(st.history, g, e);
      if st.current.Some? {
        StoredLast(st.history, st.current.value, e);
      }
    }
  }

  lemma LogKeepsInv(st: State, g: Group)
    requires Inv(st) && st.current == Some(g) && !g.logged && g.applied == 0
    ensures Inv(st.(current := Some(g.(logged := true)), log := st.log + [Record(g.first, g.ops)]))
  {
    var g2 := g.(logged := true);
    var st2 := st.(current := Some(g2), log := st.log + [Record(g.first, g.ops)]);
    Last(st.history, g);
    Last(st.history, g2);
    forall e: Entry | e.key.sequence > st.origin
      ensures e in st.table <==> StoredIn(Groups(st2), e)
    {
      StoredLast(st.history, g, e);
      StoredLast(st.history, g2, e);
    }
    assert CurrentOk(st2, g2);
  }

  lemma StoredNext(g: Group, e: Entry)
    requires g.applied < |g.ops| && g.first + g.applied <= MAX_SEQUENCE_NUMBER
    ensures Stored(g.(applied := g.applied + 1), e) <==>
            Stored(g, e) || e == EntryOf(g.first + g.applied, g.ops[g.applied])
  {
    var g2 := g.(applied := g.applied + 1);
    if Stored(g, e) {
      var k :| 0 <= k < g.applied && k < |g.ops| && g.first + k <= MAX_SEQUENCE_NUMBER &&
               e == EntryOf(g.first + k, g.ops[k]);
      assert e == EntryOf(g2.first + k, g2.ops[k]);
    }
    if e == EntryOf(g.first + g.applied, g.ops[g.applied]) {
      assert e == EntryOf(g2.first + g.applied, g2.ops[g.applied]);
    }
  }

  lemma InsertKeepsOthers(st: State, g: Group, st2: State)
    requires QueueInv(st) && GroupsInv(st) && LogInv(st) && StatusInv(st) && st.current == Some(g) &&
             Inserts(st, g, st2)
    ensures QueueInv(st2) && GroupsInv(st2) && LogInv(st2) && StatusInv(st2)
  {
    var g2 := g.(applied := g.applied + 1);
    Last(st.history, g);
    Last(st.history, g2);
    assert GroupOk(g2, st2.lastSequence);
  }

  lemma InsertKeepsInv(st: State, g: Group, st2: State)
    requires Inv(st) && st.current == Some(g) && Inserts(st, g, st2)
    ensures Inv(st2)
  {
    InsertKeepsOthers(st, g, st2);
    LastGrows(st.origin, st.history, 0, |st.history|);
    assert st.history[..|st.history|] == st.history;
    InsertKeepsTable(st, g, st2);
  }

  lemma InsertKeepsTable(st: State, g: Group, st2: State)
    requires TableInv(st) && st.current == Some(g) && Inserts(st, g, st2)
    requires g.first > st.origin
    ensures TableInv(st2)
  {
    forall e: Entry | e.key.sequence > st.origin
      ensures e in st2.table <==> StoredIn(Groups(st2), e)
    {
      StoredLast(st.history, g, e);
      StoredLast(st.history, g.(applied := g.applied + 1), e);
      StoredNext(g, e);
    }
  }

  lemma {:induction false} LastGrows(origin: nat, h: seq<Group>, i: nat, j: nat)
    requires i <= j <= |h|
    ensures LastOf(origin, h[..i]) <= LastOf(origin, h[..j])
    ensures i < j ==> LastOf(origin, h[..i]) + |h[i].ops| <= LastOf(origin, h[..j])
  {
    if i < j {
      assert h[..j][..j - 1] == h[..j - 1];
      LastGrows(origin, h, i, j - 1);
    }
  }

  /** The first writer leaves alone, having written nothing. */
  lemma AloneKeepsInv(st: State, refused: bool)
    requires Inv(st) && st.current.None? && st.queue != [] && (!refused ==> st.queue[0].batch.None?)
    ensures Inv(AfterGroup(st, Alone(st, refused)))
  {
    assert st.queue[..1][..0] == [];
    FinishKeepsInv(st, Alone(st, refused));
  }

  lemma StepKeepsInv(st: State, step: Step, st2: State)
    requires Inv(st) && Takes(st, step, st2)
    ensures Inv(st2)
  {
    match step {
      case Arrive(w) => ArriveKeepsInv(st, w);
      case Refuse => AloneKeepsInv(st, true);
      case Pass => AloneKeepsInv(st, false);
      case Begin(n) =>
        BeginKeepsInv(st, n, st2.current.value);
      case AddRecord(ok) =>
        if ok {
          LogKeepsInv(st, st.current.value);
        } else {
          CurrentChanges(st, st2.current.value);
        }
      case Sync(ok) =>
        CurrentChanges(st, st2.current.value);
      case Insert =>
        InsertKeepsInv(st, st.current.value, st2);
      case Publish =>
        FinishKeepsInv(st, st.current.value);
    }
  }

  // ------------------------------------------------------------------ over every run

  ghost predicate RunStep(states: seq<State>, steps: seq<Step>, i: nat) {
    i < |steps| && i + 1 < |states| && Takes(states[i], steps[i], states[i + 1])
  }

  ghost predicate IsRun(states: seq<State>, steps: seq<Step>) {
    |states| == |steps| + 1 && Initial(states[0]) &&
    forall i {:trigger RunStep(states, steps, i)} | 0 <= i < |steps| :: RunStep(states, steps, i)
  }

  lemma {:induction false} RunKeepsInv(states: seq<State>, steps: seq<Step>, n: nat)
    requires IsRun(states, steps) && n < |states|
    ensures Inv(states[n])
  {
    if n == 0 {
      InitialInv(states[0]);
    } else {
      RunKeepsInv(states, steps, n - 1);
      assert RunStep(states, steps, n - 1);
      StepKeepsInv(states[n - 1], steps[n - 1], states[n]);
    }
  }

  // ------------------------------------------------------------------ after a failed sync

  /** The log got the group's record, but syncing it failed. */
  predicate SyncFailed(g: Group) {
    g.logged && g.status.Failed?
  }

  /** The background error is set exactly if some sync failed; after that every group is refused, and no group is on
      its way. */
  ghost predicate ErrorInv(st: State) {
    (st.backgroundError <==> exists i :: 0 <= i < |st.history| && SyncFailed(st.history[i])) &&
    (forall i, j | 0 <= i < j < |st.history| && SyncFailed(st.history[i]) :: st.history[j].refused) &&
    (st.current.Some? ==> !st.backgroundError)
  }

  lemma FinishKeepsError(st: State, g: Group)
    requires ErrorInv(st) && |g.writers| <= |st.queue|
    requires st.backgroundError ==> g.refused && !g.logged
    ensures ErrorInv(AfterGroup(st, g))
  {
    var h := st.history + [g];
    assert forall i | 0 <= i < |st.history| :: h[i] == st.history[i];
    if i :| 0 <= i < |st.history| && SyncFailed(st.history[i]) {
      assert SyncFailed(h[i]);
    }
    assert h[|st.history|] == g;
  }

  lemma StepKeepsError(st: State, step: Step, st2: State)
    requires ErrorInv(st) && Takes(st, step, st2)
    ensures ErrorInv(st2)
  {
    match step {
      case Refuse => FinishKeepsError(st, Alone(st, true));
      case Pass => FinishKeepsError(st, Alone(st, false));
      case Publish => FinishKeepsError(st, st.current.value);
      case _ =>
        assert st2.history == st.history && st2.backgroundError == st.backgroundError;
    }
  }

  lemma {:induction false} RunKeepsError(states: seq<State>, steps: seq<Step>, n: nat)
    requires IsRun(states, steps) && n < |states|
    ensures ErrorInv(states[n])
  {
    if n > 0 {
      RunKeepsError(states, steps, n - 1);
      assert RunStep(states, steps, n - 1);
      StepKeepsError(states[n - 1], steps[n - 1], states[n]);
    }
  }

  /** Once a sync has failed, every later write is refused: none of its operations ever reaches a reader. */
  lemma NothingAfterFailedSync(states: seq<State>, steps: seq<Step>, n: nat, i: nat, j: nat, a: nat)
    requires IsRun(states, steps) && n < |states| && i < j < |states[n].history|
    requires SyncFailed(states[n].history[i]) && a < |states[n].history[j].writers|
    ensures var g := states[n].history[j];
      g.ops == [] && g.writers[a].id in states[n].statuses && states[n].statuses[g.writers[a].id] == Failed
  {
    RunKeepsError(states, steps, n);
    RunKeepsInv(states, steps, n);
    var st := states[n];
    assert GroupAt(st.origin, st.history, j) && st.history[j].writers[a] in st.history[j].writers;
  }

  // -- at most once, in order

  lemma {:induction false} ArrivalPlace(h: seq<Group>, i: nat, a: nat)
    requires i < |h| && a < |h[i].writers|
    ensures |AllWriters(h[..i])| + |h[i].writers| <= |AllWriters(h)|
    ensures AllWriters(h)[|AllWriters(h[..i])| + a] == h[i].writers[a]
    decreases |h|
  {
    var n := |h| - 1;
    if i < n {
      assert h[..n][..i] == h[..i];
      ArrivalPlace(h[..n], i, a);
    }
  }

  lemma {:induction false} PlacesGrow(h: seq<Group>, i: nat, j: nat)
    requires i < j <= |h|
    ensures |AllWriters(h[..i])| + |h[i].writers| <= |AllWriters(h[..j])|
  {
    assert h[..j][..j - 1] == h[..j - 1];
    if i < j - 1 {
      PlacesGrow(h, i, j - 1);
    }
  }

  /** Writers leave in the order of arrival, each with one group: a later place is a later arrival. */
  lemma LeavesOnceInOrder(st: State, i: nat, a: nat, j: nat, b: nat)
    requires Inv(st) &&
             i < |st.history| && j < |st.history| && a < |st.history[i].writers| && b < |st.history[j].writers|
    ensures (i < j || (i == j && a < b)) <==> st.history[i].writers[a].id < st.history[j].writers[b].id
  {
    ArrivalPlace(st.history, i, a);
    ArrivalPlace(st.history, j, b);
    assert st.arrived[|AllWriters(st.history[..i])| + a] == st.history[i].writers[a];
    assert st.arrived[|AllWriters(st.history[..j])| + b] == st.history[j].writers[b];
    if i < j {
      PlacesGrow(st.history, i, j);
    } else if j < i {
      PlacesGrow(st.history, j, i);
    }
  }

  // -- sequence ranges

  /** Group `i` starts right after what the groups before it used. */
  lemma GroupIsPlaced(st: State, i: nat)
    requires GroupsInv(st) && i < |Groups(st)|
    ensures i <= |st.history| && GroupOk(Groups(st)[i], LastOf(st.origin, st.history[..i])) &&
            Groups(st)[i].first > st.origin
    ensures i < |st.history| ==> Done(st.history[i])
  {
    assert i < |st.history| ==> GroupAt(st.origin, st.history, i);
    assert st.history[..|st.history|] == st.history;
    LastGrows(st.origin, st.history, 0, i);
  }

  /** A later group's sequence numbers all follow an earlier group's. */
  lemma RangesInOrder(st: State, i: nat, j: nat)
    requires GroupsInv(st) && i < j < |Groups(st)|
    ensures Groups(st)[i].first + |Groups(st)[i].ops| <= Groups(st)[j].first
    ensures j == i + 1 ==> Groups(st)[i].first + |Groups(st)[i].ops| == Groups(st)[j].first
  {
    GroupIsPlaced(st, i);
    GroupIsPlaced(st, j);
    LastGrows(st.origin, st.history, i, j);
    assert st.history[..i + 1][..i] == st.history[..i];
  }

  /** An entry numbered within group `i` is in the table just when that group stored it. */
  lemma StoredByItsGroup(st: State, i: nat, e: Entry)
    requires GroupsInv(st) && TableInv(st) && i < |Groups(st)|
    requires Groups(st)[i].first <= e.key.sequence < Groups(st)[i].first + |Groups(st)[i].ops|
    ensures e in st.table <==> Stored(Groups(st)[i], e)
  {
    GroupIsPlaced(st, i);
    if e in st.table {
      var j :| 0 <= j < |Groups(st)| && Stored(Groups(st)[j], e);
      StoredRange(Groups(st)[j], e);
      if i < j {
        RangesInOrder(st, i, j);
      } else if j < i {
        RangesInOrder(st, j, i);
      }
    }
  }

  lemma StoredRange(g: Group, e: Entry)
    requires Stored(g, e)
    ensures g.first <= e.key.sequence < g.first + |g.ops|
  {
  }

  // -- whole or not at all

  /** Readers of `table` can find operation `k` of the group. */
  ghost predicate HasOp(table: set<Entry>, g: Group, k: nat) {
    k < |g.ops| && g.first + k <= MAX_SEQUENCE_NUMBER && EntryOf(g.first + k, g.ops[k]) in table
  }

  lemma StoredPrefix(st: State, i: nat, k: nat)
    requires GroupsInv(st) && TableInv(st) && i < |Groups(st)| && k < |Groups(st)[i].ops|
    ensures HasOp(st.table, Groups(st)[i], k) <==> k < Groups(st)[i].applied
  {
    var g := Groups(st)[i];
    GroupIsPlaced(st, i);
    var e := EntryOf(g.first + k, g.ops[k]);
    StoredByItsGroup(st, i, e);
    if k < g.applied {
      assert Stored(g, e);
    }
  }

  /** Operation `k` of the group is visible at snapshot `s`. */
  ghost predicate Shows(table: set<Entry>, s: nat, g: Group, k: nat) {
    g.first + k <= s && HasOp(table, g, k)
  }

  /** A snapshot taken between groups shows every operation of a group or none. */
  lemma WholeAt(st: State, n: nat, i: nat, j: nat, k: nat)
    requires GroupsInv(st) && TableInv(st) && n <= |st.history| && i < |Groups(st)|
    requires j < |Groups(st)[i].ops| && k < |Groups(st)[i].ops|
    ensures var s := LastOf(st.origin, st.history[..n]);
      Shows(st.table, s, Groups(st)[i], j) <==> Shows(st.table, s, Groups(st)[i], k)
  {
    GroupIsPlaced(st, i);
    StoredPrefix(st, i, j);
    StoredPrefix(st, i, k);
    if i < n {
      LastGrows(st.origin, st.history, i, n);
      assert Groups(st)[i] == st.history[i];
    } else {
      LastGrows(st.origin, st.history, n, i);
    }
  }

  /** A reader whose snapshot is some published LastSequence finds every operation of a group or none, at
      that time and at any later one. */
  lemma SnapshotSeesWholeGroups(states: seq<State>, steps: seq<Step>, n: nat, m: nat, i: nat, j: nat, k: nat)
    requires IsRun(states, steps) && n <= m < |states| && i < |Groups(states[m])|
    requires j < |Groups(states[m])[i].ops| && k < |Groups(states[m])[i].ops|
    ensures Shows(states[m].table, states[n].lastSequence, Groups(states[m])[i], j) <==>
            Shows(states[m].table, states[n].lastSequence, Groups(states[m])[i], k)
  {
    RunKeepsInv(states, steps, m);
    RunKeepsInv(states, steps, n);
    RunGrows(states, steps, n, m);
    assert states[m].history[..|states[n].history|] == states[n].history;
    WholeAt(states[m], |states[n].history|, i, j, k);
  }

  /** What was done stays done, and what comes later lies above what was published. */
  ghost predicate Grew(a: State, b: State) {
    a.origin == b.origin && a.history <= b.history && a.table <= b.table && a.lastSequence <= b.lastSequence &&
    NewAbove(a.table, b.table, a.lastSequence)
  }

  ghost predicate NewAbove(before: set<Entry>, after: set<Entry>, last: nat) {
    forall e | e in after && e !in before :: e.key.sequence > last
  }

  lemma StepGrows(st: State, step: Step, st2: State)
    requires GroupsInv(st) && Takes(st, step, st2)
    ensures Grew(st, st2)
  {
    if step.Insert? {
      assert CurrentOk(st, st.current.value);
    }
  }

  lemma GrewOn(a: State, b: State, c: State)
    requires Grew(a, b) && Grew(b, c)
    ensures Grew(a, c)
  {
  }

  lemma {:induction false} RunGrows(states: seq<State>, steps: seq<Step>, n: nat, m: nat)
    requires IsRun(states, steps) && n <= m < |states|
    ensures Grew(states[n], states[m])
    decreases m
  {
    if n < m {
      RunGrows(states, steps, n, m - 1);
      RunKeepsInv(states, steps, m - 1);
      assert RunStep(states, steps, m - 1);
      GrowsOn(states[n], states[m - 1], steps[m - 1], states[m]);
    }
  }

  lemma GrowsOn(a: State, b: State, step: Step, c: State)
    requires Grew(a, b) && Inv(b) && Takes(b, step, c)
    ensures Grew(a, c)
  {
    StepGrows(b, step, c);
    GrewOn(a, b, c);
  }

  /** What a snapshot shows never changes, whatever other writers do meanwhile. */
  lemma SnapshotIsStable(states: seq<State>, steps: seq<Step>, n: nat, m: nat, e: Entry)
    requires IsRun(states, steps) && n <= m < |states| && e.key.sequence <= states[n].lastSequence
    ensures e in states[m].table <==> e in states[n].table
  {
    RunGrows(states, steps, n, m);
  }

  // -- what an answer means

  lemma {:induction false} OpsPlace(ws: seq<Writer>, a: nat, k: nat)
    requires a < |ws| && k < |Ops(ws[a])|
    ensures |OpsOf(ws[..a])| + k < |OpsOf(ws)| && OpsOf(ws)[|OpsOf(ws[..a])| + k] == Ops(ws[a])[k]
    decreases |ws|
  {
    var n := |ws| - 1;
    if a < n {
      assert ws[..n][..a] == ws[..a];
      OpsPlace(ws[..n], a, k);
    }
  }

  lemma {:induction false} RecordPlace(h: seq<Group>, i: nat)
    requires i < |h| && h[i].logged
    ensures Record(h[i].first, h[i].ops) in Records(h)
    decreases |h|
  {
    var n := |h| - 1;
    if i < n {
      RecordPlace(h[..n], i);
    }
  }

  /** Where in its group's range the k-th operation of writer `a` is numbered. */
  function Place(g: Group, a: nat, k: nat): nat
    requires a < |g.writers|
  {
    |OpsOf(g.writers[..a])| + k
  }

  lemma PlaceInGroup(g: Group, a: nat, k: nat)
    requires a < |g.writers| && k < |Ops(g.writers[a])| && g.ops == OpsOf(g.writers)
    ensures Place(g, a, k) < |g.ops| && g.ops[Place(g, a, k)] == Ops(g.writers[a])[k]
  {
    OpsPlace(g.writers, a, k);
  }

  lemma PublishedBy(st: State, i: nat, k: nat)
    requires GroupsInv(st) && i < |st.history| && k < |st.history[i].ops|
    ensures st.history[i].first + k <= st.lastSequence
  {
    GroupIsPlaced(st, i);
    assert Groups(st)[i] == st.history[i];
    LastGrows(st.origin, st.history, i, |st.history|);
    assert st.history[..|st.history|] == st.history;
  }

  lemma AnsweredOk(st: State, i: nat, a: nat)
    requires GroupsInv(st) && StatusInv(st) && i < |st.history| && a < |st.history[i].writers|
    requires var w := st.history[i].writers[a]; w.id in st.statuses && st.statuses[w.id].Ok? && w.batch.Some?
    ensures var g := st.history[i];
      g.ops == OpsOf(g.writers) && g.applied == |g.ops| && Durable(g) && (g.writers[a].sync ==> g.writers[0].sync)
  {
    var g := st.history[i];
    assert g.writers[a] in g.writers;
    assert GroupAt(st.origin, st.history, i);
  }

  lemma ShownWhenApplied(st: State, i: nat, p: nat)
    requires GroupsInv(st) && TableInv(st) && i < |st.history| && p < |st.history[i].ops| == st.history[i].applied
    ensures Shows(st.table, st.lastSequence, st.history[i], p)
  {
    assert Groups(st)[i] == st.history[i];
    StoredPrefix(st, i, p);
    PublishedBy(st, i, p);
  }

  lemma InLog(st: State, i: nat)
    requires LogInv(st) && i < |st.history| && st.history[i].logged
    ensures Record(st.history[i].first, st.history[i].ops) in st.log
  {
    assert Groups(st)[i] == st.history[i];
    RecordPlace(Groups(st), i);
  }

  /** A writer answered Ok: its operations are readable at LastSequence under consecutive numbers, its
      group's record is in the log, and if it asked for a sync, that record was synced. */
  lemma AcknowledgedIsWritten(st: State, i: nat, a: nat, k: nat)
    requires Inv(st) && i < |st.history| && a < |st.history[i].writers|
    requires var w := st.history[i].writers[a]; w.id in st.statuses && st.statuses[w.id].Ok? && k < |Ops(w)|
    ensures var g := st.history[i];
      Place(g, a, k) < |g.ops| && g.ops[Place(g, a, k)] == Ops(g.writers[a])[k] &&
      Shows(st.table, st.lastSequence, g, Place(g, a, k)) &&
      Record(g.first, g.ops) in st.log && (g.writers[a].sync ==> g.synced)
  {
    AnsweredOk(st, i, a);
    PlaceInGroup(st.history[i], a, k);
    ShownWhenApplied(st, i, Place(st.history[i], a, k));
    InLog(st, i);
  }

  /** A writer that failed left nothing a reader could find. */
  lemma FailedIsInvisible(st: State, i: nat, a: nat, k: nat)
    requires Inv(st) && i < |st.history| && a < |st.history[i].writers| && k < |st.history[i].ops|
    requires var w := st.history[i].writers[a]; w.id in st.statuses && st.statuses[w.id].Failed?
    ensures !HasOp(st.table, st.history[i], k)
  {
    var g := st.history[i];
    assert Groups(st)[i] == g && g.writers[a] in g.writers;
    GroupIsPlaced(st, i);
    StoredPrefix(st, i, k);
  }

  /** All writers of a group get the same answer. */
  lemma FollowersShareStatus(st: State, i: nat, a: nat)
    requires Inv(st) && i < |st.history| && a < |st.history[i].writers|
    ensures var ws := st.history[i].writers;
      ws[0].id in st.statuses && ws[a].id in st.statuses && st.statuses[ws[a].id] == st.statuses[ws[0].id]
  {
    assert st.history[i].writers[a] in st.history[i].writers && st.history[i].writers[0] in st.history[i].writers;
  }

  // ------------------------------------------------------------------ the critical sections

  class DBWriters {
    var queue: seq<Writer>
    var current: Option<Group>
    var lastSequence: nat
    var log: seq<Record>
    var table: set<Entry>
    var backgroundError: bool
    var statuses: map<nat, Status>
    const origin: nat
    ghost var arrived: seq<Writer>
    ghost var history: seq<Group>

    ghost function View(): State
      reads this
    {
      State(queue, current, lastSequence, log, table, backgroundError, statuses, origin, arrived, history)
    }

    constructor (lastSequence: nat, table: set<Entry>)
      requires lastSequence <= MAX_SEQUENCE_NUMBER && forall e | e in table :: e.key.sequence <= lastSequence
      ensures Initial(View())
    {
      queue, current, this.lastSequence, log, this.table := [], None, lastSequence, [], table;
      backgroundError, statuses, origin, arrived, history := false, map[], lastSequence, [], [];
    }

    /** A caller queues up. */
    method Enqueue(id: nat, batch: Option<Batch>, sync: bool)
      requires id == |arrived|
      modifies this
      ensures Takes(old(View()), Arrive(Writer(id, batch, sync)), View())
    {
      var w := Writer(id, batch, sync);
      queue, arrived := queue + [w], arrived + [w];
    }

    /** MakeRoomForWrite failed for the front writer, or it brings no batch: it leaves alone. */
    method LeaveAlone(room: Status)
      requires QueueInv(View()) && current.None? && queue != []
      requires room.Ok? ==> queue[0].batch.None? && !backgroundError
      modifies this
      ensures Takes(old(View()), if room.Failed? then Refuse else Pass, View())
    {
      Complete(Group(queue[..1], room.Failed?, lastSequence + 1, [], false, false, 0, room));
    }

    /** The front writer forms the group it leads and releases the mutex. */
    method FormGroup() returns (n: nat)
      requires current.None? && queue != [] && queue[0].batch.Some? && !backgroundError
      requires lastSequence + |OpsOf(queue)| <= MAX_SEQUENCE_NUMBER
      modifies this
      ensures Takes(old(View()), Begin(n), View())
    {
      var ops;
      n, ops := BuildBatchGroup(queue);
      FewerOps(queue, n);
      current := Some(Group(queue[..n], false, lastSequence + 1, ops, false, false, 0, Ok));
    }

    /** Outside the mutex: the group's record goes into the log. */
    method LogGroup(ok: bool)
      requires current.Some? && current.value.status.Ok? && !current.value.logged
      modifies this
      ensures Takes(old(View()), AddRecord(ok), View())
    {
      var g := current.value;
      if ok {
        current, log := Some(g.(logged := true)), log + [Record(g.first, g.ops)];
      } else {
        current := Some(g.(status := Failed));
      }
    }

    /** Outside the mutex: the log is synced, as the leader asked. */
    method SyncLog(ok: bool)
      requires current.Some? && current.value.writers != [] && current.value.status.Ok?
      requires current.value.logged && current.value.writers[0].sync && !current.value.synced
      modifies this
      ensures Takes(old(View()), Sync(ok), View())
    {
      var g := current.value;
      current := Some(if ok then g.(synced := true) else g.(status := Failed));
    }

    /** Outside the mutex: one operation of the group goes into the memtable. */
    method InsertNext()
      requires current.Some? && current.value.writers != [] && Durable(current.value)
      requires current.value.applied < |current.value.ops| &&
               current.value.first + current.value.applied <= MAX_SEQUENCE_NUMBER
      modifies this
      ensures Takes(old(View()), Insert, View())
    {
      var g := current.value;
      table := table + {EntryOf(g.first + g.applied, g.ops[g.applied])};
      current := Some(g.(applied := g.applied + 1));
    }

    /** Under the mutex again: LastSequence moves, and the group's writers leave with its status. */
    method PublishGroup()
      requires QueueInv(View()) && current.Some? && current.value.writers != [] && Finished(current.value)
      modifies this
      ensures Takes(old(View()), Publish, View())
    {
      Complete(current.value);
    }

    method Complete(g: Group)
      requires QueueInv(View()) && g.writers != [] && g.writers <= queue
      modifies this
      ensures View() == AfterGroup(old(View()), g)
    {
      lastSequence, current := lastSequence + |g.ops|, None;
      backgroundError := backgroundError || (g.status.Failed? && g.logged);
      history := history + [g];
      var last := g.writers[|g.writers| - 1];
      DistinctWriters(old(View()));
      PopTo(g.writers, last, g.status);
    }

    /** Pops the queue up to the last writer of the group, handing each its status. */
    method PopTo(ghost ws: seq<Writer>, last: Writer, status: Status)
      requires ws != [] && ws <= queue && last == ws[|ws| - 1] && last !in ws[..|ws| - 1]
      modifies this`queue, this`statuses
      ensures queue == old(queue)[|ws|..] && statuses == Leave(old(statuses), ws, status)
    {
      ghost var n := 0;
      while true
        invariant n < |ws| && queue == old(queue)[n..] && statuses == Leave(old(statuses), ws[..n], status)
        decreases |ws| - n
      {
        var ready := queue[0];
        queue := queue[1..];
        statuses := statuses[ready.id := status];
        assert ws[..n + 1][..n] == ws[..n];
        n := n + 1;
        if ready == last {
          break;
        }
      }
      assert ws[..|ws|] == ws;
    }
  }

  lemma {:induction false} FewerOps(ws: seq<Writer>, n: nat)
    requires n <= |ws|
    ensures |OpsOf(ws[..n])| <= |OpsOf(ws)|
    decreases |ws|
  {
    if n == |ws| {
      assert ws[..n] == ws;
    } else {
      assert ws[..|ws| - 1][..n] == ws[..n];
      FewerOps(ws[..|ws| - 1], n);
    }
  }

  lemma DistinctWriters(st: State)
    requires QueueInv(st)
    ensures forall i, j | 0 <= i < j < |st.queue| :: st.queue[i] != st.queue[j]
  {
    var n := |AllWriters(st.history)|;
    assert forall i | 0 <= i < |st.queue| :: st.arrived[n + i] == st.queue[i];
  }
}
