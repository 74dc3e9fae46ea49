// DBIter: the user's view of a sorted run of internal keys at one snapshot (db/db_iter.cc).

module DBIters {
  import opened Keys
  import opened Reads
  import opened Cursors
  import opened MergingIterators

  // ------------------------------------------------------------------ the view

  /** Entry `i` is what a reader at `s` sees for its user key: the newest visible one, and a value. */
  predicate Live(data: seq<Entry>, s: SequenceNumber, i: nat) {
    i < |data| && data[i].key.sequence <= s && data[i].key.kind.TypeValue? &&
    forall j | 0 <= j < i :: data[j].key.user == data[i].key.user ==> data[j].key.sequence > s
  }

  /** `r` is the first live entry at or after `from`. */
  ghost predicate IsNextLive(data: seq<Entry>, s: SequenceNumber, from: nat, r: Option<nat>) {
    (r.Some? ==> from <= r.value && Live(data, s, r.value)) &&
    forall j: nat | from <= j && (r.Some? ==> j < r.value) :: !Live(data, s, j)
  }

  /** `r` is the last live entry before `to`. */
  ghost predicate IsPrevLive(data: seq<Entry>, s: SequenceNumber, to: nat, r: Option<nat>) {
    (r.Some? ==> r.value < to && Live(data, s, r.value)) &&
    forall j: nat | j < to && (r.Some? ==> r.value < j) :: !Live(data, s, j)
  }

  /** Every entry of the view answers a read of its user key at the snapshot. */
  lemma LiveAnswers(data: seq<Entry>, s: SequenceNumber, i: nat)
    requires Sorted(data) && Live(data, s, i)
    ensures Answers(Elements(data), data[i].key.user, s, Some(data[i].value))
  {
    forall x | x in Elements(data) && Visible(x, data[i].key.user, s)
      ensures x.key.sequence <= data[i].key.sequence
    {
      var j :| 0 <= j < |data| && data[j] == x;
      assert i < j ==> Less(data[i].key, data[j].key);
    }
    assert data[i] in Elements(data);
    assert IsNewest(Elements(data), data[i].key.user, s, data[i]);
  }

  /** Every readable value is in the view. */
  lemma AnswerIsLive(data: seq<Entry>, s: SequenceNumber, u: UserKey, v: Bytes) returns (i: nat)
    requires Sorted(data) && Unique(Elements(data)) && Answers(Elements(data), u, s, Some(v))
    ensures Live(data, s, i) && data[i].key.user == u && data[i].value == v
  {
    var e :| IsNewest(Elements(data), u, s, e) && Some(v) == Outcome(e);
    i :| 0 <= i < |data| && data[i] == e;
    NewestIsFirst(data, s, i);
  }

  lemma NewestIsFirst(data: seq<Entry>, s: SequenceNumber, i: nat)
    requires Sorted(data) && i < |data| && IsNewest(Elements(data), data[i].key.user, s, data[i])
    requires Unique(Elements(data))
    ensures forall j | 0 <= j < i && data[j].key.user == data[i].key.user :: data[j].key.sequence > s
  {
    forall j | 0 <= j < i && data[j].key.user == data[i].key.user
      ensures data[j].key.sequence > s
    {
      assert data[j] in Elements(data) && data[i] in Elements(data) && Less(data[j].key, data[i].key);
    }
  }

  /** The view lists every user key once, in increasing order. */
  lemma LiveKeysIncrease(data: seq<Entry>, s: SequenceNumber, i: nat, j: nat)
    requires Sorted(data) && Live(data, s, i) && Live(data, s, j) && i < j
    ensures data[i].key.user < data[j].key.user
  {
    assert Less(data[i].key, data[j].key);
  }

  /** Stepping forward and back returns to the same entry. */
  lemma PrevUndoesNext(data: seq<Entry>, s: SequenceNumber, i: nat, next: Option<nat>)
    requires Live(data, s, i) && IsNextLive(data, s, i + 1, next)
    ensures next.Some? ==> IsPrevLive(data, s, next.value, Some(i))
    ensures next.None? ==> IsPrevLive(data, s, |data|, Some(i))
  {
  }

  // ------------------------------------------------------------------ the iterator

  class DBIter {
    const iter: MergingIterator
    const sequence: SequenceNumber
    var savedKey: Option<UserKey>
    var savedValue: Bytes
    var direction: Direction
    var valid: bool
    ghost var at: nat

    /** Moving forward, iter_ stands on the live entry. Moving backward, the entry is saved and iter_
        stands on the nearest visible entry of a smaller user key, if any. */
    ghost predicate Ok()
      reads this, iter, iter.children
    {
      iter.Ok() &&
      (valid ==> Live(iter.merged, sequence, at)) &&
      (valid && direction.Forward? ==> iter.pos == at) &&
      (valid && direction.Reverse? ==>
        Saved(at) && BeforeKey(iter.merged, sequence, iter.pos, iter.merged[at].key.user))
    }

    /** The saved key and value are those of entry `i`. */
    ghost predicate Saved(i: nat)
      reads this
    {
      i < |iter.merged| && savedKey == Some(iter.merged[i].key.user) && savedValue == iter.merged[i].value
    }

    /** Where the iterator stands in the view. */
    ghost function Position(): Option<nat>
      reads this
    {
      if valid then Some(at) else None
    }

    constructor (iter: MergingIterator, sequence: SequenceNumber)
      requires iter.Ok()
      ensures Ok() && !valid && this.iter == iter && this.sequence == sequence
    {
      this.iter, this.sequence := iter, sequence;
      savedKey, savedValue, direction, valid, at := None, [], Forward, false, 0;
    }

    method Key() returns (k: UserKey)
      requires Ok() && valid
      ensures k == iter.merged[at].key.user
    {
      k := if direction.Forward? then iter.Key().user else savedKey.value;
    }

    method Value() returns (v: Bytes)
      requires Ok() && valid
      ensures v == iter.merged[at].value
    {
      v := if direction.Forward? then iter.Value() else savedValue;
    }

    method Next()
      requires Ok() && valid
      modifies this, iter, iter.children
      ensures Ok() && IsNextLive(iter.merged, sequence, old(at) + 1, Position())
    {
      hide MergingIterator.Ok;
      ghost var from := at;
      if direction.Reverse? {
        direction := Forward;
        if !iter.Valid() {
          iter.SeekToFirst();
        } else {
          iter.Next();
        }
        if !iter.Valid() {
          assert false;
        }
      } else {
        savedKey := Some(iter.Key().user);
        iter.Next();
        if !iter.Valid() {
          valid := false;
          savedKey := None;
          return;
        }
      }
      ghost var start := iter.pos;
      NextStarts(iter.merged, sequence, from, start);
      FindNextUserEntry(true);
      NextLands(iter.merged, sequence, from, start, Position());
    }

    /** Moves to the first entry at or after the current one that is live and, when skipping, past the
        saved user key. */
    method FindNextUserEntry(skipping: bool)
      requires iter.Ok() && iter.Valid() && direction.Forward? && (skipping ==> savedKey.Some?)
      requires StartsPast(iter.merged, sequence, iter.pos, if skipping then savedKey else None)
      modifies this, iter, iter.children
      ensures Ok() && direction.Forward?
      ensures IsNextPast(iter.merged, sequence, old(iter.pos), old(if skipping then savedKey else None), Position())
    {
      hide Searched, StartsPast, MergingIterator.Ok;
      ghost var start, past := iter.pos, if skipping then savedKey else None;
      var hiding := skipping;
      SkipStart(iter.merged, sequence, start, past);
      while true
        invariant iter.Ok() && iter.Valid() && direction.Forward? && (hiding ==> savedKey.Some?)
        invariant Searched(iter.merged, sequence, start, iter.pos, past, if hiding then savedKey else None)
        decreases |iter.merged| - iter.pos
      {
        var ikey := iter.Key();
        SearchStep(iter.merged, sequence, start, iter.pos, past, if hiding then savedKey else None);
        if ikey.sequence <= sequence {
          if ikey.kind.TypeDeletion? {
            savedKey := Some(ikey.user);
            hiding := true;
          } else if !(hiding && ikey.user <= savedKey.value) {
            valid := true;
            at := iter.pos;
            savedKey := None;
            return;
          }
        }
        iter.Next();
        if !iter.Valid() {
          break;
        }
      }
      savedKey := None;
      valid := false;
    }

    method Prev()
      requires Ok() && valid
      modifies this, iter, iter.children
      ensures Ok() && IsPrevLive(iter.merged, sequence, old(at), Position())
    {
      hide MergingIterator.Ok;
      ghost var to, key := at, iter.merged[at].key.user;
      if direction.Forward? {
        savedKey := Some(iter.Key().user);
        while true
          invariant iter.Ok() && iter.Valid() && iter.pos <= to && savedKey == Some(key) && direction.Forward?
          invariant forall j | iter.pos <= j <= to :: iter.merged[j].key.user == key
          decreases iter.pos
        {
          iter.Prev();
          if !iter.Valid() {
            valid := false;
            savedKey, savedValue := None, [];
            return;
          }
          if iter.Key().user < savedKey.value {
            break;
          }
          SameGroup(iter.merged, iter.pos, to, key);
        }
        direction := Reverse;
      }
      ghost var p := iter.pos;
      FindPrevUserEntry();
      PrevBeforeKey(iter.merged, sequence, p, to, Position());
    }

    /** Moves back to the last live entry at or before the current one. */
    method FindPrevUserEntry()
      requires iter.Ok() && direction.Reverse?
      modifies this, iter, iter.children
      ensures Ok() && IsPrevLive(iter.merged, sequence, old(if iter.Valid() then iter.pos + 1 else 0), Position())
    {
      hide Live, Scanned, IsPrevLive, BeforeKey, MergingIterator.Ok;
      ghost var to := if iter.Valid() then iter.pos + 1 else 0;
      var valueType := TypeDeletion;
      ghost var m: nat := 0;
      ScanStart(iter.merged, sequence, to);
      if iter.Valid() {
        valueType, m := ScanBackwards();
      }
      if valueType.TypeDeletion? {
        valid := false;
        savedKey, savedValue := None, [];
        direction := Forward;
        NothingScanned(iter.merged, sequence, to, m);
      } else {
        valid := true;
        at := m;
        ScanEnd(iter.merged, sequence, iter.pos, to, m);
      }
    }

    /** The loop of FindPrevUserEntry: it stops before the first visible entry of a smaller user key than the one
        saved. */
    method ScanBackwards() returns (valueType: ValueType, ghost m: nat)
      requires iter.Ok() && iter.Valid() && direction.Reverse?
      modifies this`savedKey, this`savedValue, iter, iter.children
      ensures iter.Ok() && (valueType.TypeValue? ==> Saved(m))
      ensures Scanned(iter.merged, sequence, if iter.Valid() then iter.pos + 1 else 0, old(iter.pos) + 1, valueType, m)
      ensures iter.Valid() ==>
                valueType.TypeValue? && iter.merged[iter.pos].key.sequence <= sequence &&
                iter.merged[iter.pos].key.user < iter.merged[m].key.user
    {
      hide Live, Scanned, IsPrevLive, MergingIterator.Ok;
      ghost var to := iter.pos + 1;
      valueType, m := TypeDeletion, 0;
      ScanStart(iter.merged, sequence, to);
      while true
        invariant iter.Ok() && iter.Valid() && iter.pos < to && (valueType.TypeValue? ==> Saved(m))
        invariant Scanned(iter.merged, sequence, iter.pos + 1, to, valueType, m)
        decreases iter.pos
      {
        var ikey := iter.Key();
        ScanStep(iter.merged, sequence, iter.pos, to, valueType, m);
        if ikey.sequence <= sequence {
          if valueType.TypeValue? && ikey.user < savedKey.value {
            break;
          }
          valueType := ikey.kind;
          if valueType.TypeDeletion? {
            savedKey, savedValue := None, [];
          } else {
            savedKey, savedValue := Some(ikey.user), iter.Value();
            m := iter.pos;
          }
        }
        iter.Prev();
        if !iter.Valid() {
          break;
        }
      }
    }

    method Seek(target: UserKey)
      requires iter.Ok()
      modifies this, iter, iter.children
      ensures Ok()
      ensures exists from: nat ::
                (forall j | 0 <= j < |iter.merged| :: j < from <==> iter.merged[j].key.user < target) &&
                IsNextLive(iter.merged, sequence, from, Position())
    {
      direction := Forward;
      savedValue := [];
      savedKey := None;
      iter.Seek(LookupKey(target, sequence));
      ghost var start := iter.pos;
      if iter.Valid() {
        SeekStarts(iter.merged, sequence, target);
        FindNextUserEntry(false);
      } else {
        valid := false;
      }
      SeekLands(iter.merged, sequence, target, start, Position());
    }

    method SeekToFirst()
      requires iter.Ok()
      modifies this, iter, iter.children
      ensures Ok() && IsNextLive(iter.merged, sequence, 0, Position())
    {
      direction := Forward;
      savedValue := [];
      iter.SeekToFirst();
      if iter.Valid() {
        FindNextUserEntry(false);
      } else {
        valid := false;
      }
    }

    method SeekToLast()
      requires iter.Ok()
      modifies this, iter, iter.children
      ensures Ok() && IsPrevLive(iter.merged, sequence, |iter.merged|, Position())
    {
      direction := Reverse;
      savedValue := [];
      iter.SeekToLast();
      FindPrevUserEntry();
    }
  }

  // ------------------------------------------------------------------ scanning forward

  /** All entries after `pos` (or all, when `pos` is the invalid position) with smaller user keys than
      `u` are invisible, and the one at `pos`, if any, is visible. */
  ghost predicate BeforeKey(data: seq<Entry>, s: SequenceNumber, pos: nat, u: UserKey) {
    (pos < |data| ==> data[pos].key.user < u && data[pos].key.sequence <= s) &&
    forall j | 0 <= j < |data| && (pos < |data| ==> pos < j) && data[j].key.user < u :: data[j].key.sequence > s
  }

  predicate Past(e: Entry, past: Option<UserKey>) {
    past.Some? ==> past.value < e.key.user
  }

  ghost predicate IsNextPast(data: seq<Entry>, s: SequenceNumber, from: nat, past: Option<UserKey>, r: Option<nat>) {
    (r.Some? ==> from <= r.value && Live(data, s, r.value) && Past(data[r.value], past)) &&
    forall j: nat | from <= j < |data| && (r.Some? ==> j < r.value) :: !(Live(data, s, j) && Past(data[j], past))
  }

  /** No user key past the skipped one has a visible entry before `start`, and no smaller one has a
      visible entry from `start` on. */
  ghost predicate StartsPast(data: seq<Entry>, s: SequenceNumber, start: nat, past: Option<UserKey>) {
    (forall i, j | 0 <= i < start <= j < |data| && data[i].key.user == data[j].key.user && Past(data[j], past) ::
      data[i].key.sequence > s) &&
    forall j | start <= j < |data| && past.Some? && data[j].key.user < past.value :: data[j].key.sequence > s
  }

  /** A visible entry of the same user key comes before position `pos`. */
  ghost predicate Shown(data: seq<Entry>, s: SequenceNumber, pos: nat, u: UserKey) {
    exists i :: 0 <= i < pos && i < |data| && data[i].key.user == u && data[i].key.sequence <= s
  }

  /** What the skip key hides from `pos` on is what should be hidden: keys not past the original one,
      and keys that already showed a visible entry. */
  ghost predicate SkipHides(data: seq<Entry>, s: SequenceNumber, pos: nat, past: Option<UserKey>,
                            skip: Option<UserKey>) {
    pos <= |data| &&
    (forall j | pos <= j < |data| ::
      (skip.Some? && data[j].key.user <= skip.value) <==>
      (!Past(data[j], past) || Shown(data, s, pos, data[j].key.user))) &&
    forall j | pos <= j < |data| && past.Some? && data[j].key.user < past.value :: data[j].key.sequence > s
  }

  /** The scan from `start` reached `pos` without passing an entry to stop at. */
  ghost predicate Searched(data: seq<Entry>, s: SequenceNumber, start: nat, pos: nat, past: Option<UserKey>,
                           skip: Option<UserKey>) {
    start <= pos && SkipHides(data, s, pos, past, skip) && NothingTo(data, s, start, pos, past)
  }

  ghost predicate NothingTo(data: seq<Entry>, s: SequenceNumber, start: nat, pos: nat, past: Option<UserKey>) {
    pos <= |data| && forall j | start <= j < pos :: !(Live(data, s, j) && Past(data[j], past))
  }

  lemma SkipStart(data: seq<Entry>, s: SequenceNumber, start: nat, past: Option<UserKey>)
    requires start <= |data| && StartsPast(data, s, start, past)
    ensures Searched(data, s, start, start, past, past)
  {
  }

  lemma SearchStep(data: seq<Entry>, s: SequenceNumber, start: nat, pos: nat, past: Option<UserKey>,
                   skip: Option<UserKey>)
    requires Sorted(data) && pos < |data| && Searched(data, s, start, pos, past, skip)
    ensures var e := data[pos];
      var hidden := skip.Some? && e.key.user <= skip.value;
      (e.key.sequence > s || (e.key.kind.TypeValue? && hidden) ==> Searched(data, s, start, pos + 1, past, skip)) &&
      (e.key.sequence <= s && e.key.kind.TypeDeletion? ==> Searched(data, s, start, pos + 1, past, Some(e.key.user))) &&
      (e.key.sequence <= s && e.key.kind.TypeValue? && !hidden ==>
        Live(data, s, pos) && IsNextPast(data, s, start, past, Some(pos)))
    ensures pos + 1 == |data| && NothingTo(data, s, start, pos + 1, past) ==> IsNextPast(data, s, start, past, None)
  {
    SkipStep(data, s, start, pos, past, skip);
  }

  lemma SkipStep(data: seq<Entry>, s: SequenceNumber, start: nat, pos: nat, past: Option<UserKey>,
                 skip: Option<UserKey>)
    requires Sorted(data) && pos < |data| && SkipHides(data, s, pos, past, skip)
    ensures var e := data[pos];
      var hidden := skip.Some? && e.key.user <= skip.value;
      (e.key.sequence > s || (e.key.kind.TypeValue? && hidden) ==> SkipHides(data, s, pos + 1, past, skip)) &&
      (e.key.sequence <= s && e.key.kind.TypeDeletion? ==> SkipHides(data, s, pos + 1, past, Some(e.key.user))) &&
      ((Live(data, s, pos) && Past(e, past)) <==> (e.key.sequence <= s && e.key.kind.TypeValue? && !hidden))
  {
    var e := data[pos];
    forall j | pos < j < |data|
      ensures e.key.user <= data[j].key.user
      ensures Shown(data, s, pos + 1, data[j].key.user) <==>
              Shown(data, s, pos, data[j].key.user) || (e.key.user == data[j].key.user && e.key.sequence <= s)
    {
      assert Less(e.key, data[j].key);
    }
    assert forall i | 0 <= i < pos :: Less(data[i].key, e.key);
  }

  /** Where Next starts scanning: after the current entry, or where the reverse scan stopped. */
  lemma NextStarts(data: seq<Entry>, s: SequenceNumber, at: nat, start: nat)
    requires Sorted(data) && Live(data, s, at)
    requires start == at + 1 ||
             (start <= at && forall j | start <= j < |data| && data[j].key.user < data[at].key.user ::
                data[j].key.sequence > s)
    ensures StartsPast(data, s, start, Some(data[at].key.user))
  {
    forall j | at < j < |data|
      ensures data[at].key.user <= data[j].key.user
    {
      assert Less(data[at].key, data[j].key);
    }
    forall i | 0 <= i <= at
      ensures data[i].key.user <= data[at].key.user
    {
      assert i == at || Less(data[i].key, data[at].key);
    }
  }

  lemma NextLands(data: seq<Entry>, s: SequenceNumber, at: nat, start: nat, r: Option<nat>)
    requires Sorted(data) && Live(data, s, at) && start <= at + 1
    requires IsNextPast(data, s, start, Some(data[at].key.user), r)
    ensures IsNextLive(data, s, at + 1, r)
  {
    forall j | at < j < |data|
      ensures Live(data, s, j) ==> data[at].key.user < data[j].key.user
    {
      assert Less(data[at].key, data[j].key);
    }
    forall i | 0 <= i <= at
      ensures data[i].key.user <= data[at].key.user
    {
      assert i == at || Less(data[i].key, data[at].key);
    }
  }

  lemma SeekStarts(data: seq<Entry>, s: SequenceNumber, target: UserKey)
    requires Sorted(data)
    ensures StartsPast(data, s, LowerBound(data, LookupKey(target, s)), None)
  {
    LowerBoundAt(data, LookupKey(target, s));
  }

  lemma {:induction false} UsersBelow(data: seq<Entry>, target: UserKey) returns (from: nat)
    requires Sorted(data)
    ensures from <= |data| && forall j | 0 <= j < |data| :: j < from <==> data[j].key.user < target
  {
    from := LowerBound(data, IKey(target, MAX_SEQUENCE_NUMBER, TypeValue));
    LowerBoundAt(data, IKey(target, MAX_SEQUENCE_NUMBER, TypeValue));
  }

  lemma SeekLands(data: seq<Entry>, s: SequenceNumber, target: UserKey, start: nat, r: Option<nat>)
    requires Sorted(data) && start == LowerBound(data, LookupKey(target, s))
    requires if start < |data| then IsNextPast(data, s, start, None, r) else r.None?
    ensures exists from: nat :: (forall j | 0 <= j < |data| :: j < from <==> data[j].key.user < target) &&
              IsNextLive(data, s, from, r)
  {
    LowerBoundAt(data, LookupKey(target, s));
    var from := UsersBelow(data, target);
    assert IsNextLive(data, s, from, r);
  }

  // ------------------------------------------------------------------ scanning backward

  /** After scanning the entries from `pos` up to `to` backwards: `m` is the newest visible entry seen of
      the smallest visible user key, and nothing behind it is live. */
  ghost predicate Scanned(data: seq<Entry>, s: SequenceNumber, pos: nat, to: nat, valueType: ValueType, m: nat) {
    pos <= to <= |data| &&
    (valueType.TypeDeletion? ==> forall j | pos <= j < to :: !Live(data, s, j)) &&
    (valueType.TypeValue? ==>
      pos <= m < to && data[m].key.sequence <= s && data[m].key.kind.TypeValue? &&
      (forall j | pos <= j < m :: data[j].key.sequence > s) &&
      forall j | m < j < to :: !Live(data, s, j))
  }

  lemma ScanStart(data: seq<Entry>, s: SequenceNumber, to: nat)
    requires to <= |data|
    ensures Scanned(data, s, to, to, TypeDeletion, 0)
  {
  }

  lemma NothingScanned(data: seq<Entry>, s: SequenceNumber, to: nat, m: nat)
    requires Scanned(data, s, 0, to, TypeDeletion, m)
    ensures IsPrevLive(data, s, to, None)
  {
  }

  lemma ScanStep(data: seq<Entry>, s: SequenceNumber, pos: nat, to: nat, valueType: ValueType, m: nat)
    requires Sorted(data) && pos < to && Scanned(data, s, pos + 1, to, valueType, m)
    ensures var e := data[pos];
      (e.key.sequence > s ==> Scanned(data, s, pos, to, valueType, m)) &&
      (e.key.sequence <= s && !(valueType.TypeValue? && e.key.user < data[m].key.user) ==>
        Scanned(data, s, pos, to, e.key.kind, if e.key.kind.TypeValue? then pos else m))
  {
    var e := data[pos];
    if valueType.TypeValue? {
      assert Less(e.key, data[m].key);
    }
  }

  /** Where the backward scan stopped, the candidate is live and everything between is invisible. */
  lemma ScanEnd(data: seq<Entry>, s: SequenceNumber, pos: nat, to: nat, m: nat)
    requires Sorted(data) && pos <= |data|
    requires Scanned(data, s, if pos < |data| then pos + 1 else 0, to, TypeValue, m)
    requires pos < |data| ==> data[pos].key.user < data[m].key.user && data[pos].key.sequence <= s
    ensures Live(data, s, m) && IsPrevLive(data, s, to, Some(m))
    ensures BeforeKey(data, s, pos, data[m].key.user)
  {
    forall j | 0 <= j <= pos < |data|
      ensures data[j].key.user <= data[pos].key.user
    {
      assert j == pos || Less(data[j].key, data[pos].key);
    }
    forall j | m < j < |data|
      ensures data[m].key.user <= data[j].key.user
    {
      assert Less(data[m].key, data[j].key);
    }
  }

  lemma SameGroup(data: seq<Entry>, pos: nat, to: nat, key: UserKey)
    requires Sorted(data) && pos < to < |data| && data[to].key.user == key && !(data[pos].key.user < key)
    ensures data[pos].key.user == key
  {
    assert Less(data[pos].key, data[to].key);
  }

  /** The last live entry before the current user key's group is the last before the current entry. */
  lemma PrevBeforeKey(data: seq<Entry>, s: SequenceNumber, p: nat, to: nat, r: Option<nat>)
    requires Sorted(data) && Live(data, s, to) && p <= |data|
    requires IsPrevLive(data, s, if p < |data| then p + 1 else 0, r)
    requires p < |data| ==> data[p].key.user < data[to].key.user
    requires forall j | 0 <= j < to && (p < |data| ==> p < j) ::
               data[j].key.user == data[to].key.user || data[j].key.sequence > s
    ensures IsPrevLive(data, s, to, r)
  {
    forall j | to < j < |data|
      ensures data[to].key.user <= data[j].key.user
    {
      assert Less(data[to].key, data[j].key);
    }
  }
}
