// What DoCompactionWork may drop, and what that does to reads (db/db_impl.cc), stated on sets of
// entries: how the entries are spread over files is left to Compactions.

module DropRule {
  import opened Keys
  import opened Reads

  /** Rule (A): a newer entry of the same user key, itself at or below the smallest snapshot,
      hides `e` from every reader. */
  ghost predicate Hidden(ins: set<Entry>, e: Entry, ss: SequenceNumber) {
    exists x :: x in ins && x.key.user == e.key.user && x.key.sequence > e.key.sequence && x.key.sequence <= ss
  }

  /** A deletion no reader needs: old enough, and with nothing further down to hide. */
  predicate Obsolete(e: Entry, ss: SequenceNumber, base: set<UserKey>) {
    e.key.kind.TypeDeletion? && e.key.sequence <= ss && e.key.user in base
  }

  /** The entries a compaction of `ins` writes out, `base` being the user keys for which
      IsBaseLevelForKey holds. */
  ghost function Kept(ins: set<Entry>, ss: SequenceNumber, base: set<UserKey>): set<Entry> {
    set e | e in ins && !Hidden(ins, e, ss) && !Obsolete(e, ss, base)
  }

  /** The entries around a compaction of `ins`: `up` newer for every shared user key, `side` left
      behind in the level below the inputs, `deep` further down. */
  ghost predicate Surrounded(up: set<Entry>, side: set<Entry>, deep: set<Entry>, ins: set<Entry>, base: set<UserKey>) {
    Unique(up + side + deep + ins) && Newer(up, ins) && side !! ins &&
    forall e | e in deep :: e.key.user !in base
  }

  /** Dropping tombstone `t` uncovers `q`: readers at the smallest snapshot saw the deletion, and
      the next older entry of the user key is a value in a file left behind. */
  ghost predicate Resurrects(all: set<Entry>, side: set<Entry>, ins: set<Entry>, ss: SequenceNumber,
                             base: set<UserKey>, t: Entry, q: Entry) {
    t in ins && Obsolete(t, ss, base) && IsNewest(all, t.key.user, ss, t) &&
    q in side && q.key.user == t.key.user && q.key.sequence < t.key.sequence && q.key.kind.TypeValue? &&
    forall x | x in side && x.key.user == t.key.user && x.key.sequence < t.key.sequence ::
      x.key.sequence <= q.key.sequence
  }

  ghost predicate ResurrectsNothing(all: set<Entry>, side: set<Entry>, ins: set<Entry>, ss: SequenceNumber,
                                    base: set<UserKey>) {
    forall t, q :: !Resurrects(all, side, ins, ss, base, t, q)
  }

  /** Any reader whose newest entry survives, or was a deletion with nothing older left, gets the
      answer it got before. */
  lemma DroppingKeepsAnswer(up: set<Entry>, side: set<Entry>, deep: set<Entry>, ins: set<Entry>,
                            base: set<UserKey>, ss: SequenceNumber, u: UserKey, s: SequenceNumber)
    requires Surrounded(up, side, deep, ins, base) && s >= ss
    requires ResurrectsNothing(up + side + deep + ins, side, ins, ss, base)
    ensures exists r :: Answers(up + side + deep + ins, u, s, r) &&
                        Answers(up + side + deep + Kept(ins, ss, base), u, s, r)
  {
    var before := up + side + deep + ins;
    var after := up + side + deep + Kept(ins, ss, base);
    if NoneVisible(before, u, s) {
      assert Answers(before, u, s, None) && Answers(after, u, s, None);
    } else {
      var e := NewestExists(before, u, s);
      assert Answers(before, u, s, Outcome(e));
      if e in after {
        assert IsNewest(after, u, s, e);
      } else {
        assert Obsolete(e, ss, base);
        if !NoneVisible(after, u, s) {
          var b := NewestExists(after, u, s);
          ObsoleteUncovers(up, side, deep, ins, base, ss, e, b);
          assert Resurrects(before, side, ins, ss, base, e, b) || b.key.kind.TypeDeletion?;
          assert Answers(after, u, s, Outcome(b));
        }
      }
    }
  }

  /** Once the tombstone `t` is gone, only a file left behind can still hold an older entry. */
  lemma ObsoleteUncovers(up: set<Entry>, side: set<Entry>, deep: set<Entry>, ins: set<Entry>,
                         base: set<UserKey>, ss: SequenceNumber, t: Entry, b: Entry)
    requires Surrounded(up, side, deep, ins, base)
    requires t in ins && Obsolete(t, ss, base)
    requires b in up + side + deep + Kept(ins, ss, base)
    requires b.key.user == t.key.user && b.key.sequence <= t.key.sequence
    ensures b in side && b.key.sequence < t.key.sequence
  {
    assert b !in up && b !in deep;
  }

  lemma ResurrectionChangesAnswer(up: set<Entry>, side: set<Entry>, deep: set<Entry>, ins: set<Entry>,
                                  base: set<UserKey>, ss: SequenceNumber, t: Entry, q: Entry)
    requires Surrounded(up, side, deep, ins, base)
    requires Resurrects(up + side + deep + ins, side, ins, ss, base, t, q)
    ensures Answers(up + side + deep + ins, t.key.user, ss, None)
    ensures Answers(up + side + deep + Kept(ins, ss, base), t.key.user, ss, Some(q.value))
  {
    var before := up + side + deep + ins;
    var after := up + side + deep + Kept(ins, ss, base);
    assert Answers(before, t.key.user, ss, Outcome(t));
    forall b | b in after && Visible(b, t.key.user, ss)
      ensures b.key.sequence <= q.key.sequence
    {
      assert b in before;
      ObsoleteUncovers(up, side, deep, ins, base, ss, t, b);
    }
    assert IsNewest(after, t.key.user, ss, q);
  }

  /** The drop rule is safe for every reader at or above the smallest snapshot exactly when it
      resurrects nothing. */
  lemma DropRuleExact(up: set<Entry>, side: set<Entry>, deep: set<Entry>, ins: set<Entry>,
                      base: set<UserKey>, ss: SequenceNumber, before: set<Entry>, after: set<Entry>)
    requires Surrounded(up, side, deep, ins, base)
    requires before == up + side + deep + ins && after == up + side + deep + Kept(ins, ss, base)
    ensures SameReads(before, after, ss) <==> ResurrectsNothing(before, side, ins, ss, base)
  {
    if t, q :| Resurrects(before, side, ins, ss, base, t, q) {
      ResurrectionChangesAnswer(up, side, deep, ins, base, ss, t, q);
      var r := AnswerUnique(before, t.key.user, ss);
      assert !Answers(before, t.key.user, ss, Some(q.value));
    } else {
      forall u, s: SequenceNumber, r | s >= ss
        ensures Answers(before, u, s, r) <==> Answers(after, u, s, r)
      {
        DroppingKeepsAnswer(up, side, deep, ins, base, ss, u, s);
        var rb := AnswerUnique(before, u, s);
        var ra := AnswerUnique(after, u, s);
      }
    }
  }

  /** The same below a layer `newer` than everything the version holds. */
  lemma DropRuleExactBelow(newer: set<Entry>, up: set<Entry>, side: set<Entry>, deep: set<Entry>, ins: set<Entry>,
                           base: set<UserKey>, ss: SequenceNumber, all: set<Entry>, after: set<Entry>)
    requires Surrounded(up, side, deep, ins, base) && all == up + side + deep + ins
    requires Newer(newer, all) && Unique(newer + all)
    requires after == up + side + deep + Kept(ins, ss, base)
    ensures SameReads(newer + all, newer + after, ss) <==> ResurrectsNothing(newer + all, side, ins, ss, base)
  {
    SurroundedBelow(newer, up, side, deep, ins, base);
    assert newer + all == newer + up + side + deep + ins;
    assert newer + after == newer + up + side + deep + Kept(ins, ss, base);
    DropRuleExact(newer + up, side, deep, ins, base, ss, newer + all, newer + after);
  }

  lemma SurroundedBelow(newer: set<Entry>, up: set<Entry>, side: set<Entry>, deep: set<Entry>, ins: set<Entry>,
                        base: set<UserKey>)
    requires Surrounded(up, side, deep, ins, base)
    requires Newer(newer, up + side + deep + ins) && Unique(newer + (up + side + deep + ins))
    ensures Surrounded(newer + up, side, deep, ins, base)
  {
    assert newer + up + side + deep + ins == newer + (up + side + deep + ins);
  }
}
