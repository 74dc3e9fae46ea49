// What a read at a snapshot means, independently of how entries are laid out in files.

module Reads {
  import opened Keys

  predicate Visible(e: Entry, u: UserKey, s: SequenceNumber) {
    e.key.user == u && e.key.sequence <= s
  }

  /** `e` is the newest of the entries `es` for user key `u` at or below snapshot `s`. */
  ghost predicate IsNewest(es: set<Entry>, u: UserKey, s: SequenceNumber, e: Entry) {
    e in es && Visible(e, u, s) && forall x | x in es && Visible(x, u, s) :: x.key.sequence <= e.key.sequence
  }

  ghost predicate NoneVisible(es: set<Entry>, u: UserKey, s: SequenceNumber) {
    forall x | x in es :: !Visible(x, u, s)
  }

  /** What the newest entry tells the reader: its value, or nothing for a deletion. */
  function Outcome(e: Entry): Option<Bytes> {
    if e.key.kind.TypeValue? then Some(e.value) else None
  }

  /** `r` is the answer to reading `u` at snapshot `s` in the entries `es`. */
  ghost predicate Answers(es: set<Entry>, u: UserKey, s: SequenceNumber, r: Option<Bytes>) {
    (exists e :: IsNewest(es, u, s, e) && r == Outcome(e)) || (NoneVisible(es, u, s) && r == None)
  }

  /** No two entries share a user key and a sequence number. */
  ghost predicate Unique(es: set<Entry>) {
    forall x, y | x in es && y in es && x.key.user == y.key.user && x.key.sequence == y.key.sequence :: x == y
  }

  /** Every entry of `a` is newer than every entry of `b` for the same user key. */
  ghost predicate Newer(a: set<Entry>, b: set<Entry>) {
    forall x, y | x in a && y in b && x.key.user == y.key.user :: x.key.sequence > y.key.sequence
  }

  /** Every read at or above snapshot `ss` gets the same answers from `a` as from `b`. */
  ghost predicate SameReads(a: set<Entry>, b: set<Entry>, ss: SequenceNumber) {
    forall u, s: SequenceNumber, r | s >= ss :: Answers(a, u, s, r) <==> Answers(b, u, s, r)
  }

  /** A read always has an answer... */
  lemma {:induction false} NewestExists(es: set<Entry>, u: UserKey, s: SequenceNumber) returns (e: Entry)
    requires !NoneVisible(es, u, s)
    ensures IsNewest(es, u, s, e)
    decreases es
  {
    var x :| x in es && Visible(x, u, s);
    if NoneVisible(es - {x}, u, s) {
      e := x;
    } else {
      var y := NewestExists(es - {x}, u, s);
      e := if y.key.sequence < x.key.sequence then x else y;
    }
  }

  /** ... and, sequence numbers being unique, only one. */
  lemma AnswerUnique(es: set<Entry>, u: UserKey, s: SequenceNumber) returns (r: Option<Bytes>)
    requires Unique(es)
    ensures forall q :: Answers(es, u, s, q) <==> q == r
  {
    if NoneVisible(es, u, s) {
      r := None;
    } else {
      var e := NewestExists(es, u, s);
      r := Outcome(e);
      assert Answers(es, u, s, r);
      forall q | Answers(es, u, s, q)
        ensures q == r
      {
        var x :| IsNewest(es, u, s, x) && q == Outcome(x);
        assert x.key.sequence == e.key.sequence;
      }
    }
  }
}
