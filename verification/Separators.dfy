// Byte strings in lexicographic order, internal keys over them, and the shortened keys that separate blocks
// (util/comparator.cc, db/dbformat.cc).

module Separators {
  import opened Keys
  import opened BlockFormat

  // ------------------------------------------------------------------ byte strings

  /** Slice::compare: the first byte that differs decides, then the length. */
  predicate Before(a: Bytes, b: Bytes) {
    if b == [] then false
    else if a == [] then true
    else a[0] < b[0] || (a[0] == b[0] && Before(a[1..], b[1..]))
  }

  predicate AtMost(a: Bytes, b: Bytes) {
    a == b || Before(a, b)
  }

  lemma {:induction false} BeforeTransitive(a: Bytes, b: Bytes, c: Bytes)
    requires Before(a, b) && Before(b, c)
    ensures Before(a, c)
  {
    if a != [] && a[0] == b[0] && b[0] == c[0] {
      BeforeTransitive(a[1..], b[1..], c[1..]);
    }
  }

  lemma {:induction false} BeforeTotal(a: Bytes, b: Bytes)
    ensures Before(a, b) || Before(b, a) || a == b
    ensures !(Before(a, b) && Before(b, a)) && !Before(a, a)
  {
    if a != [] {
      BeforeTotal(a[1..], a[1..]);
    }
    if a != [] && b != [] && a[0] == b[0] {
      BeforeTotal(a[1..], b[1..]);
      if a[1..] == b[1..] {
        assert a == [a[0]] + a[1..] && b == [b[0]] + b[1..];
      }
    }
  }

  /** The first difference decides. */
  lemma {:induction false} DifferenceDecides(a: Bytes, b: Bytes, d: nat)
    requires d < |a| && d < |b| && a[..d] == b[..d] && a[d] != b[d]
    ensures Before(a, b) <==> a[d] < b[d]
  {
    if d > 0 {
      assert a[0] == a[..d][0] == b[..d][0] == b[0];
      assert a[1..][..d - 1] == a[..d][1..] == b[..d][1..] == b[1..][..d - 1];
      DifferenceDecides(a[1..], b[1..], d - 1);
    }
  }

  function Bumped(s: Bytes, d: nat): Bytes
    requires d < |s| && s[d] < 255
  {
    s[..d] + [s[d] + 1]
  }

  /** What BytewiseComparator's FindShortestSeparator makes of `start`. */
  function ShortestSeparator(start: Bytes, limit: Bytes): Bytes {
    var d := CommonPrefix(start, limit);
    if d < |start| && d < |limit| && start[d] < 255 && start[d] + 1 < limit[d] then Bumped(start, d) else start
  }

  method FindShortestSeparator(start: Bytes, limit: Bytes) returns (r: Bytes)
    ensures r == ShortestSeparator(start, limit)
  {
    r := start;
    var diffIndex := SharedLength(start, limit);
    if diffIndex < |start| && diffIndex < |limit| {
      var diffByte := start[diffIndex];
      if diffByte < 255 && diffByte + 1 < limit[diffIndex] {
        r := start[diffIndex := diffByte + 1];
        r := r[..diffIndex + 1];
      }
    }
  }

  lemma SeparatorBetween(start: Bytes, limit: Bytes)
    requires Before(start, limit)
    ensures AtMost(start, ShortestSeparator(start, limit)) && Before(ShortestSeparator(start, limit), limit)
    ensures |ShortestSeparator(start, limit)| <= |start|
  {
    var d, r := CommonPrefix(start, limit), ShortestSeparator(start, limit);
    if r != start {
      DifferenceDecides(start, r, d);
      DifferenceDecides(r, limit, d);
    }
  }

  /** Where the keys first differ decides: the byte of `start` is incremented and ends the key if it stays below the
      other, and otherwise, or if one key is the beginning of the other, nothing is shortened. */
  lemma SeparatorShortens(start: Bytes, limit: Bytes, d: nat)
    requires d <= |start| && d <= |limit| && start[..d] == limit[..d]
    ensures d == |start| || d == |limit| ==> ShortestSeparator(start, limit) == start
    ensures d < |start| && d < |limit| && start[d] != limit[d] ==>
              ShortestSeparator(start, limit) ==
              if start[d] as nat + 1 < limit[d] as nat then start[..d] + [start[d] + 1] else start
  {
    PrefixShared(start, limit, d);
  }

  lemma {:induction false} PrefixShared(a: Bytes, b: Bytes, d: nat)
    requires d <= |a| && d <= |b| && a[..d] == b[..d]
    ensures CommonPrefix(a, b) >= d
    ensures d == |a| || d == |b| || a[d] != b[d] ==> CommonPrefix(a, b) == d
  {
    if d > 0 {
      assert a[0] == a[..d][0] == b[..d][0] == b[0];
      assert a[1..][..d - 1] == a[..d][1..] == b[..d][1..] == b[1..][..d - 1];
      PrefixShared(a[1..], b[1..], d - 1);
    }
  }

  /** The first byte below 255 is incremented and ends the key; a key without one stays. */
  lemma {:induction false} SuccessorShortens(key: Bytes, from: nat, i: nat)
    requires from <= i <= |key| && forall j | from <= j < i :: key[j] == 255
    ensures i == |key| ==> ShortSuccessor(key, from) == key
    ensures i < |key| && key[i] < 255 ==> ShortSuccessor(key, from) == key[..i] + [key[i] + 1]
    decreases i - from
  {
    if from < i {
      SuccessorShortens(key, from + 1, i);
    }
  }

  /** The first byte that can be incremented is, and ends the key. */
  function ShortSuccessor(key: Bytes, i: nat): Bytes
    requires i <= |key|
    decreases |key| - i
  {
    if i == |key| then key else if key[i] < 255 then Bumped(key, i) else ShortSuccessor(key, i + 1)
  }

  method FindShortSuccessor(key: Bytes) returns (r: Bytes)
    ensures r == ShortSuccessor(key, 0)
  {
    for i := 0 to |key|
      invariant ShortSuccessor(key, i) == ShortSuccessor(key, 0)
    {
      if key[i] != 255 {
        r := key[i := key[i] + 1];
        return r[..i + 1];
      }
    }
    return key;
  }

  lemma {:induction false} SuccessorAfter(key: Bytes, i: nat)
    requires i <= |key|
    ensures AtMost(key, ShortSuccessor(key, i))
    decreases |key| - i
  {
    if i < |key| {
      if key[i] < 255 {
        DifferenceDecides(key, Bumped(key, i), i);
      } else {
        SuccessorAfter(key, i + 1);
      }
    }
  }

  // ------------------------------------------------------------------ internal keys

  /** An internal key whose user key is a byte string. */
  datatype TableKey = TableKey(user: Bytes, sequence: SequenceNumber, kind: ValueType)

  /** Increasing user key, then decreasing packed sequence number and type. */
  predicate KeyLess(a: TableKey, b: TableKey) {
    Before(a.user, b.user) ||
    (a.user == b.user && PackSequenceAndType(a.sequence, a.kind) > PackSequenceAndType(b.sequence, b.kind))
  }

  predicate KeyAtMost(a: TableKey, b: TableKey) {
    a == b || KeyLess(a, b)
  }

  lemma KeyLessTransitive(a: TableKey, b: TableKey, c: TableKey)
    requires KeyLess(a, b) && KeyLess(b, c)
    ensures KeyLess(a, c)
  {
    if Before(a.user, b.user) && Before(b.user, c.user) {
      BeforeTransitive(a.user, b.user, c.user);
    }
  }

  lemma KeyLessTotal(a: TableKey, b: TableKey)
    ensures KeyLess(a, b) || KeyLess(b, a) || a == b
    ensures !(KeyLess(a, b) && KeyLess(b, a)) && !KeyLess(a, a)
  {
    BeforeTotal(a.user, b.user);
    BeforeTotal(a.user, a.user);
  }

  /** The earliest internal key of a shortened user key, or the key itself. */
  function Shortened(key: TableKey, user: Bytes): TableKey {
    if |user| < |key.user| && Before(key.user, user) then TableKey(user, MAX_SEQUENCE_NUMBER, TypeValue) else key
  }

  method FindShortestKeySeparator(start: TableKey, limit: TableKey) returns (r: TableKey)
    ensures r == Shortened(start, ShortestSeparator(start.user, limit.user))
  {
    var tmp := FindShortestSeparator(start.user, limit.user);
    r := start;
    if |tmp| < |start.user| && Before(start.user, tmp) {
      r := TableKey(tmp, MAX_SEQUENCE_NUMBER, TypeValue);
    }
  }

  method FindShortKeySuccessor(key: TableKey) returns (r: TableKey)
    ensures r == Shortened(key, ShortSuccessor(key.user, 0))
  {
    var tmp := FindShortSuccessor(key.user);
    r := key;
    if |tmp| < |key.user| && Before(key.user, tmp) {
      r := TableKey(tmp, MAX_SEQUENCE_NUMBER, TypeValue);
    }
  }

  /** A separator is at or after the key it shortens and before the limit. When it is not the key itself, its
      user key is strictly between theirs, so no key of the limit's user comes before it. */
  lemma KeySeparatorBetween(start: TableKey, limit: TableKey)
    requires KeyLess(start, limit)
    ensures var r := Shortened(start, ShortestSeparator(start.user, limit.user));
      KeyAtMost(start, r) && KeyLess(r, limit) && (r == start || Before(r.user, limit.user))
  {
    var tmp := ShortestSeparator(start.user, limit.user);
    if start.user == limit.user {
      BeforeTotal(start.user, tmp);
      assert CommonPrefix(start.user, limit.user) == |start.user| by { PrefixOfSelf(start.user); }
    } else {
      SeparatorBetween(start.user, limit.user);
    }
  }

  lemma {:induction false} PrefixOfSelf(a: Bytes)
    ensures CommonPrefix(a, a) == |a|
  {
    if a != [] {
      PrefixOfSelf(a[1..]);
    }
  }

  lemma KeySuccessorAfter(key: TableKey)
    ensures KeyAtMost(key, Shortened(key, ShortSuccessor(key.user, 0)))
  {
    SuccessorAfter(key.user, 0);
  }
}
