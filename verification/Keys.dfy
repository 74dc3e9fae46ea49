// Internal keys and the entries they label (db/dbformat.h, db/dbformat.cc).

module Keys {

  newtype byte = x: int | 0 <= x < 256
  type Bytes = seq<byte>

  datatype Option<+T> = None | Some(value: T)

  /** The engine looks at a user key only through the user comparator, a total order. Every
      countable total order embeds in the rationals, so a real stands for a user key and < for
      the comparator. The modules about bytes on disk use byte strings instead. */
  type UserKey = real

  datatype ValueType = TypeDeletion | TypeValue

  /** 56 bits, so that a sequence number and a type pack into 64. */
  const MAX_SEQUENCE_NUMBER: nat := 0xFF_FFFF_FFFF_FFFF
  type SequenceNumber = n: nat | n <= MAX_SEQUENCE_NUMBER

  /** ParsedInternalKey: a user key, a sequence number and a value type. */
  datatype IKey = IKey(user: UserKey, sequence: SequenceNumber, kind: ValueType)

  datatype Entry = Entry(key: IKey, value: Bytes)

  /** The 64-bit tag that follows the user key in an internal key. */
  function PackSequenceAndType(sequence: SequenceNumber, kind: ValueType): nat {
    sequence * 256 + if kind.TypeValue? then 1 else 0
  }

  /** Increasing user key, then decreasing sequence number, then decreasing type. */
  predicate Less(a: IKey, b: IKey) {
    a.user < b.user ||
    (a.user == b.user &&
     (a.sequence > b.sequence || (a.sequence == b.sequence && a.kind.TypeValue? && b.kind.TypeDeletion?)))
  }

  predicate LessEq(a: IKey, b: IKey) {
    a == b || Less(a, b)
  }

  /** InternalKeyComparator::Compare, which decodes and compares the packed tags. */
  function Compare(a: IKey, b: IKey): (r: int)
    ensures r < 0 <==> Less(a, b)
    ensures r == 0 <==> a == b
    ensures r > 0 <==> Less(b, a)
  {
    if a.user < b.user then -1
    else if a.user > b.user then 1
    else
      var anum := PackSequenceAndType(a.sequence, a.kind);
      var bnum := PackSequenceAndType(b.sequence, b.kind);
      if anum > bnum then -1 else if anum < bnum then 1 else 0
  }

  /** The internal key a reader of `user` at snapshot `sequence` seeks (kValueTypeForSeek). */
  function LookupKey(user: UserKey, sequence: SequenceNumber): IKey {
    IKey(user, sequence, TypeValue)
  }

  /** Strictly increasing in internal-key order. */
  ghost predicate Sorted(es: seq<Entry>) {
    forall i, j | 0 <= i < j < |es| :: Less(es[i].key, es[j].key)
  }

  ghost function Elements(es: seq<Entry>): set<Entry> {
    set e | e in es
  }
}
