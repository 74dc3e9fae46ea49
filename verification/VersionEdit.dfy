// The bytes of a version edit in the manifest (db/version_edit.cc).

module VersionEdits {
  import opened Keys
  import opened Coding
  import opened Varints
  import Versions

  /** Keys stay encoded here: an internal key is a non-empty byte string. */
  datatype FileMetaData = FileMetaData(number: uint64, fileSize: uint64, smallest: Bytes, largest: Bytes)

  /** The fields of a VersionEdit; None where its has_ flag is false. The set of deleted (level, number) pairs is
      ordered, as std::set is. */
  datatype Fields = Fields(comparator: Option<Bytes>, logNumber: Option<uint64>, prevLogNumber: Option<uint64>,
                           nextFileNumber: Option<uint64>, lastSequence: Option<uint64>,
                           compactPointers: seq<(nat, Bytes)>, deletedFiles: seq<(nat, uint64)>,
                           newFiles: seq<(nat, FileMetaData)>)

  const NO_FIELDS: Fields := Fields(None, None, None, None, None, [], [], [])

  /** One tagged item of an encoded edit. */
  datatype Item =
    | Comparator(name: Bytes)
    | LogNumber(number: uint64)
    | PrevLogNumber(number: uint64)
    | NextFileNumber(number: uint64)
    | LastSequence(number: uint64)
    | CompactPointer(level: nat, key: Bytes)
    | DeletedFile(level: nat, number: uint64)
    | NewFile(level: nat, file: FileMetaData)

  // ------------------------------------------------------------------ encoding

  function Tag(i: Item): nat {
    match i
    case Comparator(_) => 1
    case LogNumber(_) => 2
    case NextFileNumber(_) => 3
    case LastSequence(_) => 4
    case CompactPointer(_, _) => 5
    case DeletedFile(_, _) => 6
    case NewFile(_, _) => 7
    case PrevLogNumber(_) => 9
  }

  function Prefixed(s: Bytes): Bytes {
    Varint(|s| % TWO_32) + s
  }

  function FileBody(f: FileMetaData): Bytes {
    Varint(f.number) + (Varint(f.fileSize) + (Prefixed(f.smallest) + Prefixed(f.largest)))
  }

  function Body(i: Item): Bytes {
    match i
    case Comparator(name) => Prefixed(name)
    case LogNumber(n) => Varint(n)
    case PrevLogNumber(n) => Varint(n)
    case NextFileNumber(n) => Varint(n)
    case LastSequence(n) => Varint(n)
    case CompactPointer(level, key) => Varint(level) + Prefixed(key)
    case DeletedFile(level, n) => Varint(level) + Varint(n)
    case NewFile(level, f) => Varint(level) + FileBody(f)
  }

  function Encoded(items: seq<Item>): Bytes {
    if items == [] then [] else Varint(Tag(items[0])) + (Body(items[0]) + Encoded(items[1..]))
  }

  function Pointers(ps: seq<(nat, Bytes)>): seq<Item> {
    seq(|ps|, i requires 0 <= i < |ps| => CompactPointer(ps[i].0, ps[i].1))
  }

  function Deleted(ds: seq<(nat, uint64)>): seq<Item> {
    seq(|ds|, i requires 0 <= i < |ds| => DeletedFile(ds[i].0, ds[i].1))
  }

  function Added(fs: seq<(nat, FileMetaData)>): seq<Item> {
    seq(|fs|, i requires 0 <= i < |fs| => NewFile(fs[i].0, fs[i].1))
  }

  /** The scalar fields in the order they are written. */
  function Scalars(e: Fields): seq<Item> {
    (if e.comparator.Some? then [Comparator(e.comparator.value)] else []) +
    (if e.logNumber.Some? then [LogNumber(e.logNumber.value)] else []) +
    (if e.prevLogNumber.Some? then [PrevLogNumber(e.prevLogNumber.value)] else []) +
    (if e.nextFileNumber.Some? then [NextFileNumber(e.nextFileNumber.value)] else []) +
    (if e.lastSequence.Some? then [LastSequence(e.lastSequence.value)] else [])
  }

  function Items(e: Fields): seq<Item> {
    Scalars(e) + Pointers(e.compactPointers) + Deleted(e.deletedFiles) + Added(e.newFiles)
  }

  // ------------------------------------------------------------------ decoding

  function Get32(b: Bytes): (r: Option<Got<nat>>)
    ensures r.Some? ==> |r.value.rest| < |b|
  {
    match ReadVarint32(b)
    case None => None
    case Some(n) => Some(Got(n.value, b[n.size..]))
  }

  function GetSlice(b: Bytes): (r: Option<Got<Bytes>>)
    ensures r.Some? ==> |r.value.rest| < |b|
  {
    match Get32(b)
    case None => None
    case Some(n) => if n.value <= |n.rest| then Some(Got(n.rest[..n.value], n.rest[n.value..])) else None
  }

  function GetLevel(b: Bytes): (r: Option<Got<nat>>)
    ensures r.Some? ==> |r.value.rest| < |b|
  {
    match Get32(b)
    case None => None
    case Some(n) => if n.value < Versions.NUM_LEVELS then Some(n) else None
  }

  function GetInternalKey(b: Bytes): (r: Option<Got<Bytes>>)
    ensures r.Some? ==> |r.value.rest| < |b|
  {
    match GetSlice(b)
    case None => None
    case Some(s) => if s.value == [] then None else Some(s)
  }

  /** The rest of an item, once its tag is read. */
  function GetItem(tag: nat, b: Bytes): (r: Option<Got<Item>>)
    ensures r.Some? ==> |r.value.rest| < |b|
  {
    if tag == 1 then
      match GetSlice(b)
      case None => None
      case Some(s) => Some(Got(Comparator(s.value), s.rest))
    else if tag == 5 then GetCompactPointer(b)
    else if tag == 6 then GetDeletedFile(b)
    else if tag == 7 then GetNewFile(b)
    else
      match Get64(b)
      case None => None
      case Some(n) =>
        if tag == 2 then Some(Got(LogNumber(n.value), n.rest))
        else if tag == 3 then Some(Got(NextFileNumber(n.value), n.rest))
        else if tag == 4 then Some(Got(LastSequence(n.value), n.rest))
        else if tag == 9 then Some(Got(PrevLogNumber(n.value), n.rest))
        else None
  }

  function GetCompactPointer(b: Bytes): (r: Option<Got<Item>>)
    ensures r.Some? ==> |r.value.rest| < |b|
  {
    match GetLevel(b)
    case None => None
    case Some(l) =>
      match GetInternalKey(l.rest)
      case None => None
      case Some(k) => Some(Got(CompactPointer(l.value, k.value), k.rest))
  }

  function GetDeletedFile(b: Bytes): (r: Option<Got<Item>>)
    ensures r.Some? ==> |r.value.rest| < |b|
  {
    match GetLevel(b)
    case None => None
    case Some(l) =>
      match Get64(l.rest)
      case None => None
      case Some(n) => Some(Got(DeletedFile(l.value, n.value), n.rest))
  }

  function GetNewFile(b: Bytes): (r: Option<Got<Item>>)
    ensures r.Some? ==> |r.value.rest| < |b|
  {
    match GetLevel(b)
    case None => None
    case Some(l) =>
      match GetFile(l.rest)
      case None => None
      case Some(f) => Some(Got(NewFile(l.value, f.value), f.rest))
  }

  function GetFile(b: Bytes): (r: Option<Got<FileMetaData>>)
    ensures r.Some? ==> |r.value.rest| < |b|
  {
    match Get64(b)
    case None => None
    case Some(n) =>
      match Get64(n.rest)
      case None => None
      case Some(size) =>
        match GetInternalKey(size.rest)
        case None => None
        case Some(smallest) =>
          match GetInternalKey(smallest.rest)
          case None => None
          case Some(largest) =>
            Some(Got(FileMetaData(n.value, size.value, smallest.value, largest.value), largest.rest))
  }

  predicate PairBefore(a: (nat, uint64), b: (nat, uint64)) {
    a.0 < b.0 || (a.0 == b.0 && a.1 < b.1)
  }

  /** std::set insertion. */
  function InsertPair(sorted: seq<(nat, uint64)>, p: (nat, uint64)): seq<(nat, uint64)> {
    if sorted == [] || PairBefore(p, sorted[0]) then [p] + sorted
    else if p == sorted[0] then sorted
    else [sorted[0]] + InsertPair(sorted[1..], p)
  }

  /** What reading an item does to the fields. */
  function Put(e: Fields, i: Item): Fields {
    match i
    case Comparator(name) => e.(comparator := Some(name))
    case LogNumber(n) => e.(logNumber := Some(n))
    case PrevLogNumber(n) => e.(prevLogNumber := Some(n))
    case NextFileNumber(n) => e.(nextFileNumber := Some(n))
    case LastSequence(n) => e.(lastSequence := Some(n))
    case CompactPointer(level, key) => e.(compactPointers := e.compactPointers + [(level, key)])
    case DeletedFile(level, n) => e.(deletedFiles := InsertPair(e.deletedFiles, (level, n)))
    case NewFile(level, f) => e.(newFiles := e.newFiles + [(level, f)])
  }

  function PutAll(e: Fields, items: seq<Item>): Fields
    decreases items
  {
    if items == [] then e else PutAll(Put(e, items[0]), items[1..])
  }

  datatype Decoded = Decoded(ok: bool, fields: Fields)

  /** Items are read while there is a tag; what is left over then is an error. */
  function Decode(e: Fields, b: Bytes): Decoded
    decreases |b|
  {
    match Get32(b)
    case None => Decoded(b == [], e)
    case Some(tag) =>
      match GetItem(tag.value, tag.rest)
      case None => Decoded(false, e)
      case Some(i) => Decode(Put(e, i.value), i.rest)
  }

  // ------------------------------------------------------------------ decoding what was encoded

  lemma Gets32(n: uint32, rest: Bytes)
    ensures Get32(Varint(n) + rest) == Some(Got(n, rest))
  {
    ReadsBack32(n, rest);
    assert IsRead(Varint(n) + rest, ReadVarint32(Varint(n) + rest));
  }

  lemma GetsSlice(s: Bytes, rest: Bytes)
    requires |s| < TWO_32
    ensures GetSlice(Prefixed(s) + rest) == Some(Got(s, rest))
  {
    Regroup(Varint(|s|), s, rest);
    Gets32(|s|, s + rest);
  }

  predicate IsKey(k: Bytes) {
    0 < |k| < TWO_32
  }

  predicate FitsFile(f: FileMetaData) {
    IsKey(f.smallest) && IsKey(f.largest)
  }

  predicate FitsItem(i: Item) {
    match i
    case Comparator(name) => |name| < TWO_32
    case CompactPointer(level, key) => level < Versions.NUM_LEVELS && IsKey(key)
    case DeletedFile(level, _) => level < Versions.NUM_LEVELS
    case NewFile(level, f) => level < Versions.NUM_LEVELS && FitsFile(f)
    case _ => true
  }

  lemma GetsKey(k: Bytes, rest: Bytes)
    requires IsKey(k)
    ensures GetInternalKey(Prefixed(k) + rest) == Some(Got(k, rest))
  {
    GetsSlice(k, rest);
  }

  lemma GetsLevel(level: nat, rest: Bytes)
    requires level < Versions.NUM_LEVELS
    ensures GetLevel(Varint(level) + rest) == Some(Got(level, rest))
  {
    Gets32(level, rest);
  }

  lemma FileBytes(number: Bytes, size: Bytes, smallest: Bytes, largest: Bytes, rest: Bytes)
    ensures number + (size + (smallest + largest)) + rest == number + (size + (smallest + (largest + rest)))
  {
    Regroup(number, size + (smallest + largest), rest);
    Regroup(size, smallest + largest, rest);
    Regroup(smallest, largest, rest);
  }

  lemma GetsFile(f: FileMetaData, rest: Bytes)
    requires FitsFile(f)
    ensures GetFile(FileBody(f) + rest) == Some(Got(f, rest))
  {
    var c := Prefixed(f.largest) + rest;
    var b := Prefixed(f.smallest) + c;
    var a := Varint(f.fileSize) + b;
    FileBytes(Varint(f.number), Varint(f.fileSize), Prefixed(f.smallest), Prefixed(f.largest), rest);
    Gets64(f.number, a);
    Gets64(f.fileSize, b);
    GetsKey(f.smallest, c);
    GetsKey(f.largest, rest);
  }

  lemma GetsPointer(level: nat, key: Bytes, rest: Bytes)
    requires level < Versions.NUM_LEVELS && IsKey(key)
    ensures GetCompactPointer(Varint(level) + Prefixed(key) + rest) == Some(Got(CompactPointer(level, key), rest))
  {
    Regroup(Varint(level), Prefixed(key), rest);
    GetsLevel(level, Prefixed(key) + rest);
    GetsKey(key, rest);
  }

  lemma GetsDeleted(level: nat, n: uint64, rest: Bytes)
    requires level < Versions.NUM_LEVELS
    ensures GetDeletedFile(Varint(level) + Varint(n) + rest) == Some(Got(DeletedFile(level, n), rest))
  {
    Regroup(Varint(level), Varint(n), rest);
    GetsLevel(level, Varint(n) + rest);
    Gets64(n, rest);
  }

  lemma GetsNewFile(level: nat, f: FileMetaData, rest: Bytes)
    requires level < Versions.NUM_LEVELS && FitsFile(f)
    ensures GetNewFile(Varint(level) + FileBody(f) + rest) == Some(Got(NewFile(level, f), rest))
  {
    Regroup(Varint(level), FileBody(f), rest);
    GetsLevel(level, FileBody(f) + rest);
    GetsFile(f, rest);
  }

  lemma GetsItem(i: Item, rest: Bytes)
    requires FitsItem(i)
    ensures GetItem(Tag(i), Body(i) + rest) == Some(Got(i, rest))
  {
    hide Varint, Get64, GetSlice, GetCompactPointer, GetDeletedFile, GetNewFile, Prefixed, FileBody, FitsFile;
    match i
    case Comparator(name) => GetsSlice(name, rest);
    case LogNumber(n) => Gets64(n, rest);
    case PrevLogNumber(n) => Gets64(n, rest);
    case NextFileNumber(n) => Gets64(n, rest);
    case LastSequence(n) => Gets64(n, rest);
    case CompactPointer(level, key) => GetsPointer(level, key, rest);
    case DeletedFile(level, n) => GetsDeleted(level, n, rest);
    case NewFile(level, f) => GetsNewFile(level, f, rest);
  }

  /** Decoding encoded items puts them into the object one after the other. */
  lemma {:induction false} DecodesItems(e: Fields, items: seq<Item>)
    requires forall i | i in items :: FitsItem(i)
    ensures Decode(e, Encoded(items)) == Decoded(true, PutAll(e, items))
    decreases items
  {
    if items != [] {
      var i, rest := items[0], Encoded(items[1..]);
      Gets32(Tag(i), Body(i) + rest);
      GetsItem(i, rest);
      DecodesItems(Put(e, i), items[1..]);
    } else {
      assert Get32([]).None?;
    }
  }

  // ------------------------------------------------------------------ putting all items of an edit

  lemma {:induction false} PutAllConcat(e: Fields, a: seq<Item>, b: seq<Item>)
    ensures PutAll(e, a + b) == PutAll(PutAll(e, a), b)
    decreases a
  {
    if a == [] {
      assert a + b == b;
    } else {
      assert (a + b)[1..] == a[1..] + b;
      PutAllConcat(Put(e, a[0]), a[1..], b);
    }
  }

  lemma {:induction false} PointersPut(e: Fields, ps: seq<(nat, Bytes)>)
    ensures PutAll(e, Pointers(ps)) == e.(compactPointers := e.compactPointers + ps)
    decreases ps
  {
    if ps == [] {
      assert e.compactPointers + ps == e.compactPointers;
    } else {
      var f := Put(e, Pointers(ps)[0]);
      assert Pointers(ps)[1..] == Pointers(ps[1..]);
      assert f.compactPointers + ps[1..] == e.compactPointers + ps;
      PointersPut(f, ps[1..]);
    }
  }

  lemma {:induction false} AddedPut(e: Fields, fs: seq<(nat, FileMetaData)>)
    ensures PutAll(e, Added(fs)) == e.(newFiles := e.newFiles + fs)
    decreases fs
  {
    if fs == [] {
      assert e.newFiles + fs == e.newFiles;
    } else {
      var f := Put(e, Added(fs)[0]);
      assert Added(fs)[1..] == Added(fs[1..]);
      assert f.newFiles + fs[1..] == e.newFiles + fs;
      AddedPut(f, fs[1..]);
    }
  }

  ghost predicate PairsSorted(ds: seq<(nat, uint64)>) {
    forall i, j | 0 <= i < j < |ds| :: PairBefore(ds[i], ds[j])
  }

  lemma {:induction false} InsertLast(ds: seq<(nat, uint64)>, p: (nat, uint64))
    requires PairsSorted(ds + [p])
    ensures InsertPair(ds, p) == ds + [p]
  {
    if ds != [] {
      assert (ds + [p])[0] == ds[0] && (ds + [p])[|ds|] == p;
      assert ds[1..] + [p] == (ds + [p])[1..];
      InsertLast(ds[1..], p);
    }
  }

  lemma {:induction false} DeletedPut(e: Fields, ds: seq<(nat, uint64)>)
    requires PairsSorted(e.deletedFiles + ds)
    ensures PutAll(e, Deleted(ds)) == e.(deletedFiles := e.deletedFiles + ds)
    decreases ds
  {
    if ds == [] {
      assert e.deletedFiles + ds == e.deletedFiles;
    } else {
      var sofar := e.deletedFiles + [ds[0]];
      assert sofar + ds[1..] == e.deletedFiles + ds;
      assert forall i | 0 <= i < |sofar| :: sofar[i] == (e.deletedFiles + ds)[i];
      InsertLast(e.deletedFiles, ds[0]);
      assert Deleted(ds)[1..] == Deleted(ds[1..]);
      DeletedPut(Put(e, Deleted(ds)[0]), ds[1..]);
    }
  }

  /** Clear leaves the compaction pointers alone. */
  function Cleared(e: Fields): Fields {
    NO_FIELDS.(compactPointers := e.compactPointers)
  }

  function WithScalars(c: Fields, e: Fields): Fields {
    c.(comparator := e.comparator, logNumber := e.logNumber, prevLogNumber := e.prevLogNumber,
       nextFileNumber := e.nextFileNumber, lastSequence := e.lastSequence)
  }

  lemma ScalarsPut(c: Fields, e: Fields)
    requires c == Cleared(c)
    ensures PutAll(c, Scalars(e)) == WithScalars(c, e)
  {
    var s0 := if e.comparator.Some? then [Comparator(e.comparator.value)] else [];
    var s1 := if e.logNumber.Some? then [LogNumber(e.logNumber.value)] else [];
    var s2 := if e.prevLogNumber.Some? then [PrevLogNumber(e.prevLogNumber.value)] else [];
    var s3 := if e.nextFileNumber.Some? then [NextFileNumber(e.nextFileNumber.value)] else [];
    var s4 := if e.lastSequence.Some? then [LastSequence(e.lastSequence.value)] else [];
    PutAllConcat(c, s0 + s1 + s2 + s3, s4);
    PutAllConcat(c, s0 + s1 + s2, s3);
    PutAllConcat(c, s0 + s1, s2);
    PutAllConcat(c, s0, s1);
    var c0 := c.(comparator := e.comparator);
    var c1 := c0.(logNumber := e.logNumber);
    var c2 := c1.(prevLogNumber := e.prevLogNumber);
    var c3 := c2.(nextFileNumber := e.nextFileNumber);
    assert PutAll(c, s0) == c0;
    assert PutAll(c0, s1) == c1;
    assert PutAll(c1, s2) == c2;
    assert PutAll(c2, s3) == c3;
    assert PutAll(c3, s4) == WithScalars(c, e);
  }

  /** What AddFile, RemoveFile and the setters can make: levels below NUM_LEVELS, valid keys, a set of pairs. */
  ghost predicate WellFormed(e: Fields) {
    PairsSorted(e.deletedFiles) && (e.comparator.Some? ==> |e.comparator.value| < TWO_32) &&
    (forall p | p in e.compactPointers :: p.0 < Versions.NUM_LEVELS && IsKey(p.1)) &&
    (forall p | p in e.deletedFiles :: p.0 < Versions.NUM_LEVELS) &&
    forall p | p in e.newFiles :: p.0 < Versions.NUM_LEVELS && FitsFile(p.1)
  }

  lemma ItemsFit(e: Fields)
    requires WellFormed(e)
    ensures forall i | i in Items(e) :: FitsItem(i)
  {
    forall i | i in Items(e)
      ensures FitsItem(i)
    {
      if i !in Scalars(e) && i !in Pointers(e.compactPointers) && i !in Deleted(e.deletedFiles) {
        assert i in Added(e.newFiles);
      }
    }
  }

  lemma ItemsPut(c: Fields, e: Fields)
    requires c == Cleared(c) && WellFormed(e)
    ensures PutAll(c, Items(e)) == e.(compactPointers := c.compactPointers + e.compactPointers)
  {
    var a, p, d := Scalars(e), Pointers(e.compactPointers), Deleted(e.deletedFiles);
    PutAllConcat(c, a + p + d, Added(e.newFiles));
    PutAllConcat(c, a + p, d);
    PutAllConcat(c, a, p);
    ScalarsPut(c, e);
    var c1 := WithScalars(c, e);
    var c2 := c1.(compactPointers := c.compactPointers + e.compactPointers);
    var c3 := c2.(deletedFiles := e.deletedFiles);
    PointersPut(c1, e.compactPointers);
    assert c2.deletedFiles + e.deletedFiles == e.deletedFiles;
    DeletedPut(c2, e.deletedFiles);
    assert c3.newFiles + e.newFiles == e.newFiles;
    AddedPut(c3, e.newFiles);
  }

  /** Decoding an encoded edit restores every field, but only adds to the compaction pointers the object had. */
  lemma RoundTrip(e: Fields, before: Fields)
    requires WellFormed(e)
    ensures Decode(Cleared(before), Encoded(Items(e))) ==
            Decoded(true, e.(compactPointers := before.compactPointers + e.compactPointers))
  {
    ItemsFit(e);
    DecodesItems(Cleared(before), Items(e));
    ItemsPut(Cleared(before), e);
  }

  /** So the round trip is exact if and only if the object had no compaction pointers. */
  lemma RoundTripExact(e: Fields, before: Fields)
    requires WellFormed(e)
    ensures Decode(Cleared(before), Encoded(Items(e))) == Decoded(true, e) <==> before.compactPointers == []
  {
    hide Decode, Encoded, Items, WellFormed;
    RoundTrip(e, before);
    if before.compactPointers == [] {
      assert before.compactPointers + e.compactPointers == e.compactPointers;
    } else {
      assert |before.compactPointers + e.compactPointers| > |e.compactPointers|;
    }
  }

  // ------------------------------------------------------------------ the class

  method PutVarint32(dst: Bytes, v: nat) returns (r: Bytes)
    ensures r == dst + Varint(v % TWO_32)
  {
    var buf := EncodeVarint32(v % TWO_32);
    return dst + buf;
  }

  method PutVarint64(dst: Bytes, v: uint64) returns (r: Bytes)
    ensures r == dst + Varint(v)
  {
    var buf := EncodeVarint64(v);
    return dst + buf;
  }

  method PutLengthPrefixedSlice(dst: Bytes, s: Bytes) returns (r: Bytes)
    ensures r == dst + Prefixed(s)
  {
    r := PutVarint32(dst, |s|);
    r := r + s;
  }

  function Tagged(i: Item): Bytes {
    Varint(Tag(i)) + Body(i)
  }

  method PutNumber(dst: Bytes, tag: nat, n: uint64) returns (r: Bytes)
    requires tag < TWO_32
    ensures r == dst + (Varint(tag) + Varint(n))
  {
    r := PutVarint32(dst, tag);
    r := PutVarint64(r, n);
    Regroup(dst, Varint(tag), Varint(n));
  }

  method PutPointer(dst: Bytes, level: nat, key: Bytes) returns (r: Bytes)
    requires level < TWO_32
    ensures r == dst + Tagged(CompactPointer(level, key))
  {
    hide Varint, Prefixed;
    r := PutVarint32(dst, 5);
    r := PutVarint32(r, level);
    r := PutLengthPrefixedSlice(r, key);
    Regroup(dst + Varint(5), Varint(level), Prefixed(key));
    Regroup(dst, Varint(5), Varint(level) + Prefixed(key));
  }

  method PutDeletedFile(dst: Bytes, level: nat, number: uint64) returns (r: Bytes)
    requires level < TWO_32
    ensures r == dst + Tagged(DeletedFile(level, number))
  {
    hide Varint;
    r := PutVarint32(dst, 6);
    r := PutVarint32(r, level);
    r := PutVarint64(r, number);
    Regroup(dst + Varint(6), Varint(level), Varint(number));
    Regroup(dst, Varint(6), Varint(level) + Varint(number));
  }

  method PutFile(dst: Bytes, f: FileMetaData) returns (r: Bytes)
    ensures r == dst + FileBody(f)
  {
    r := PutVarint64(dst, f.number);
    r := PutVarint64(r, f.fileSize);
    r := PutLengthPrefixedSlice(r, f.smallest);
    r := PutLengthPrefixedSlice(r, f.largest);
    FileAppended(dst, Varint(f.number), Varint(f.fileSize), Prefixed(f.smallest), Prefixed(f.largest));
  }

  method PutNewFile(dst: Bytes, level: nat, f: FileMetaData) returns (r: Bytes)
    requires level < TWO_32
    ensures r == dst + Tagged(NewFile(level, f))
  {
    r := PutVarint32(dst, 7);
    r := PutVarint32(r, level);
    r := PutFile(r, f);
    Regroup(dst + Varint(7), Varint(level), FileBody(f));
    Regroup(dst, Varint(7), Varint(level) + FileBody(f));
  }

  lemma FileAppended(dst: Bytes, number: Bytes, size: Bytes, smallest: Bytes, largest: Bytes)
    ensures dst + number + size + smallest + largest == dst + (number + (size + (smallest + largest)))
  {
    Regroup(dst + number + size, smallest, largest);
    Regroup(dst + number, size, smallest + largest);
    Regroup(dst, number, size + (smallest + largest));
  }

  lemma {:induction false} EncodedConcat(a: seq<Item>, b: seq<Item>)
    ensures Encoded(a + b) == Encoded(a) + Encoded(b)
    decreases a
  {
    if a == [] {
      assert a + b == b;
    } else {
      assert (a + b)[1..] == a[1..] + b;
      EncodedConcat(a[1..], b);
      Regroup(Body(a[0]), Encoded(a[1..]), Encoded(b));
      Regroup(Varint(Tag(a[0])), Body(a[0]) + Encoded(a[1..]), Encoded(b));
    }
  }

  function OptionalBytes(tag: nat, n: Option<uint64>): Bytes {
    if n.Some? then Varint(tag) + Varint(n.value) else []
  }

  function NameBytes(name: Option<Bytes>): Bytes {
    if name.Some? then Varint(1) + Prefixed(name.value) else []
  }

  lemma EncodedFirst(items: seq<Item>)
    requires items != []
    ensures Encoded(items) == Tagged(items[0]) + Encoded(items[1..])
  {
    Regroup(Varint(Tag(items[0])), Body(items[0]), Encoded(items[1..]));
  }

  lemma EncodedOne(i: Item)
    ensures Encoded([i]) == Tagged(i)
  {
    EncodedFirst([i]);
    assert Encoded([i][1..]) == [] && Tagged(i) + [] == Tagged(i);
  }

  /** The bytes of each kind of item. */
  lemma KnownScalars()
    ensures Encoded([Comparator([0x62])]) == [1, 1, 0x62] && Encoded([LogNumber(300)]) == [2, 0xac, 2]
    ensures Encoded([PrevLogNumber(5)]) == [9, 5] && Encoded([NextFileNumber(7)]) == [3, 7]
    ensures Encoded([LastSequence(9)]) == [4, 9]
  {
    EncodedOne(Comparator([0x62]));
    EncodedOne(LogNumber(300));
    EncodedOne(PrevLogNumber(5));
    EncodedOne(NextFileNumber(7));
    EncodedOne(LastSequence(9));
    hide Encoded;
    assert Varint(300) == [0xac, 2];
  }

  lemma KnownItems()
    ensures Encoded([CompactPointer(1, [0x61])]) == [5, 1, 1, 0x61]
    ensures Encoded([DeletedFile(2, 4)]) == [6, 2, 4]
    ensures Encoded([NewFile(3, FileMetaData(11, 12, [0x61], [0x62]))]) == [7, 3, 11, 12, 1, 0x61, 1, 0x62]
  {
    EncodedOne(CompactPointer(1, [0x61]));
    EncodedOne(DeletedFile(2, 4));
    EncodedOne(NewFile(3, FileMetaData(11, 12, [0x61], [0x62])));
    hide Encoded;
  }

  function ScalarBytes(e: Fields): Bytes {
    NameBytes(e.comparator) + OptionalBytes(2, e.logNumber) + OptionalBytes(9, e.prevLogNumber) +
    OptionalBytes(3, e.nextFileNumber) + OptionalBytes(4, e.lastSequence)
  }

  lemma ScalarsEncoded(e: Fields)
    ensures Encoded(Scalars(e)) == ScalarBytes(e)
  {
    var s0 := if e.comparator.Some? then [Comparator(e.comparator.value)] else [];
    var s1 := if e.logNumber.Some? then [LogNumber(e.logNumber.value)] else [];
    var s2 := if e.prevLogNumber.Some? then [PrevLogNumber(e.prevLogNumber.value)] else [];
    var s3 := if e.nextFileNumber.Some? then [NextFileNumber(e.nextFileNumber.value)] else [];
    var s4 := if e.lastSequence.Some? then [LastSequence(e.lastSequence.value)] else [];
    EncodedConcat(s0 + s1 + s2 + s3, s4);
    EncodedConcat(s0 + s1 + s2, s3);
    EncodedConcat(s0 + s1, s2);
    EncodedConcat(s0, s1);
    assert Encoded(s0) == NameBytes(e.comparator) by { if s0 != [] { EncodedOne(s0[0]); } }
    assert Encoded(s1) == OptionalBytes(2, e.logNumber) by { if s1 != [] { EncodedOne(s1[0]); } }
    assert Encoded(s2) == OptionalBytes(9, e.prevLogNumber) by { if s2 != [] { EncodedOne(s2[0]); } }
    assert Encoded(s3) == OptionalBytes(3, e.nextFileNumber) by { if s3 != [] { EncodedOne(s3[0]); } }
    assert Encoded(s4) == OptionalBytes(4, e.lastSequence) by { if s4 != [] { EncodedOne(s4[0]); } }
  }

  method PutOptional(dst: Bytes, tag: nat, n: Option<uint64>) returns (r: Bytes)
    requires tag < TWO_32
    ensures r == dst + OptionalBytes(tag, n)
  {
    r := dst;
    if n.Some? {
      r := PutNumber(r, tag, n.value);
    }
  }

  method PutName(dst: Bytes, name: Option<Bytes>) returns (r: Bytes)
    ensures r == dst + NameBytes(name)
  {
    r := dst;
    if name.Some? {
      r := PutVarint32(r, 1);
      r := PutLengthPrefixedSlice(r, name.value);
      Regroup(dst, Varint(1), Prefixed(name.value));
    }
  }

  function PointerBytes(ps: seq<(nat, Bytes)>): Bytes {
    if ps == [] then [] else Tagged(CompactPointer(ps[0].0, ps[0].1)) + PointerBytes(ps[1..])
  }

  function DeletedBytes(ds: seq<(nat, uint64)>): Bytes {
    if ds == [] then [] else Tagged(DeletedFile(ds[0].0, ds[0].1)) + DeletedBytes(ds[1..])
  }

  function AddedBytes(fs: seq<(nat, FileMetaData)>): Bytes {
    if fs == [] then [] else Tagged(NewFile(fs[0].0, fs[0].1)) + AddedBytes(fs[1..])
  }

  lemma {:induction false} PointersEncoded(ps: seq<(nat, Bytes)>)
    ensures Encoded(Pointers(ps)) == PointerBytes(ps)
  {
    hide Body, Tag;
    if ps != [] {
      EncodedFirst(Pointers(ps));
      assert Pointers(ps)[1..] == Pointers(ps[1..]);
      PointersEncoded(ps[1..]);
    }
  }

  lemma {:induction false} DeletedEncoded(ds: seq<(nat, uint64)>)
    ensures Encoded(Deleted(ds)) == DeletedBytes(ds)
  {
    hide Body, Tag;
    hide Varint;
    if ds != [] {
      EncodedFirst(Deleted(ds));
      assert Deleted(ds)[1..] == Deleted(ds[1..]);
      DeletedEncoded(ds[1..]);
    }
  }

  lemma {:induction false} AddedEncoded(fs: seq<(nat, FileMetaData)>)
    ensures Encoded(Added(fs)) == AddedBytes(fs)
  {
    hide Body, Tag;
    if fs != [] {
      EncodedFirst(Added(fs));
      assert Added(fs)[1..] == Added(fs[1..]);
      AddedEncoded(fs[1..]);
    }
  }

  method PutPointers(dst: Bytes, ps: seq<(nat, Bytes)>) returns (r: Bytes)
    requires forall p | p in ps :: p.0 < Versions.NUM_LEVELS
    ensures r == dst + PointerBytes(ps)
  {
    r := dst;
    for i := 0 to |ps|
      invariant r + PointerBytes(ps[i..]) == dst + PointerBytes(ps)
    {
      assert ps[i..][1..] == ps[i + 1..];
      Regroup(r, Tagged(CompactPointer(ps[i].0, ps[i].1)), PointerBytes(ps[i + 1..]));
      r := PutPointer(r, ps[i].0, ps[i].1);
    }
  }

  method PutDeletedFiles(dst: Bytes, ds: seq<(nat, uint64)>) returns (r: Bytes)
    requires forall p | p in ds :: p.0 < Versions.NUM_LEVELS
    ensures r == dst + DeletedBytes(ds)
  {
    r := dst;
    for i := 0 to |ds|
      invariant r + DeletedBytes(ds[i..]) == dst + DeletedBytes(ds)
    {
      assert ds[i..][1..] == ds[i + 1..];
      Regroup(r, Tagged(DeletedFile(ds[i].0, ds[i].1)), DeletedBytes(ds[i + 1..]));
      r := PutDeletedFile(r, ds[i].0, ds[i].1);
    }
  }

  method PutNewFiles(dst: Bytes, fs: seq<(nat, FileMetaData)>) returns (r: Bytes)
    requires forall p | p in fs :: p.0 < Versions.NUM_LEVELS
    ensures r == dst + AddedBytes(fs)
  {
    r := dst;
    for i := 0 to |fs|
      invariant r + AddedBytes(fs[i..]) == dst + AddedBytes(fs)
    {
      assert fs[i..][1..] == fs[i + 1..];
      Regroup(r, Tagged(NewFile(fs[i].0, fs[i].1)), AddedBytes(fs[i + 1..]));
      r := PutNewFile(r, fs[i].0, fs[i].1);
    }
  }

  /** The bytes field by field. */
  lemma ItemBytes(e: Fields)
    ensures Encoded(Items(e)) == ScalarBytes(e) + PointerBytes(e.compactPointers) + DeletedBytes(e.deletedFiles) +
                                 AddedBytes(e.newFiles)
  {
    var a, p, d := Scalars(e), Pointers(e.compactPointers), Deleted(e.deletedFiles);
    EncodedConcat(a + p + d, Added(e.newFiles));
    EncodedConcat(a + p, d);
    EncodedConcat(a, p);
    ScalarsEncoded(e);
    PointersEncoded(e.compactPointers);
    DeletedEncoded(e.deletedFiles);
    AddedEncoded(e.newFiles);
  }

  lemma Appends(dst: Bytes, a: Bytes, b: Bytes, c: Bytes, d: Bytes, e: Bytes)
    ensures dst + a + b + c + d + e == dst + (a + b + c + d + e)
    ensures dst + a + b + c + d == dst + (a + b + c + d)
  {
  }

  ghost predicate LevelsFit(e: Fields) {
    (forall p | p in e.compactPointers :: p.0 < Versions.NUM_LEVELS) &&
    (forall p | p in e.deletedFiles :: p.0 < Versions.NUM_LEVELS) &&
    forall p | p in e.newFiles :: p.0 < Versions.NUM_LEVELS
  }

  class VersionEdit {
    var fields: Fields

    constructor ()
      ensures fields == NO_FIELDS
    {
      fields := NO_FIELDS;
    }

    method EncodeTo(dst: Bytes) returns (r: Bytes)
      requires LevelsFit(fields)
      ensures r == dst + Encoded(Items(fields))
    {
      r := EncodeScalars(dst);
      r := PutPointers(r, fields.compactPointers);
      r := PutDeletedFiles(r, fields.deletedFiles);
      r := PutNewFiles(r, fields.newFiles);
      ItemBytes(fields);
      Appends(dst, ScalarBytes(fields), PointerBytes(fields.compactPointers), DeletedBytes(fields.deletedFiles),
              AddedBytes(fields.newFiles), []);
    }

    method EncodeScalars(dst: Bytes) returns (r: Bytes)
      ensures r == dst + ScalarBytes(fields)
    {
      r := PutName(dst, fields.comparator);
      r := PutOptional(r, 2, fields.logNumber);
      r := PutOptional(r, 9, fields.prevLogNumber);
      r := PutOptional(r, 3, fields.nextFileNumber);
      r := PutOptional(r, 4, fields.lastSequence);
      Appends(dst, NameBytes(fields.comparator), OptionalBytes(2, fields.logNumber),
              OptionalBytes(9, fields.prevLogNumber),
              OptionalBytes(3, fields.nextFileNumber), OptionalBytes(4, fields.lastSequence));
    }

    method DecodeFrom(src: Bytes) returns (ok: bool)
      modifies this
      ensures Decoded(ok, fields) == Decode(Cleared(old(fields)), src)
    {
      fields := NO_FIELDS.(compactPointers := fields.compactPointers);
      var input := src;
      ok := true;
      var tag := ReadTag(input);
      while ok && tag.Some?
        invariant tag == Get32(input)
        invariant Decode(Cleared(old(fields)), src) == if ok then Decode(fields, input) else Decoded(false, fields)
        decreases ok, |input|
      {
        var item := GetItem(tag.value.value, tag.value.rest);
        if item.Some? {
          fields := Put(fields, item.value.value);
          input := item.value.rest;
          tag := ReadTag(input);
        } else {
          ok := false;
        }
      }
      if ok && input != [] {
        ok := false;
      }
    }
  }

  method ReadTag(input: Bytes) returns (r: Option<Got<nat>>)
    ensures r == Get32(input)
  {
    var n := GetVarint32Ptr(input);
    r := if n.None? then None else Some(Got(n.value.value, input[n.value.size..]));
  }

  ghost predicate Writes(e: Fields, record: Bytes) {
    WellFormed(e) && record == Encoded(Items(e))
  }

  /** A record read into an edit of its own. */
  method ReadEdit(record: Bytes) returns (r: Option<Fields>)
    ensures forall e {:trigger Writes(e, record)} | Writes(e, record) :: r == Some(e)
  {
    var edit := new VersionEdit();
    var ok := edit.DecodeFrom(record);
    forall e {:trigger Writes(e, record)} | Writes(e, record)
      ensures ok && edit.fields == e
    {
      RoundTripExact(e, NO_FIELDS);
    }
    r := if ok then Some(edit.fields) else None;
  }
}
