// The iterator interface (include/leveldb/iterator.h) over one sorted run of entries, and the
// merge of several runs into one.

module Cursors {
  import opened Keys

  /** A position in a sorted run. Position |data| is the single invalid one, as in
      Version::LevelFileNumIterator. Memtable, table and block iterators all behave like this. */
  class Cursor {
    const data: seq<Entry>
    var pos: nat

    ghost predicate Ok()
      reads this
    {
      Sorted(data) && pos <= |data|
    }

    constructor (data: seq<Entry>)
      requires Sorted(data)
      ensures Ok() && this.data == data && !Valid()
    {
      this.data := data;
      pos := |data|;
    }

    predicate Valid()
      reads this
    {
      pos < |data|
    }

    function Key(): IKey
      requires Valid()
      reads this
    {
      data[pos].key
    }

    function Value(): Bytes
      requires Valid()
      reads this
    {
      data[pos].value
    }

    method SeekToFirst()
      requires Ok()
      modifies this
      ensures Ok() && pos == 0
    {
      pos := 0;
    }

    method SeekToLast()
      requires Ok()
      modifies this
      ensures Ok() && pos == if data == [] then 0 else |data| - 1
    {
      pos := if data == [] then 0 else |data| - 1;
    }

    method Seek(target: IKey)
      requires Ok()
      modifies this
      ensures Ok() && pos == LowerBound(data, target)
    {
      LowerBoundAt(data, target);
      var p := 0;
      while p < |data| && Less(data[p].key, target)
        invariant p <= LowerBound(data, target)
      {
        p := p + 1;
      }
      pos := p;
    }

    method Next()
      requires Ok() && Valid()
      modifies this
      ensures Ok() && pos == old(pos) + 1
    {
      pos := pos + 1;
    }

    method Prev()
      requires Ok() && Valid()
      modifies this
      ensures Ok() && pos == if old(pos) == 0 then |data| else old(pos) - 1
    {
      pos := if pos == 0 then |data| else pos - 1;
    }
  }

  /** How many entries of a sorted run lie before `target`: the position of the first at or after it. */
  function LowerBound(data: seq<Entry>, target: IKey): nat {
    if data == [] || !Less(data[0].key, target) then 0 else 1 + LowerBound(data[1..], target)
  }

  lemma {:induction false} LowerBoundAt(data: seq<Entry>, target: IKey)
    requires Sorted(data)
    ensures LowerBound(data, target) <= |data|
    ensures forall i | 0 <= i < |data| :: Less(data[i].key, target) <==> i < LowerBound(data, target)
  {
    if data != [] {
      assert Sorted(data[1..]);
      LowerBoundAt(data[1..], target);
      forall i | 0 < i < |data|
        ensures Less(data[i].key, target) <==> i < LowerBound(data, target)
      {
        assert data[i] == data[1..][i - 1];
      }
    }
  }

  // ------------------------------------------------------------------ merging runs

  /** No key occurs in both runs. */
  ghost predicate KeysApart(a: seq<Entry>, b: seq<Entry>) {
    forall x, y | x in a && y in b :: x.key != y.key
  }

  function Merge(a: seq<Entry>, b: seq<Entry>): (r: seq<Entry>)
    ensures forall e :: e in r <==> e in a || e in b
    ensures |r| == |a| + |b|
  {
    if a == [] then b
    else if b == [] then a
    else if Less(b[0].key, a[0].key) then [b[0]] + Merge(a, b[1..])
    else [a[0]] + Merge(a[1..], b)
  }

  function MergeAll(runs: seq<seq<Entry>>): (r: seq<Entry>)
    ensures forall e :: e in r <==> exists i :: 0 <= i < |runs| && e in runs[i]
  {
    if runs == [] then []
    else
      assert forall i | 0 < i < |runs| :: runs[i] == runs[1..][i - 1];
      Merge(runs[0], MergeAll(runs[1..]))
  }

  lemma PrependSorted(e: Entry, rest: seq<Entry>)
    requires Sorted(rest) && forall x | x in rest :: Less(e.key, x.key)
    ensures Sorted([e] + rest)
  {
  }

  lemma HeadIsLeast(a: seq<Entry>, x: Entry)
    requires Sorted(a) && x in a
    ensures x == a[0] || (Less(a[0].key, x.key) && x in a[1..])
  {
  }

  lemma {:induction false} MergeSorted(a: seq<Entry>, b: seq<Entry>)
    requires Sorted(a) && Sorted(b) && KeysApart(a, b)
    ensures Sorted(Merge(a, b))
  {
    if a == [] || b == [] {
    } else if Less(b[0].key, a[0].key) {
      MergeSorted(a, b[1..]);
      forall x | x in Merge(a, b[1..])
        ensures Less(b[0].key, x.key)
      {
        if x in a {
          HeadIsLeast(a, x);
        } else {
          assert b[1..][..] == b[1..];
        }
      }
      PrependSorted(b[0], Merge(a, b[1..]));
    } else {
      assert a[0] in a && b[0] in b;
      MergeSorted(a[1..], b);
      forall x | x in Merge(a[1..], b)
        ensures Less(a[0].key, x.key)
      {
        if x in b {
          HeadIsLeast(b, x);
        } else {
          assert a[1..][..] == a[1..];
        }
      }
      PrependSorted(a[0], Merge(a[1..], b));
    }
  }

  ghost predicate RunsApart(runs: seq<seq<Entry>>) {
    (forall i | 0 <= i < |runs| :: Sorted(runs[i])) &&
    forall i, j {:trigger KeysApart(runs[i], runs[j])} | 0 <= i < j < |runs| :: KeysApart(runs[i], runs[j])
  }

  lemma {:induction false} MergeAllSorted(runs: seq<seq<Entry>>)
    requires RunsApart(runs)
    ensures Sorted(MergeAll(runs))
  {
    if runs != [] {
      var rest := runs[1..];
      forall i | 0 <= i < |rest|
        ensures rest[i] == runs[i + 1]
      {
      }
      MergeAllSorted(rest);
      assert KeysApart(runs[0], MergeAll(rest)) by {
        forall x, y | x in runs[0] && y in MergeAll(rest)
          ensures x.key != y.key
        {
          var i :| 0 <= i < |rest| && y in rest[i];
          assert KeysApart(runs[0], runs[i + 1]);
        }
      }
      MergeSorted(runs[0], MergeAll(rest));
    }
  }
}
