// MergingIterator: one cursor over the sorted merge of several children (table/merger.cc).

module MergingIterators {
  import opened Keys
  import opened Cursors

  function Runs(children: seq<Cursor>): (r: seq<seq<Entry>>)
    ensures |r| == |children| && forall i | 0 <= i < |r| :: r[i] == children[i].data
  {
    seq(|children|, i requires 0 <= i < |children| => children[i].data)
  }

  /** Position `q` of a child cuts its run where position `p` cuts the merged run `m`. */
  ghost predicate CutAt(m: seq<Entry>, p: nat, data: seq<Entry>, q: nat) {
    p <= |m| && q <= |data| && forall j | 0 <= j < |data| :: j < q <==> Before(m, p, data[j].key)
  }

  predicate Before(m: seq<Entry>, p: nat, key: IKey)
    requires p <= |m|
  {
    p == |m| || Less(key, m[p].key)
  }

  /** Where a child moving backward cuts its run: just after its position, or before everything. */
  function Back(child: Cursor): nat
    reads child
  {
    if child.pos < |child.data| then child.pos + 1 else 0
  }

  /** `m` is the sorted merge of runs that share no key. */
  ghost predicate MergeOf(m: seq<Entry>, runs: seq<seq<Entry>>) {
    Sorted(m) && RunsApart(runs) &&
    (forall i {:trigger Part(m, runs[i])} | 0 <= i < |runs| :: Part(m, runs[i])) &&
    forall p {:trigger Has(runs, m[p])} | 0 <= p < |m| :: Has(runs, m[p])
  }

  ghost predicate Part(m: seq<Entry>, run: seq<Entry>) {
    forall j {:trigger Located(m, run[j])} | 0 <= j < |run| :: Located(m, run[j])
  }

  ghost predicate Located(m: seq<Entry>, e: Entry) {
    e in m
  }

  ghost predicate Has(runs: seq<seq<Entry>>, e: Entry) {
    exists i :: 0 <= i < |runs| && e in runs[i]
  }

  lemma MergeAllIsMerge(runs: seq<seq<Entry>>)
    requires RunsApart(runs)
    ensures MergeOf(MergeAll(runs), runs)
  {
    MergeAllSorted(runs);
    assert forall p | 0 <= p < |MergeAll(runs)| :: MergeAll(runs)[p] in MergeAll(runs);
  }

  /** Where a child moving in direction `d` cuts its run. */
  function Place(child: Cursor, d: Direction): nat
    reads child
  {
    if d.Forward? then child.pos else Back(child)
  }

  ghost predicate Distinct(children: seq<Cursor>) {
    forall i, j | 0 <= i < j < |children| :: children[i] != children[j]
  }

  datatype Direction = Forward | Reverse

  class MergingIterator {
    const children: seq<Cursor>
    var current: Option<nat>
    var direction: Direction
    ghost const merged: seq<Entry>
    ghost var pos: nat

    ghost predicate Children()
      reads children
    {
      Distinct(children) && MergeOf(merged, Runs(children)) &&
      forall i | 0 <= i < |children| :: children[i].Ok()
    }

    /** All children stand at cut `p` of the merged run, moving in the given direction. */
    ghost predicate AllAt(p: nat, d: Direction)
      reads children
    {
      forall i | 0 <= i < |children| ::
        CutAt(merged, p, children[i].data, Place(children[i], d))
    }

    /** Moving forward, every child stands on its first entry at or after the current one; moving
        backward, on its last entry at or before it. The merged run has the current entry at `pos`. */
    ghost predicate Ok()
      reads this, children
      ensures Ok() ==> Sorted(merged) && pos <= |merged| && (Valid() <==> pos < |merged|)
    {
      Children() && pos <= |merged| &&
      (current.None? <==> pos == |merged|) &&
      (current.Some? ==>
        current.value < |children| &&
        var child := children[current.value];
        child.Valid() && child.data[child.pos] == merged[pos] &&
        AllAt(if direction.Forward? then pos else pos + 1, direction))
    }

    constructor (children: seq<Cursor>)
      requires Distinct(children) && RunsApart(Runs(children))
      requires forall i | 0 <= i < |children| :: children[i].Ok()
      ensures Ok() && this.children == children && !Valid()
      ensures merged == MergeAll(Runs(children))
    {
      this.children := children;
      current, direction := None, Forward;
      merged, pos := MergeAll(Runs(children)), |MergeAll(Runs(children))|;
      new;
      MergeAllIsMerge(Runs(children));
    }

    predicate Valid()
      reads this
    {
      current.Some?
    }

    function Key(): (k: IKey)
      requires Ok() && Valid()
      reads this, children
      ensures k == merged[pos].key
    {
      children[current.value].Key()
    }

    function Value(): (v: Bytes)
      requires Ok() && Valid()
      reads this, children
      ensures v == merged[pos].value
    {
      children[current.value].Value()
    }

    method SeekToFirst()
      requires Ok()
      modifies this, children
      ensures Ok() && pos == 0
    {
      for i := 0 to |children|
        invariant Children()
        invariant forall j | 0 <= j < i :: children[j].pos == 0
      {
        children[i].SeekToFirst();
      }
      forall i | 0 <= i < |children|
        ensures CutAt(merged, 0, children[i].data, children[i].pos)
      {
        CutBeforeAll(merged, children[i].data);
      }
      FindSmallest(0);
    }

    method SeekToLast()
      requires Ok()
      modifies this, children
      ensures Ok() && pos == if merged == [] then 0 else |merged| - 1
    {
      for i := 0 to |children|
        invariant Children()
        invariant forall j | 0 <= j < i :: Back(children[j]) == |children[j].data|
      {
        children[i].SeekToLast();
      }
      assert forall i | 0 <= i < |children| :: CutAt(merged, |merged|, children[i].data, |children[i].data|);
      FindLargest(|merged|);
    }

    method Seek(target: IKey)
      requires Ok()
      modifies this, children
      ensures Ok() && pos == LowerBound(merged, target)
    {
      for i := 0 to |children|
        invariant Children()
        invariant forall j | 0 <= j < i :: children[j].pos == LowerBound(children[j].data, target)
      {
        children[i].Seek(target);
      }
      forall i | 0 <= i < |children|
        ensures CutAt(merged, LowerBound(merged, target), children[i].data, children[i].pos)
      {
        CutAtTarget(merged, children[i].data, target);
      }
      LowerBoundAt(merged, target);
      FindSmallest(LowerBound(merged, target));
    }

    method Next()
      requires Ok() && Valid()
      modifies this, children
      ensures Ok() && pos == old(pos) + 1
    {
      var c := current.value;
      if direction.Reverse? {
        SkipOthers(c, children[c].Key());
      } else {
        OthersApart(c, Forward);
      }
      CutAfter(merged, children[c].data, pos, children[c].pos);
      children[c].Next();
      FindSmallest(pos + 1);
    }

    method Prev()
      requires Ok() && Valid()
      modifies this, children
      ensures Ok() && pos == if old(pos) == 0 then |merged| else old(pos) - 1
    {
      var c := current.value;
      if direction.Forward? {
        RewindOthers(c, children[c].Key());
      } else {
        OthersApart(c, Reverse);
      }
      CutAfter(merged, children[c].data, pos, children[c].pos);
      children[c].Prev();
      FindLargest(pos);
    }

    /** All children but `c` stand at cut `p`, moving in the given direction. */
    ghost predicate OthersAt(c: nat, p: nat, d: Direction)
      reads children
    {
      forall i | 0 <= i < |children| && i != c ::
        CutAt(merged, p, children[i].data, Place(children[i], d))
    }

    lemma OthersApart(c: nat, d: Direction)
      requires Children() && c < |children| && pos < |merged| && merged[pos] in children[c].data
      ensures OthersAt(c, pos, d) <==> OthersAt(c, pos + 1, d)
    {
      forall i | 0 <= i < |children| && i != c
        ensures CutAt(merged, pos, children[i].data, Place(children[i], d)) <==>
                CutAt(merged, pos + 1, children[i].data, Place(children[i], d))
      {
        NotShared(Runs(children), c, i, merged[pos]);
        OthersStay(merged, children[i].data, pos, Place(children[i], d));
      }
    }

    /** Positions every child but `c` after `key`, the one at `pos`. */
    method SkipOthers(c: nat, key: IKey)
      requires Children() && c < |children| && pos < |merged| && key == merged[pos].key
      modifies children
      ensures Children() && children[c].pos == old(children[c].pos) && OthersAt(c, pos + 1, Forward)
    {
      for i := 0 to |children|
        invariant Children() && children[c].pos == old(children[c].pos)
        invariant forall j | 0 <= j < i && j != c :: CutAt(merged, pos + 1, children[j].data, children[j].pos)
      {
        if i != c {
          SeekPast(children[i], key);
          PastIsNext(merged, children[i].data, pos, children[i].pos);
        }
      }
    }

    /** Positions every child but `c` before `key`, the one at `pos`. */
    method RewindOthers(c: nat, key: IKey)
      requires Children() && c < |children| && pos < |merged| && key == merged[pos].key
      modifies children
      ensures Children() && children[c].pos == old(children[c].pos) && OthersAt(c, pos, Reverse)
    {
      for i := 0 to |children|
        invariant Children() && children[c].pos == old(children[c].pos)
        invariant forall j | 0 <= j < i && j != c :: CutAt(merged, pos, children[j].data, Back(children[j]))
      {
        if i != c {
          SeekBefore(children[i], key);
        }
      }
    }

    /** Makes the child with the smallest key current: the entry at cut `p`. */
    method FindSmallest(ghost p: nat)
      requires Children() && p <= |merged| && AllAt(p, Forward)
      modifies this
      ensures Ok() && pos == p && direction == Forward
    {
      var smallest := Smallest(children);
      FirstAtCut(merged, Runs(children), p, Places(children, Forward), smallest);
      current, direction, pos := smallest, Forward, p;
    }

    /** Makes the child with the largest key current: the entry just before cut `p`. */
    method FindLargest(ghost p: nat)
      requires Children() && p <= |merged| && AllAt(p, Reverse)
      modifies this
      ensures Ok() && pos == (if p == 0 then |merged| else p - 1) && direction == Reverse
    {
      hide MergeOf, CutAt;
      var largest := Largest(children);
      LastBeforeCut(merged, Runs(children), p, Places(children, Reverse), largest);
      current, direction, pos := largest, Reverse, if largest.None? then |merged| else p - 1;
    }
  }

  /** NewMergingIterator, over an iterator of its own for each run. */
  method NewMergingIterator(runs: seq<seq<Entry>>) returns (iter: MergingIterator)
    requires RunsApart(runs)
    ensures fresh(iter) && fresh(iter.children) && iter.Ok() && !iter.Valid() && iter.merged == MergeAll(runs)
  {
    var children: seq<Cursor> := [];
    for i := 0 to |runs|
      invariant |children| == i && fresh(children) && Distinct(children)
      invariant forall j | 0 <= j < i :: children[j].Ok() && children[j].data == runs[j]
    {
      var child := new Cursor(runs[i]);
      children := children + [child];
    }
    assert Runs(children) == runs;
    iter := new MergingIterator(children);
  }

  method Smallest(children: seq<Cursor>) returns (smallest: Option<nat>)
    ensures IsSmallest(children, |children|, smallest)
  {
    smallest := None;
    for i := 0 to |children|
      invariant IsSmallest(children, i, smallest)
    {
      if children[i].Valid() {
        if smallest.None? {
          smallest := Some(i);
        } else if Compare(children[i].Key(), children[smallest.value].Key()) < 0 {
          smallest := Some(i);
        }
      }
    }
  }

  method Largest(children: seq<Cursor>) returns (largest: Option<nat>)
    ensures IsLargest(children, 0, largest)
  {
    largest := None;
    var i := |children|;
    while i > 0
      invariant 0 <= i <= |children|
      invariant IsLargest(children, i, largest)
    {
      i := i - 1;
      if children[i].Valid() {
        if largest.None? {
          largest := Some(i);
        } else if Compare(children[i].Key(), children[largest.value].Key()) > 0 {
          largest := Some(i);
        }
      }
    }
  }

  /** The valid child with the smallest key among the first `to`. */
  ghost predicate IsSmallest(children: seq<Cursor>, to: nat, c: Option<nat>)
    requires to <= |children|
    reads children
  {
    (c.None? ==> forall j | 0 <= j < to :: !children[j].Valid()) &&
    (c.Some? ==> c.value < to && children[c.value].Valid()) &&
    (c.Some? ==> forall j | 0 <= j < to && children[j].Valid() :: LessEq(children[c.value].Key(), children[j].Key()))
  }

  /** The valid child with the largest key among those from `from` on. */
  ghost predicate IsLargest(children: seq<Cursor>, from: nat, c: Option<nat>)
    reads children
  {
    (c.None? ==> forall j | from <= j < |children| :: !children[j].Valid()) &&
    (c.Some? ==> from <= c.value < |children| && children[c.value].Valid()) &&
    (c.Some? ==> forall j | from <= j < |children| && children[j].Valid() ::
       LessEq(children[j].Key(), children[c.value].Key()))
  }

  // ------------------------------------------------------------------ switching direction

  ghost predicate CutPast(data: seq<Entry>, key: IKey, q: nat) {
    q <= |data| && forall j | 0 <= j < |data| :: j < q <==> LessEq(data[j].key, key)
  }

  ghost predicate CutBefore(data: seq<Entry>, key: IKey, q: nat) {
    q <= |data| && forall j | 0 <= j < |data| :: j < q <==> Less(data[j].key, key)
  }

  /** Positions a child after `key`. */
  method SeekPast(child: Cursor, key: IKey)
    requires child.Ok()
    modifies child
    ensures child.Ok() && CutPast(child.data, key, child.pos)
  {
    child.Seek(key);
    LowerBoundAt(child.data, key);
    ghost var q := child.pos;
    assert forall j | q < j < |child.data| :: Less(child.data[q].key, child.data[j].key);
    if child.Valid() && Compare(key, child.Key()) == 0 {
      child.Next();
    }
  }

  /** Positions a child before `key`. */
  method SeekBefore(child: Cursor, key: IKey)
    requires child.Ok()
    modifies child
    ensures child.Ok() && CutBefore(child.data, key, Back(child))
  {
    child.Seek(key);
    LowerBoundAt(child.data, key);
    if child.Valid() {
      child.Prev();
    } else {
      child.SeekToLast();
    }
  }

  // ------------------------------------------------------------------ cuts of the merged run

  function Places(children: seq<Cursor>, d: Direction): (r: seq<nat>)
    reads children
    ensures |r| == |children| && forall i | 0 <= i < |r| :: r[i] == Place(children[i], d)
  {
    seq(|children|, i requires 0 <= i < |children| reads children => Place(children[i], d))
  }

  lemma Find(m: seq<Entry>, run: seq<Entry>, j: nat) returns (k: nat)
    requires Part(m, run) && j < |run|
    ensures k < |m| && m[k] == run[j]
  {
    assert Located(m, run[j]);
    k :| 0 <= k < |m| && m[k] == run[j];
  }

  lemma Order(m: seq<Entry>, a: nat, b: nat)
    requires Sorted(m) && a < |m| && b < |m|
    ensures a < b <==> Less(m[a].key, m[b].key)
    ensures a == b <==> m[a].key == m[b].key
  {
    if a < b {
      assert Less(m[a].key, m[b].key);
    } else if b < a {
      assert Less(m[b].key, m[a].key);
    }
  }

  lemma BeforeAt(m: seq<Entry>, p: nat, k: nat)
    requires Sorted(m) && p <= |m| && k < |m|
    ensures Before(m, p, m[k].key) <==> k < p
  {
    if p < |m| {
      Order(m, k, p);
    }
  }

  lemma CutBeforeAll(m: seq<Entry>, run: seq<Entry>)
    requires Sorted(m) && Part(m, run)
    ensures CutAt(m, 0, run, 0)
  {
    forall j | 0 <= j < |run|
      ensures !Before(m, 0, run[j].key)
    {
      var k := Find(m, run, j);
      BeforeAt(m, 0, k);
    }
  }

  lemma CutAtTarget(m: seq<Entry>, run: seq<Entry>, target: IKey)
    requires Sorted(m) && Sorted(run) && Part(m, run)
    ensures CutAt(m, LowerBound(m, target), run, LowerBound(run, target))
  {
    LowerBoundAt(m, target);
    LowerBoundAt(run, target);
    var b := LowerBound(m, target);
    forall j | 0 <= j < |run|
      ensures j < LowerBound(run, target) <==> Before(m, b, run[j].key)
    {
      var k := Find(m, run, j);
      BeforeAt(m, b, k);
    }
  }

  /** A child past the key at `p` stands at the next cut. */
  lemma PastIsNext(m: seq<Entry>, run: seq<Entry>, p: nat, q: nat)
    requires Sorted(m) && Part(m, run) && p < |m| && CutPast(run, m[p].key, q)
    ensures CutAt(m, p + 1, run, q)
  {
    forall j | 0 <= j < |run|
      ensures j < q <==> Before(m, p + 1, run[j].key)
    {
      var k := Find(m, run, j);
      BeforeAt(m, p + 1, k);
      Order(m, k, p);
    }
  }

  /** A run without the entry at `p` is cut alike at `p` and at the next cut. */
  lemma OthersStay(m: seq<Entry>, run: seq<Entry>, p: nat, q: nat)
    requires Sorted(m) && p < |m| && Part(m, run) && m[p] !in run
    ensures CutAt(m, p, run, q) <==> CutAt(m, p + 1, run, q)
  {
    forall j | 0 <= j < |run|
      ensures Before(m, p, run[j].key) <==> Before(m, p + 1, run[j].key)
    {
      var k := Find(m, run, j);
      assert run[j] in run;
      BeforeAt(m, p, k);
      BeforeAt(m, p + 1, k);
    }
  }

  lemma NotShared(runs: seq<seq<Entry>>, c: nat, i: nat, e: Entry)
    requires RunsApart(runs) && c < |runs| && i < |runs| && i != c && e in runs[c]
    ensures e !in runs[i]
  {
    assert KeysApart(runs[if c < i then c else i], runs[if c < i then i else c]);
  }

  /** The child holding the entry at `p` cuts its run at `p` before it, and at `p + 1` after it. */
  lemma CutAfter(m: seq<Entry>, run: seq<Entry>, p: nat, q: nat)
    requires Sorted(m) && Sorted(run) && Part(m, run) && p < |m| && q < |run| && run[q] == m[p]
    ensures CutAt(m, p, run, q) && CutAt(m, p + 1, run, q + 1)
  {
    forall j | 0 <= j < |run|
      ensures j < q <==> Before(m, p, run[j].key)
      ensures j < q + 1 <==> Before(m, p + 1, run[j].key)
    {
      var k := Find(m, run, j);
      BeforeAt(m, p, k);
      BeforeAt(m, p + 1, k);
      Order(m, k, p);
      Order(run, j, q);
    }
  }

  /** With all children at cut `p`, the smallest key among them is that of the entry at `p`. */
  lemma FirstAtCut(m: seq<Entry>, runs: seq<seq<Entry>>, p: nat, places: seq<nat>, c: Option<nat>)
    requires MergeOf(m, runs) && p <= |m| && |places| == |runs|
    requires forall i | 0 <= i < |runs| :: CutAt(m, p, runs[i], places[i])
    requires c.None? ==> forall i | 0 <= i < |runs| :: places[i] == |runs[i]|
    requires c.Some? ==> c.value < |runs| && places[c.value] < |runs[c.value]|
    requires c.Some? ==> forall i | 0 <= i < |runs| && places[i] < |runs[i]| ::
      LessEq(runs[c.value][places[c.value]].key, runs[i][places[i]].key)
    ensures c.None? <==> p == |m|
    ensures c.Some? ==> runs[c.value][places[c.value]] == m[p]
  {
    forall i | 0 <= i < |runs|
      ensures p == |m| ==> places[i] == |runs[i]|
      ensures places[i] < |runs[i]| && p < |m| && LessEq(runs[i][places[i]].key, m[p].key) ==>
              runs[i][places[i]] == m[p]
    {
      NotBefore(m, p, runs[i], places[i]);
    }
    if p < |m| {
      var i, j := Holder(m, runs, p);
      SameCut(m, p, runs[i], places[i], j);
    }
  }

  lemma Holder(m: seq<Entry>, runs: seq<seq<Entry>>, p: nat) returns (i: nat, j: nat)
    requires MergeOf(m, runs) && p < |m|
    ensures i < |runs| && j < |runs[i]| && runs[i][j] == m[p]
    ensures CutAt(m, p, runs[i], j) && CutAt(m, p + 1, runs[i], j + 1)
  {
    assert Has(runs, m[p]);
    i :| 0 <= i < |runs| && m[p] in runs[i];
    j :| 0 <= j < |runs[i]| && runs[i][j] == m[p];
    CutAfter(m, runs[i], p, j);
  }

  lemma SameCut(m: seq<Entry>, p: nat, run: seq<Entry>, a: nat, b: nat)
    requires CutAt(m, p, run, a) && CutAt(m, p, run, b)
    ensures a == b
  {
    var j := if a < b then a else b;
    if j < |run| {
      assert Before(m, p, run[j].key) <==> j < a;
    }
  }

  /** An entry at or after cut `p` whose key is at most the one at `p` is the entry at `p`. */
  lemma NotBefore(m: seq<Entry>, p: nat, run: seq<Entry>, q: nat)
    requires Sorted(m) && Part(m, run) && CutAt(m, p, run, q)
    ensures p == |m| ==> q == |run|
    ensures p < |m| && q < |run| && LessEq(run[q].key, m[p].key) ==> run[q] == m[p]
  {
    if q < |run| {
      var k := Find(m, run, q);
      BeforeAt(m, p, k);
      if p < |m| {
        Order(m, k, p);
      }
    }
  }

  /** An entry before cut `p` whose key is at least the last one there is that last one. */
  lemma IsBefore(m: seq<Entry>, p: nat, run: seq<Entry>, q: nat)
    requires Sorted(m) && Part(m, run) && CutAt(m, p, run, q)
    ensures p == 0 ==> q == 0
    ensures p > 0 && q > 0 && LessEq(m[p - 1].key, run[q - 1].key) ==> run[q - 1] == m[p - 1]
  {
    if q > 0 {
      var k := Find(m, run, q - 1);
      BeforeAt(m, p, k);
      Order(m, k, p - 1);
    }
  }

  /** With all children just before cut `p`, the largest key among them is that of the entry before `p`. */
  lemma LastBeforeCut(m: seq<Entry>, runs: seq<seq<Entry>>, p: nat, cuts: seq<nat>, c: Option<nat>)
    requires MergeOf(m, runs) && p <= |m| && |cuts| == |runs|
    requires forall i | 0 <= i < |runs| :: CutAt(m, p, runs[i], cuts[i])
    requires c.None? ==> forall i | 0 <= i < |runs| :: cuts[i] == 0
    requires c.Some? ==> c.value < |runs| && 0 < cuts[c.value] <= |runs[c.value]|
    requires c.Some? ==> forall i | 0 <= i < |runs| && 0 < cuts[i] <= |runs[i]| ::
      LessEq(runs[i][cuts[i] - 1].key, runs[c.value][cuts[c.value] - 1].key)
    ensures c.None? <==> p == 0
    ensures c.Some? ==> runs[c.value][cuts[c.value] - 1] == m[p - 1]
  {
    forall i | 0 <= i < |runs|
      ensures p == 0 ==> cuts[i] == 0
      ensures 0 < cuts[i] <= |runs[i]| && p > 0 && LessEq(m[p - 1].key, runs[i][cuts[i] - 1].key) ==>
                runs[i][cuts[i] - 1] == m[p - 1]
    {
      IsBefore(m, p, runs[i], cuts[i]);
    }
    if p > 0 {
      var i, j := Holder(m, runs, p - 1);
      SameCut(m, p, runs[i], cuts[i], j + 1);
    }
  }
}
