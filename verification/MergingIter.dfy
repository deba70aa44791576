/** MergingIterator: several sorted children walked as one sorted sequence, in
    either direction. */
module MergingIter {
  import opened InternalKeys
  import opened Ranges

  // ----- ranges of internal keys -----

  datatype High = End | Below(k: IKey)

  predicate InLow(lo: Low<IKey>, k: IKey) {
    match lo
    case Start => true
    case After(l) => Before(l, k)
    case From(l) => !Before(k, l)
  }

  predicate InHigh(k: IKey, hi: High) {
    match hi
    case End => true
    case Below(h) => Before(k, h)
  }

  // ----- positions of one child; |run| means invalid -----

  /** The child is on its first entry of the range. */
  ghost predicate OnFirstOf(run: seq<Entry>, p: nat, lo: Low<IKey>) {
    && p <= |run|
    && (forall j :: 0 <= j < p ==> !InLow(lo, run[j].key))
    && (forall j :: p <= j < |run| ==> InLow(lo, run[j].key))
  }

  /** The child is on its last entry of the range, or invalid if it has none. */
  ghost predicate OnLastOf(run: seq<Entry>, p: nat, hi: High) {
    && p <= |run|
    && (p == |run| ==> forall j :: 0 <= j < |run| ==> !InHigh(run[j].key, hi))
    && (p < |run| ==> InHigh(run[p].key, hi) && forall j :: p < j < |run| ==> !InHigh(run[j].key, hi))
  }

  function PrevPos(run: seq<Entry>, p: nat): nat
    requires p < |run|
  {
    if p == 0 then |run| else p - 1
  }

  function LastPos(run: seq<Entry>): nat {
    if run == [] then 0 else |run| - 1
  }

  lemma SeekIsFirstOf(run: seq<Entry>, k: IKey)
    requires Sorted(run)
    ensures OnFirstOf(run, LowerBound(run, k), From(k))
  {
    var p := LowerBound(run, k);
    forall j | p <= j < |run|
      ensures !Before(run[j].key, k)
    {
      assert j == p || Before(run[p].key, run[j].key);
    }
  }

  /** Seek to a key and step over an equal one. */
  function SeekAfter(run: seq<Entry>, k: IKey): nat {
    var p := LowerBound(run, k);
    if p < |run| && run[p].key == k then p + 1 else p
  }

  lemma SeekAfterIsFirstOf(run: seq<Entry>, k: IKey)
    requires Sorted(run)
    ensures OnFirstOf(run, SeekAfter(run, k), After(k))
  {
    SeekIsFirstOf(run, k);
    var p := LowerBound(run, k);
    forall j | p < j < |run|
      ensures Before(k, run[j].key)
    {
      assert Before(run[p].key, run[j].key);
    }
  }

  /** Seek to a key and step back, or go to the end if there is none. */
  function SeekBefore(run: seq<Entry>, k: IKey): nat {
    var p := LowerBound(run, k);
    if p < |run| then PrevPos(run, p) else LastPos(run)
  }

  lemma SeekBeforeIsLastOf(run: seq<Entry>, k: IKey)
    requires Sorted(run)
    ensures OnLastOf(run, SeekBefore(run, k), Below(k))
  {
    SeekIsFirstOf(run, k);
  }

  lemma StepAfterIsFirstOf(run: seq<Entry>, p: nat)
    requires Sorted(run) && p < |run|
    ensures OnFirstOf(run, p + 1, After(run[p].key))
  {
    forall j | 0 <= j < p + 1
      ensures !Before(run[p].key, run[j].key)
    {
      assert j == p || Before(run[j].key, run[p].key);
    }
  }

  lemma StepBeforeIsLastOf(run: seq<Entry>, p: nat)
    requires Sorted(run) && p < |run|
    ensures OnLastOf(run, PrevPos(run, p), Below(run[p].key))
  {
    forall j | p <= j < |run|
      ensures !Before(run[j].key, run[p].key)
    {
      assert j == p || Before(run[p].key, run[j].key);
    }
  }

  // ----- all children together -----

  ghost predicate DistinctKeys(runs: seq<seq<Entry>>) {
    forall a, b, i, j :: 0 <= a < b < |runs| && 0 <= i < |runs[a]| && 0 <= j < |runs[b]| ==>
      runs[a][i].key != runs[b][j].key
  }

  ghost predicate RunsOk(runs: seq<seq<Entry>>) {
    && (forall i :: 0 <= i < |runs| ==> Sorted(runs[i]))
    && DistinctKeys(runs)
  }

  ghost predicate AllOnFirst(runs: seq<seq<Entry>>, pos: seq<nat>, lo: Low<IKey>) {
    |pos| == |runs| && forall i :: 0 <= i < |runs| ==> OnFirstOf(runs[i], pos[i], lo)
  }

  ghost predicate AllOnLast(runs: seq<seq<Entry>>, pos: seq<nat>, hi: High) {
    |pos| == |runs| && forall i :: 0 <= i < |runs| ==> OnLastOf(runs[i], pos[i], hi)
  }

  ghost predicate InRuns(runs: seq<seq<Entry>>, e: Entry) {
    exists i :: 0 <= i < |runs| && e in runs[i]
  }

  /** e is the first entry of all children in the range. */
  ghost predicate IsFirst(runs: seq<seq<Entry>>, lo: Low<IKey>, e: Entry) {
    && InRuns(runs, e) && InLow(lo, e.key)
    && forall i, j :: 0 <= i < |runs| && 0 <= j < |runs[i]| && InLow(lo, runs[i][j].key) ==> !Before(runs[i][j].key, e.key)
  }

  ghost predicate IsLast(runs: seq<seq<Entry>>, hi: High, e: Entry) {
    && InRuns(runs, e) && InHigh(e.key, hi)
    && forall i, j :: 0 <= i < |runs| && 0 <= j < |runs[i]| && InHigh(runs[i][j].key, hi) ==> !Before(e.key, runs[i][j].key)
  }

  ghost predicate NoneIn(runs: seq<seq<Entry>>, lo: Low<IKey>, hi: High) {
    forall i, j :: 0 <= i < |runs| && 0 <= j < |runs[i]| ==> !(InLow(lo, runs[i][j].key) && InHigh(runs[i][j].key, hi))
  }

  predicate ChildValid(runs: seq<seq<Entry>>, pos: seq<nat>, i: nat)
    requires i < |runs| == |pos|
  {
    pos[i] < |runs[i]|
  }

  /** c is the valid child with the least key. */
  ghost predicate IsSmallest(runs: seq<seq<Entry>>, pos: seq<nat>, c: Option<nat>)
    requires |pos| == |runs|
  {
    match c
    case None => forall i :: 0 <= i < |runs| ==> !ChildValid(runs, pos, i)
    case Some(s) =>
      && s < |runs| && ChildValid(runs, pos, s)
      && forall i :: 0 <= i < |runs| && ChildValid(runs, pos, i) ==> !Before(runs[i][pos[i]].key, runs[s][pos[s]].key)
  }

  ghost predicate IsLargest(runs: seq<seq<Entry>>, pos: seq<nat>, c: Option<nat>)
    requires |pos| == |runs|
  {
    match c
    case None => forall i :: 0 <= i < |runs| ==> !ChildValid(runs, pos, i)
    case Some(s) =>
      && s < |runs| && ChildValid(runs, pos, s)
      && forall i :: 0 <= i < |runs| && ChildValid(runs, pos, i) ==> !Before(runs[s][pos[s]].key, runs[i][pos[i]].key)
  }

  /** The smallest of the children's first entries is the first entry of all. */
  lemma SmallestIsFirst(runs: seq<seq<Entry>>, pos: seq<nat>, lo: Low<IKey>, c: Option<nat>)
    requires RunsOk(runs) && AllOnFirst(runs, pos, lo) && IsSmallest(runs, pos, c)
    ensures c.Some? ==> IsFirst(runs, lo, runs[c.value][pos[c.value]])
    ensures c.None? ==> NoneIn(runs, lo, End)
  {
    if c.Some? {
      var e := runs[c.value][pos[c.value]];
      assert e in runs[c.value];
      forall i, j | 0 <= i < |runs| && 0 <= j < |runs[i]| && InLow(lo, runs[i][j].key)
        ensures !Before(runs[i][j].key, e.key)
      {
        assert ChildValid(runs, pos, i);
        assert pos[i] == j || Before(runs[i][pos[i]].key, runs[i][j].key);
      }
    } else {
      forall i, j | 0 <= i < |runs| && 0 <= j < |runs[i]|
        ensures !InLow(lo, runs[i][j].key)
      {
        assert !ChildValid(runs, pos, i);
      }
    }
  }

  lemma LargestIsLast(runs: seq<seq<Entry>>, pos: seq<nat>, hi: High, c: Option<nat>)
    requires RunsOk(runs) && AllOnLast(runs, pos, hi) && IsLargest(runs, pos, c)
    ensures c.Some? ==> IsLast(runs, hi, runs[c.value][pos[c.value]])
    ensures c.None? ==> NoneIn(runs, Start, hi)
  {
    if c.Some? {
      var e := runs[c.value][pos[c.value]];
      assert e in runs[c.value];
      forall i, j | 0 <= i < |runs| && 0 <= j < |runs[i]| && InHigh(runs[i][j].key, hi)
        ensures !Before(e.key, runs[i][j].key)
      {
        assert ChildValid(runs, pos, i);
        assert pos[i] == j || Before(runs[i][j].key, runs[i][pos[i]].key);
      }
    } else {
      forall i, j | 0 <= i < |runs| && 0 <= j < |runs[i]|
        ensures !InHigh(runs[i][j].key, hi)
      {
        assert !ChildValid(runs, pos, i);
      }
    }
  }

  /** Moving forward, every child stands on its first entry at or after the current one. */
  lemma FirstOfCurrent(runs: seq<seq<Entry>>, pos: seq<nat>, lo: Low<IKey>, c: nat)
    requires RunsOk(runs) && AllOnFirst(runs, pos, lo) && IsSmallest(runs, pos, Some(c))
    ensures AllOnFirst(runs, pos, From(runs[c][pos[c]].key))
  {
    var k := runs[c][pos[c]].key;
    forall i | 0 <= i < |runs|
      ensures OnFirstOf(runs[i], pos[i], From(k))
    {
      forall j | pos[i] <= j < |runs[i]|
        ensures !Before(runs[i][j].key, k)
      {
        assert ChildValid(runs, pos, i);
        assert pos[i] == j || Before(runs[i][pos[i]].key, runs[i][j].key);
      }
      forall j | 0 <= j < pos[i]
        ensures Before(runs[i][j].key, k)
      {
        BeforeRange(lo, runs[i][j].key, k);
      }
    }
  }

  lemma BeforeRange(lo: Low<IKey>, a: IKey, b: IKey)
    requires !InLow(lo, a) && InLow(lo, b)
    ensures Before(a, b)
  {
  }

  lemma AfterRange(hi: High, a: IKey, b: IKey)
    requires InHigh(a, hi) && !InHigh(b, hi)
    ensures Before(a, b)
  {
  }

  /** Moving backward, every other child stands on its last entry before the current one. */
  lemma LastOfCurrent(runs: seq<seq<Entry>>, pos: seq<nat>, hi: High, c: nat, i: nat)
    requires RunsOk(runs) && AllOnLast(runs, pos, hi) && IsLargest(runs, pos, Some(c))
    requires i < |runs| && i != c
    ensures OnLastOf(runs[i], pos[i], Below(runs[c][pos[c]].key))
  {
    var k := runs[c][pos[c]].key;
    if ChildValid(runs, pos, i) {
      assert runs[i][pos[i]].key != k;
      forall j | pos[i] < j < |runs[i]|
        ensures !Before(runs[i][j].key, k)
      {
        AfterRange(hi, k, runs[i][j].key);
      }
    } else {
      forall j | 0 <= j < |runs[i]|
        ensures !Before(runs[i][j].key, k)
      {
        AfterRange(hi, k, runs[i][j].key);
      }
    }
  }

  class MergingIterator {
    const runs: seq<seq<Entry>>   // what each child iterates over
    var pos: seq<nat>             // where each child stands
    var current: Option<nat>      // the child whose entry is shown
    var direction: Direction

    ghost predicate Valid()
      reads this
    {
      && RunsOk(runs)
      && |pos| == |runs|
      && (forall i :: 0 <= i < |runs| ==> pos[i] <= |runs[i]|)
      && (current.Some? ==> current.value < |runs| && ChildValid(runs, pos, current.value))
      && (current.Some? && direction == Forward ==> AllOnFirst(runs, pos, From(Key())))
      && (current.Some? && direction == Reverse ==>
            forall i :: 0 <= i < |runs| && i != current.value ==> OnLastOf(runs[i], pos[i], Below(Key())))
    }

    constructor (runs: seq<seq<Entry>>)
      requires RunsOk(runs)
      ensures Valid() && current == None && this.runs == runs
    {
      this.runs := runs;
      this.pos := seq(|runs|, i requires 0 <= i < |runs| => |runs[i]|);
      this.current := None;
      this.direction := Forward;
    }

    function Current(): Entry
      requires |pos| == |runs| && current.Some? && current.value < |runs| && ChildValid(runs, pos, current.value)
      reads this
    {
      runs[current.value][pos[current.value]]
    }

    function Key(): IKey
      requires |pos| == |runs| && current.Some? && current.value < |runs| && ChildValid(runs, pos, current.value)
      reads this
    {
      Current().key
    }

    /** On the first entry of the range over all children, or there is none. */
    ghost predicate OnFirst(lo: Low<IKey>)
      requires Valid()
      reads this
    {
      && (current.Some? ==> IsFirst(runs, lo, Current()))
      && (current.None? ==> NoneIn(runs, lo, End))
    }

    ghost predicate OnLast(hi: High)
      requires Valid()
      reads this
    {
      && (current.Some? ==> IsLast(runs, hi, Current()))
      && (current.None? ==> NoneIn(runs, Start, hi))
    }

    method FindSmallest(ghost lo: Low<IKey>)
      requires RunsOk(runs) && AllOnFirst(runs, pos, lo) && direction == Forward
      modifies this`current
      ensures Valid() && OnFirst(lo)
    {
      hide RunsOk, OnFirstOf, IsFirst, NoneIn;
      var smallest: Option<nat> := None;
      for i := 0 to |runs|
        invariant smallest.None? ==> forall j :: 0 <= j < i ==> !ChildValid(runs, pos, j)
        invariant smallest.Some? ==> smallest.value < i && ChildValid(runs, pos, smallest.value)
        invariant smallest.Some? ==> forall j :: 0 <= j < i && ChildValid(runs, pos, j) ==>
          !Before(runs[j][pos[j]].key, runs[smallest.value][pos[smallest.value]].key)
      {
        if pos[i] < |runs[i]| {
          if smallest == None {
            smallest := Some(i);
          } else if Before(runs[i][pos[i]].key, runs[smallest.value][pos[smallest.value]].key) {
            smallest := Some(i);
          }
        }
      }
      SmallestIsFirst(runs, pos, lo, smallest);
      if smallest.Some? {
        FirstOfCurrent(runs, pos, lo, smallest.value);
      }
      PositionsInRange(runs, pos, lo);
      current := smallest;
    }

    method FindLargest(ghost hi: High)
      requires RunsOk(runs) && AllOnLast(runs, pos, hi) && direction == Reverse
      modifies this`current
      ensures Valid() && OnLast(hi)
    {
      hide RunsOk, OnLastOf, IsLast, NoneIn;
      var largest: Option<nat> := None;
      var i := |runs|;
      while i > 0
        invariant 0 <= i <= |runs|
        invariant largest.None? ==> forall j :: i <= j < |runs| ==> !ChildValid(runs, pos, j)
        invariant largest.Some? ==> i <= largest.value < |runs| && ChildValid(runs, pos, largest.value)
        invariant largest.Some? ==> forall j :: i <= j < |runs| && ChildValid(runs, pos, j) ==>
          !Before(runs[largest.value][pos[largest.value]].key, runs[j][pos[j]].key)
      {
        i := i - 1;
        if pos[i] < |runs[i]| {
          if largest == None {
            largest := Some(i);
          } else if Before(runs[largest.value][pos[largest.value]].key, runs[i][pos[i]].key) {
            largest := Some(i);
          }
        }
      }
      LargestIsLast(runs, pos, hi, largest);
      if largest.Some? {
        forall j | 0 <= j < |runs| && j != largest.value
          ensures OnLastOf(runs[j], pos[j], Below(runs[largest.value][pos[largest.value]].key))
        {
          LastOfCurrent(runs, pos, hi, largest.value, j);
        }
      }
      PositionsInRangeLast(runs, pos, hi);
      current := largest;
    }

    method SeekToFirst()
      requires Valid()
      modifies this
      ensures Valid() && OnFirst(Start)
    {
      for i := 0 to |runs|
        invariant |pos| == |runs| && RunsOk(runs)
        invariant forall j :: 0 <= j < i ==> OnFirstOf(runs[j], pos[j], Start)
      {
        pos := pos[i := 0];
      }
      direction := Forward;
      FindSmallest(Start);
    }

    method SeekToLast()
      requires Valid()
      modifies this
      ensures Valid() && OnLast(End)
    {
      for i := 0 to |runs|
        invariant |pos| == |runs| && RunsOk(runs)
        invariant forall j :: 0 <= j < i ==> OnLastOf(runs[j], pos[j], End)
      {
        pos := pos[i := LastPos(runs[i])];
      }
      direction := Reverse;
      FindLargest(End);
    }

    method Seek(target: IKey)
      requires Valid()
      modifies this
      ensures Valid() && OnFirst(From(target))
    {
      hide OnFirstOf, Sorted;
      for i := 0 to |runs|
        invariant |pos| == |runs| && RunsOk(runs)
        invariant forall j :: 0 <= j < i ==> OnFirstOf(runs[j], pos[j], From(target))
      {
        SeekIsFirstOf(runs[i], target);
        pos := pos[i := LowerBound(runs[i], target)];
      }
      direction := Forward;
      FindSmallest(From(target));
    }

    /** Put every child but the current one behind the current key. */
    method ChildrenAfterCurrent()
      requires Valid() && current.Some? && direction == Reverse
      modifies this`pos
      ensures |pos| == |runs| && pos[current.value] == old(pos[current.value])
      ensures forall i :: 0 <= i < |runs| && i != current.value ==> OnFirstOf(runs[i], pos[i], After(old(Key())))
    {
      hide OnFirstOf, OnLastOf, Sorted, DistinctKeys;
      ghost var k := Key();
      for i := 0 to |runs|
        invariant |pos| == |runs| && pos[current.value] == old(pos[current.value])
        invariant forall j :: 0 <= j < i && j != current.value ==> OnFirstOf(runs[j], pos[j], After(k))
      {
        if i != current.value {
          SeekAfterIsFirstOf(runs[i], Key());
          pos := pos[i := LowerBound(runs[i], Key())];
          if pos[i] < |runs[i]| && Key() == runs[i][pos[i]].key {
            pos := pos[i := pos[i] + 1];
          }
        }
      }
    }

    /** Put every child but the current one in front of the current key. */
    method ChildrenBeforeCurrent()
      requires Valid() && current.Some? && direction == Forward
      modifies this`pos
      ensures |pos| == |runs| && pos[current.value] == old(pos[current.value])
      ensures forall i :: 0 <= i < |runs| && i != current.value ==> OnLastOf(runs[i], pos[i], Below(old(Key())))
    {
      hide OnFirstOf, OnLastOf, Sorted, DistinctKeys;
      ghost var k := Key();
      for i := 0 to |runs|
        invariant |pos| == |runs| && pos[current.value] == old(pos[current.value])
        invariant forall j :: 0 <= j < i && j != current.value ==> OnLastOf(runs[j], pos[j], Below(k))
      {
        if i != current.value {
          SeekBeforeIsLastOf(runs[i], Key());
          pos := pos[i := LowerBound(runs[i], Key())];
          if pos[i] < |runs[i]| {
            pos := pos[i := PrevPos(runs[i], pos[i])];
          } else {
            pos := pos[i := LastPos(runs[i])];
          }
        }
      }
    }

    method Next()
      requires Valid() && current.Some?
      modifies this
      ensures Valid() && OnFirst(After(old(Key())))
    {
      hide OnFirstOf, OnLastOf, Sorted, DistinctKeys;
      ghost var k := Key();
      var c := current.value;
      if direction != Forward {
        ChildrenAfterCurrent();
        direction := Forward;
      } else {
        forall i | 0 <= i < |runs| && i != c
          ensures OnFirstOf(runs[i], pos[i], After(k))
        {
          OthersAreAfter(runs, pos, c, i);
        }
      }
      StepAfterIsFirstOf(runs[c], pos[c]);
      pos := pos[c := pos[c] + 1];
      FindSmallest(After(k));
    }

    method Prev()
      requires Valid() && current.Some?
      modifies this
      ensures Valid() && OnLast(Below(old(Key())))
    {
      hide OnFirstOf, OnLastOf, Sorted, DistinctKeys;
      ghost var k := Key();
      var c := current.value;
      if direction != Reverse {
        ChildrenBeforeCurrent();
        direction := Reverse;
      }
      StepBeforeIsLastOf(runs[c], pos[c]);
      pos := pos[c := PrevPos(runs[c], pos[c])];
      FindLargest(Below(k));
    }
  }

  /** Keys are distinct, so a child other than the current one is already past it. */
  lemma OthersAreAfter(runs: seq<seq<Entry>>, pos: seq<nat>, c: nat, i: nat)
    requires RunsOk(runs) && |pos| == |runs| && c < |runs| && ChildValid(runs, pos, c)
    requires AllOnFirst(runs, pos, From(runs[c][pos[c]].key)) && i < |runs| && i != c
    ensures OnFirstOf(runs[i], pos[i], After(runs[c][pos[c]].key))
  {
    var k := runs[c][pos[c]].key;
    assert OnFirstOf(runs[i], pos[i], From(k));
    forall j | pos[i] <= j < |runs[i]|
      ensures Before(k, runs[i][j].key)
    {
      assert runs[i][j].key != k;
    }
  }

  // ----- the sorted merge -----

  /** m lists the entries of all children in order. */
  ghost predicate IsMerge(runs: seq<seq<Entry>>, m: seq<Entry>) {
    Sorted(m) && forall e :: e in m <==> InRuns(runs, e)
  }

  /** Stepping through the children is stepping through their sorted merge. */
  lemma StepsThroughMerge(runs: seq<seq<Entry>>, m: seq<Entry>, p: nat, e: Entry)
    requires IsMerge(runs, m) && p < |m|
    ensures IsFirst(runs, After(m[p].key), e) ==> p + 1 < |m| && e == m[p + 1]
    ensures IsLast(runs, Below(m[p].key), e) ==> p > 0 && e == m[p - 1]
    ensures NoneIn(runs, After(m[p].key), End) ==> p + 1 == |m|
    ensures NoneIn(runs, Start, Below(m[p].key)) ==> p == 0
  {
    if IsFirst(runs, After(m[p].key), e) {
      FirstIsSuccessor(runs, m, p, e);
    }
    if IsLast(runs, Below(m[p].key), e) {
      LastIsPredecessor(runs, m, p, e);
    }
    if p + 1 < |m| {
      assert Before(m[p].key, m[p + 1].key) && m[p + 1] in m;
    }
    if p > 0 {
      assert Before(m[p - 1].key, m[p].key) && m[p - 1] in m;
    }
  }

  lemma FirstIsSuccessor(runs: seq<seq<Entry>>, m: seq<Entry>, p: nat, e: Entry)
    requires IsMerge(runs, m) && p < |m| && IsFirst(runs, After(m[p].key), e)
    ensures p + 1 < |m| && e == m[p + 1]
  {
    assert e in m;
    var q :| 0 <= q < |m| && m[q] == e;
    assert p < q;
    assert m[p + 1] in m && Before(m[p].key, m[p + 1].key);
  }

  lemma LastIsPredecessor(runs: seq<seq<Entry>>, m: seq<Entry>, p: nat, e: Entry)
    requires IsMerge(runs, m) && p < |m| && IsLast(runs, Below(m[p].key), e)
    ensures p > 0 && e == m[p - 1]
  {
    assert e in m;
    var q :| 0 <= q < |m| && m[q] == e;
    assert q < p;
    assert m[p - 1] in m && Before(m[p - 1].key, m[p].key);
  }

  lemma PositionsInRange(runs: seq<seq<Entry>>, pos: seq<nat>, lo: Low<IKey>)
    requires AllOnFirst(runs, pos, lo)
    ensures forall i :: 0 <= i < |runs| ==> pos[i] <= |runs[i]|
  {
  }

  lemma PositionsInRangeLast(runs: seq<seq<Entry>>, pos: seq<nat>, hi: High)
    requires AllOnLast(runs, pos, hi)
    ensures forall i :: 0 <= i < |runs| ==> pos[i] <= |runs[i]|
  {
  }
}
