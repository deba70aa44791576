/** TwoLevelIterator: an index of blocks walked as the concatenation of the
    blocks, empty ones included. */
module TwoLevelIter {
  import opened InternalKeys

  function Concat(blocks: seq<seq<Entry>>): seq<Entry> {
    if blocks == [] then [] else blocks[0] + Concat(blocks[1..])
  }

  /** Where block i begins in the concatenation. */
  function Offset(blocks: seq<seq<Entry>>, i: nat): nat
    requires i <= |blocks|
  {
    if i == 0 then 0 else |blocks[0]| + Offset(blocks[1..], i - 1)
  }

  lemma {:induction false} OffsetStep(blocks: seq<seq<Entry>>, i: nat)
    requires i < |blocks|
    ensures Offset(blocks, i + 1) == Offset(blocks, i) + |blocks[i]|
  {
    if i > 0 {
      OffsetStep(blocks[1..], i - 1);
    }
  }

  lemma {:induction false} OffsetOfEnd(blocks: seq<seq<Entry>>)
    ensures Offset(blocks, |blocks|) == |Concat(blocks)|
  {
    if blocks != [] {
      OffsetOfEnd(blocks[1..]);
    }
  }

  lemma {:induction false} OffsetMonotone(blocks: seq<seq<Entry>>, i: nat, j: nat)
    requires i <= j <= |blocks|
    ensures Offset(blocks, i) <= Offset(blocks, j)
    decreases j
  {
    if i < j {
      OffsetMonotone(blocks, i, j - 1);
      OffsetStep(blocks, j - 1);
    }
  }

  lemma {:induction false} ConcatAt(blocks: seq<seq<Entry>>, i: nat, p: nat)
    requires i < |blocks| && p < |blocks[i]|
    ensures Offset(blocks, i) + p < |Concat(blocks)|
    ensures Concat(blocks)[Offset(blocks, i) + p] == blocks[i][p]
  {
    if i > 0 {
      ConcatAt(blocks[1..], i - 1, p);
    }
  }

  /** Every position of the concatenation lies in some block. */
  lemma {:induction false} Locate(blocks: seq<seq<Entry>>, q: nat) returns (i: nat, p: nat)
    requires q < |Concat(blocks)|
    ensures i < |blocks| && p < |blocks[i]| && q == Offset(blocks, i) + p
  {
    if q < |blocks[0]| {
      i, p := 0, q;
    } else {
      i, p := Locate(blocks[1..], q - |blocks[0]|);
      i := i + 1;
    }
  }

  // ----- the index -----

  /** Index key i is at or after block i and before every later block. */
  ghost predicate Separates(blocks: seq<seq<Entry>>, keys: seq<IKey>) {
    && |keys| == |blocks|
    && (forall i, j :: 0 <= i < j < |keys| ==> Before(keys[i], keys[j]))
    && (forall i, p :: 0 <= i < |blocks| && 0 <= p < |blocks[i]| ==> !Before(keys[i], blocks[i][p].key))
    && (forall i, j, p :: 0 <= i < j < |blocks| && 0 <= p < |blocks[j]| ==> Before(keys[i], blocks[j][p].key))
  }

  /** The first index key at or after the target, or |keys|. */
  function SeekIndex(keys: seq<IKey>, target: IKey): (r: nat)
    ensures r <= |keys|
    ensures forall i :: 0 <= i < r ==> Before(keys[i], target)
    ensures r < |keys| ==> !Before(keys[r], target)
  {
    if keys == [] then 0
    else if Before(keys[0], target) then
      var r := SeekIndex(keys[1..], target);
      assert forall i :: 0 < i < 1 + r ==> keys[i] == keys[1..][i - 1];
      1 + r
    else 0
  }

  /** Seeking in the index, then in the block found, seeks in the concatenation. */
  lemma SeekThroughIndex(blocks: seq<seq<Entry>>, keys: seq<IKey>, target: IKey)
    requires Separates(blocks, keys) && Sorted(Concat(blocks))
    ensures
      var i := SeekIndex(keys, target);
      LowerBound(Concat(blocks), target) ==
        if i < |blocks| then Offset(blocks, i) + LowerBound(blocks[i], target) else |Concat(blocks)|
  {
    var C := Concat(blocks);
    var i := SeekIndex(keys, target);
    OffsetOfEnd(blocks);
    var want := if i < |blocks| then Offset(blocks, i) + LowerBound(blocks[i], target) else |C|;
    if i < |blocks| {
      OffsetStep(blocks, i);
      OffsetMonotone(blocks, i + 1, |blocks|);
    }
    forall q | 0 <= q < want
      ensures Before(C[q].key, target)
    {
      BeforeWanted(blocks, keys, target, q);
    }
    forall q | want <= q < |C|
      ensures !Before(C[q].key, target)
    {
      NotBeforeWanted(blocks, keys, target, q);
    }
    LowerBoundIs(C, target, want);
  }

  lemma LowerBoundIs(t: seq<Entry>, target: IKey, want: nat)
    requires want <= |t|
    requires forall q :: 0 <= q < want ==> Before(t[q].key, target)
    requires forall q :: want <= q < |t| ==> !Before(t[q].key, target)
    ensures LowerBound(t, target) == want
  {
    if want < |t| {
      assert !Before(t[want].key, target);
    }
  }

  lemma BeforeWanted(blocks: seq<seq<Entry>>, keys: seq<IKey>, target: IKey, q: nat)
    requires Separates(blocks, keys) && q < |Concat(blocks)|
    requires
      var i := SeekIndex(keys, target);
      i < |blocks| ==> q < Offset(blocks, i) + LowerBound(blocks[i], target)
    ensures Before(Concat(blocks)[q].key, target)
  {
    var i := SeekIndex(keys, target);
    var j, p := Locate(blocks, q);
    ConcatAt(blocks, j, p);
    if j < i {
      assert Before(keys[j], target) && !Before(keys[j], blocks[j][p].key);
    } else {
      OffsetMonotone(blocks, i, j);
      if i < j {
        OffsetStep(blocks, i);
        OffsetMonotone(blocks, i + 1, j);
      }
    }
  }

  lemma NotBeforeWanted(blocks: seq<seq<Entry>>, keys: seq<IKey>, target: IKey, q: nat)
    requires Separates(blocks, keys) && q < |Concat(blocks)| && Sorted(Concat(blocks))
    requires
      var i := SeekIndex(keys, target);
      i < |blocks| && Offset(blocks, i) + LowerBound(blocks[i], target) <= q
    ensures !Before(Concat(blocks)[q].key, target)
  {
    var i := SeekIndex(keys, target);
    var j, p := Locate(blocks, q);
    ConcatAt(blocks, j, p);
    if j < i {
      OffsetStep(blocks, j);
      OffsetMonotone(blocks, j + 1, i);
      assert false;
    } else if i == j {
      var r := LowerBound(blocks[i], target);
      ConcatAt(blocks, i, r);
      assert r == p || Before(Concat(blocks)[Offset(blocks, i) + r].key, Concat(blocks)[q].key);
    } else {
      assert Before(keys[i], blocks[j][p].key);
    }
  }

  class TwoLevelIterator {
    const keys: seq<IKey>
    const blocks: seq<seq<Entry>>
    var index: nat           // position of the index iterator; |blocks| means invalid
    var data: Option<nat>    // position in the block the data iterator reads, if there is one
    var handle: nat          // the block the data iterator was made for

    ghost predicate Base()
      reads this
    {
      && Separates(blocks, keys) && Sorted(Concat(blocks))
      && index <= |blocks|
      && (data.Some? ==> handle < |blocks| && data.value <= |blocks[handle]|)
    }

    /** Between operations the data iterator is absent or on an entry. */
    ghost predicate Valid()
      reads this
    {
      && Base()
      && (data.Some? ==> handle == index < |blocks| && data.value < |blocks[index]|)
    }

    /** The position in the concatenation. */
    ghost function Position(): nat
      requires Valid()
      reads this
    {
      if data.Some? then Offset(blocks, index) + data.value else |Concat(blocks)|
    }

    /** key() and value() are those of the concatenation at Position(). */
    lemma ReadsPosition()
      requires Valid() && data.Some?
      ensures Position() < |Concat(blocks)| && blocks[index][data.value] == Concat(blocks)[Position()]
    {
      ConcatAt(blocks, index, data.value);
    }

    constructor (blocks: seq<seq<Entry>>, keys: seq<IKey>)
      requires Separates(blocks, keys) && Sorted(Concat(blocks))
      ensures Valid() && this.blocks == blocks && this.keys == keys && data == None
    {
      this.blocks := blocks;
      this.keys := keys;
      this.index := |blocks|;
      this.data := None;
      this.handle := 0;
    }

    method InitDataBlock()
      requires Base()
      modifies this`data, this`handle
      ensures Base()
      ensures index < |blocks| ==> data.Some? && handle == index
      ensures index == |blocks| ==> data == None
    {
      if index >= |blocks| {
        data := None;
      } else if data.Some? && handle == index {
        // The data iterator already reads this block.
      } else {
        data, handle := Some(|blocks[index]|), index;
      }
    }

    predicate DataValid()
      reads this
      requires data.Some? ==> handle < |blocks|
    {
      data.Some? && data.value < |blocks[handle]|
    }

    /** The data iterator reads the current block. */
    ghost predicate InStep()
      reads this
    {
      Base() && (data.Some? ==> handle == index < |blocks|) && (data.None? ==> index == |blocks|)
    }

    method SkipEmptyDataBlocksForward()
      requires InStep()
      modifies this
      ensures Valid()
      ensures Position() == if old(data).Some? then Offset(blocks, old(index)) + old(data).value else |Concat(blocks)|
    {
      hide Separates, Sorted, Concat, Offset;
      ghost var want := if data.Some? then Offset(blocks, index) + data.value else |Concat(blocks)|;
      while !DataValid()
        invariant InStep()
        invariant want == if data.Some? then Offset(blocks, index) + data.value else |Concat(blocks)|
        decreases |blocks| - index, data.Some?
      {
        if index >= |blocks| {
          data := None;
          return;
        }
        OffsetStep(blocks, index);
        OffsetOfEnd(blocks);
        index := index + 1;
        InitDataBlock();
        if data.Some? {
          data := Some(0);
        }
      }
    }

    /** Ends just before the end of the current block's predecessors: at want - 1. */
    method SkipEmptyDataBlocksBackward(ghost want: nat)
      requires InStep()
      requires DataValid() ==> want == Offset(blocks, index) + data.value + 1
      requires data.Some? && !DataValid() ==> want == Offset(blocks, index)
      requires data.None? ==> want == 0
      modifies this
      ensures Valid()
      ensures Position() == if want == 0 then |Concat(blocks)| else want - 1
    {
      hide Separates, Sorted, Concat, Offset;
      OffsetZero(blocks);
      while !DataValid()
        invariant InStep()
        invariant DataValid() ==> want == Offset(blocks, index) + data.value + 1
        invariant data.Some? && !DataValid() ==> want == Offset(blocks, index)
        invariant data.None? ==> want == 0
        decreases if data.Some? then index + 1 else 0, data.Some?
      {
        if index >= |blocks| {
          data := None;
          return;
        }
        if index > 0 {
          OffsetStep(blocks, index - 1);
        }
        index := if index == 0 then |blocks| else index - 1;
        InitDataBlock();
        if data.Some? {
          data := Some(if blocks[index] == [] then 0 else |blocks[index]| - 1);
        }
      }
    }

    method Seek(target: IKey)
      requires Valid()
      modifies this
      ensures Valid() && Position() == LowerBound(Concat(blocks), target)
    {
      hide Separates, Sorted, Concat, Offset;
      index := SeekIndex(keys, target);
      SameLength(blocks, keys);
      SeekThroughIndex(blocks, keys, target);
      InitDataBlock();
      if data.Some? {
        data := Some(LowerBound(blocks[index], target));
      }
      SkipEmptyDataBlocksForward();
    }

    method SeekToFirst()
      requires Valid()
      modifies this
      ensures Valid() && Position() == 0
    {
      hide Separates, Sorted;
      index := 0;
      InitDataBlock();
      if data.Some? {
        data := Some(0);
      }
      SkipEmptyDataBlocksForward();
    }

    method SeekToLast()
      requires Valid()
      modifies this
      ensures Valid() && Position() == if Concat(blocks) == [] then 0 else |Concat(blocks)| - 1
    {
      hide Separates, Sorted, Offset;
      OffsetOfEnd(blocks);
      index := if blocks == [] then 0 else |blocks| - 1;
      InitDataBlock();
      if data.Some? {
        data := Some(if blocks[index] == [] then 0 else |blocks[index]| - 1);
        OffsetStep(blocks, index);
      }
      SkipEmptyDataBlocksBackward(|Concat(blocks)|);
    }

    method Next()
      requires Valid() && data.Some?
      modifies this
      ensures Valid() && Position() == old(Position()) + 1
    {
      data := Some(data.value + 1);
      SkipEmptyDataBlocksForward();
    }

    method Prev()
      requires Valid() && data.Some?
      modifies this
      ensures Valid() && Position() == if old(Position()) == 0 then |Concat(blocks)| else old(Position()) - 1
    {
      ghost var want := Position();
      data := Some(if data.value == 0 then |blocks[index]| else data.value - 1);
      SkipEmptyDataBlocksBackward(want);
    }
  }

  lemma OffsetZero(blocks: seq<seq<Entry>>)
    ensures Offset(blocks, 0) == 0
  {
  }

  lemma SameLength(blocks: seq<seq<Entry>>, keys: seq<IKey>)
    requires Separates(blocks, keys)
    ensures |keys| == |blocks|
  {
  }
}
