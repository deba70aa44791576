/** Block::Iter: a cursor over the pairs of a finished block. */
module BlockIter {
  import opened Coding
  import opened BlockFormat

  ghost predicate Transitive(lt: (Bytes, Bytes) -> bool) {
    forall a, b, c :: lt(a, b) && lt(b, c) ==> lt(a, c)
  }

  ghost predicate Increasing(lt: (Bytes, Bytes) -> bool, pairs: seq<Pair>) {
    forall i, j :: 0 <= i < j < |pairs| ==> lt(pairs[i].key, pairs[j].key)
  }

  /** k is the index of the first key not before target. */
  ghost predicate FirstNotBefore(lt: (Bytes, Bytes) -> bool, pairs: seq<Pair>, target: Bytes, k: nat) {
    && k <= |pairs|
    && (forall i :: 0 <= i < k ==> lt(pairs[i].key, target))
    && (k < |pairs| ==> !lt(pairs[k].key, target))
  }

  /** GetRestartPoint. */
  function RestartPoint(block: Bytes, offset: nat, index: nat): nat
    requires offset + 4 * index + 4 <= |block|
  {
    GetFixed32(block[offset + 4 * index..])
  }

  lemma RestartPointIs(block: Bytes, data: Bytes, l: Layout, index: nat)
    requires BlockOk(block, data, l) && index < |l.restarts|
    ensures |data| + 4 * index + 4 <= |block|
    ensures RestartPoint(block, |data|, index) == l.offs[l.restarts[index]]
  {
    hide EntryAt, PutFixed32, GetFixed32;
    var xs, tail := RestartOffsets(l), PutFixed32(|l.restarts|);
    assert block == data + (FixedArray(xs) + tail);
    assert block[|data| + 4 * index..] == (FixedArray(xs) + tail)[4 * index..];
    FixedArrayAt(xs, index, tail);
  }

  /** Block::Block: the offset of the restart array, or None for a bad block. */
  function RestartOffset(block: Bytes): Parsed<nat> {
    if |block| < 4 then Malformed
    else
      var num := GetFixed32(block[|block| - 4..]);
      if num > (|block| - 4) / 4 then Malformed else Got(|block| - (1 + num) * 4, block)
  }

  lemma OpensBuilt(block: Bytes, data: Bytes, l: Layout)
    requires BlockOk(block, data, l)
    ensures |block| >= 4 && GetFixed32(block[|block| - 4..]) == |l.restarts|
    ensures RestartOffset(block) == Got(|data|, block)
  {
    hide Entries, PutFixed32, GetFixed32, Restarts;
    var tail := PutFixed32(|l.restarts|);
    assert block[|block| - 4..] == tail + [];
    Fixed32RoundTrip(|l.restarts|, []);
  }

  ghost predicate Decodes(r: Parsed<Lengths>, p: Pair, shared: nat, limit: nat, end: nat) {
    && r.Got? && shared <= |p.key| && r.value == Lengths(shared, |p.key| - shared, |p.value|)
    && |r.rest| <= limit && limit - |r.rest| + r.value.nonShared + r.value.value == end
    && |r.rest| >= r.value.nonShared
    && r.rest[..r.value.nonShared] == p.key[shared..]
  }

  /** What the bytes of a finished block say at the offset of an entry. */
  lemma BuiltEntry(block: Bytes, data: Bytes, l: Layout, pos: nat)
    requires BlockOk(block, data, l) && pos < |l.pairs|
    ensures Shape(l) && l.offs[pos] < l.offs[pos + 1] <= |data| <= |block| && |data| < TWO32
    ensures var r := DecodeEntry(block[l.offs[pos]..|data|]);
            && Decodes(r, l.pairs[pos], l.shared[pos], |data|, l.offs[pos + 1])
            && block[l.offs[pos + 1] - |l.pairs[pos].value|..l.offs[pos + 1]] == l.pairs[pos].value
  {
    hide Restarts, FixedArray, DecodeEntry, EntryAt;
    ReadEntry(data, l, pos);
    assert block[l.offs[pos]..|data|] == data[l.offs[pos]..];
    var r := DecodeEntry(data[l.offs[pos]..]);
    var ns, n := r.value.nonShared, |l.pairs[pos].value|;
    SliceOfTail(data, r.rest, ns, n);
    assert block[l.offs[pos + 1] - n..l.offs[pos + 1]] == data[l.offs[pos + 1] - n..l.offs[pos + 1]];
  }

  lemma SliceOfTail(data: Bytes, tail: Bytes, i: nat, n: nat)
    requires |tail| <= |data| && tail == data[|data| - |tail|..] && i + n <= |tail|
    ensures tail[i..i + n] == data[|data| - |tail| + i..|data| - |tail| + i + n]
  {
  }

  /** Entry pos builds on the key before it. */
  lemma Continues(block: Bytes, data: Bytes, l: Layout, pos: nat)
    requires BlockOk(block, data, l) && pos + 1 < |l.pairs|
    ensures Shape(l) && Agree(l.pairs[pos].key, l.pairs[pos + 1].key, l.shared[pos + 1])
  {
    hide Restarts, FixedArray, EncodeEntry;
    assert EntryAt(data, l, pos + 1);
  }

  class Iter {
    const lt: (Bytes, Bytes) -> bool
    const block: Bytes
    const restarts: nat       // offset of the restart array
    const numRestarts: nat
    var current: nat
    var restartIndex: nat
    var key: Bytes
    var valueStart: nat
    var valueLength: nat
    var corrupt: bool
    ghost const data: Bytes
    ghost const l: Layout

    ghost predicate Setup() {
      BlockOk(block, data, l) && restarts == |data| && numRestarts == |l.restarts|
    }

    /** The iterator stands on pair pos; at the number of pairs it is not valid. */
    ghost predicate At(pos: nat)
      reads this
    {
      && Setup() && !corrupt && pos <= |l.pairs|
      && (pos == |l.pairs| ==> current == restarts)
      && (pos < |l.pairs| ==>
            && current == l.offs[pos] && key == l.pairs[pos].key
            && valueStart + valueLength == l.offs[pos + 1] <= |block|
            && block[valueStart..valueStart + valueLength] == l.pairs[pos].value
            && InRegion(pos))
    }

    /** The restart region of pos, or the one before when pos starts a region. */
    ghost predicate InRegion(pos: nat)
      reads this
      requires Setup()
    {
      && restartIndex < numRestarts && l.restarts[restartIndex] <= pos
      && (restartIndex + 1 < numRestarts ==> pos <= l.restarts[restartIndex + 1])
    }

    /** ParseNextKey would read pair pos. */
    ghost predicate Ready(pos: nat)
      reads this
    {
      && Setup() && !corrupt && pos <= |l.pairs|
      && valueStart + valueLength == l.offs[pos]
      && (pos < |l.pairs| ==>
            && Agree(key, l.pairs[pos].key, l.shared[pos])
            && restartIndex < numRestarts && l.restarts[restartIndex] <= pos)
    }

    constructor (lt: (Bytes, Bytes) -> bool, block: Bytes, ghost data: Bytes, ghost l: Layout)
      requires BlockOk(block, data, l)
      ensures At(|l.pairs|) && this.lt == lt && this.l == l
    {
      OpensBuilt(block, data, l);
      this.lt, this.block, this.data, this.l := lt, block, data, l;
      var offset := RestartOffset(block).value;
      var num := GetFixed32(block[|block| - 4..]);
      restarts, numRestarts := offset, num;
      current, restartIndex := offset, num;
      key, valueStart, valueLength, corrupt := [], 0, 0, false;
    }

    /** Valid(), key() and value() of the source. */
    method Read(ghost pos: nat) returns (valid: bool, k: Bytes, v: Bytes)
      requires At(pos)
      ensures valid == (pos < |l.pairs|)
      ensures valid ==> k == l.pairs[pos].key && v == l.pairs[pos].value
    {
      hide BlockOk;
      CurrentTells(pos);
      valid := current < restarts;
      k, v := [], [];
      if valid {
        k, v := key, block[valueStart..valueStart + valueLength];
      }
    }

    lemma CurrentTells(pos: nat)
      requires At(pos)
      ensures current < restarts <==> pos < |l.pairs|
    {
      hide EntryAt, Restarts, FixedArray;
      OffsetsOrdered(data, l, pos, |l.pairs|);
    }

    method SeekToRestartPoint(index: nat)
      requires Setup() && index < numRestarts && !corrupt
      modifies this
      ensures Ready(l.restarts[index]) && restartIndex == index
    {
      hide FixedArray, EntryAt;
      RestartPointIs(block, data, l, index);
      key := [];
      restartIndex := index;
      valueStart, valueLength := RestartPoint(block, restarts, index), 0;
    }

    /** Advances restartIndex to the last restart point before the current entry. */
    method AdvanceRegion(ghost pos: nat)
      requires Setup() && pos < |l.pairs| && current == l.offs[pos]
      requires restartIndex < numRestarts && l.restarts[restartIndex] <= pos
      modifies this`restartIndex
      ensures InRegion(pos)
    {
      hide FixedArray, EntryAt;
      while restartIndex + 1 < numRestarts && RestartBefore(restartIndex + 1, current)
        invariant restartIndex < numRestarts && l.restarts[restartIndex] <= pos
      {
        RestartBeforeIs(restartIndex + 1, pos);
        restartIndex := restartIndex + 1;
      }
      if restartIndex + 1 < numRestarts {
        RestartBeforeIs(restartIndex + 1, pos);
      }
    }

    predicate RestartBefore(index: nat, offset: nat)
      requires Setup() && index < numRestarts
    {
      RestartPointIs(block, data, l, index);
      RestartPoint(block, restarts, index) < offset
    }

    lemma RestartBeforeIs(index: nat, pos: nat)
      requires Setup() && index < numRestarts && pos < |l.pairs|
      ensures RestartBefore(index, l.offs[pos]) <==> l.restarts[index] < pos
    {
      hide FixedArray, EntryAt;
      RestartPointIs(block, data, l, index);
      OffsetsOrdered(data, l, l.restarts[index], pos);
    }

    method ParseNextKey(ghost pos: nat) returns (more: bool)
      requires Ready(pos)
      modifies this
      ensures At(pos) && more == (pos < |l.pairs|)
    {
      hide DecodeEntry, EntryAt, FixedArray, Restarts, RestartOffsets;
      OffsetsOrdered(data, l, pos, |l.pairs|);
      current := valueStart + valueLength;
      if current >= restarts {
        current, restartIndex := restarts, numRestarts;
        return false;
      }
      BuiltEntry(block, data, l, pos);
      var p := DecodeEntry(block[current..restarts]);
      assert p.Got? && |key| >= p.value.shared;
      key := key[..p.value.shared] + p.rest[..p.value.nonShared];
      valueStart, valueLength := restarts - |p.rest| + p.value.nonShared, p.value.value;
      AdvanceRegion(pos);
      more := true;
    }

    /** The entry after pos can be read next. */
    lemma ReadyNext(pos: nat)
      requires At(pos) && pos < |l.pairs|
      ensures Ready(pos + 1)
    {
      hide EntryAt, FixedArray, Restarts, RestartOffsets;
      if pos + 1 < |l.pairs| {
        Continues(block, data, l, pos);
      }
    }

    method Next(ghost pos: nat)
      requires At(pos) && pos < |l.pairs|
      modifies this
      ensures At(pos + 1)
    {
      hide At, Ready;
      ReadyNext(pos);
      var more := ParseNextKey(pos + 1);
    }

    method SeekToFirst()
      requires Setup() && !corrupt
      modifies this
      ensures At(0)
    {
      hide At, Ready, BlockOk;
      HasRestarts();
      SeekToRestartPoint(0);
      var more := ParseNextKey(0);
    }

    lemma HasRestarts()
      requires Setup()
      ensures numRestarts >= 1 && l.restarts[0] == 0
      ensures forall r :: 0 <= r < numRestarts ==> l.restarts[r] <= |l.pairs|
      ensures forall r :: 0 <= r < numRestarts && l.pairs != [] ==> l.restarts[r] < |l.pairs|
    {
      hide FixedArray, EntryAt, RestartOffsets;
    }

    /** NextEntryOffset() < l.offs[stop]. */
    lemma EndBefore(pos: nat, stop: nat)
      requires At(pos) && pos < |l.pairs| && stop <= |l.pairs|
      ensures valueStart + valueLength < l.offs[stop] <==> pos + 1 < stop
    {
      hide EntryAt, FixedArray, Restarts, RestartOffsets;
      OffsetsOrdered(data, l, pos + 1, stop);
    }

    /** Parses on from the entry `from` until the next one starts at `stop`. */
    method ScanTo(ghost from: nat, ghost stop: nat, limit: nat) returns (ghost pos: nat)
      requires Ready(from) && from < stop <= |l.pairs| && limit == l.offs[stop]
      modifies this
      ensures pos == stop - 1 && At(pos)
    {
      hide At, Ready, BlockOk;
      pos := from;
      var more := ParseNextKey(pos);
      EndBefore(pos, stop);
      while valueStart + valueLength < limit
        invariant pos < stop && At(pos)
        invariant valueStart + valueLength < limit <==> pos + 1 < stop
        decreases stop - pos
      {
        ReadyNext(pos);
        pos := pos + 1;
        more := ParseNextKey(pos);
        EndBefore(pos, stop);
      }
    }

    method SeekToLast()
      requires Setup() && !corrupt
      modifies this
      ensures At(if l.pairs == [] then 0 else |l.pairs| - 1)
    {
      hide At, Ready, BlockOk;
      HasRestarts();
      SeekToRestartPoint(numRestarts - 1);
      ghost var pos := l.restarts[numRestarts - 1];
      WholeLength();
      var more := ParseNextKey(pos);
      while more && valueStart + valueLength < restarts
        invariant At(pos) && pos <= |l.pairs| && more == (pos < |l.pairs|) && (l.pairs == [] ==> pos == 0)
        invariant l.pairs != [] ==> pos < |l.pairs|
        decreases |l.pairs| - pos
      {
        EndBefore(pos, |l.pairs|);
        ReadyNext(pos);
        pos := pos + 1;
        more := ParseNextKey(pos);
      }
      if more {
        EndBefore(pos, |l.pairs|);
      }
    }

    lemma WholeLength()
      requires Setup()
      ensures Shape(l) && restarts == l.offs[|l.pairs|]
    {
      hide FixedArray, EntryAt, RestartOffsets;
    }

    method Prev(ghost pos: nat)
      requires At(pos) && pos < |l.pairs|
      modifies this
      ensures At(if pos == 0 then |l.pairs| else pos - 1)
    {
      hide FixedArray, EntryAt, RestartOffsets, Ready;
      var original := current;
      while !RestartBefore(restartIndex, original)
        invariant Setup() && !corrupt && original == l.offs[pos] && restartIndex < numRestarts
        invariant l.restarts[restartIndex] <= pos
        decreases restartIndex
      {
        RestartBeforeIs(restartIndex, pos);
        if restartIndex == 0 {
          current, restartIndex := restarts, numRestarts;
          return;
        }
        restartIndex := restartIndex - 1;
      }
      RestartBeforeIs(restartIndex, pos);
      SeekToRestartPoint(restartIndex);
      ghost var last := ScanTo(l.restarts[restartIndex], pos, original);
    }

    /** The key stored at a restart point, read without the keys before it. */
    method RestartKey(index: nat) returns (k: Bytes)
      requires Setup() && index < numRestarts && l.pairs != []
      ensures l.restarts[index] < |l.pairs| && k == l.pairs[l.restarts[index]].key
    {
      hide DecodeEntry, FixedArray, EntryAt, RestartOffsets;
      RestartPointIs(block, data, l, index);
      var offset := RestartPoint(block, restarts, index);
      BuiltEntry(block, data, l, l.restarts[index]);
      var p := DecodeEntry(block[offset..restarts]);
      assert p.Got? && p.value.shared == 0;
      k := p.rest[..p.value.nonShared];
    }

    /** Binary search for the last restart point with a key before target. */
    method FindRegion(target: Bytes) returns (left: nat)
      requires Setup()
      ensures left < numRestarts
      ensures left > 0 ==> l.restarts[left] < |l.pairs| && lt(l.pairs[l.restarts[left]].key, target)
    {
      hide BlockOk;
      HasRestarts();
      left := 0;
      var right := numRestarts - 1;
      while left < right
        invariant left <= right < numRestarts
        invariant left > 0 ==> l.restarts[left] < |l.pairs| && lt(l.pairs[l.restarts[left]].key, target)
      {
        var mid := (left + right + 1) / 2;
        NotEmpty();
        var k := RestartKey(mid);
        if lt(k, target) {
          left := mid;
        } else {
          right := mid - 1;
        }
      }
    }

    lemma NotEmpty()
      requires Setup() && numRestarts > 1
      ensures l.pairs != []
    {
      hide FixedArray, EntryAt, RestartOffsets;
    }

    /** Seek stops at the first key not before target, or off the end. */
    method Seek(target: Bytes) returns (ghost pos: nat)
      requires Setup() && !corrupt && Transitive(lt) && Increasing(lt, l.pairs)
      modifies this
      ensures At(pos) && FirstNotBefore(lt, l.pairs, target, pos)
    {
      hide At, Ready, BlockOk, Transitive, Increasing;
      var left := FindRegion(target);
      HasRestarts();
      SeekToRestartPoint(left);
      pos := l.restarts[left];
      KeysBefore(lt, l.pairs, if pos < |l.pairs| then pos else 0, target);
      while true
        invariant pos <= |l.pairs| && Ready(pos)
        invariant forall i :: 0 <= i < pos ==> lt(l.pairs[i].key, target)
        decreases |l.pairs| - pos
      {
        var more := ParseNextKey(pos);
        if !more {
          return;
        }
        KeyIs(pos);
        if !lt(key, target) {
          return;
        }
        ReadyNext(pos);
        pos := pos + 1;
      }
    }

    lemma KeyIs(pos: nat)
      requires At(pos) && pos < |l.pairs|
      ensures key == l.pairs[pos].key
    {
    }
  }

  lemma KeysBefore(lt: (Bytes, Bytes) -> bool, pairs: seq<Pair>, k: nat, target: Bytes)
    requires Transitive(lt) && Increasing(lt, pairs)
    requires k > 0 ==> k < |pairs| && lt(pairs[k].key, target)
    ensures forall i :: 0 <= i < k ==> lt(pairs[i].key, target)
  {
  }

  /** Iterating a finished block returns exactly the pairs added, in order. */
  method ReadAll(it: Iter) returns (pairs: seq<Pair>)
    requires it.Setup() && !it.corrupt
    modifies it
    ensures pairs == it.l.pairs
  {
    hide BlockOk;
    pairs := [];
    it.SeekToFirst();
    ghost var pos := 0;
    var valid, k, v := it.Read(pos);
    while valid
      invariant it.At(pos) && valid == (pos < |it.l.pairs|)
      invariant valid ==> k == it.l.pairs[pos].key && v == it.l.pairs[pos].value
      invariant pairs == it.l.pairs[..pos]
      decreases |it.l.pairs| - pos
    {
      pairs := pairs + [Pair(k, v)];
      it.Next(pos);
      pos := pos + 1;
      valid, k, v := it.Read(pos);
    }
  }
}
