/** BlockBuilder: adds increasing keys, sharing prefixes between restart points. */
module BlockBuilder {
  import opened Coding
  import opened BlockFormat

  /** The layout after one more entry at the end of the data. */
  ghost function Extend(l: Layout, shared: nat, p: Pair, end: nat, restart: bool): Layout {
    Layout(
      l.pairs + [p], l.offs + [end], l.shared + [shared],
      if restart then l.restarts + [|l.pairs|] else l.restarts)
  }

  lemma ExtendEntries(data: Bytes, l: Layout, shared: nat, p: Pair, restart: bool)
    requires Entries(data, l) && shared <= |p.key|
    requires shared > 0 ==> l.pairs != [] && Agree(l.pairs[|l.pairs| - 1].key, p.key, shared)
    ensures var data' := data + EncodeEntry(shared, p);
            Entries(data', Extend(l, shared, p, |data'|, restart))
  {
    hide Agree;
    var data' := data + EncodeEntry(shared, p);
    var l' := Extend(l, shared, p, |data'|, restart);
    var n := |l.pairs|;
    EntryNotEmpty(shared, p);
    forall i | 0 <= i < |l'.pairs|
      ensures EntryAt(data', l', i)
    {
      if i < n {
        assert EntryAt(data, l, i);
        assert data'[l.offs[i]..l.offs[i + 1]] == data[l.offs[i]..l.offs[i + 1]];
      } else {
        assert data'[l'.offs[n]..l'.offs[n + 1]] == EncodeEntry(shared, p);
      }
    }
  }

  lemma EntryNotEmpty(shared: nat, p: Pair)
    requires shared <= |p.key|
    ensures |EncodeEntry(shared, p)| > 0
  {
  }

  lemma ExtendRestarts(l: Layout, shared: nat, p: Pair, end: nat, restart: bool)
    requires Restarts(l) && (restart ==> shared == 0 && l.pairs != [])
    requires l.pairs == [] ==> shared == 0
    ensures Restarts(Extend(l, shared, p, end, restart))
  {
  }

  /** Every restart but the last is followed by exactly `interval` entries. */
  ghost predicate Spaced(interval: nat, restarts: seq<nat>) {
    forall r :: 0 < r < |restarts| ==> restarts[r] == restarts[r - 1] + interval
  }

  /** n is the length of the longest common prefix. */
  predicate LongestPrefix(a: Bytes, b: Bytes, n: nat) {
    Agree(a, b, n) && (n == |a| || n == |b| || a[n] != b[n])
  }

  /** Between restart points every key leaves out all it shares with the one before. */
  ghost predicate Compressed(l: Layout) {
    && |l.shared| == |l.pairs|
    && forall i :: 0 < i < |l.pairs| && i !in l.restarts ==> LongestPrefix(l.pairs[i - 1].key, l.pairs[i].key, l.shared[i])
  }

  lemma ExtendCompressed(l: Layout, shared: nat, p: Pair, end: nat, restart: bool)
    requires Compressed(l) && (restart || l.pairs == [] || LongestPrefix(LastKey(l), p.key, shared))
    ensures Compressed(Extend(l, shared, p, end, restart))
  {
    hide LongestPrefix;
    var l' := Extend(l, shared, p, end, restart);
    forall i | 0 < i < |l'.pairs| && i !in l'.restarts
      ensures LongestPrefix(l'.pairs[i - 1].key, l'.pairs[i].key, l'.shared[i])
    {
      if i < |l.pairs| {
        assert i !in l.restarts;
      } else {
        assert restart ==> i in l'.restarts;
      }
    }
  }

  ghost function LastKey(l: Layout): Bytes {
    if l.pairs == [] then [] else l.pairs[|l.pairs| - 1].key
  }

  ghost predicate Built(interval: nat, data: Bytes, l: Layout, restarts: seq<nat>, counter: nat) {
    && interval >= 1
    && Entries(data, l) && Restarts(l) && Spaced(interval, l.restarts) && Compressed(l)
    && restarts == RestartOffsets(l)
    && counter == |l.pairs| - l.restarts[|l.restarts| - 1] && counter <= interval
    && (counter == 0 ==> l.pairs == [])
  }

  /** One Add: where the interval is used up, a restart point with the whole key. */
  lemma AddBuilt(interval: nat, data: Bytes, l: Layout, restarts: seq<nat>, counter: nat, p: Pair, shared: nat)
    requires Built(interval, data, l, restarts, counter) && shared <= |p.key|
    requires if counter < interval then LongestPrefix(LastKey(l), p.key, shared) else shared == 0
    ensures var restart := counter >= interval;
            var data' := data + EncodeEntry(shared, p);
            Built(
              interval, data', Extend(l, shared, p, |data'|, restart),
              if restart then restarts + [|data|] else restarts,
              if restart then 1 else counter + 1)
  {
    hide EntryAt, EncodeEntry, Spaced, Restarts, Compressed;
    HasRestart(l);
    var restart := counter >= interval;
    var data' := data + EncodeEntry(shared, p);
    var l' := Extend(l, shared, p, |data'|, restart);
    ExtendEntries(data, l, shared, p, restart);
    ExtendRestarts(l, shared, p, |data'|, restart);
    ExtendSpaced(interval, l, restart);
    ExtendCompressed(l, shared, p, |data'|, restart);
    ExtendOffsets(data, l, shared, p, restart);
  }

  lemma HasRestart(l: Layout)
    requires Restarts(l)
    ensures |l.restarts| >= 1
  {
  }

  lemma ExtendSpaced(interval: nat, l: Layout, restart: bool)
    requires Restarts(l) && Spaced(interval, l.restarts)
    requires restart ==> |l.pairs| == l.restarts[|l.restarts| - 1] + interval
    ensures Spaced(interval, if restart then l.restarts + [|l.pairs|] else l.restarts)
  {
  }

  lemma ExtendOffsets(data: Bytes, l: Layout, shared: nat, p: Pair, restart: bool)
    requires Entries(data, l) && Restarts(l) && shared <= |p.key|
    requires var l' := Extend(l, shared, p, |data + EncodeEntry(shared, p)|, restart);
             Shape(l') && Restarts(l')
    ensures var l' := Extend(l, shared, p, |data + EncodeEntry(shared, p)|, restart);
            RestartOffsets(l') == if restart then RestartOffsets(l) + [|data|] else RestartOffsets(l)
  {
    hide EncodeEntry, EntryAt;
  }

  lemma OffsetsFit(data: Bytes, l: Layout)
    requires Entries(data, l) && Restarts(l)
    ensures forall r :: 0 <= r < |l.restarts| ==> RestartOffsets(l)[r] <= |data|
  {
    hide EntryAt;
    forall r | 0 <= r < |l.restarts|
      ensures RestartOffsets(l)[r] <= |data|
    {
      OffsetsOrdered(data, l, l.restarts[r], |l.pairs|);
    }
  }

  lemma FinishReady(interval: nat, data: Bytes, l: Layout, restarts: seq<nat>, counter: nat)
    requires Built(interval, data, l, restarts, counter) && |data| < TWO32
    ensures forall r :: 0 <= r < |restarts| ==> restarts[r] < TWO32
  {
    OffsetsFit(data, l);
  }

  lemma FinishOk(interval: nat, data: Bytes, l: Layout, restarts: seq<nat>, counter: nat, block: Bytes)
    requires Built(interval, data, l, restarts, counter)
    requires (forall r :: 0 <= r < |restarts| ==> restarts[r] < TWO32) && |restarts| < TWO32 && |block| < TWO32
    requires block == data + FixedArray(restarts) + PutFixed32(|restarts|)
    ensures BlockOk(block, data, l)
  {
    hide Entries, Restarts, Spaced, Compressed, FixedArray, PutFixed32;
  }

  // ----- the size of a block -----

  /** At most what the entries of these pairs take: three varints, keys and values. */
  function EntryBytes(pairs: seq<Pair>): nat {
    if pairs == [] then 0
    else
      var p := pairs[|pairs| - 1];
      EntryBytes(pairs[..|pairs| - 1]) + |p.key| + |p.value| + 15
  }

  /** One restart point for every `interval` entries, and one for none. */
  function RestartCount(n: nat, interval: nat): (r: nat)
    requires interval >= 1
  {
    if n == 0 then 1 else (n - 1) / interval + 1
  }

  /** At most the size of the finished block of these pairs. */
  function BlockBytes(pairs: seq<Pair>, interval: nat): nat
    requires interval >= 1
  {
    EntryBytes(pairs) + 4 * RestartCount(|pairs|, interval) + 4
  }

  lemma EntryLength(shared: nat, p: Pair)
    requires shared <= |p.key| && |p.key| < TWO32 && |p.value| < TWO32
    ensures |EncodeEntry(shared, p)| <= |p.key| + |p.value| + 15
  {
    hide Varint;
    VarintBytes(shared);
    VarintBytes(|p.key| - shared);
    VarintBytes(|p.value|);
  }

  lemma {:induction false} OffsetBound(data: Bytes, l: Layout, i: nat)
    requires Entries(data, l) && i <= |l.pairs| && EntryBytes(l.pairs[..i]) < TWO32
    ensures l.offs[i] <= EntryBytes(l.pairs[..i])
  {
    hide EncodeEntry;
    if i > 0 {
      assert l.pairs[..i][..i - 1] == l.pairs[..i - 1];
      OffsetBound(data, l, i - 1);
      assert EntryAt(data, l, i - 1);
      EntryLength(l.shared[i - 1], l.pairs[i - 1]);
    }
  }

  lemma {:induction false} SpacedAt(interval: nat, restarts: seq<nat>, r: nat)
    requires Spaced(interval, restarts) && r < |restarts| && restarts[0] == 0
    ensures restarts[r] == r * interval
  {
    if r > 0 {
      SpacedAt(interval, restarts, r - 1);
      assert r * interval == (r - 1) * interval + interval;
    }
  }

  lemma Quotient(n: nat, k: nat, r: nat)
    requires k >= 1 && k * r <= n < k * r + k
    ensures n / k == r
  {
    var q := n / k;
    assert q * k <= n < q * k + k;
    assert q < r ==> (q + 1) * k <= r * k;
    assert r < q ==> (r + 1) * k <= q * k;
  }

  /** The restarts and the buffer of a block under construction fit the bound. */
  lemma BuiltSize(interval: nat, data: Bytes, l: Layout, restarts: seq<nat>, counter: nat)
    requires Built(interval, data, l, restarts, counter)
    ensures |restarts| == RestartCount(|l.pairs|, interval)
    ensures EntryBytes(l.pairs) < TWO32 ==> |data| <= EntryBytes(l.pairs)
  {
    hide EntryAt, EntryBytes;
    assert l.pairs[..|l.pairs|] == l.pairs;
    if EntryBytes(l.pairs) < TWO32 {
      OffsetBound(data, l, |l.pairs|);
    }
    var r := |restarts| - 1;
    SpacedAt(interval, l.restarts, r);
    if l.pairs != [] {
      assert interval * r == r * interval;
      Quotient(|l.pairs| - 1, interval, r);
    }
  }

  /** The block is that of these pairs, with a restart point every `interval` entries
      and every other key compressed against the one before. */
  ghost predicate IsBlockOf(block: Bytes, pairs: seq<Pair>, interval: nat) {
    exists data, l :: BlockOk(block, data, l) && l.pairs == pairs && Spaced(interval, l.restarts) && Compressed(l)
  }

  lemma BuiltBlock(interval: nat, data: Bytes, l: Layout, restarts: seq<nat>, counter: nat, block: Bytes)
    requires Built(interval, data, l, restarts, counter) && BlockOk(block, data, l)
    ensures IsBlockOf(block, l.pairs, interval)
  {
    hide Spaced, Compressed, BlockOk;
  }

  class Builder {
    const interval: nat
    var buffer: Bytes
    var restarts: seq<nat>
    var counter: nat
    var finished: bool
    var lastKey: Bytes
    ghost var layout: Layout
    ghost var data: Bytes

    ghost predicate Valid()
      reads this
    {
      && Built(interval, data, layout, restarts, counter)
      && lastKey == LastKey(layout)
      && (!finished ==> buffer == data)
      && (finished ==> BlockOk(buffer, data, layout))
    }

    constructor (interval: nat)
      requires interval >= 1
      ensures Valid() && !finished && layout.pairs == [] && this.interval == interval
    {
      this.interval := interval;
      buffer, restarts, counter, finished, lastKey := [], [0], 0, false, [];
      layout, data := Layout([], [0], [], [0]), [];
    }

    /** The length of the longest prefix that key shares with the last key. */
    method SharedPrefix(key: Bytes) returns (shared: nat)
      ensures LongestPrefix(lastKey, key, shared)
    {
      var minLength := if |lastKey| < |key| then |lastKey| else |key|;
      shared := 0;
      while shared < minLength && lastKey[shared] == key[shared]
        invariant shared <= minLength && Agree(lastKey, key, shared)
      {
        shared := shared + 1;
      }
    }

    method Add(key: Bytes, value: Bytes)
      requires Valid() && !finished
      modifies this
      ensures Valid() && !finished && layout.pairs == old(layout.pairs) + [Pair(key, value)]
    {
      hide EncodeEntry, Built, BlockOk;
      var shared := 0;
      var restart := counter >= interval;
      if counter < interval {
        shared := SharedPrefix(key);
      }
      AddBuilt(interval, data, layout, restarts, counter, Pair(key, value), shared);
      if restart {
        restarts := restarts + [|buffer|];
        counter := 0;
      }
      buffer := buffer + EncodeEntry(shared, Pair(key, value));
      lastKey := lastKey[..shared] + key[shared..];
      assert lastKey == key;
      counter := counter + 1;
      data := buffer;
      layout := Extend(layout, shared, Pair(key, value), |data|, restart);
    }

    /** Finish: a block laid out for exactly the pairs added. */
    method Finish() returns (block: Bytes)
      requires Valid() && !finished
      requires |buffer| + 4 * |restarts| + 4 < TWO32
      modifies this
      ensures Valid() && finished && layout == old(layout) && data == old(data)
      ensures block == buffer && BlockOk(block, data, layout) && |block| == old(|buffer| + 4 * |restarts| + 4)
    {
      hide Built, BlockOk;
      FinishReady(interval, data, layout, restarts, counter);
      var i := 0;
      while i < |restarts|
        invariant layout == old(layout) && data == old(data) && restarts == old(restarts)
        invariant forall k :: 0 <= k < |restarts| ==> restarts[k] < TWO32
        invariant 0 <= i <= |restarts| && buffer == data + FixedArray(restarts[..i])
        invariant lastKey == old(lastKey) && counter == old(counter) && !finished
      {
        assert restarts[..i + 1][..i] == restarts[..i];
        buffer := buffer + PutFixed32(restarts[i]);
        i := i + 1;
      }
      assert restarts[..i] == restarts;
      buffer := buffer + PutFixed32(|restarts|);
      FinishOk(interval, data, layout, restarts, counter, buffer);
      finished := true;
      block := buffer;
    }
  }
}
