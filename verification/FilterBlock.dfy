/** The filter block: one filter for each 2 KB of data-block offsets. */
module FilterBlock {
  import opened Coding
  import Bloom

  const BASE_LG: Byte := 11
  const BASE: nat := 2048

  // ----- the filters generated so far -----

  /** Filter i lies in result from its offset up to the next one. */
  ghost function FilterBytes(result: Bytes, offsets: seq<nat>, i: nat): Bytes
    requires i < |offsets| && OffsetsOk(result, offsets)
  {
    result[offsets[i]..if i + 1 < |offsets| then offsets[i + 1] else |result|]
  }

  ghost predicate OffsetsOk(result: Bytes, offsets: seq<nat>) {
    && (forall i :: 0 <= i < |offsets| ==> offsets[i] <= |result|)
    && (forall i, j :: 0 <= i < j < |offsets| ==> offsets[i] <= offsets[j])
  }

  /** The filter of the keys; nothing at all for no keys. */
  ghost predicate MadeFor(p: Bloom.Policy, filter: Bytes, keys: seq<Bytes>) {
    if keys == [] then filter == [] else Bloom.IsFilter(p, keys, filter)
  }

  /** Every filter is the one of its keys. */
  ghost predicate FiltersOk(p: Bloom.Policy, result: Bytes, offsets: seq<nat>, filters: seq<seq<Bytes>>) {
    && |filters| == |offsets| && OffsetsOk(result, offsets)
    && (forall i :: 0 <= i < |offsets| ==> MadeFor(p, FilterBytes(result, offsets, i), filters[i]))
  }

  lemma SameSlice(b: Bytes, b': Bytes, i: nat, j: nat)
    requires |b| <= |b'| && b'[..|b|] == b && i <= j <= |b|
    ensures b'[i..j] == b[i..j]
  {
    assert b'[..|b|][i..j] == b'[i..j];
  }

  /** One more filter, or an empty one for no keys. */
  lemma FiltersExtend(
    p: Bloom.Policy, result: Bytes, offsets: seq<nat>, filters: seq<seq<Bytes>>, result': Bytes, keys: seq<Bytes>)
    requires FiltersOk(p, result, offsets, filters)
    requires |result| <= |result'| && result'[..|result|] == result
    requires MadeFor(p, result'[|result|..], keys)
    ensures FiltersOk(p, result', offsets + [|result|], filters + [keys])
  {
    hide MadeFor;
    var offsets' := offsets + [|result|];
    forall i | 0 <= i < |offsets'|
      ensures MadeFor(p, FilterBytes(result', offsets', i), (filters + [keys])[i])
    {
      if i < |offsets| {
        var end := if i + 1 < |offsets| then offsets[i + 1] else |result|;
        SameSlice(result, result', offsets[i], end);
        assert FilterBytes(result', offsets', i) == FilterBytes(result, offsets, i);
      } else {
        assert result'[|result|..|result'|] == result'[|result|..];
        assert FilterBytes(result', offsets', i) == result'[|result|..];
      }
    }
  }

  class Builder {
    const hash: Bloom.Hash
    const bitsPerKey: nat
    const probes: nat
    var keys: seq<Bytes>      // keys of the filter being collected
    var result: Bytes
    var offsets: seq<nat>
    ghost var filters: seq<seq<Bytes>>

    ghost predicate Valid()
      reads this
    {
      1 <= probes <= 30 && FiltersOk(Bloom.Policy(hash, bitsPerKey, probes), result, offsets, filters)
    }

    /** The keys that filter i covers or will cover. */
    ghost function KeysOf(i: nat): seq<Bytes>
      reads this
    {
      if i < |filters| then filters[i] else if i == |filters| then keys else []
    }

    constructor (hash: Bloom.Hash, bitsPerKey: nat, probes: nat)
      requires 1 <= probes <= 30
      ensures Valid() && this.hash == hash && offsets == [] && forall i: nat :: KeysOf(i) == []
    {
      this.hash, this.bitsPerKey, this.probes := hash, bitsPerKey, probes;
      keys, result, offsets, filters := [], [], [], [];
    }

    method GenerateFilter()
      requires Valid()
      modifies this
      ensures Valid() && |offsets| == |old(offsets)| + 1 && keys == []
      ensures forall i: nat :: KeysOf(i) == old(KeysOf(i))
      ensures filters == old(filters) + [old(keys)]
    {
      hide FiltersOk, Bloom.IsFilter;
      ghost var before := result;
      FiltersLength();
      offsets := offsets + [|result|];
      if keys != [] {
        result := Bloom.CreateFilter(hash, keys, bitsPerKey, probes, result);
      }
      FiltersExtend(Bloom.Policy(hash, bitsPerKey, probes), before, old(offsets), filters, result, keys);
      filters := filters + [keys];
      keys := [];
    }

    lemma FiltersLength()
      requires Valid()
      ensures |filters| == |offsets|
    {
    }

    /** StartBlock: closes filters until the one for this offset is being collected. */
    method StartBlock(blockOffset: nat)
      requires Valid() && |offsets| <= blockOffset / BASE
      modifies this
      ensures Valid() && |offsets| == blockOffset / BASE
      ensures forall i: nat :: KeysOf(i) == old(KeysOf(i))
    {
      hide FiltersOk;
      var index := blockOffset / BASE;
      while index > |offsets|
        invariant Valid() && |offsets| <= index
        invariant forall i: nat :: KeysOf(i) == old(KeysOf(i))
      {
        GenerateFilter();
      }
    }

    method AddKey(key: Bytes)
      requires Valid()
      modifies this
      ensures Valid() && offsets == old(offsets)
      ensures forall i: nat :: KeysOf(i) == old(KeysOf(i)) + if i == |offsets| then [key] else []
    {
      keys := keys + [key];
    }

    /** Finish: the filters, their offsets, where the offsets start, and the base. */
    method Finish() returns (contents: Bytes, ghost filterBytes: Bytes)
      requires Valid()
      modifies this
      ensures Valid() && forall i: nat :: KeysOf(i) == old(KeysOf(i))
      ensures Contents(contents, filterBytes, offsets)
      ensures FiltersOk(Bloom.Policy(hash, bitsPerKey, probes), filterBytes, offsets, filters)
      ensures forall i: nat :: i >= |filters| ==> KeysOf(i) == []
    {
      hide FiltersOk, Contents;
      if keys != [] {
        GenerateFilter();
      }
      filterBytes := result;
      contents := WithOffsets(result, offsets);
      FiltersLength();
    }
  }

  method WithOffsets(result: Bytes, offsets: seq<nat>) returns (contents: Bytes)
    ensures Contents(contents, result, offsets)
  {
    hide FixedArray, PutFixed32;
    contents := result;
    EmptyArray();
    var i := 0;
    while i < |offsets|
      invariant 0 <= i <= |offsets| && contents == result + FixedArray(Truncated(offsets[..i]))
    {
      ArrayStep(offsets, i);
      contents := contents + PutFixed32(offsets[i] % TWO32);
      i := i + 1;
    }
    var all := offsets + [|result|];
    assert offsets[..i] == all[..i] && all[..i + 1] == all;
    ArrayStep(all, i);
    contents := contents + PutFixed32(|result| % TWO32) + [BASE_LG];
  }

  function Truncated(xs: seq<nat>): (r: seq<nat>)
    ensures |r| == |xs| && forall i :: 0 <= i < |xs| ==> r[i] == xs[i] % TWO32
  {
    seq(|xs|, i requires 0 <= i < |xs| => xs[i] % TWO32)
  }

  lemma EmptyArray()
    ensures FixedArray(Truncated([])) == []
  {
  }

  lemma ArrayStep(xs: seq<nat>, i: nat)
    requires i < |xs|
    ensures FixedArray(Truncated(xs[..i + 1])) == FixedArray(Truncated(xs[..i])) + PutFixed32(xs[i] % TWO32)
  {
    hide PutFixed32;
    assert Truncated(xs[..i + 1])[..i] == Truncated(xs[..i]);
  }

  ghost predicate Contents(contents: Bytes, filterBytes: Bytes, offsets: seq<nat>) {
    contents == filterBytes + FixedArray(Truncated(offsets + [|filterBytes|])) + [BASE_LG]
  }

  // ----- the reader -----

  /** FilterBlockReader: where the offset array starts, how many filters, the base. */
  datatype Reader = Reader(contents: Bytes, offset: nat, num: nat, baseLg: nat)

  function Open(contents: Bytes): (r: Reader)
    ensures r.num > 0 ==> r.offset + 4 * r.num + 5 <= |contents|
  {
    var n := |contents|;
    if n < 5 then Reader(contents, 0, 0, 0)
    else
      var lastWord := GetFixed32(contents[n - 5..]);
      if lastWord > n - 5 then Reader(contents, 0, 0, contents[n - 1])
      else Reader(contents, lastWord, (n - 5 - lastWord) / 4, contents[n - 1])
  }

  /** n >> bits. */
  function Shift(n: nat, bits: nat): nat
    decreases bits
  {
    if bits == 0 then n else Shift(n / 2, bits - 1)
  }

  lemma ShiftByBase(n: nat)
    ensures Shift(n, BASE_LG) == n / BASE
  {
    ShiftFour(n, 7);
    ShiftFour(n / 16, 3);
    var m := n / 16 / 16;
    assert Shift(m, 3) == m / 2 / 2 / 2 == m / 8;
    assert m / 8 == n / 2048;
  }

  lemma ShiftFour(n: nat, bits: nat)
    ensures Shift(n, bits + 4) == Shift(n / 16, bits)
  {
    assert Shift(n, bits + 4) == Shift(n / 2, bits + 3) == Shift(n / 2 / 2, bits + 2);
    assert Shift(n / 2 / 2, bits + 2) == Shift(n / 2 / 2 / 2, bits + 1) == Shift(n / 2 / 2 / 2 / 2, bits);
    assert n / 2 / 2 / 2 / 2 == n / 16;
  }

  ghost predicate Opened(r: Reader) {
    r == Open(r.contents)
  }

  /** What the reader answers from filter `index`. */
  ghost predicate MatchesAt(hash: Bloom.Hash, r: Reader, index: nat, key: Bytes)
    requires Opened(r)
  {
    index < r.num ==>
      var start := GetFixed32(r.contents[r.offset + 4 * index..]);
      var limit := GetFixed32(r.contents[r.offset + 4 * index + 4..]);
      if start <= limit <= r.offset then Bloom.Matches(hash, key, r.contents[start..limit]) else start != limit
  }

  /** What the reader answers for a data block at this offset. */
  ghost predicate MayMatch(hash: Bloom.Hash, r: Reader, blockOffset: nat, key: Bytes)
    requires Opened(r)
  {
    MatchesAt(hash, r, Shift(blockOffset, r.baseLg), key)
  }

  method KeyMayMatch(hash: Bloom.Hash, r: Reader, blockOffset: nat, key: Bytes) returns (m: bool)
    requires Opened(r)
    ensures m <==> MayMatch(hash, r, blockOffset, key)
  {
    hide Bloom.Matches, GetFixed32, Shift;
    var index := Shift(blockOffset, r.baseLg);
    if index < r.num {
      var start := GetFixed32(r.contents[r.offset + 4 * index..]);
      var limit := GetFixed32(r.contents[r.offset + 4 * index + 4..]);
      if start <= limit && limit <= r.offset {
        m := Bloom.KeyMayMatch(hash, key, r.contents[start..limit]);
        return;
      } else if start == limit {
        return false;
      }
    }
    return true;
  }

  lemma LastByte(contents: Bytes, filterBytes: Bytes, offsets: seq<nat>)
    requires Contents(contents, filterBytes, offsets)
    ensures |contents| > 0 && contents[|contents| - 1] == BASE_LG
  {
  }

  lemma QuarterOf(n: nat)
    ensures (4 * n) / 4 == n
  {
  }

  lemma OpensFinished(contents: Bytes, filterBytes: Bytes, offsets: seq<nat>)
    requires Contents(contents, filterBytes, offsets) && |contents| < TWO32
    ensures Open(contents) == Reader(contents, |filterBytes|, |offsets|, BASE_LG)
  {
    LastByte(contents, filterBytes, offsets);
    hide GetFixed32, Contents, FixedArray;
    WordAt(contents, filterBytes, offsets, |offsets|);
    assert |contents| - 5 == |filterBytes| + 4 * |offsets|;
    assert GetFixed32(contents[|contents| - 5..]) == |filterBytes|;
    QuarterOf(|offsets|);
  }

  /** Word i of the offset array is the offset of filter i, or the end of the last. */
  lemma WordAt(contents: Bytes, filterBytes: Bytes, offsets: seq<nat>, i: nat)
    requires Contents(contents, filterBytes, offsets) && |contents| < TWO32 && i <= |offsets|
    ensures |contents| == |filterBytes| + 4 * |offsets| + 5
    ensures GetFixed32(contents[|filterBytes| + 4 * i..]) == (offsets + [|filterBytes|])[i] % TWO32
  {
    hide GetFixed32;
    var xs := Truncated(offsets + [|filterBytes|]);
    assert contents == filterBytes + (FixedArray(xs) + [BASE_LG]);
    assert contents[|filterBytes| + 4 * i..] == (FixedArray(xs) + [BASE_LG])[4 * i..];
    FixedArrayAt(xs, i, [BASE_LG]);
  }

  /** The bytes that the reader takes for filter i are those of filter i. */
  lemma FilterAt(
    p: Bloom.Policy, contents: Bytes, filterBytes: Bytes, offsets: seq<nat>, filters: seq<seq<Bytes>>, i: nat, key: Bytes)
    requires Contents(contents, filterBytes, offsets) && |contents| < TWO32
    requires FiltersOk(p, filterBytes, offsets, filters) && i < |filters|
    ensures MatchesAt(p.hash, Open(contents), i, key) <==> Bloom.Matches(p.hash, key, FilterBytes(filterBytes, offsets, i))
  {
    hide Bloom.Matches, GetFixed32, FixedArray, Open, MadeFor;
    OpensFinished(contents, filterBytes, offsets);
    WordAt(contents, filterBytes, offsets, i);
    WordAt(contents, filterBytes, offsets, i + 1);
    var end := (offsets + [|filterBytes|])[i + 1];
    assert offsets[i] <= end <= |filterBytes| < TWO32;
    assert contents[offsets[i]..end] == FilterBytes(filterBytes, offsets, i);
  }

  lemma MadeForMatches(p: Bloom.Policy, filter: Bytes, keys: seq<Bytes>, key: Bytes)
    requires MadeFor(p, filter, keys) && p.probes <= 30
    ensures Bloom.Matches(p.hash, key, filter) <==> keys != [] && Bloom.AllProbed(p, keys, key)
  {
    hide Bloom.AllProbed, Bloom.IsFilter;
    if keys == [] {
      EmptyFilter(p.hash, key);
    } else {
      Bloom.FilterMatches(p, keys, filter, key);
    }
  }

  lemma EmptyFilter(hash: Bloom.Hash, key: Bytes)
    ensures !Bloom.Matches(hash, key, [])
  {
  }

  /** The reader rules a key out for a block exactly if the keys given to the filter of
      the block's 2 KB range leave one of its probes unset. */
  lemma FilterIsExact(
    p: Bloom.Policy, contents: Bytes, filterBytes: Bytes, offsets: seq<nat>, filters: seq<seq<Bytes>>,
    blockOffset: nat, key: Bytes)
    requires Contents(contents, filterBytes, offsets) && |contents| < TWO32 && p.probes <= 30
    requires FiltersOk(p, filterBytes, offsets, filters) && blockOffset / BASE < |filters|
    ensures Opened(Open(contents))
    ensures MayMatch(p.hash, Open(contents), blockOffset, key) <==>
      var keys := filters[blockOffset / BASE];
      keys != [] && Bloom.AllProbed(p, keys, key)
  {
    hide FixedArray, MatchesAt, Open, Contents, Shift, Bloom.AllProbed, Bloom.Matches, MadeFor;
    OpensFinished(contents, filterBytes, offsets);
    ShiftByBase(blockOffset);
    var i := blockOffset / BASE;
    FilterAt(p, contents, filterBytes, offsets, filters, i, key);
    MadeForMatches(p, FilterBytes(filterBytes, offsets, i), filters[i], key);
  }

  /** A key given to the filter of the block's 2 KB range is never ruled out. */
  lemma FilterNeverMisses(
    p: Bloom.Policy, contents: Bytes, filterBytes: Bytes, offsets: seq<nat>, filters: seq<seq<Bytes>>,
    blockOffset: nat, key: Bytes)
    requires Contents(contents, filterBytes, offsets) && |contents| < TWO32 && p.probes <= 30
    requires FiltersOk(p, filterBytes, offsets, filters)
    requires blockOffset / BASE < |filters| && key in filters[blockOffset / BASE]
    ensures Opened(Open(contents)) && MayMatch(p.hash, Open(contents), blockOffset, key)
  {
    hide FiltersOk, MayMatch, Open, Contents, Bloom.AllProbed;
    FilterIsExact(p, contents, filterBytes, offsets, filters, blockOffset, key);
    Bloom.KeyIsProbed(p, filters[blockOffset / BASE], key);
  }
}
