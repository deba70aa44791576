/** Prefix-compressed blocks: entries, restart points, and how they are laid out. */
module BlockFormat {
  import opened Coding

  datatype Pair = Pair(key: Bytes, value: Bytes)

  // ----- one entry -----

  /** shared, non_shared, value length, the rest of the key, the value. */
  function EncodeEntry(shared: nat, p: Pair): Bytes
    requires shared <= |p.key|
  {
    Varint(shared) + (Varint(|p.key| - shared) + (Varint(|p.value|) + (p.key[shared..] + p.value)))
  }

  datatype Lengths = Lengths(shared: nat, nonShared: nat, value: nat)

  function ThreeVarints(b: Bytes): Parsed<Lengths> {
    match GetVarint32(b)
    case Malformed => Malformed
    case Got(shared, rest) =>
      match GetVarint32(rest)
      case Malformed => Malformed
      case Got(nonShared, rest) =>
        match GetVarint32(rest)
        case Malformed => Malformed
        case Got(value, rest) => Got(Lengths(shared, nonShared, value), rest)
  }

  /** DecodeEntry: a fast path when each length takes one byte. The sum of the two
      lengths is a 32-bit sum. */
  function DecodeEntry(b: Bytes): Parsed<Lengths> {
    if |b| < 3 then Malformed
    else
      var p :=
        if b[0] < 128 && b[1] < 128 && b[2] < 128 then Got(Lengths(b[0], b[1], b[2]), b[3..])
        else ThreeVarints(b);
      if p.Malformed? then Malformed
      else if |p.rest| < (p.value.nonShared + p.value.value) % TWO32 then Malformed
      else p
  }

  lemma OneByteVarint(b: Bytes)
    requires b != [] && b[0] < 128
    ensures GetVarint32(b) == Got(b[0] as int, b[1..])
  {
  }

  lemma FastPathAgrees(b: Bytes)
    requires |b| >= 3 && b[0] < 128 && b[1] < 128 && b[2] < 128
    ensures ThreeVarints(b) == Got(Lengths(b[0], b[1], b[2]), b[3..])
  {
    hide GetVarint32;
    OneByteVarint(b);
    OneByteVarint(b[1..]);
    OneByteVarint(b[2..]);
    assert b[1..][1..] == b[2..] && b[2..][1..] == b[3..];
  }

  lemma EntryRoundTrip(shared: nat, p: Pair, rest: Bytes)
    requires shared <= |p.key| && shared < TWO32 && |p.key| - shared + |p.value| < TWO32
    ensures DecodeEntry(EncodeEntry(shared, p) + rest)
         == Got(Lengths(shared, |p.key| - shared, |p.value|), p.key[shared..] + p.value + rest)
  {
    hide Varint, GetVarint32;
    var b := EncodeEntry(shared, p) + rest;
    var r3 := p.key[shared..] + p.value + rest;
    var r2 := Varint(|p.value|) + r3;
    var r1 := Varint(|p.key| - shared) + r2;
    assert b == Varint(shared) + r1;
    Varint32RoundTrip(shared, r1);
    Varint32RoundTrip(|p.key| - shared, r2);
    Varint32RoundTrip(|p.value|, r3);
    if b[0] < 128 && b[1] < 128 && b[2] < 128 {
      FastPathAgrees(b);
    }
  }

  // ----- a run of entries -----

  /** Where the entries lie: offs[i] is the start of entry i and offs[n] the end,
      shared[i] the prefix entry i takes from its predecessor, restarts the
      indices of the entries at restart points. */
  datatype Layout = Layout(pairs: seq<Pair>, offs: seq<nat>, shared: seq<nat>, restarts: seq<nat>)

  ghost predicate Shape(l: Layout) {
    |l.offs| == |l.pairs| + 1 && |l.shared| == |l.pairs| && l.offs[0] == 0
  }

  /** Entry i stores its key as a suffix on top of the key before it. */
  ghost predicate EntryAt(data: Bytes, l: Layout, i: nat)
    requires Shape(l) && i < |l.pairs|
  {
    && l.shared[i] <= |l.pairs[i].key|
    && l.offs[i] < l.offs[i + 1] <= |data|
    && data[l.offs[i]..l.offs[i + 1]] == EncodeEntry(l.shared[i], l.pairs[i])
    && (l.shared[i] > 0 ==> i > 0 && Agree(l.pairs[i - 1].key, l.pairs[i].key, l.shared[i]))
  }

  predicate Agree(a: Bytes, b: Bytes, n: nat) {
    n <= |a| && n <= |b| && a[..n] == b[..n]
  }

  ghost predicate Entries(data: Bytes, l: Layout) {
    && Shape(l) && l.offs[|l.pairs|] == |data|
    && (forall i :: 0 <= i < |l.pairs| ==> EntryAt(data, l, i))
  }

  /** The first restart is entry 0, and restart entries hold their whole key. */
  ghost predicate Restarts(l: Layout) {
    && |l.restarts| >= 1 && l.restarts[0] == 0 && |l.shared| == |l.pairs|
    && (l.pairs == [] ==> |l.restarts| == 1)
    && (forall r :: 0 <= r < |l.restarts| && l.pairs != [] ==>
          l.restarts[r] < |l.pairs| && l.shared[l.restarts[r]] == 0)
    && (forall r, q :: 0 <= r < q < |l.restarts| ==> l.restarts[r] < l.restarts[q])
  }

  // ----- the restart array -----

  ghost function RestartOffsets(l: Layout): (xs: seq<nat>)
    requires Shape(l) && Restarts(l)
    ensures |xs| == |l.restarts|
    ensures forall r :: 0 <= r < |xs| ==> xs[r] == l.offs[l.restarts[r]]
  {
    seq(|l.restarts|, r requires 0 <= r < |l.restarts| => l.offs[l.restarts[r]])
  }

  /** The bytes of a finished block: entries, restart array, number of restarts. */
  ghost predicate BlockOk(block: Bytes, data: Bytes, l: Layout) {
    && Entries(data, l) && Restarts(l) && |block| < TWO32
    && (forall r :: 0 <= r < |l.restarts| ==> RestartOffsets(l)[r] < TWO32) && |l.restarts| < TWO32
    && block == data + FixedArray(RestartOffsets(l)) + PutFixed32(|l.restarts|)
  }

  // ----- offsets grow with the index -----

  lemma {:induction false} OffsetsGrow(data: Bytes, l: Layout, i: nat, j: nat)
    requires Entries(data, l) && i < j <= |l.pairs|
    ensures l.offs[i] < l.offs[j] <= |data|
    decreases j - i
  {
    assert EntryAt(data, l, i);
    if i + 1 < j {
      OffsetsGrow(data, l, i + 1, j);
    }
  }

  lemma OffsetsOrdered(data: Bytes, l: Layout, i: nat, j: nat)
    requires Entries(data, l) && i <= |l.pairs| && j <= |l.pairs|
    ensures l.offs[i] < l.offs[j] <==> i < j
    ensures l.offs[i] <= |data|
  {
    if i < j {
      OffsetsGrow(data, l, i, j);
    } else if j < i {
      OffsetsGrow(data, l, j, i);
    }
    if i < |l.pairs| {
      OffsetsGrow(data, l, i, |l.pairs|);
    }
  }

  /** A key is no longer than the entries up to its own. */
  lemma {:induction false} KeyBound(data: Bytes, l: Layout, i: nat)
    requires Entries(data, l) && i < |l.pairs|
    ensures |l.pairs[i].key| <= l.offs[i + 1]
    ensures l.shared[i] <= |l.pairs[i].key| && l.offs[i] + |l.pairs[i].key| - l.shared[i] + |l.pairs[i].value| <= l.offs[i + 1]
  {
    hide Varint;
    assert EntryAt(data, l, i);
    if i > 0 {
      KeyBound(data, l, i - 1);
    }
  }

  /** Reading the entry at its offset gives its lengths, suffix and value. */
  lemma ReadEntry(data: Bytes, l: Layout, i: nat)
    requires Entries(data, l) && i < |l.pairs| && |data| < TWO32
    ensures l.offs[i] < l.offs[i + 1] <= |data| && l.shared[i] <= |l.pairs[i].key|
    ensures var p := l.pairs[i];
            var s := l.shared[i];
            var r := DecodeEntry(data[l.offs[i]..]);
            && r.Got? && r.value == Lengths(s, |p.key| - s, |p.value|)
            && |data| - |r.rest| >= 0 && |data| - |r.rest| + (|p.key| - s) + |p.value| == l.offs[i + 1]
            && r.rest == data[|data| - |r.rest|..]
            && r.rest[..|p.key| - s] == p.key[s..]
            && r.rest[|p.key| - s..|p.key| - s + |p.value|] == p.value
  {
    hide Varint, DecodeEntry;
    assert EntryAt(data, l, i);
    var p, s := l.pairs[i], l.shared[i];
    var e, rest := EncodeEntry(s, p), data[l.offs[i + 1]..];
    assert data[l.offs[i]..] == e + rest;
    KeyBound(data, l, i);
    EntryRoundTrip(s, p, rest);
  }
}
