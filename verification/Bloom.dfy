/** The bloom filter: whatever was put in may match. */
module Bloom {
  import opened Coding

  /** Any 32-bit hash of the key; the filter relies on nothing but its being a
      function. */
  type Hash = Bytes -> nat

  /** h rotated right by 17 bits. */
  function Delta(h: nat): nat {
    h / 131072 + (h % 131072) * 32768
  }

  /** The position of probe j. */
  function Probe(h: nat, delta: nat, j: nat): nat {
    if j == 0 then h else (Probe(h, delta, j - 1) + delta) % TWO32
  }

  function Position(hash: Hash, key: Bytes, j: nat, bits: nat): (r: nat)
    requires bits > 0
    ensures r < bits
  {
    var h := hash(key) % TWO32;
    Probe(h, Delta(h), j) % bits
  }

  lemma ProbeStart(h: nat, delta: nat)
    ensures Probe(h, delta, 0) == h
  {
  }

  lemma ProbeStep(h: nat, delta: nat, j: nat)
    ensures (Probe(h, delta, j) + delta) % TWO32 == Probe(h, delta, j + 1)
  {
  }

  lemma PositionIs(hash: Hash, key: Bytes, j: nat, bits: nat)
    requires bits > 0
    ensures var h := hash(key) % TWO32;
            Position(hash, key, j, bits) == Probe(h, Delta(h), j) % bits
  {
  }

  // ----- bits of bytes -----

  function Mask(i: nat): bv8
    requires i < 8
  {
    1 << i
  }

  predicate HasBit(b: bv8, i: nat)
    requires i < 8
  {
    b & Mask(i) != 0
  }

  function SetBit(b: bv8, i: nat): bv8
    requires i < 8
  {
    b | Mask(i)
  }

  lemma SetBitKeeps(b: bv8, i: nat, j: nat)
    requires i < 8 && j < 8
    ensures HasBit(SetBit(b, i), j) <==> i == j || HasBit(b, j)
  {
    hide Mask;
    MaskBits(i, j);
    OrMask(b, Mask(i), Mask(j));
  }

  lemma MaskBits(i: nat, j: nat)
    requires i < 8 && j < 8
    ensures Mask(i) & Mask(j) != 0 <==> i == j
  {
    MaskValues();
    hide Mask;
  }

  lemma MaskValues()
    ensures Mask(0) == 1 && Mask(1) == 2 && Mask(2) == 4 && Mask(3) == 8
    ensures Mask(4) == 16 && Mask(5) == 32 && Mask(6) == 64 && Mask(7) == 128
  {
  }

  lemma OrMask(b: bv8, x: bv8, y: bv8)
    ensures (b | x) & y != 0 <==> b & y != 0 || x & y != 0
  {
  }

  predicate BitSet(a: seq<bv8>, pos: nat)
    requires pos < 8 * |a|
  {
    HasBit(a[pos / 8], pos % 8)
  }

  /** array[pos / 8] |= 1 << (pos % 8). */
  function Mark(a: seq<bv8>, pos: nat): (r: seq<bv8>)
    requires pos < 8 * |a|
    ensures |r| == |a|
  {
    a[pos / 8 := SetBit(a[pos / 8], pos % 8)]
  }

  /** Exactly one bit is set. */
  lemma MarkSets(a: seq<bv8>, pos: nat)
    requires pos < 8 * |a|
    ensures forall p: nat :: p < 8 * |a| ==> (BitSet(Mark(a, pos), p) <==> BitSet(a, p) || p == pos)
  {
    hide HasBit, SetBit, Mask;
    forall p: nat | p < 8 * |a|
      ensures BitSet(Mark(a, pos), p) <==> BitSet(a, p) || p == pos
    {
      SetBitKeeps(a[pos / 8], pos % 8, p % 8);
    }
  }

  // ----- the filter as bytes -----

  function AsBytes(a: seq<bv8>): (r: Bytes)
    ensures |r| == |a|
  {
    seq(|a|, i requires 0 <= i < |a| => OfBits(a[i]))
  }

  function AsBits(b: Bytes): (r: seq<bv8>)
    ensures |r| == |b|
  {
    seq(|b|, i requires 0 <= i < |b| => ToBits(b[i]))
  }

  lemma AsBitsRoundTrip(a: seq<bv8>)
    ensures AsBits(AsBytes(a)) == a
  {
    hide ToBits, OfBits;
    forall i | 0 <= i < |a|
      ensures ToBits(OfBits(a[i])) == a[i]
    {
      BitsRoundTrip(a[i]);
    }
  }

  /** The first k probes of the key are all set. */
  ghost predicate Covered(hash: Hash, a: seq<bv8>, key: Bytes, k: nat)
    requires |a| > 0
  {
    forall j: nat :: j < k ==> BitSet(a, Position(hash, key, j, 8 * |a|))
  }

  /** What KeyMayMatch decides. */
  ghost predicate Matches(hash: Hash, key: Bytes, filter: Bytes) {
    && |filter| >= 2
    && (var n := |filter| - 1;
        filter[n] > 30 || Covered(hash, AsBits(filter[..n]), key, filter[n]))
  }

  method KeyMayMatch(hash: Hash, key: Bytes, filter: Bytes) returns (r: bool)
    ensures r <==> Matches(hash, key, filter)
  {
    hide ToBits, BitSet, Probe, Delta, Position;
    var len := |filter|;
    if len < 2 {
      return false;
    }
    var a, bits := AsBits(filter[..len - 1]), (len - 1) * 8;
    var k := filter[len - 1];
    if k > 30 {
      return true;
    }
    var h := hash(key) % TWO32;
    var delta := Delta(h);
    ghost var h0 := h;
    var j := 0;
    ProbeStart(h, delta);
    while j < k
      invariant 0 <= j <= k && h == Probe(h0, delta, j)
      invariant Covered(hash, a, key, j)
    {
      PositionIs(hash, key, j, bits);
      ProbeStep(h0, delta, j);
      if !BitSet(a, h % bits) {
        return false;
      }
      h := (h + delta) % TWO32;
      j := j + 1;
    }
    return true;
  }

  /** Some of the first k probes of the key is bit p. */
  ghost predicate ProbedBy(hash: Hash, key: Bytes, k: nat, bits: nat, p: nat)
    requires bits > 0
  {
    exists j: nat :: j < k && Position(hash, key, j, bits) == p
  }

  /** Some key probes bit p. */
  ghost predicate Probed(hash: Hash, keys: seq<Bytes>, k: nat, bits: nat, p: nat)
    requires bits > 0
  {
    exists i :: 0 <= i < |keys| && ProbedBy(hash, keys[i], k, bits, p)
  }

  /** r is a with the first k probes of the key set. */
  ghost predicate WithProbes(hash: Hash, a: seq<bv8>, r: seq<bv8>, key: Bytes, k: nat)
    requires |a| > 0
  {
    && |r| == |a|
    && forall p: nat :: p < 8 * |a| ==> (BitSet(r, p) <==> BitSet(a, p) || ProbedBy(hash, key, k, 8 * |a|, p))
  }

  /** The bits set are those that the keys probe. */
  ghost predicate Exactly(hash: Hash, a: seq<bv8>, keys: seq<Bytes>, k: nat)
    requires |a| > 0
  {
    forall p: nat :: p < 8 * |a| ==> (BitSet(a, p) <==> Probed(hash, keys, k, 8 * |a|, p))
  }

  lemma OneMoreProbe(hash: Hash, a: seq<bv8>, r: seq<bv8>, key: Bytes, j: nat, r': seq<bv8>)
    requires |a| > 0 && WithProbes(hash, a, r, key, j)
    requires r' == Mark(r, Position(hash, key, j, 8 * |a|))
    ensures WithProbes(hash, a, r', key, j + 1)
  {
    hide BitSet, Mark, Position;
    MarkSets(r, Position(hash, key, j, 8 * |a|));
    forall p: nat | p < 8 * |a|
      ensures ProbedBy(hash, key, j + 1, 8 * |a|, p) <==> ProbedBy(hash, key, j, 8 * |a|, p) || Position(hash, key, j, 8 * |a|) == p
    {
    }
  }

  /** The inner loop: sets the probes of one key and nothing else. */
  method AddProbes(hash: Hash, a: seq<bv8>, key: Bytes, k: nat) returns (r: seq<bv8>)
    requires |a| > 0
    ensures WithProbes(hash, a, r, key, k)
  {
    hide HasBit, BitSet, Mark, Probe, Delta, Position, WithProbes;
    r := a;
    var bits := 8 * |a|;
    var h := hash(key) % TWO32;
    var delta := Delta(h);
    ghost var h0 := h;
    var j := 0;
    ProbeStart(h, delta);
    assert WithProbes(hash, a, a, key, 0) by { NoProbes(hash, a, key); }
    while j < k
      invariant 0 <= j <= k && h == Probe(h0, delta, j)
      invariant |r| == |a| && WithProbes(hash, a, r, key, j)
    {
      PositionIs(hash, key, j, bits);
      ProbeStep(h0, delta, j);
      OneMoreProbe(hash, a, r, key, j, Mark(r, h % bits));
      r := Mark(r, h % bits);
      h := (h + delta) % TWO32;
      j := j + 1;
    }
  }

  lemma NoProbes(hash: Hash, a: seq<bv8>, key: Bytes)
    requires |a| > 0
    ensures WithProbes(hash, a, a, key, 0)
  {
  }

  lemma OneMoreKey(hash: Hash, a: seq<bv8>, b: seq<bv8>, keys: seq<Bytes>, i: nat, k: nat)
    requires |a| > 0 && i < |keys| && Exactly(hash, a, keys[..i], k) && WithProbes(hash, a, b, keys[i], k)
    ensures |a| == |b| && Exactly(hash, b, keys[..i + 1], k)
  {
    hide BitSet, ProbedBy;
    var bits := 8 * |a|;
    forall p: nat | p < bits
      ensures Probed(hash, keys[..i + 1], k, bits, p) <==> Probed(hash, keys[..i], k, bits, p) || ProbedBy(hash, keys[i], k, bits, p)
    {
      MoreProbed(hash, keys, i, k, bits, p);
    }
  }

  lemma MoreProbed(hash: Hash, keys: seq<Bytes>, i: nat, k: nat, bits: nat, p: nat)
    requires i < |keys| && bits > 0
    ensures Probed(hash, keys[..i + 1], k, bits, p) <==> Probed(hash, keys[..i], k, bits, p) || ProbedBy(hash, keys[i], k, bits, p)
  {
    hide ProbedBy;
    var more, few := keys[..i + 1], keys[..i];
    assert more[i] == keys[i] && forall m :: 0 <= m < i ==> more[m] == few[m];
    if Probed(hash, few, k, bits, p) {
      var m :| 0 <= m < |few| && ProbedBy(hash, few[m], k, bits, p);
      assert ProbedBy(hash, more[m], k, bits, p);
    }
    if ProbedBy(hash, keys[i], k, bits, p) {
      assert ProbedBy(hash, more[i], k, bits, p);
    }
  }

  lemma ZeroBitsUnset(bytes: nat, hash: Hash, k: nat)
    requires bytes > 0
    ensures Exactly(hash, seq(bytes, i => 0 as bv8), [], k)
  {
    hide Mask;
  }

  /** The size of the bit array: at least 64 bits, in whole bytes. */
  function FilterBytes(n: nat, bitsPerKey: nat): (r: nat)
    ensures r >= 8
  {
    var bits := n * bitsPerKey;
    if bits < 64 then 8 else (bits + 7) / 8
  }

  /** BloomFilterPolicy: the hash, the bits for each key and the number of probes. */
  datatype Policy = Policy(hash: Hash, bitsPerKey: nat, probes: nat)

  /** The filter of these keys: bits in whole bytes, then the number of probes. */
  ghost predicate IsFilter(p: Policy, keys: seq<Bytes>, r: Bytes) {
    && |r| == FilterBytes(|keys|, p.bitsPerKey) + 1 && r[|r| - 1] == p.probes
    && Exactly(p.hash, AsBits(r[..|r| - 1]), keys, p.probes)
  }

  /** Every probe of the key is a probe of one of the keys put in. */
  ghost predicate AllProbed(p: Policy, keys: seq<Bytes>, key: Bytes) {
    var bits := 8 * FilterBytes(|keys|, p.bitsPerKey);
    forall j: nat :: j < p.probes ==> Probed(p.hash, keys, p.probes, bits, Position(p.hash, key, j, bits))
  }

  /** A filter matches a key exactly if the keys put in set all its probes. */
  lemma FilterMatches(p: Policy, keys: seq<Bytes>, r: Bytes, key: Bytes)
    requires IsFilter(p, keys, r) && p.probes <= 30
    ensures Matches(p.hash, key, r) <==> AllProbed(p, keys, key)
  {
    hide BitSet, Position, Probed;
  }

  lemma KeyIsProbed(p: Policy, keys: seq<Bytes>, key: Bytes)
    requires key in keys
    ensures AllProbed(p, keys, key)
  {
    hide Position;
    var i :| 0 <= i < |keys| && keys[i] == key;
    var bits := 8 * FilterBytes(|keys|, p.bitsPerKey);
    forall j: nat | j < p.probes
      ensures Probed(p.hash, keys, p.probes, bits, Position(p.hash, key, j, bits))
    {
      assert ProbedBy(p.hash, keys[i], p.probes, bits, Position(p.hash, key, j, bits));
    }
  }

  /** CreateFilter: a bit is set if and only if some key probes it, so no key put in
      is ever ruled out. The number of probes is between 1 and 30, as the policy
      clamps it. */
  method CreateFilter(hash: Hash, keys: seq<Bytes>, bitsPerKey: nat, k: nat, dst: Bytes) returns (r: Bytes)
    requires 1 <= k <= 30
    ensures |dst| < |r| && r[..|dst|] == dst && IsFilter(Policy(hash, bitsPerKey, k), keys, r[|dst|..])
  {
    hide HasBit, Covered, ToBits, OfBits, Exactly, WithProbes;
    var bits := |keys| * bitsPerKey;
    if bits < 64 {
      bits := 64;
    }
    var bytes := (bits + 7) / 8;
    var a := seq(bytes, i => 0 as bv8);
    ZeroBitsUnset(bytes, hash, k);
    assert keys[..0] == [];
    var i := 0;
    while i < |keys|
      invariant 0 <= i <= |keys| && |a| == bytes && Exactly(hash, a, keys[..i], k)
    {
      var b := AddProbes(hash, a, keys[i], k);
      OneMoreKey(hash, a, b, keys, i, k);
      a := b;
      i := i + 1;
    }
    assert keys[..i] == keys;
    var filter := AsBytes(a) + [k];
    AsBitsRoundTrip(a);
    assert filter[..bytes] == AsBytes(a);
    r := dst + filter;
    assert r[|dst|..] == filter;
  }
}
