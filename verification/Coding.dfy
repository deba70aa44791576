/** Bytes, fixed-width and variable-length integers, length-prefixed strings. */
module Coding {
  type Byte = x: int | 0 <= x < 256

  type Bytes = seq<Byte>

  const TWO32: nat := 0x1_0000_0000
  const TWO64: nat := 0x1_0000_0000_0000_0000

  /** The result of taking a value off the front of some bytes. */
  datatype Parsed<+T> = Malformed | Got(value: T, rest: Bytes)

  // ----- bytes as bit vectors -----

  function ToBits(b: Byte): bv8 { b as bv8 }

  function OfBits(b: bv8): Byte { b as int }

  lemma BitsRoundTrip(b: bv8)
    ensures ToBits(OfBits(b)) == b
  {
  }

  function Increment(v: bv8): bv8 { v + 1 }

  lemma IncrementBits(v: bv8)
    requires OfBits(v) < 255
    ensures OfBits(Increment(v)) == OfBits(v) + 1
  {
  }

  lemma ZeroBits()
    ensures OfBits(0) == 0
  {
  }

  lemma {:induction false} BytesRoundTrip(b: Byte)
    ensures OfBits(ToBits(b)) == b
    decreases b
  {
    hide ToBits, OfBits, Increment;
    if b == 0 {
      ZeroBits();
      BitsRoundTrip(0);
    } else {
      BytesRoundTrip(b - 1);
      var v := ToBits(b - 1);
      IncrementBits(v);
      BitsRoundTrip(Increment(v));
    }
  }

  // ----- fixed-width integers -----

  function PutFixed32(n: nat): (b: Bytes)
    requires n < TWO32
    ensures |b| == 4
  {
    [n % 256, n / 256 % 256, n / 256 / 256 % 256, n / 256 / 256 / 256]
  }

  function GetFixed32(b: Bytes): (n: nat)
    requires |b| >= 4
    ensures n < TWO32
  {
    b[0] as int + 256 * (b[1] as int + 256 * (b[2] as int + 256 * b[3] as int))
  }

  lemma Fixed32RoundTrip(n: nat, rest: Bytes)
    requires n < TWO32
    ensures GetFixed32(PutFixed32(n) + rest) == n
  {
    var n1 := n / 256;
    var n2 := n1 / 256;
    var n3 := n2 / 256;
    assert n == n % 256 + 256 * n1 && n1 == n1 % 256 + 256 * n2 && n2 == n2 % 256 + 256 * n3;
    var b := PutFixed32(n) + rest;
    assert b[0] == n % 256 && b[1] == n1 % 256 && b[2] == n2 % 256 && b[3] == n3;
  }

  function PutFixed64(n: nat): (b: Bytes)
    requires n < TWO64
    ensures |b| == 8
  {
    PutFixed32(n % TWO32) + PutFixed32(n / TWO32)
  }

  function GetFixed64(b: Bytes): (n: nat)
    requires |b| >= 8
    ensures n < TWO64
  {
    GetFixed32(b) + TWO32 * GetFixed32(b[4..])
  }

  lemma Fixed64RoundTrip(n: nat, rest: Bytes)
    requires n < TWO64
    ensures GetFixed64(PutFixed64(n) + rest) == n
  {
    hide PutFixed32, GetFixed32;
    var low, high := PutFixed32(n % TWO32), PutFixed32(n / TWO32);
    var b := PutFixed64(n) + rest;
    assert b == low + (high + rest) && b[4..] == high + rest;
    Fixed32RoundTrip(n % TWO32, high + rest);
    Fixed32RoundTrip(n / TWO32, rest);
  }

  /** Consecutive 32-bit words. */
  function FixedArray(xs: seq<nat>): (b: Bytes)
    requires forall i :: 0 <= i < |xs| ==> xs[i] < TWO32
    ensures |b| == 4 * |xs|
  {
    if xs == [] then [] else FixedArray(xs[..|xs| - 1]) + PutFixed32(xs[|xs| - 1])
  }

  lemma {:induction false} FixedArrayAt(xs: seq<nat>, i: nat, rest: Bytes)
    requires (forall k :: 0 <= k < |xs| ==> xs[k] < TWO32) && i < |xs|
    ensures GetFixed32((FixedArray(xs) + rest)[4 * i..]) == xs[i]
  {
    hide PutFixed32, GetFixed32;
    var n := |xs| - 1;
    var b := FixedArray(xs) + rest;
    assert b == FixedArray(xs[..n]) + (PutFixed32(xs[n]) + rest);
    if i < n {
      FixedArrayAt(xs[..n], i, PutFixed32(xs[n]) + rest);
    } else {
      assert b[4 * i..] == PutFixed32(xs[n]) + rest;
      Fixed32RoundTrip(xs[n], rest);
    }
  }

  // ----- varints: seven bits a byte, least significant first -----

  function Varint(n: nat): (b: Bytes)
    ensures |b| >= 1
  {
    if n < 128 then [n] else [128 + n % 128] + Varint(n / 128)
  }

  /** The digits up to the first byte below 128, in at most max bytes. */
  function RawVarint(b: Bytes, max: nat): Parsed<int> {
    if b == [] || max == 0 then Malformed
    else if b[0] < 128 then Got(b[0], b[1..])
    else
      match RawVarint(b[1..], max - 1)
      case Malformed => Malformed
      case Got(v, rest) => Got(b[0] - 128 + 128 * v, rest)
  }

  /** GetVarint32: five bytes at most, truncated to 32 bits. */
  function GetVarint32(b: Bytes): Parsed<nat> {
    match RawVarint(b, 5)
    case Malformed => Malformed
    case Got(v, rest) => Got(v % TWO32, rest)
  }

  function GetVarint64(b: Bytes): Parsed<nat> {
    match RawVarint(b, 10)
    case Malformed => Malformed
    case Got(v, rest) => Got(v % TWO64, rest)
  }

  lemma {:induction false} RawVarintRoundTrip(n: nat, max: nat, rest: Bytes)
    requires |Varint(n)| <= max
    ensures RawVarint(Varint(n) + rest, max) == Got(n, rest)
  {
    var b := Varint(n) + rest;
    if n < 128 {
      assert b[1..] == rest;
    } else {
      assert b[1..] == Varint(n / 128) + rest;
      RawVarintRoundTrip(n / 128, max - 1, rest);
    }
  }

  function Pow128(k: nat): nat {
    if k == 0 then 1 else 128 * Pow128(k - 1)
  }

  lemma {:induction false} VarintLength(n: nat, k: nat)
    requires k >= 1 && n < Pow128(k)
    ensures |Varint(n)| <= k
  {
    if n >= 128 {
      assert k >= 2 by {
        assert Pow128(1) == 128;
      }
      VarintLength(n / 128, k - 1);
    }
  }

  lemma Powers()
    ensures TWO32 <= Pow128(5) && TWO64 <= Pow128(10)
  {
    assert Pow128(3) == 2097152;
    assert Pow128(5) == 34359738368;
    assert Pow128(7) == 562949953421312;
    assert Pow128(9) == 9223372036854775808;
  }

  /** 32-bit values take at most five bytes, 64-bit values at most ten. */
  lemma VarintBytes(n: nat)
    ensures n < TWO32 ==> |Varint(n)| <= 5
    ensures n < TWO64 ==> |Varint(n)| <= 10
  {
    hide Varint, Pow128;
    Powers();
    if n < TWO32 {
      VarintLength(n, 5);
    }
    if n < TWO64 {
      VarintLength(n, 10);
    }
  }

  lemma Varint32RoundTrip(n: nat, rest: Bytes)
    requires n < TWO32
    ensures GetVarint32(Varint(n) + rest) == Got(n, rest)
  {
    hide Varint, RawVarint, Pow128;
    Powers();
    VarintLength(n, 5);
    RawVarintRoundTrip(n, 5, rest);
  }

  lemma Varint64RoundTrip(n: nat, rest: Bytes)
    requires n < TWO64
    ensures GetVarint64(Varint(n) + rest) == Got(n, rest)
  {
    hide Varint, RawVarint, Pow128;
    Powers();
    VarintLength(n, 10);
    RawVarintRoundTrip(n, 10, rest);
  }

  /** EncodeVarint32: the loop unrolled into five cases. */
  method EncodeVarint32(v: nat) returns (b: Bytes)
    requires v < TWO32
    ensures b == Varint(v)
  {
    var v1 := v / 128;
    var v2 := v1 / 128;
    var v3 := v2 / 128;
    var v4 := v3 / 128;
    if v < 128 {
      b := [v];
    } else if v < 16384 {
      b := [128 + v % 128, v1];
    } else if v < 2097152 {
      b := [128 + v % 128, 128 + v1 % 128, v2];
      assert Varint(v1) == b[1..];
    } else if v < 268435456 {
      b := [128 + v % 128, 128 + v1 % 128, 128 + v2 % 128, v3];
      assert Varint(v2) == b[2..];
      assert Varint(v1) == b[1..];
    } else {
      b := [128 + v % 128, 128 + v1 % 128, 128 + v2 % 128, 128 + v3 % 128, v4];
      assert Varint(v3) == b[3..];
      assert Varint(v2) == b[2..];
      assert Varint(v1) == b[1..];
    }
  }

  lemma VarintStep(n: nat)
    ensures Varint(n) == if n < 128 then [n] else [128 + n % 128] + Varint(n / 128)
  {
  }

  /** EncodeVarint64. */
  method EncodeVarint64(v: nat) returns (b: Bytes)
    requires v < TWO64
    ensures b == Varint(v)
  {
    hide Varint;
    b := [];
    var n := v;
    while n >= 128
      invariant n >= 0 && b + Varint(n) == Varint(v)
    {
      VarintStep(n);
      assert b + ([128 + n % 128] + Varint(n / 128)) == b + [128 + n % 128] + Varint(n / 128);
      b := b + [128 + n % 128];
      n := n / 128;
    }
    VarintStep(n);
    b := b + [n];
  }

  /** What is left to decode, added on top of the digits read so far. */
  function OnTop(result: int, weight: int, p: Parsed<int>): Parsed<int> {
    if p.Malformed? then Malformed else Got(result + weight * p.value, p.rest)
  }

  /** GetVarint32Ptr: reads from offset p up to limit; Malformed stands for a null pointer. */
  method GetVarint32Ptr(data: Bytes, p: nat, limit: nat) returns (r: Parsed<nat>)
    requires p <= limit <= |data|
    ensures r == GetVarint32(data[p..limit])
  {
    hide RawVarint, OnTop;
    ghost var b := data[p..limit];
    assert b[0..] == b;
    OnTopOfNothing(RawVarint(b, 5));
    var q, shift, weight, result := p, 0, 1, 0;
    while shift <= 28 && q < limit
      invariant p <= q <= limit && shift == 7 * (q - p) && shift <= 35
      invariant RawVarint(b, 5) == OnTop(result, weight, RawVarint(b[q - p..], 5 - (q - p)))
    {
      var byte := data[q];
      assert b[q - p..][0] == byte && b[q - p..][1..] == b[q + 1 - p..];
      UnfoldRaw(b[q - p..], 5 - (q - p), result, weight);
      q := q + 1;
      if byte < 128 {
        assert b[q - p..] == data[q..limit];
        return Got((result + byte * weight) % TWO32, data[q..limit]);
      }
      result, weight, shift := result + (byte - 128) * weight, 128 * weight, shift + 7;
    }
    RawEmpty(b[q - p..], 5 - (q - p), result, weight);
    r := Malformed;
  }

  lemma OnTopOfNothing(p: Parsed<int>)
    ensures OnTop(0, 1, p) == p
  {
  }

  lemma RawEmpty(b: Bytes, max: nat, result: int, weight: int)
    requires b == [] || max == 0
    ensures OnTop(result, weight, RawVarint(b, max)) == Malformed
  {
  }

  lemma UnfoldRaw(b: Bytes, max: nat, result: int, weight: int)
    requires b != [] && max > 0
    ensures OnTop(result, weight, RawVarint(b, max)) ==
            if b[0] < 128 then Got(result + b[0] * weight, b[1..])
            else OnTop(result + (b[0] - 128) * weight, 128 * weight, RawVarint(b[1..], max - 1))
  {
    if b[0] < 128 {
      SwapFactors(weight, b[0]);
    } else {
      RawMore(b, max);
      if RawVarint(b[1..], max - 1).Got? {
        hide RawVarint;
        MoreDigits(weight, b[0] - 128, RawVarint(b[1..], max - 1).value);
      }
    }
  }

  lemma RawMore(b: Bytes, max: nat)
    requires b != [] && max > 0 && b[0] >= 128
    ensures RawVarint(b, max) ==
            match RawVarint(b[1..], max - 1)
            case Malformed => Malformed
            case Got(v, rest) => Got(b[0] - 128 + 128 * v, rest)
  {
  }

  lemma SwapFactors(x: int, y: int)
    ensures x * y == y * x
  {
  }

  lemma MoreDigits(weight: int, digit: int, v: int)
    ensures weight * (digit + 128 * v) == digit * weight + 128 * weight * v
  {
  }

  // ----- length-prefixed strings -----

  function PutSlice(s: Bytes): Bytes {
    Varint(|s|) + s
  }

  function GetSlice(b: Bytes): Parsed<Bytes> {
    match GetVarint32(b)
    case Malformed => Malformed
    case Got(n, rest) => if |rest| < n then Malformed else Got(rest[..n], rest[n..])
  }

  lemma SliceRoundTrip(s: Bytes, rest: Bytes)
    requires |s| < TWO32
    ensures GetSlice(PutSlice(s) + rest) == Got(s, rest)
  {
    hide Varint, GetVarint32;
    assert PutSlice(s) + rest == Varint(|s|) + (s + rest);
    Varint32RoundTrip(|s|, s + rest);
  }

  // ----- a parse consumes a prefix -----

  lemma {:induction false} RawVarintRest(b: Bytes, max: nat)
    ensures RawVarint(b, max).Got? ==> RawVarint(b, max).value >= 0 && |RawVarint(b, max).rest| < |b|
  {
    if b != [] && max > 0 && b[0] >= 128 {
      RawVarintRest(b[1..], max - 1);
    }
  }

  lemma GetVarintRest(b: Bytes)
    ensures GetVarint32(b).Got? ==> |GetVarint32(b).rest| < |b| && GetVarint32(b).value < TWO32
    ensures GetVarint64(b).Got? ==> |GetVarint64(b).rest| < |b| && GetVarint64(b).value < TWO64
    ensures GetSlice(b).Got? ==> |GetSlice(b).rest| < |b|
  {
    RawVarintRest(b, 5);
    RawVarintRest(b, 10);
  }
}
