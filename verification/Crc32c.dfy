/** CRC32C: the table-driven, four-bytes-at-a-time computation against the
    bit-at-a-time definition of the Castagnoli polynomial (section 12.1 of
    RFC 3720), and the masking of stored checksums. */
module Crc32c {

  /** A 32-bit register. */
  datatype Reg = Reg(bits: bv32)

  /** The Castagnoli polynomial, bit-reversed. */
  const POLYNOMIAL: Reg := Reg(0x82f63b78)

  function Xor(a: Reg, b: Reg): Reg {
    Reg(a.bits ^ b.bits)
  }

  const ONES: Reg := Reg(0xffffffff)

  predicate LowBit(x: Reg) { x.bits & 1 == 1 }

  function Half(x: Reg): Reg { Reg(x.bits >> 1) }

  /** One bit of polynomial division. */
  function Shift1(x: Reg): Reg {
    if LowBit(x) then Xor(Half(x), POLYNOMIAL) else Half(x)
  }

  function Shift4(x: Reg): Reg {
    Shift1(Shift1(Shift1(Shift1(x))))
  }

  function Shift8(x: Reg): Reg {
    Shift4(Shift4(x))
  }

  function Wide(b: bv8): bv32 { b as bv32 }

  function Narrow(x: bv32): bv8 { (x & 0xff) as bv8 }

  /** A byte in the lowest, second, third and highest place of a register. */
  function Place0(b: bv8): Reg { Reg(Wide(b)) }

  function Place1(b: bv8): Reg { Reg((b as bv32) << 8) }

  function Place2(b: bv8): Reg { Reg((b as bv32) << 16) }

  function Place3(b: bv8): Reg { Reg((b as bv32) << 24) }

  /** The bytes of a register, and the register moved down a byte. */
  function Byte0(x: Reg): bv8 { Narrow(x.bits) }

  function Byte1(x: Reg): bv8 { ((x.bits >> 8) & 0xff) as bv8 }

  function Byte2(x: Reg): bv8 { ((x.bits >> 16) & 0xff) as bv8 }

  function Byte3(x: Reg): bv8 { (x.bits >> 24) as bv8 }

  function Down8(x: Reg): Reg { Reg(x.bits >> 8) }

  function XorByte(a: bv8, b: bv8): bv8 { a ^ b }

  /** The register after one more byte. */
  function Step(l: Reg, b: bv8): Reg {
    Shift8(Xor(l, Place0(b)))
  }

  /** The register after all bytes, one at a time. */
  function Fold(l: Reg, data: seq<bv8>): Reg {
    if data == [] then l else Step(Fold(l, data[..|data| - 1]), data[|data| - 1])
  }

  /** crc32c::Extend as defined by the polynomial. */
  function Crc(init: Reg, data: seq<bv8>): Reg {
    Xor(Fold(Xor(init, ONES), data), ONES)
  }

  // ----- the tables -----

  function Table0(c: bv8): Reg { Shift8(Place0(c)) }

  function Table1(c: bv8): Reg { Shift8(Table0(c)) }

  function Table2(c: bv8): Reg { Shift8(Table1(c)) }

  function Table3(c: bv8): Reg { Shift8(Table2(c)) }

  // ----- the tables of the source -----

  /** The entries at powers of two. With TablesLinear they determine every entry. */
  lemma Table0Basis()
    ensures Table0(1) == Reg(0xf26b8303) && Table0(2) == Reg(0xe13b70f7)
    ensures Table0(4) == Reg(0xc79a971f) && Table0(8) == Reg(0x8ad958cf)
    ensures Table0(16) == Reg(0x105ec76f) && Table0(32) == Reg(0x20bd8ede)
    ensures Table0(64) == Reg(0x417b1dbc) && Table0(128) == Reg(0x82f63b78)
  {
  }

  lemma Table1Basis()
    ensures Table1(1) == Reg(0x13a29877) && Table1(2) == Reg(0x274530ee)
    ensures Table1(4) == Reg(0x4e8a61dc) && Table1(8) == Reg(0x9d14c3b8)
    ensures Table1(16) == Reg(0x3fc5f181) && Table1(32) == Reg(0x7f8be302)
    ensures Table1(64) == Reg(0xff17c604) && Table1(128) == Reg(0xfbc3faf9)
  {
    hide Table0;
    Table0Basis();
  }

  lemma Table2Basis()
    ensures Table2(1) == Reg(0xa541927e) && Table2(2) == Reg(0x4f6f520d)
    ensures Table2(4) == Reg(0x9edea41a) && Table2(8) == Reg(0x38513ec5)
    ensures Table2(16) == Reg(0x70a27d8a) && Table2(32) == Reg(0xe144fb14)
    ensures Table2(64) == Reg(0xc76580d9) && Table2(128) == Reg(0x8b277743)
  {
    hide Table1;
    Table1Basis();
  }

  lemma Table3Basis()
    ensures Table3(1) == Reg(0xdd45aab8) && Table3(2) == Reg(0xbf672381)
    ensures Table3(4) == Reg(0x7b2231f3) && Table3(8) == Reg(0xf64463e6)
    ensures Table3(16) == Reg(0xe964b13d) && Table3(32) == Reg(0xd725148b)
    ensures Table3(64) == Reg(0xaba65fe7) && Table3(128) == Reg(0x52a0c93f)
  {
    hide Table2;
    Table2Basis();
  }

  // ----- polynomial division is linear -----

  lemma XorAssociates(a: Reg, b: Reg, c: Reg)
    ensures Xor(a, Xor(b, c)) == Xor(Xor(a, b), c)
  {
  }

  lemma XorCommutes(a: Reg, b: Reg)
    ensures Xor(a, b) == Xor(b, a)
  {
  }

  lemma HalfXor(a: Reg, b: Reg)
    ensures Half(Xor(a, b)) == Xor(Half(a), Half(b))
  {
  }

  lemma LowBitXor(a: Reg, b: Reg)
    ensures LowBit(Xor(a, b)) <==> LowBit(a) != LowBit(b)
  {
  }

  lemma XorTwice(a: Reg, b: Reg)
    ensures Xor(Xor(a, b), b) == a
  {
  }

  lemma Shift1Linear(a: Reg, b: Reg)
    ensures Shift1(Xor(a, b)) == Xor(Shift1(a), Shift1(b))
  {
    hide LowBit, Half, Xor;
    HalfXor(a, b);
    LowBitXor(a, b);
    var p, q, r := Half(a), Half(b), POLYNOMIAL;
    XorAssociates(p, q, r);
    XorAssociates(p, r, q);
    XorCommutes(q, r);
    XorAssociates(Xor(p, r), q, r);
    XorTwice(Xor(p, q), r);
  }

  lemma Shift4Linear(a: Reg, b: Reg)
    ensures Shift4(Xor(a, b)) == Xor(Shift4(a), Shift4(b))
  {
    hide Shift1, Xor;
    Shift1Linear(a, b);
    Shift1Linear(Shift1(a), Shift1(b));
    Shift1Linear(Shift1(Shift1(a)), Shift1(Shift1(b)));
    Shift1Linear(Shift1(Shift1(Shift1(a))), Shift1(Shift1(Shift1(b))));
  }

  lemma Shift8Linear(a: Reg, b: Reg)
    ensures Shift8(Xor(a, b)) == Xor(Shift8(a), Shift8(b))
  {
    hide Shift4, Xor;
    Shift4Linear(a, b);
    Shift4Linear(Shift4(a), Shift4(b));
  }

  lemma PlaceXor(a: bv8, b: bv8)
    ensures Place0(XorByte(a, b)) == Xor(Place0(a), Place0(b))
  {
  }

  /** An entry is the exclusive or of the entries of its bits. */
  lemma TablesLinear(a: bv8, b: bv8)
    ensures Table0(XorByte(a, b)) == Xor(Table0(a), Table0(b))
    ensures Table1(XorByte(a, b)) == Xor(Table1(a), Table1(b))
    ensures Table2(XorByte(a, b)) == Xor(Table2(a), Table2(b))
    ensures Table3(XorByte(a, b)) == Xor(Table3(a), Table3(b))
  {
    hide Shift8, Xor, Place0, XorByte;
    PlaceXor(a, b);
    Shift8Linear(Place0(a), Place0(b));
    Shift8Linear(Table0(a), Table0(b));
    Shift8Linear(Table1(a), Table1(b));
    Shift8Linear(Table2(a), Table2(b));
  }

  /** The register without its lowest byte. */
  function Upper(x: Reg): Reg { Reg(x.bits & 0xffffff00) }

  lemma Shift8OfUpper(x: Reg)
    ensures Shift8(Upper(x)) == Down8(x)
  {
  }

  lemma SplitLowByte(x: Reg)
    ensures x == Xor(Place0(Byte0(x)), Upper(x))
  {
  }

  /** One table lookup does a byte of polynomial division. */
  lemma TableStep(x: Reg)
    ensures Shift8(x) == Xor(Table0(Byte0(x)), Down8(x))
  {
    hide Shift8, Xor, Upper, Down8, Byte0, Place0;
    SplitLowByte(x);
    Shift8Linear(Place0(Byte0(x)), Upper(x));
    Shift8OfUpper(x);
  }

  // ----- STEP1 -----

  /** The code's STEP1. */
  function Step1(l: Reg, b: bv8): Reg {
    Xor(Table0(XorByte(Byte0(l), b)), Down8(l))
  }

  lemma NarrowXor(x: bv32, b: bv8)
    ensures Narrow(x ^ Wide(b)) == XorByte(Narrow(x), b)
  {
  }

  lemma DownXor(x: bv32, b: bv8)
    ensures (x ^ Wide(b)) >> 8 == x >> 8
  {
  }

  lemma ByteXor(l: Reg, b: bv8)
    ensures Byte0(Xor(l, Place0(b))) == XorByte(Byte0(l), b)
    ensures Down8(Xor(l, Place0(b))) == Down8(l)
  {
    hide Narrow, Wide, XorByte;
    NarrowXor(l.bits, b);
    DownXor(l.bits, b);
  }

  lemma Step1IsStep(l: Reg, b: bv8)
    ensures Step1(l, b) == Step(l, b)
  {
    hide Shift8, Table0, Xor, Byte0, Down8, Place0, XorByte;
    ByteXor(l, b);
    TableStep(Xor(l, Place0(b)));
  }

  // ----- STEP4 -----

  /** LE_LOAD32. */
  function Word(b0: bv8, b1: bv8, b2: bv8, b3: bv8): Reg {
    Reg((b0 as bv32) | ((b1 as bv32) << 8) | ((b2 as bv32) << 16) | ((b3 as bv32) << 24))
  }

  /** The code's STEP4 on a loaded word. */
  function Step4(l: Reg, w: Reg): Reg {
    var c := Xor(l, w);
    Xor(Xor(Xor(Table3(Byte0(c)), Table2(Byte1(c))), Table1(Byte2(c))), Table0(Byte3(c)))
  }

  function Shift32(x: Reg): Reg { Shift8(Shift8(Shift8(Shift8(x)))) }

  lemma Shift32Linear(a: Reg, b: Reg)
    ensures Shift32(Xor(a, b)) == Xor(Shift32(a), Shift32(b))
  {
    hide Shift8, Xor;
    Shift8Linear(a, b);
    Shift8Linear(Shift8(a), Shift8(b));
    Shift8Linear(Shift8(Shift8(a)), Shift8(Shift8(b)));
    Shift8Linear(Shift8(Shift8(Shift8(a))), Shift8(Shift8(Shift8(b))));
  }

  /** A byte moves down one place per eight bits. */
  lemma PlacedByte(b: bv8)
    ensures Shift8(Place1(b)) == Place0(b)
    ensures Shift8(Place2(b)) == Place1(b)
    ensures Shift8(Place3(b)) == Place2(b)
  {
    PlacedUpper(b);
    hide Shift8, Upper, Down8, Place0, Place1, Place2, Place3;
    Shift8OfUpper(Place1(b));
    Shift8OfUpper(Place2(b));
    Shift8OfUpper(Place3(b));
  }

  lemma PlacedUpper(b: bv8)
    ensures Upper(Place1(b)) == Place1(b) && Down8(Place1(b)) == Place0(b)
    ensures Upper(Place2(b)) == Place2(b) && Down8(Place2(b)) == Place1(b)
    ensures Upper(Place3(b)) == Place3(b) && Down8(Place3(b)) == Place2(b)
  {
  }

  lemma SplitWord(c: Reg)
    ensures c == Xor(Xor(Xor(Place0(Byte0(c)), Place1(Byte1(c))), Place2(Byte2(c))), Place3(Byte3(c)))
  {
  }

  lemma PlacedShift32(b: bv8)
    ensures Shift32(Place0(b)) == Table3(b) && Shift32(Place1(b)) == Table2(b)
    ensures Shift32(Place2(b)) == Table1(b) && Shift32(Place3(b)) == Table0(b)
  {
    hide Shift8, Place0, Place1, Place2, Place3;
    PlacedByte(b);
  }

  /** Four lookups do four bytes of polynomial division. */
  lemma Step4IsShift32(l: Reg, w: Reg)
    ensures Step4(l, w) == Shift32(Xor(l, w))
  {
    hide Shift32, Xor, Place0, Place1, Place2, Place3, Byte0, Byte1, Byte2, Byte3, Table0, Table1, Table2, Table3;
    var c := Xor(l, w);
    SplitWord(c);
    var p0, p1, p2, p3 := Place0(Byte0(c)), Place1(Byte1(c)), Place2(Byte2(c)), Place3(Byte3(c));
    Shift32Linear(Xor(Xor(p0, p1), p2), p3);
    Shift32Linear(Xor(p0, p1), p2);
    Shift32Linear(p0, p1);
    PlacedShift32(Byte0(c));
    PlacedShift32(Byte1(c));
    PlacedShift32(Byte2(c));
    PlacedShift32(Byte3(c));
  }

  lemma WordIsXor(b0: bv8, b1: bv8, b2: bv8, b3: bv8)
    ensures Word(b0, b1, b2, b3) == Xor(Xor(Xor(Place0(b0), Place1(b1)), Place2(b2)), Place3(b3))
  {
  }

  lemma WordXor(l: Reg, b0: bv8, b1: bv8, b2: bv8, b3: bv8)
    ensures Xor(Xor(Xor(Xor(l, Place0(b0)), Place1(b1)), Place2(b2)), Place3(b3)) == Xor(l, Word(b0, b1, b2, b3))
  {
    hide Word, Xor, Place0, Place1, Place2, Place3;
    WordIsXor(b0, b1, b2, b3);
    var p0, p1, p2, p3 := Place0(b0), Place1(b1), Place2(b2), Place3(b3);
    XorAssociates(l, p0, p1);
    XorAssociates(l, Xor(p0, p1), p2);
    XorAssociates(l, Xor(Xor(p0, p1), p2), p3);
  }

  /** Four single-byte steps at once. */
  lemma FourSteps(l: Reg, b0: bv8, b1: bv8, b2: bv8, b3: bv8)
    ensures Step(Step(Step(Step(l, b0), b1), b2), b3) == Shift32(Xor(l, Word(b0, b1, b2, b3)))
  {
    hide Shift8, Xor, Place0, Place1, Place2, Place3, Word;
    PlacedByte(b1);
    PlacedByte(b2);
    PlacedByte(b3);
    var w1 := Xor(l, Place0(b0));
    var w2 := Xor(w1, Place1(b1));
    var w3 := Xor(w2, Place2(b2));
    Shift8Linear(w1, Place1(b1));
    Shift8Linear(w2, Place2(b2));
    Shift8Linear(Shift8(w2), Place1(b2));
    Shift8Linear(w3, Place3(b3));
    Shift8Linear(Shift8(w3), Place2(b3));
    Shift8Linear(Shift8(Shift8(w3)), Place1(b3));
    WordXor(l, b0, b1, b2, b3);
  }

  // ----- Extend -----

  lemma FoldStep(l: Reg, data: seq<bv8>, p: nat)
    requires p < |data|
    ensures Fold(l, data[..p + 1]) == Step(Fold(l, data[..p]), data[p])
  {
    hide Step;
    assert data[..p + 1][..p] == data[..p];
  }

  lemma FoldFour(l: Reg, data: seq<bv8>, p: nat)
    requires p + 4 <= |data|
    ensures Fold(l, data[..p + 4]) == Step4(Fold(l, data[..p]), Word(data[p], data[p + 1], data[p + 2], data[p + 3]))
  {
    hide Step, Step4, Shift32, Word, Fold, Xor;
    FoldStep(l, data, p);
    FoldStep(l, data, p + 1);
    FoldStep(l, data, p + 2);
    FoldStep(l, data, p + 3);
    FourSteps(Fold(l, data[..p]), data[p], data[p + 1], data[p + 2], data[p + 3]);
    Step4IsShift32(Fold(l, data[..p]), Word(data[p], data[p + 1], data[p + 2], data[p + 3]));
  }

  lemma FoldEmpty(l: Reg, buf: seq<bv8>)
    ensures Fold(l, buf[..0]) == l
  {
  }

  /** crc32c::Extend on a buffer that begins at address `address`: single bytes up
      to a 4-byte boundary, then 16 and 4 at a time, then the rest. */
  method Extend(init: Reg, buf: seq<bv8>, address: nat) returns (crc: Reg)
    ensures crc == Crc(init, buf)
  {
    hide Fold, Step1, Step4, Word, Step, Xor;
    var l := Xor(init, ONES);
    ghost var l0 := l;
    var e := |buf|;
    var p := 0;
    FoldEmpty(l0, buf);
    var x := (address + 3) / 4 * 4 - address;
    if x <= e {
      while p != x
        invariant 0 <= p <= x
        invariant l == Fold(l0, buf[..p])
      {
        l := NextByte(l0, buf, p, l);
        p := p + 1;
      }
    }
    while e - p >= 16
      invariant 0 <= p <= e
      invariant l == Fold(l0, buf[..p])
    {
      l := NextWord(l0, buf, p, l);
      l := NextWord(l0, buf, p + 4, l);
      l := NextWord(l0, buf, p + 8, l);
      l := NextWord(l0, buf, p + 12, l);
      p := p + 16;
    }
    while e - p >= 4
      invariant 0 <= p <= e
      invariant l == Fold(l0, buf[..p])
    {
      l := NextWord(l0, buf, p, l);
      p := p + 4;
    }
    while p != e
      invariant 0 <= p <= e
      invariant l == Fold(l0, buf[..p])
    {
      l := NextByte(l0, buf, p, l);
      p := p + 1;
    }
    assert buf[..e] == buf;
    crc := Xor(l, ONES);
  }

  /** STEP1 at position p. */
  method NextByte(ghost l0: Reg, buf: seq<bv8>, p: nat, l: Reg) returns (r: Reg)
    requires p < |buf| && l == Fold(l0, buf[..p])
    ensures r == Fold(l0, buf[..p + 1])
  {
    hide Step, Step1, Fold;
    FoldStep(l0, buf, p);
    Step1IsStep(l, buf[p]);
    r := Step1(l, buf[p]);
  }

  /** STEP4 at position p. */
  method NextWord(ghost l0: Reg, buf: seq<bv8>, p: nat, l: Reg) returns (r: Reg)
    requires p + 4 <= |buf| && l == Fold(l0, buf[..p])
    ensures r == Fold(l0, buf[..p + 4])
  {
    hide Step, Step4, Word, Fold;
    FoldFour(l0, buf, p);
    r := Step4(l, Word(buf[p], buf[p + 1], buf[p + 2], buf[p + 3]));
  }

  lemma {:induction false} FoldConcat(l: Reg, a: seq<bv8>, b: seq<bv8>)
    ensures Fold(l, a + b) == Fold(Fold(l, a), b)
  {
    hide Step;
    if b == [] {
      assert a + b == a;
    } else {
      var n := |b| - 1;
      FoldConcat(l, a, b[..n]);
      assert (a + b)[..|a + b| - 1] == a + b[..n];
    }
  }

  lemma DoubleXor(x: Reg)
    ensures Xor(Xor(x, ONES), ONES) == x
  {
  }

  /** Extending by a and then by b is extending by their concatenation. */
  lemma CrcConcat(init: Reg, a: seq<bv8>, b: seq<bv8>)
    ensures Crc(Crc(init, a), b) == Crc(init, a + b)
  {
    hide Fold, Xor;
    FoldConcat(Xor(init, ONES), a, b);
    DoubleXor(Fold(Xor(init, ONES), a));
  }

  // ----- one changed byte -----

  lemma Shift1Injective(x: Reg, y: Reg)
    requires Shift1(x) == Shift1(y)
    ensures x == y
  {
  }

  /** Dividing by the polynomial loses nothing. */
  lemma Shift8Injective(x: Reg, y: Reg)
    requires Shift8(x) == Shift8(y)
    ensures x == y
  {
    hide Shift1;
    Shift4Injective(Shift4(x), Shift4(y));
    Shift4Injective(x, y);
  }

  lemma Shift4Injective(x: Reg, y: Reg)
    requires Shift4(x) == Shift4(y)
    ensures x == y
  {
    hide Shift1;
    Shift1Injective(Shift1(Shift1(Shift1(x))), Shift1(Shift1(Shift1(y))));
    Shift1Injective(Shift1(Shift1(x)), Shift1(Shift1(y)));
    Shift1Injective(Shift1(x), Shift1(y));
    Shift1Injective(x, y);
  }

  lemma XorCancels(l: Reg, m: Reg, p: Reg)
    requires Xor(l, p) == Xor(m, p)
    ensures l == m
  {
    hide Xor;
    XorTwice(l, p);
    XorTwice(m, p);
  }

  lemma PlaceInjective(x: bv8, y: bv8)
    requires Place0(x) == Place0(y)
    ensures x == y
  {
  }

  lemma StepInjective(l: Reg, m: Reg, b: bv8)
    requires Step(l, b) == Step(m, b)
    ensures l == m
  {
    hide Shift8, Xor, Place0;
    Shift8Injective(Xor(l, Place0(b)), Xor(m, Place0(b)));
    XorCancels(l, m, Place0(b));
  }

  lemma StepSeesByte(l: Reg, x: bv8, y: bv8)
    requires Step(l, x) == Step(l, y)
    ensures x == y
  {
    hide Shift8, Xor, Place0;
    Shift8Injective(Xor(l, Place0(x)), Xor(l, Place0(y)));
    XorCommutes(l, Place0(x));
    XorCommutes(l, Place0(y));
    XorCancels(Place0(x), Place0(y), l);
    PlaceInjective(x, y);
  }

  lemma {:induction false} FoldInjective(l: Reg, m: Reg, data: seq<bv8>)
    requires Fold(l, data) == Fold(m, data)
    ensures l == m
  {
    hide Step;
    if data != [] {
      var n := |data| - 1;
      StepInjective(Fold(l, data[..n]), Fold(m, data[..n]), data[n]);
      FoldInjective(l, m, data[..n]);
    }
  }

  /** Changing one byte always changes the checksum. */
  lemma OneByteChangesCrc(init: Reg, data: seq<bv8>, i: nat, y: bv8)
    requires i < |data| && data[i] != y
    ensures Crc(init, data[i := y]) != Crc(init, data)
  {
    hide Step, Xor, Fold;
    var l := Xor(init, ONES);
    var a, b := data[..i], data[i + 1..];
    FoldAround(l, data, i);
    FoldAround(l, data[i := y], i);
    assert data[i := y][..i] == a && data[i := y][i + 1..] == b;
    if Crc(init, data[i := y]) == Crc(init, data) {
      XorCancels(Fold(l, data[i := y]), Fold(l, data), ONES);
      FoldInjective(Step(Fold(l, a), y), Step(Fold(l, a), data[i]), b);
      StepSeesByte(Fold(l, a), y, data[i]);
      assert false;
    }
  }

  lemma FoldAround(l: Reg, data: seq<bv8>, i: nat)
    requires i < |data|
    ensures Fold(l, data) == Fold(Step(Fold(l, data[..i]), data[i]), data[i + 1..])
  {
    hide Step, Fold;
    assert data == data[..i + 1] + data[i + 1..];
    FoldConcat(l, data[..i + 1], data[i + 1..]);
    FoldStep(l, data, i);
  }

  // ----- a published value -----

  function ZeroBytes(n: nat): seq<bv8> {
    seq(n, i => 0)
  }

  lemma FourZeros(l: Reg, n: nat)
    ensures Fold(l, ZeroBytes(n + 4)) == Shift32(Fold(l, ZeroBytes(n)))
  {
    hide Step4, Shift32, Fold, Word, Xor;
    var z := ZeroBytes(n + 4);
    assert z[..n] == ZeroBytes(n) && z[..n + 4] == z;
    FoldFour(l, z, n);
    Step4IsShift32(Fold(l, z[..n]), Word(0, 0, 0, 0));
    XorZeroWord(Fold(l, z[..n]));
  }

  lemma XorZeroWord(l: Reg)
    ensures Xor(l, Word(0, 0, 0, 0)) == l
  {
  }

  lemma ShiftedZeros8()
    ensures Shift8(Reg(0xffffffff)) == Reg(0xad82acae)
    ensures Shift8(Reg(0xad82acae)) == Reg(0x0e9e882d)
    ensures Shift8(Reg(0x0e9e882d)) == Reg(0x9f9b5c85)
    ensures Shift8(Reg(0x9f9b5c85)) == Reg(0xb798b438)
    ensures Shift8(Reg(0xb798b438)) == Reg(0xba8d89ca)
    ensures Shift8(Reg(0xba8d89ca)) == Reg(0xa8d58375)
    ensures Shift8(Reg(0xa8d58375)) == Reg(0x44c19592)
    ensures Shift8(Reg(0x44c19592)) == Reg(0x73d74d75)
  {
  }

  lemma ShiftedZeros16()
    ensures Shift8(Reg(0x73d74d75)) == Reg(0x441a975c)
    ensures Shift8(Reg(0x441a975c)) == Reg(0x1c220f94)
    ensures Shift8(Reg(0x1c220f94)) == Reg(0x552e4907)
    ensures Shift8(Reg(0x552e4907)) == Reg(0xd49f4aa2)
    ensures Shift8(Reg(0xd49f4aa2)) == Reg(0x43a45a1b)
    ensures Shift8(Reg(0x43a45a1b)) == Reg(0x8994c80e)
    ensures Shift8(Reg(0x8994c80e)) == Reg(0xacf12bef)
    ensures Shift8(Reg(0xacf12bef)) == Reg(0xbd8f6515)
  {
  }

  lemma ShiftedZeros24()
    ensures Shift8(Reg(0xbd8f6515)) == Reg(0x25125c16)
    ensures Shift8(Reg(0x25125c16)) == Reg(0x36da32db)
    ensures Shift8(Reg(0x36da32db)) == Reg(0x4a6c90a2)
    ensures Shift8(Reg(0x4a6c90a2)) == Reg(0x433aa9c1)
    ensures Shift8(Reg(0x433aa9c1)) == Reg(0x31a59f6e)
    ensures Shift8(Reg(0x31a59f6e)) == Reg(0xcd8f89da)
    ensures Shift8(Reg(0xcd8f89da)) == Reg(0xb8fc461a)
    ensures Shift8(Reg(0xb8fc461a)) == Reg(0x7b041311)
  {
  }

  lemma ShiftedZeros32()
    ensures Shift8(Reg(0x7b041311)) == Reg(0xe24e407f)
    ensures Shift8(Reg(0xe24e407f)) == Reg(0x2f692669)
    ensures Shift8(Reg(0x2f692669)) == Reg(0x195b2188)
    ensures Shift8(Reg(0x195b2188)) == Reg(0x08363896)
    ensures Shift8(Reg(0x08363896)) == Reg(0xb4012dc7)
    ensures Shift8(Reg(0xb4012dc7)) == Reg(0x17f34302)
    ensures Shift8(Reg(0x17f34302)) == Reg(0xe12c83b4)
    ensures Shift8(Reg(0xe12c83b4)) == Reg(0x756ec955)
  {
  }

  /** The checksum of 32 zero bytes given in appendix B.4 of RFC 3720. */
  lemma ZerosVector()
    ensures Crc(Reg(0), ZeroBytes(32)) == Reg(0x8a9136aa)
  {
    hide Shift8, Fold;
    var l := Reg(0xffffffff);
    ShiftedZeros8();
    ShiftedZeros16();
    ShiftedZeros24();
    ShiftedZeros32();
    FoldEmpty(l, []);
    assert ZeroBytes(0) == [][..0];
    FourZeros(l, 0);
    FourZeros(l, 4);
    FourZeros(l, 8);
    FourZeros(l, 12);
    FourZeros(l, 16);
    FourZeros(l, 20);
    FourZeros(l, 24);
    FourZeros(l, 28);
  }

  // ----- masked checksums -----

  const MASK_DELTA: bv32 := 0xa282ead8

  /** Rotate right by 15 bits. */
  function Rotate15(x: bv32): bv32 { (x >> 15) | (x << 17) }

  /** Rotate right by 17 bits. */
  function Rotate17(x: bv32): bv32 { (x >> 17) | (x << 15) }

  function AddDelta(x: bv32): bv32 { x + MASK_DELTA }

  function SubDelta(x: bv32): bv32 { x - MASK_DELTA }

  function Mask(crc: Reg): Reg {
    Reg(AddDelta(Rotate15(crc.bits)))
  }

  function Unmask(masked: Reg): Reg {
    Reg(Rotate17(SubDelta(masked.bits)))
  }

  /** The mask at three bit patterns: the constant, and where two bits go. */
  lemma MaskValues()
    ensures Mask(Reg(0)) == Reg(0xa282ead8) && Mask(Reg(1)) == Reg(0xa284ead8) && Mask(Reg(0x8000)) == Reg(0xa282ead9)
  {
  }

  lemma RotateBack(x: bv32)
    ensures Rotate17(Rotate15(x)) == x
  {
  }

  lemma SubAdd(x: bv32)
    ensures SubDelta(AddDelta(x)) == x
  {
  }

  /** The reader recovers the checksum the writer masked. */
  lemma UnmaskMask(crc: Reg)
    ensures Unmask(Mask(crc)) == crc
  {
    hide Rotate15, Rotate17, AddDelta, SubDelta;
    SubAdd(Rotate15(crc.bits));
    RotateBack(crc.bits);
  }

  lemma RotateForth(x: bv32)
    ensures Rotate15(Rotate17(x)) == x
  {
  }

  lemma AddSub(x: bv32)
    ensures AddDelta(SubDelta(x)) == x
  {
  }

  lemma MaskUnmask(masked: Reg)
    ensures Mask(Unmask(masked)) == masked
  {
    hide Rotate15, Rotate17, AddDelta, SubDelta;
    RotateForth(SubDelta(masked.bits));
    AddSub(masked.bits);
  }

  /** The bytes of a word are the bytes it was made of. */
  lemma WordBytes(b0: bv8, b1: bv8, b2: bv8, b3: bv8)
    ensures var w := Word(b0, b1, b2, b3);
            Byte0(w) == b0 && Byte1(w) == b1 && Byte2(w) == b2 && Byte3(w) == b3
  {
  }
}
