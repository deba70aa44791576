/** The write-ahead log format: physical records inside 32 KB blocks. */
module LogFormat {
  import opened Coding
  import Crc32c

  const BLOCK_SIZE: nat := 32768
  const HEADER_SIZE: nat := 7

  const ZERO_TYPE: Byte := 0
  const FULL: Byte := 1
  const FIRST: Byte := 2
  const MIDDLE: Byte := 3
  const LAST: Byte := 4

  // ----- the header -----

  function LengthLow(n: nat): Byte
    requires n < 65536
  {
    n % 256
  }

  function LengthHigh(n: nat): Byte
    requires n < 65536
  {
    n / 256
  }

  function DecodeLength(low: Byte, high: Byte): nat {
    low + 256 * high
  }

  lemma LengthRoundTrip(n: nat)
    requires n < 65536
    ensures DecodeLength(LengthLow(n), LengthHigh(n)) == n
  {
  }

  // ----- checksums -----

  function AllBits(data: Bytes): (r: seq<bv8>)
    ensures |r| == |data|
  {
    seq(|data|, i requires 0 <= i < |data| => ToBits(data[i]))
  }

  /** EncodeFixed32. */
  function EncodeFixed32(r: Crc32c.Reg): (b: Bytes)
    ensures |b| == 4
  {
    [OfBits(Crc32c.Byte0(r)), OfBits(Crc32c.Byte1(r)), OfBits(Crc32c.Byte2(r)), OfBits(Crc32c.Byte3(r))]
  }

  function DecodeFixed32(b: Bytes): Crc32c.Reg
    requires |b| >= 4
  {
    Crc32c.Word(ToBits(b[0]), ToBits(b[1]), ToBits(b[2]), ToBits(b[3]))
  }

  lemma ChecksumRoundTrip(r: Crc32c.Reg)
    ensures DecodeFixed32(EncodeFixed32(r)) == r
  {
    var b0, b1, b2, b3 := Crc32c.Byte0(r), Crc32c.Byte1(r), Crc32c.Byte2(r), Crc32c.Byte3(r);
    Crc32c.SplitWord(r);
    Crc32c.WordIsXor(b0, b1, b2, b3);
    hide ToBits, OfBits, Crc32c.Byte0, Crc32c.Byte1, Crc32c.Byte2, Crc32c.Byte3, Crc32c.Word, Crc32c.Xor;
    BitsRoundTrip(b0);
    BitsRoundTrip(b1);
    BitsRoundTrip(b2);
    BitsRoundTrip(b3);
  }

  const CRC_START: Crc32c.Reg := Crc32c.Reg(0)

  /** EmitPhysicalRecord: the type's checksum extended by the payload, masked. */
  function StoredChecksum(t: Byte, data: Bytes): (b: Bytes)
    ensures |b| == 4
  {
    EncodeFixed32(Crc32c.Mask(Crc32c.Crc(Crc32c.Crc(CRC_START, [ToBits(t)]), AllBits(data))))
  }

  /** ReadPhysicalRecord: unmask and compare with the checksum of type and payload. */
  predicate ChecksumOk(stored: Bytes, t: Byte, data: Bytes)
    requires |stored| >= 4
  {
    Crc32c.Crc(CRC_START, AllBits([t] + data)) == Crc32c.Unmask(DecodeFixed32(stored))
  }

  lemma ChecksumMatches(t: Byte, data: Bytes)
    ensures ChecksumOk(StoredChecksum(t, data), t, data)
  {
    assert AllBits([t] + data) == [ToBits(t)] + AllBits(data);
    hide Crc32c.Crc, Crc32c.Mask, Crc32c.Unmask, EncodeFixed32, DecodeFixed32, AllBits, ToBits;
    Crc32c.CrcConcat(CRC_START, [ToBits(t)], AllBits(data));
    var crc := Crc32c.Crc(CRC_START, AllBits([t] + data));
    ChecksumRoundTrip(Crc32c.Mask(crc));
    Crc32c.UnmaskMask(crc);
  }

  function Header(t: Byte, data: Bytes): (h: Bytes)
    requires |data| < 65536
    ensures |h| == HEADER_SIZE
  {
    StoredChecksum(t, data) + [LengthLow(|data|), LengthHigh(|data|), t]
  }

  function Physical(t: Byte, data: Bytes): (p: Bytes)
    requires |data| < 65536
    ensures |p| == HEADER_SIZE + |data|
  {
    Header(t, data) + data
  }

  // ----- what AddRecord writes at offset `off` of a block -----

  function FragmentType(begin: bool, end: bool): Byte {
    if begin && end then FULL
    else if begin then FIRST
    else if end then LAST
    else MIDDLE
  }

  function Zeros(n: nat): (z: Bytes)
    ensures |z| == n
  {
    seq(n, i => 0)
  }

  function FragmentSize(off: nat, data: Bytes): (n: nat)
    requires off + HEADER_SIZE <= BLOCK_SIZE
    ensures n <= |data| && off + HEADER_SIZE + n <= BLOCK_SIZE
  {
    var avail := BLOCK_SIZE - off - HEADER_SIZE;
    if |data| < avail then |data| else avail
  }

  /** The bytes appended for `data`, from a position with a header's room. A
      fragment that does not end the record fills its block. */
  function Fragments(off: nat, data: Bytes, begin: bool): Bytes
    requires off + HEADER_SIZE <= BLOCK_SIZE
    decreases |data|, off
  {
    var n := FragmentSize(off, data);
    var here := Physical(FragmentType(begin, n == |data|), data[..n]);
    if n == |data| then here else here + Fragments(0, data[n..], false)
  }

  lemma FragmentsUnfold(off: nat, data: Bytes, begin: bool)
    requires off + HEADER_SIZE <= BLOCK_SIZE
    ensures
      var n := FragmentSize(off, data);
      Fragments(off, data, begin) ==
        if n == |data| then Physical(FragmentType(begin, true), data)
        else Physical(FragmentType(begin, false), data[..n]) + Fragments(0, data[n..], false)
  {
    hide Physical, FragmentType;
    var n := FragmentSize(off, data);
    if n == |data| {
      assert data[..n] == data;
    }
  }

  /** The bytes AddRecord appends at a block offset. */
  function Emit(off: nat, data: Bytes): Bytes
    requires off <= BLOCK_SIZE
  {
    if off + HEADER_SIZE <= BLOCK_SIZE then Fragments(off, data, true)
    else Zeros(BLOCK_SIZE - off) + Fragments(0, data, true)
  }

  /** The file after a sequence of AddRecord calls. */
  function EncodeAll(records: seq<Bytes>): Bytes {
    if records == [] then []
    else
      var before := EncodeAll(records[..|records| - 1]);
      before + Emit(|before| % BLOCK_SIZE, records[|records| - 1])
  }
}
