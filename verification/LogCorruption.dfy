/** What log::Reader does with a log in which one payload byte has been changed. */
module LogCorruption {
  import opened Coding
  import opened LogFormat
  import opened LogReader
  import Crc32c

  // ----- where the payload bytes are -----

  /** The place of byte d of a record among the bytes of its fragments. */
  function PayloadPos(off: nat, data: Bytes, d: nat): (p: nat)
    requires off + HEADER_SIZE <= BLOCK_SIZE && d < |data|
    decreases |data|, off
  {
    var n := FragmentSize(off, data);
    if d < n then HEADER_SIZE + d else HEADER_SIZE + n + PayloadPos(0, data[n..], d - n)
  }

  /** The same among the bytes that AddRecord appends. */
  function EmitPos(off: nat, data: Bytes, d: nat): nat
    requires off <= BLOCK_SIZE && d < |data|
  {
    if off + HEADER_SIZE <= BLOCK_SIZE then PayloadPos(off, data, d)
    else BLOCK_SIZE - off + PayloadPos(0, data, d)
  }

  /** The same in the whole file: where byte d of record i is. */
  function BytePos(records: seq<Bytes>, i: nat, d: nat): nat
    requires i < |records| && d < |records[i]|
  {
    var before := |EncodeAll(records[..i])|;
    before + EmitPos(before % BLOCK_SIZE, records[i], d)
  }

  lemma {:induction false} PayloadByte(off: nat, data: Bytes, begin: bool, d: nat)
    requires off + HEADER_SIZE <= BLOCK_SIZE && d < |data|
    ensures
      var p, f := PayloadPos(off, data, d), Fragments(off, data, begin);
      p < |f| && f[p] == data[d]
    decreases |data|, off
  {
    hide Physical, FragmentType, Fragments;
    var n := FragmentSize(off, data);
    FragmentsUnfold(off, data, begin);
    if d < n {
      assert data[..n][d] == data[d];
      if n == |data| {
        assert data[..n] == data;
      }
      PhysicalByte(FragmentType(begin, n == |data|), data[..n], d);
    } else {
      PayloadByte(0, data[n..], false, d - n);
    }
  }

  lemma PhysicalByte(t: Byte, data: Bytes, d: nat)
    requires d < |data| < 65536
    ensures Physical(t, data)[HEADER_SIZE + d] == data[d]
  {
    hide StoredChecksum;
  }

  /** Byte d of record i is where BytePos says. */
  lemma ByteIsThere(records: seq<Bytes>, i: nat, d: nat)
    requires i < |records| && d < |records[i]|
    ensures
      var q := BytePos(records, i, d);
      && |EncodeAll(records[..i])| <= q < |EncodeAll(records[..i + 1])| <= |EncodeAll(records)|
      && EncodeAll(records)[q] == records[i][d]
  {
    hide Emit, EncodeAll, EmitPos;
    RecordAt(records, i);
    var before := |EncodeAll(records[..i])|;
    var bytes, k := Emit(before % BLOCK_SIZE, records[i]), EmitPos(before % BLOCK_SIZE, records[i], d);
    EmitByte(before % BLOCK_SIZE, records[i], d);
    assert EncodeAll(records)[before..before + |bytes|][k] == bytes[k];
  }

  lemma EmitByte(off: nat, data: Bytes, d: nat)
    requires off <= BLOCK_SIZE && d < |data|
    ensures EmitPos(off, data, d) < |Emit(off, data)| && Emit(off, data)[EmitPos(off, data, d)] == data[d]
  {
    hide Fragments, PayloadPos;
    if off + HEADER_SIZE <= BLOCK_SIZE {
      PayloadByte(off, data, true, d);
    } else {
      PayloadByte(0, data, true, d);
    }
  }

  // ----- the altered fragment -----

  /** The file has `bytes` at pos, but with b in place of byte k. */
  ghost predicate Altered(file: Bytes, pos: nat, bytes: Bytes, k: nat, b: Byte) {
    && pos + |bytes| <= |file| && k < |bytes|
    && file[pos..pos + |bytes|] == bytes[k := b]
  }

  ghost predicate Has(file: Bytes, pos: nat, bytes: Bytes) {
    pos + |bytes| <= |file| && file[pos..pos + |bytes|] == bytes
  }

  lemma HasHolds(file: Bytes, pos: nat, bytes: Bytes)
    requires Has(file, pos, bytes)
    ensures Holds(file, file, |file|, pos, bytes)
  {
    assert file[..|file|] == file;
  }

  lemma HasParts(file: Bytes, pos: nat, a: Bytes, c: Bytes)
    requires Has(file, pos, a + c)
    ensures Has(file, pos, a) && Has(file, pos + |a|, c)
  {
    HasHolds(file, pos, a + c);
    HoldsPart(file, file, |file|, pos, a, c);
  }

  lemma AlteredParts(file: Bytes, pos: nat, a: Bytes, c: Bytes, k: nat, b: Byte)
    requires Altered(file, pos, a + c, k, b)
    ensures if k < |a| then Altered(file, pos, a, k, b) else Has(file, pos, a) && Altered(file, pos + |a|, c, k - |a|, b)
  {
    if k < |a| {
      assert (a + c)[k := b] == a[k := b] + c;
      HasParts(file, pos, a[k := b], c);
    } else {
      assert (a + c)[k := b] == a + c[k - |a| := b];
      HasParts(file, pos, a, c[k - |a| := b]);
    }
  }

  /** The stored checksum does not fit a payload with one byte changed. */
  lemma ChecksumFails(t: Byte, data: Bytes, d: nat, b: Byte)
    requires d < |data| && b != data[d]
    ensures !ChecksumOk(StoredChecksum(t, data), t, data[d := b])
  {
    hide Crc32c.Crc, Crc32c.Mask, Crc32c.Unmask, EncodeFixed32, DecodeFixed32, StoredChecksum, ToBits, OfBits, AllBits;
    ChecksumMatches(t, data);
    var all := AllBits([t] + data);
    AlteredBits(t, data, d, b);
    BytesRoundTrip(b);
    BytesRoundTrip(data[d]);
    Crc32c.OneByteChangesCrc(CRC_START, all, d + 1, ToBits(b));
  }

  lemma AlteredBits(t: Byte, data: Bytes, d: nat, b: Byte)
    requires d < |data|
    ensures AllBits([t] + data)[d + 1] == ToBits(data[d])
    ensures AllBits([t] + data[d := b]) == AllBits([t] + data)[d + 1 := ToBits(b)]
  {
    hide ToBits;
  }

  lemma AlteredFragmentParsed(file: Bytes, pos: nat, t: Byte, data: Bytes, d: nat, b: Byte)
    requires t != ZERO_TYPE && d < |data| < 65536 && b != data[d]
    requires Altered(file, pos, Physical(t, data), HEADER_SIZE + d, b)
    requires pos + HEADER_SIZE + |data| <= BufferEnd(file, pos)
    ensures ParseAt(file, pos) == Bad(BufferEnd(file, pos), true)
  {
    hide Physical, StoredChecksum, ChecksumOk, LengthLow, LengthHigh, DecodeLength;
    var p := Physical(t, data);
    PhysicalParts(t, data);
    LengthRoundTrip(|data|);
    ChecksumFails(t, data, d, b);
    var n := HEADER_SIZE + |data|;
    var bytes := file[pos..pos + n];
    assert file[pos + 4] == bytes[4] == p[4] && file[pos + 5] == bytes[5] == p[5];
    assert file[pos + 6] == bytes[6] == p[6];
    SliceOfSlice(file, pos, pos + n, 0, 4);
    SliceOfSlice(file, pos, pos + n, HEADER_SIZE, n);
    assert bytes[..4] == p[..4];
    assert bytes[HEADER_SIZE..n] == data[d := b] by { AlteredPayload(p, data, d, b); }
  }

  lemma AlteredPayload(p: Bytes, data: Bytes, d: nat, b: Byte)
    requires |p| == HEADER_SIZE + |data| && p[HEADER_SIZE..] == data && d < |data|
    ensures p[HEADER_SIZE + d := b][HEADER_SIZE..|p|] == data[d := b]
  {
    assert forall i :: 0 <= i < |data| ==> p[HEADER_SIZE + i] == p[HEADER_SIZE..][i];
  }

  /** Where the reader goes on after a fragment in the block of byte q. */
  function NextBuffer(file: Bytes, q: nat): (p: nat)
    ensures p <= |file|
  {
    if BlockStart(q) + BLOCK_SIZE <= |file| then BlockStart(q) + BLOCK_SIZE else |file|
  }

  lemma AlteredFragmentRead(file: Bytes, pos: nat, t: Byte, data: Bytes, d: nat, b: Byte, scratch: (bool, Bytes))
    requires t != ZERO_TYPE && pos % BLOCK_SIZE + HEADER_SIZE + |data| <= BLOCK_SIZE
    requires d < |data| && b != data[d]
    requires Altered(file, pos, Physical(t, data), HEADER_SIZE + d, b)
    ensures RecordFrom(file, pos, scratch, false) ==
      RecordFrom(file, NextBuffer(file, pos + HEADER_SIZE + d), (false, []), true)
  {
    hide Physical, ParseAt;
    SameBlock(pos, HEADER_SIZE + |data|);
    AlteredFragmentParsed(file, pos, t, data, d, b);
    SameStart(pos, HEADER_SIZE + d);
  }

  lemma SameStart(pos: nat, n: nat)
    requires pos % BLOCK_SIZE + n < BLOCK_SIZE
    ensures BlockStart(pos + n) == BlockStart(pos)
  {
  }

  /** A record with one byte changed is reported and dropped with the rest of the
      block that the byte is in. */
  lemma {:induction false} AlteredFragments(file: Bytes, pos: nat, off: nat, data: Bytes, begin: bool, scratch: (bool, Bytes), d: nat, b: Byte)
    requires off == pos % BLOCK_SIZE && off + HEADER_SIZE <= BLOCK_SIZE
    requires d < |data| && b != data[d]
    requires Altered(file, pos, Fragments(off, data, begin), PayloadPos(off, data, d), b)
    requires scratch.0 == !begin && (begin ==> scratch.1 == [])
    ensures RecordFrom(file, pos, scratch, false) ==
      RecordFrom(file, NextBuffer(file, pos + PayloadPos(off, data, d)), (false, []), true)
    decreases |data|, off
  {
    hide Physical, RecordFrom, Fragments, FragmentType, Altered, Has, NextBuffer;
    var n := FragmentSize(off, data);
    FragmentsUnfold(off, data, begin);
    TypesNotZero(begin, n == |data|);
    if n == |data| {
      AlteredFragmentRead(file, pos, FragmentType(begin, true), data, d, b, scratch);
    } else {
      var here, rest := Physical(FragmentType(begin, false), data[..n]), Fragments(0, data[n..], false);
      AlteredParts(file, pos, here, rest, PayloadPos(off, data, d), b);
      if d < n {
        AlteredFragmentRead(file, pos, FragmentType(begin, false), data[..n], d, b, scratch);
      } else {
        BlockEnds(pos, off, HEADER_SIZE + n);
        AlteredFragments(file, pos + HEADER_SIZE + n, 0, data[n..], false, (true, scratch.1 + data[..n]), d - n, b);
        HasHolds(file, pos, here);
        HasEnd(file, pos, here);
        InnerFragmentRead(file, file, |file|, pos, data[..n], begin, scratch);
      }
    }
  }

  lemma HasEnd(file: Bytes, pos: nat, bytes: Bytes)
    requires Has(file, pos, bytes)
    ensures pos + |bytes| <= |file|
  {
  }

  lemma AlteredEmit(file: Bytes, pos: nat, data: Bytes, d: nat, b: Byte)
    requires d < |data| && b != data[d]
    requires Altered(file, pos, Emit(pos % BLOCK_SIZE, data), EmitPos(pos % BLOCK_SIZE, data, d), b)
    ensures pos <= |file|
    ensures RecordFrom(file, pos, (false, []), false) ==
      RecordFrom(file, NextBuffer(file, pos + EmitPos(pos % BLOCK_SIZE, data, d)), (false, []), true)
  {
    hide Fragments, PayloadPos, RecordFrom, Zeros, NextBuffer, Altered, Has;
    AlteredEnd(file, pos, Emit(pos % BLOCK_SIZE, data), EmitPos(pos % BLOCK_SIZE, data, d), b);
    var off := pos % BLOCK_SIZE;
    if off + HEADER_SIZE <= BLOCK_SIZE {
      AlteredFragments(file, pos, off, data, true, (false, []), d, b);
    } else {
      var next := pos + (BLOCK_SIZE - off);
      SameBlock(pos, BLOCK_SIZE - off);
      AlteredParts(file, pos, Zeros(BLOCK_SIZE - off), Fragments(0, data, true), EmitPos(off, data, d), b);
      AlteredFragments(file, next, 0, data, true, (false, []), d, b);
      SkipsToNext(file, pos, next);
    }
  }

  lemma AlteredEnd(file: Bytes, pos: nat, bytes: Bytes, k: nat, b: Byte)
    requires Altered(file, pos, bytes, k, b)
    ensures pos + |bytes| <= |file|
  {
  }

  /** Reading in a block's trailer is reading at the next block. */
  lemma SkipsToNext(file: Bytes, pos: nat, next: nat)
    requires pos % BLOCK_SIZE + HEADER_SIZE > BLOCK_SIZE && next == BlockStart(pos) + BLOCK_SIZE <= |file|
    ensures RecordFrom(file, pos, (false, []), false) == RecordFrom(file, next, (false, []), false)
  {
    hide ReadPhysical;
    TrailerSkipped(file, pos);
  }

  // ----- finding the next record again -----

  /** How many records have their first fragment before the block boundary p. */
  function BegunBefore(records: seq<Bytes>, p: nat): (k: nat)
    ensures k <= |records|
  {
    if records == [] || |EncodeAll(records[..|records| - 1])| + HEADER_SIZE <= p then |records|
    else BegunBefore(records[..|records| - 1], p)
  }

  lemma {:induction false} BegunCounts(records: seq<Bytes>, p: nat, k: nat)
    requires k < |records|
    ensures |EncodeAll(records[..k])| + HEADER_SIZE <= p <==> k < BegunBefore(records, p)
  {
    hide EncodeAll, Emit;
    var n := |records| - 1;
    if k < n {
      assert records[..n][..k] == records[..k];
      RecordAt(records[..n], k);
      BegunCounts(records[..n], p, k);
    }
  }

  /** At a block boundary inside a record there is a fragment that continues it. */
  lemma {:induction false} FragmentsAtBoundary(pos: nat, off: nat, data: Bytes, begin: bool, p: nat) returns (rest: Bytes)
    requires off == pos % BLOCK_SIZE && off + HEADER_SIZE <= BLOCK_SIZE
    requires p % BLOCK_SIZE == 0 && pos < p < pos + |Fragments(off, data, begin)|
    ensures Fragments(off, data, begin)[p - pos..] == Fragments(0, rest, false)
    decreases |data|, off
  {
    hide Physical, Fragments, FragmentType;
    var n := FragmentSize(off, data);
    FragmentsUnfold(off, data, begin);
    NoBoundaryInside(pos, HEADER_SIZE + n, p);
    var here := Physical(FragmentType(begin, false), data[..n]);
    var more := Fragments(0, data[n..], false);
    var next := pos + HEADER_SIZE + n;
    BlockEnds(pos, off, HEADER_SIZE + n);
    assert (here + more)[p - pos..] == more[p - next..];
    if p == next {
      rest := data[n..];
    } else {
      rest := FragmentsAtBoundary(next, 0, data[n..], false, p);
    }
  }

  lemma NoBoundaryInside(pos: nat, n: nat, p: nat)
    requires pos % BLOCK_SIZE + n <= BLOCK_SIZE && p % BLOCK_SIZE == 0 && pos < p
    ensures pos + n <= p
  {
  }

  /** Without their beginning, the fragments of a record are passed over. */
  lemma {:induction false} ContinuationSkipped(file: Bytes, pos: nat, data: Bytes)
    requires pos % BLOCK_SIZE == 0 && Has(file, pos, Fragments(0, data, false))
    ensures pos + |Fragments(0, data, false)| <= |file|
    ensures RecordFrom(file, pos, (false, []), true) ==
      RecordFrom(file, pos + |Fragments(0, data, false)|, (false, []), true)
    decreases |data|
  {
    hide Physical, RecordFrom, Fragments, FragmentType, Has;
    HasEnd(file, pos, Fragments(0, data, false));
    var n := FragmentSize(0, data);
    FragmentsUnfold(0, data, false);
    if n == |data| {
      OrphanSkipped(file, pos, data, true);
    } else {
      var here, rest := Physical(FragmentType(false, false), data[..n]), Fragments(0, data[n..], false);
      HasParts(file, pos, here, rest);
      BlockEnds(pos, 0, HEADER_SIZE + n);
      OrphanSkipped(file, pos, data[..n], false);
      ContinuationSkipped(file, pos + HEADER_SIZE + n, data[n..]);
    }
  }

  lemma OrphanSkipped(file: Bytes, pos: nat, data: Bytes, end: bool)
    requires pos % BLOCK_SIZE + HEADER_SIZE + |data| <= BLOCK_SIZE
    requires Has(file, pos, Physical(FragmentType(false, end), data))
    ensures pos + HEADER_SIZE + |data| <= |file|
    ensures RecordFrom(file, pos, (false, []), true) == RecordFrom(file, pos + HEADER_SIZE + |data|, (false, []), true)
  {
    hide Physical, ReadPhysical;
    TypesNotZero(false, end);
    HasHolds(file, pos, Physical(FragmentType(false, end), data));
    FragmentRead(file, file, |file|, pos, FragmentType(false, end), data);
  }

  /** The file agrees with the log from byte p on. */
  ghost predicate SameFrom(file: Bytes, whole: Bytes, p: nat) {
    |file| == |whole| && p <= |whole| && file[p..] == whole[p..]
  }

  lemma SameHas(file: Bytes, whole: Bytes, p: nat, pos: nat, bytes: Bytes)
    requires SameFrom(file, whole, p) && p <= pos && Has(whole, pos, bytes)
    ensures Has(file, pos, bytes)
  {
    var n := pos + |bytes|;
    assert file[p..][pos - p..n - p] == file[pos..n];
    assert whole[p..][pos - p..n - p] == whole[pos..n];
  }

  /** From a block boundary on, the reader goes on with the first record that begins
      at or after it. */
  lemma Resync(file: Bytes, records: seq<Bytes>, p: nat, j: nat)
    requires p % BLOCK_SIZE == 0 && 0 < j == BegunBefore(records, p)
    requires p <= |EncodeAll(records)| && SameFrom(file, EncodeAll(records), p)
    ensures |EncodeAll(records[..j])| <= |file|
    ensures RecordFrom(file, p, (false, []), true) == RecordFrom(file, |EncodeAll(records[..j])|, (false, []), true)
  {
    hide EncodeAll, Emit, BegunBefore, RecordFrom, SameFrom;
    var whole := EncodeAll(records);
    var start, e := |EncodeAll(records[..j - 1])|, |EncodeAll(records[..j])|;
    SameLength(file, whole, p);
    RecordAt(records, j - 1);
    BegunCounts(records, p, j - 1);
    if p < e {
      CrossingSkipped(file, whole, start, records[j - 1], p);
    } else if e < p {
      TrailerBefore(records, p, j);
      SkippedRecord(file, e, p);
    }
  }

  lemma SameLength(file: Bytes, whole: Bytes, p: nat)
    requires SameFrom(file, whole, p)
    ensures |file| == |whole|
  {
  }

  /** A log that ends before the boundary in bytes has a record beginning there. */
  lemma TrailerBefore(records: seq<Bytes>, p: nat, j: nat)
    requires j == BegunBefore(records, p) && |EncodeAll(records[..j])| < p <= |EncodeAll(records)|
    ensures |EncodeAll(records[..j])| + HEADER_SIZE > p
  {
    hide EncodeAll, BegunBefore;
    assert records[..|records|] == records;
    if j < |records| {
      BegunCounts(records, p, j);
    }
  }

  lemma SkippedRecord(file: Bytes, e: nat, p: nat)
    requires e < p < e + HEADER_SIZE && p % BLOCK_SIZE == 0 && p <= |file|
    ensures RecordFrom(file, p, (false, []), true) == RecordFrom(file, e, (false, []), true)
  {
    hide ReadPhysical;
    BoundaryAfter(e, p);
    TrailerSkipped(file, e);
  }

  lemma BoundaryAfter(e: nat, p: nat)
    requires e < p < e + HEADER_SIZE && p % BLOCK_SIZE == 0
    ensures e % BLOCK_SIZE + HEADER_SIZE > BLOCK_SIZE && BlockStart(e) + BLOCK_SIZE == p
  {
  }

  lemma CrossingSkipped(file: Bytes, whole: Bytes, start: nat, data: Bytes, p: nat)
    requires Has(whole, start, Emit(start % BLOCK_SIZE, data)) && SameFrom(file, whole, p)
    requires p % BLOCK_SIZE == 0 && start + HEADER_SIZE <= p < start + |Emit(start % BLOCK_SIZE, data)|
    ensures p <= |file| && start + |Emit(start % BLOCK_SIZE, data)| <= |file|
    ensures RecordFrom(file, p, (false, []), true) ==
      RecordFrom(file, start + |Emit(start % BLOCK_SIZE, data)|, (false, []), true)
  {
    hide Fragments, RecordFrom, SameFrom, Has, Zeros;
    var off := start % BLOCK_SIZE;
    SameLength(file, whole, p);
    if off + HEADER_SIZE <= BLOCK_SIZE {
      FragmentsCrossed(file, whole, start, off, data, p);
    } else {
      SameBlock(start, BLOCK_SIZE - off);
      HasParts(whole, start, Zeros(BLOCK_SIZE - off), Fragments(0, data, true));
      NoBoundaryInside(start, BLOCK_SIZE - off, p);
      FragmentsCrossed(file, whole, start + (BLOCK_SIZE - off), 0, data, p);
    }
  }

  lemma FragmentsCrossed(file: Bytes, whole: Bytes, pos: nat, off: nat, data: Bytes, p: nat)
    requires off == pos % BLOCK_SIZE && off + HEADER_SIZE <= BLOCK_SIZE
    requires Has(whole, pos, Fragments(off, data, true)) && SameFrom(file, whole, p)
    requires p % BLOCK_SIZE == 0 && pos < p < pos + |Fragments(off, data, true)|
    ensures pos + |Fragments(off, data, true)| <= |file|
    ensures RecordFrom(file, p, (false, []), true) ==
      RecordFrom(file, pos + |Fragments(off, data, true)|, (false, []), true)
  {
    hide Fragments, RecordFrom, SameFrom, Has;
    var f := Fragments(off, data, true);
    var rest := FragmentsAtBoundary(pos, off, data, true, p);
    assert f == f[..p - pos] + f[p - pos..];
    HasParts(whole, pos, f[..p - pos], f[p - pos..]);
    SameHas(file, whole, p, p, f[p - pos..]);
    ContinuationSkipped(file, p, rest);
  }

  // ----- whole logs -----

  /** The records from k on are read if the file agrees with the log there. */
  lemma {:induction false} ReadsTail(file: Bytes, records: seq<Bytes>, k: nat)
    requires k <= |records| && SameFrom(file, EncodeAll(records), |EncodeAll(records[..k])|)
    ensures ReadAll(file, |EncodeAll(records[..k])|) == (records[k..], false)
    decreases |records| - k
  {
    hide Emit, EncodeAll, RecordFrom, SameFrom, Has;
    var whole, pos := EncodeAll(records), |EncodeAll(records[..k])|;
    SameLength(file, whole, pos);
    if k == |records| {
      assert records[..k] == records && records[k..] == [];
      AtEnd(file);
    } else {
      RecordAt(records, k);
      var bytes := Emit(pos % BLOCK_SIZE, records[k]);
      HasRecord(whole, pos, bytes);
      SameHas(file, whole, pos, pos, bytes);
      HasHolds(file, pos, bytes);
      EmitRead(file, file, |file|, pos, records[k]);
      assert [] + records[k] == records[k];
      SameLater(file, whole, pos, |EncodeAll(records[..k + 1])|);
      ReadsTail(file, records, k + 1);
      assert records[k..] == [records[k]] + records[k + 1..];
    }
  }

  lemma HasRecord(whole: Bytes, pos: nat, bytes: Bytes)
    requires pos + |bytes| <= |whole| && whole[pos..pos + |bytes|] == bytes
    ensures Has(whole, pos, bytes)
  {
  }

  lemma SameLater(file: Bytes, whole: Bytes, p: nat, p': nat)
    requires SameFrom(file, whole, p) && p <= p' <= |whole|
    ensures SameFrom(file, whole, p')
  {
    assert file[p'..] == file[p..][p' - p..] && whole[p'..] == whole[p..][p' - p..];
  }

  lemma AtEnd(file: Bytes)
    ensures RecordFrom(file, |file|, (false, []), false) == End(false)
    ensures RecordFrom(file, |file|, (false, []), true) == End(true)
    ensures ReadAll(file, |file|) == ([], false)
  {
    hide ParseAt;
  }

  /** A report made earlier stays and changes nothing else. */
  lemma {:induction false} ReportStays(file: Bytes, pos: nat, scratch: (bool, Bytes))
    requires pos <= |file|
    ensures RecordFrom(file, pos, scratch, true) ==
      match RecordFrom(file, pos, scratch, false) {
        case Record(data, next, reported) => Record(data, next, true)
        case End(reported) => End(true)
      }
    ensures RecordFrom(file, pos, scratch, true).Record? ==> RecordFrom(file, pos, scratch, true).reported
    decreases |file| - pos
  {
    hide ReadPhysical;
    match ReadPhysical(file, pos)
    case Eof =>
    case Bad(next, rep) =>
      ReportStays(file, next, (false, []));
    case Fragment(t, data, next) =>
      if t == FIRST {
        ReportStays(file, next, (true, data));
      } else if t == MIDDLE {
        ReportStays(file, next, (true, scratch.1 + data));
        ReportStays(file, next, scratch);
      } else if t != FULL {
        ReportStays(file, next, scratch);
        ReportStays(file, next, (false, []));
      }
  }

  lemma AlteredRecordAt(records: seq<Bytes>, i: nat, d: nat, b: Byte)
    requires i < |records| && d < |records[i]|
    ensures
      var pos, q := |EncodeAll(records[..i])|, BytePos(records, i, d);
      && pos <= q < |EncodeAll(records[..i + 1])| <= |EncodeAll(records)|
      && Altered(EncodeAll(records)[q := b], pos, Emit(pos % BLOCK_SIZE, records[i]), q - pos, b)
  {
    hide Emit, EncodeAll, EmitPos;
    ByteIsThere(records, i, d);
    RecordAt(records, i);
    var whole, pos, q := EncodeAll(records), |EncodeAll(records[..i])|, BytePos(records, i, d);
    var bytes := Emit(pos % BLOCK_SIZE, records[i]);
    AlteredSlice(whole, pos, bytes, q, b);
  }

  lemma AlteredSlice(whole: Bytes, pos: nat, bytes: Bytes, q: nat, b: Byte)
    requires pos <= q < pos + |bytes| <= |whole| && whole[pos..pos + |bytes|] == bytes
    ensures Altered(whole[q := b], pos, bytes, q - pos, b)
  {
    assert forall k :: 0 <= k < |bytes| ==> whole[pos + k] == bytes[k];
  }

  /** The record with the changed byte and those that begin later in its block are
      dropped with a report; reading goes on with the first that begins after it. */
  lemma AlteredRecord(records: seq<Bytes>, i: nat, d: nat, b: Byte, j: nat)
    requires i < |records| && d < |records[i]| && b != records[i][d]
    requires j == BegunBefore(records, BlockStart(BytePos(records, i, d)) + BLOCK_SIZE)
    ensures i < j
    ensures BytePos(records, i, d) < |EncodeAll(records)|
    ensures
      var file := EncodeAll(records)[BytePos(records, i, d) := b];
      && |EncodeAll(records[..i])| <= |file| && |EncodeAll(records[..j])| <= |file|
      && RecordFrom(file, |EncodeAll(records[..i])|, (false, []), false) ==
         RecordFrom(file, |EncodeAll(records[..j])|, (false, []), true)
      && SameFrom(file, EncodeAll(records), |EncodeAll(records[..j])|)
  {
    hide Emit, EncodeAll, RecordFrom, SameFrom, BegunBefore, Altered;
    var whole, pos, q := EncodeAll(records), |EncodeAll(records[..i])|, BytePos(records, i, d);
    AlteredRecordAt(records, i, d, b);
    var file, p := whole[q := b], BlockStart(q) + BLOCK_SIZE;
    AlteredEmit(file, pos, records[i], d, b);
    BegunHere(records, i, d, p);
    LengthsGrow(records, i + 1, j);
    SameAfter(whole, q, b, |EncodeAll(records[..j])|);
    if p <= |file| {
      SameAfter(whole, q, b, p);
      BoundaryAligned(q);
      Resync(file, records, p, j);
    } else {
      AllBegun(records, p);
      assert records[..j] == records;
    }
  }

  lemma SameAfter(whole: Bytes, q: nat, b: Byte, p: nat)
    requires q < p <= |whole|
    ensures SameFrom(whole[q := b], whole, p)
  {
  }

  lemma BoundaryAligned(q: nat)
    ensures (BlockStart(q) + BLOCK_SIZE) % BLOCK_SIZE == 0
  {
  }

  lemma LengthsGrow(records: seq<Bytes>, i: nat, j: nat)
    requires i <= j <= |records|
    ensures |EncodeAll(records[..i])| <= |EncodeAll(records[..j])| <= |EncodeAll(records)|
  {
    hide Emit, EncodeAll;
    assert records[..j][..i] == records[..i] && records[..|records|] == records && records[..j][..j] == records[..j];
    if i < j {
      RecordAt(records[..j], i);
    }
    if j < |records| {
      RecordAt(records, j);
    }
  }

  /** The record of a byte has its first fragment before the end of the byte's block. */
  lemma BegunHere(records: seq<Bytes>, i: nat, d: nat, p: nat)
    requires i < |records| && d < |records[i]| && p == BlockStart(BytePos(records, i, d)) + BLOCK_SIZE
    ensures i < BegunBefore(records, p)
  {
    hide EncodeAll, BegunBefore, PayloadPos;
    var pos := |EncodeAll(records[..i])|;
    var off := pos % BLOCK_SIZE;
    PayloadAfterHeader(off, records[i], d);
    BegunCounts(records, p, i);
  }

  lemma PayloadAfterHeader(off: nat, data: Bytes, d: nat)
    requires off <= BLOCK_SIZE && d < |data|
    ensures EmitPos(off, data, d) >= HEADER_SIZE
    ensures off + HEADER_SIZE > BLOCK_SIZE ==> EmitPos(off, data, d) >= BLOCK_SIZE - off + HEADER_SIZE
  {
  }

  /** Past the end of the file every record has begun. */
  lemma AllBegun(records: seq<Bytes>, p: nat)
    requires |EncodeAll(records)| < p
    ensures BegunBefore(records, p) == |records|
  {
    if records != [] {
      EmitHasHeader(|EncodeAll(records[..|records| - 1])| % BLOCK_SIZE, records[|records| - 1]);
    }
  }

  lemma EmitHasHeader(off: nat, data: Bytes)
    requires off <= BLOCK_SIZE
    ensures |Emit(off, data)| >= HEADER_SIZE
  {
    hide Physical;
  }

  /** Change any one payload byte of any log. The reader reports a corruption and
      returns exactly the records before the one changed and those that begin after
      the block that the byte is in: never the altered record. */
  lemma ChangedByteIsReported(records: seq<Bytes>, i: nat, d: nat, b: Byte)
    requires i < |records| && d < |records[i]| && b != records[i][d]
    ensures
      var q := BytePos(records, i, d);
      var j := BegunBefore(records, BlockStart(q) + BLOCK_SIZE);
      && q < |EncodeAll(records)| && EncodeAll(records)[q] == records[i][d] && i < j
      && ReadAll(EncodeAll(records)[q := b], 0) == (records[..i] + records[j..], true)
  {
    hide EncodeAll, RecordFrom, SameFrom, BegunBefore, BytePos, BlockStart, ReadAll;
    ByteIsThere(records, i, d);
    AlteredFrom(records, i, d, b, 0);
    assert records[..0] == [];
    NothingWritten();
    assert records[0..i] == records[..i];
  }

  lemma NothingWritten()
    ensures |EncodeAll([])| == 0
  {
  }

  lemma {:induction false} AlteredFrom(records: seq<Bytes>, i: nat, d: nat, b: Byte, k: nat)
    requires k <= i < |records| && d < |records[i]| && b != records[i][d]
    ensures
      var q := BytePos(records, i, d);
      var j := BegunBefore(records, BlockStart(q) + BLOCK_SIZE);
      && |EncodeAll(records[..k])| <= q < |EncodeAll(records)| && i < j
      && ReadAll(EncodeAll(records)[q := b], |EncodeAll(records[..k])|) == (records[k..i] + records[j..], true)
    decreases i - k
  {
    hide EncodeAll, Emit, RecordFrom, SameFrom, BegunBefore, BytePos, BlockStart;
    var whole, q := EncodeAll(records), BytePos(records, i, d);
    var j := BegunBefore(records, BlockStart(q) + BLOCK_SIZE);
    ByteIsThere(records, i, d);
    var file, pos := whole[q := b], |EncodeAll(records[..k])|;
    LengthsGrow(records, k, i);
    if k == i {
      AlteredRecord(records, i, d, b, j);
      ReadsTail(file, records, j);
      ReportStays(file, |EncodeAll(records[..j])|, (false, []));
      assert records[i..i] + records[j..] == records[j..];
    } else {
      AlteredFrom(records, i, d, b, k + 1);
      LengthsGrow(records, k + 1, i);
      UntouchedRecord(records, k, q, b);
      assert records[k..i] + records[j..] == [records[k]] + (records[k + 1..i] + records[j..]);
    }
  }

  /** A record that ends before the changed byte is read as it was written. */
  lemma UntouchedRecord(records: seq<Bytes>, k: nat, q: nat, b: Byte)
    requires k < |records| && |EncodeAll(records[..k + 1])| <= q < |EncodeAll(records)|
    ensures
      var file, pos := EncodeAll(records)[q := b], |EncodeAll(records[..k])|;
      pos <= |file| && RecordFrom(file, pos, (false, []), false) == Record(records[k], |EncodeAll(records[..k + 1])|, false)
  {
    hide EncodeAll, Emit, RecordFrom, Holds;
    RecordAt(records, k);
    var whole, pos := EncodeAll(records), |EncodeAll(records[..k])|;
    var file, bytes := whole[q := b], Emit(pos % BLOCK_SIZE, records[k]);
    UntouchedHas(whole, pos, bytes, q, b);
    HasHolds(file, pos, bytes);
    EmitRead(file, file, |file|, pos, records[k]);
    assert [] + records[k] == records[k];
  }

  lemma UntouchedHas(whole: Bytes, pos: nat, bytes: Bytes, q: nat, b: Byte)
    requires pos + |bytes| <= q < |whole| && whole[pos..pos + |bytes|] == bytes
    ensures Has(whole[q := b], pos, bytes)
  {
  }
}
