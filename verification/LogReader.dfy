/** log::Reader with initial offset 0 and checksums on: what it returns for the
    bytes of any sequence of AddRecord calls, cut anywhere. */
module LogReader {
  import opened Coding
  import opened LogFormat

  // ----- reading as a function of the file and a position -----

  datatype Phys =
    | Fragment(t: Byte, data: Bytes, next: nat)
    | Eof
    | Bad(next: nat, reported: bool)

  function BlockStart(pos: nat): nat {
    pos - pos % BLOCK_SIZE
  }

  /** The end of the buffer that is read at pos. */
  function BufferEnd(file: Bytes, pos: nat): nat {
    if BlockStart(pos) + BLOCK_SIZE <= |file| then BlockStart(pos) + BLOCK_SIZE else |file|
  }

  /** The block at pos was read in full, so the end of the file is not known yet. */
  predicate FullBlock(file: Bytes, pos: nat) {
    BlockStart(pos) + BLOCK_SIZE <= |file|
  }

  /** ReadPhysicalRecord at a position with room for a header in its buffer. */
  function ParseAt(file: Bytes, pos: nat): (r: Phys)
    requires pos + HEADER_SIZE <= BufferEnd(file, pos)
    ensures r.Fragment? ==> pos < r.next <= |file|
    ensures r.Bad? ==> pos < r.next <= |file|
  {
    var end := BufferEnd(file, pos);
    var length := DecodeLength(file[pos + 4], file[pos + 5]);
    var t := file[pos + 6];
    if HEADER_SIZE + length > end - pos then
      (if FullBlock(file, pos) then Bad(end, true) else Eof)
    else if t == ZERO_TYPE && length == 0 then Bad(end, false)
    else
      var data := file[pos + HEADER_SIZE..pos + HEADER_SIZE + length];
      if !ChecksumOk(file[pos..pos + 4], t, data) then Bad(end, true)
      else Fragment(t, data, pos + HEADER_SIZE + length)
  }

  /** ReadPhysicalRecord at any position: a short rest of a full block is skipped. */
  function ReadPhysical(file: Bytes, pos: nat): (r: Phys)
    requires pos <= |file|
    ensures r.Fragment? ==> pos < r.next <= |file|
    ensures r.Bad? ==> pos < r.next <= |file|
  {
    var end := BufferEnd(file, pos);
    if pos + HEADER_SIZE <= end then ParseAt(file, pos)
    else if !FullBlock(file, pos) then Eof
    else if end + HEADER_SIZE <= BufferEnd(file, end) then ParseAt(file, end)
    else Eof
  }

  datatype Logical = Record(data: Bytes, next: nat, reported: bool) | End(reported: bool)

  /** ReadRecord: collect fragments; `scratch` holds those of a record begun. */
  function RecordFrom(file: Bytes, pos: nat, scratch: (bool, Bytes), reported: bool): (r: Logical)
    requires pos <= |file|
    ensures r.Record? ==> pos < r.next <= |file|
    decreases |file| - pos
  {
    match ReadPhysical(file, pos)
    case Eof => End(reported)
    case Bad(next, rep) =>
      RecordFrom(file, next, (false, []), reported || rep || scratch.0)
    case Fragment(t, data, next) =>
      if t == FULL then Record(data, next, reported || (scratch.0 && scratch.1 != []))
      else if t == FIRST then RecordFrom(file, next, (true, data), reported || (scratch.0 && scratch.1 != []))
      else if t == MIDDLE then
        if scratch.0 then RecordFrom(file, next, (true, scratch.1 + data), reported)
        else RecordFrom(file, next, scratch, true)
      else if t == LAST then
        if scratch.0 then Record(scratch.1 + data, next, reported)
        else RecordFrom(file, next, scratch, true)
      else RecordFrom(file, next, (false, []), true)
  }

  /** All records read from pos on, and whether a corruption was reported. */
  function ReadAll(file: Bytes, pos: nat): (seq<Bytes>, bool)
    requires pos <= |file|
    decreases |file| - pos
  {
    match RecordFrom(file, pos, (false, []), false)
    case End(reported) => ([], reported)
    case Record(data, next, reported) =>
      var rest := ReadAll(file, next);
      ([data] + rest.0, reported || rest.1)
  }

  // ----- the reader itself -----

  class Reader {
    const file: Bytes
    var filePos: nat         // how much of the file has been read into buffers
    var buffer: Bytes        // the unread rest of the current buffer
    var eof: bool            // the last read was short
    var reported: bool       // a corruption has been reported

    ghost predicate Valid()
      reads this
    {
      && |buffer| <= filePos <= |file|
      && Pos() <= |file|
      && buffer == file[filePos - |buffer|..filePos]
      && (eof ==> filePos == |file|)
      && (!eof ==> filePos % BLOCK_SIZE == 0)
      && (|buffer| > 0 ==> filePos == BufferEnd(file, Pos()) && eof == !FullBlock(file, Pos()))
    }

    ghost function Pos(): nat
      reads this
    {
      if |buffer| <= filePos then filePos - |buffer| else 0
    }

    constructor (file: Bytes)
      ensures Valid() && this.file == file && Pos() == 0 && !reported
    {
      this.file := file;
      this.filePos := 0;
      this.buffer := [];
      this.eof := false;
      this.reported := false;
    }

    /** file_->Read(kBlockSize, &buffer_). */
    method Fill()
      requires Valid() && !eof
      modifies this
      ensures Valid() && reported == old(reported)
      ensures Pos() == old(filePos) && (|buffer| == 0 ==> eof)
      ensures |buffer| > 0 ==> filePos == BufferEnd(file, Pos()) && eof == !FullBlock(file, Pos())
    {
      var n := if |file| - filePos < BLOCK_SIZE then |file| - filePos else BLOCK_SIZE;
      BlockAligned(filePos, n);
      buffer := file[filePos..filePos + n];
      filePos := filePos + n;
      if n < BLOCK_SIZE {
        eof := true;
      }
    }

    method ReadPhysicalRecord() returns (r: Phys)
      requires Valid()
      modifies this
      ensures Valid()
      ensures r == ReadPhysical(file, old(Pos()))
      ensures r.Fragment? || r.Bad? ==> Pos() == r.next
      ensures reported == (old(reported) || (r.Bad? && r.reported))
    {
      hide ParseAt;
      var found := NextHeader();
      if !found {
        DropBuffer();
        return Eof;
      }
      r := ParseHeader();
    }

    /** Refill the buffer until it holds a header or the file has ended. */
    method NextHeader() returns (found: bool)
      requires Valid()
      modifies this
      ensures Valid() && reported == old(reported)
      ensures found ==> |buffer| >= HEADER_SIZE && ReadPhysical(file, old(Pos())) == ParseAt(file, Pos())
      ensures !found ==> eof && ReadPhysical(file, old(Pos())) == Eof
    {
      hide ParseAt;
      while |buffer| < HEADER_SIZE
        invariant Valid() && reported == old(reported)
        invariant ReadPhysical(file, old(Pos())) == ReadPhysical(file, Pos())
        decreases if |buffer| < HEADER_SIZE && !eof then 1 else 0
      {
        if eof {
          return false;
        }
        SkipToBuffer(file, Pos(), filePos);
        Fill();
      }
      found := true;
    }

    method ParseHeader() returns (r: Phys)
      requires Valid() && |buffer| >= HEADER_SIZE
      modifies this
      ensures Valid()
      ensures r == ParseAt(file, old(Pos()))
      ensures r.Fragment? || r.Bad? ==> Pos() == r.next
      ensures reported == (old(reported) || (r.Bad? && r.reported))
    {
      hide ChecksumOk, DecodeLength, BlockStart;
      ghost var pos := Pos();
      var length := DecodeLength(buffer[4], buffer[5]);
      var t := buffer[6];
      if HEADER_SIZE + length > |buffer| {
        DropBuffer();
        if !eof {
          reported := true;
          return Bad(filePos, true);
        }
        return Eof;
      }
      if t == ZERO_TYPE && length == 0 {
        DropBuffer();
        return Bad(filePos, false);
      }
      var data := buffer[HEADER_SIZE..HEADER_SIZE + length];
      SliceOfSlice(file, pos, filePos, HEADER_SIZE, HEADER_SIZE + length);
      SliceOfSlice(file, pos, filePos, 0, 4);
      if !ChecksumOk(buffer[..4], t, data) {
        DropBuffer();
        reported := true;
        return Bad(filePos, true);
      }
      Consume(HEADER_SIZE + length);
      r := Fragment(t, data, filePos - |buffer|);
    }

    /** buffer_.remove_prefix(n). */
    method Consume(n: nat)
      requires Valid() && n <= |buffer|
      modifies this`buffer
      ensures Valid() && Pos() == old(Pos()) + n
    {
      SameBuffer(file, Pos(), Pos() + n);
      buffer := buffer[n..];
    }

    /** buffer_.clear(). */
    method DropBuffer()
      requires Valid()
      modifies this`buffer
      ensures Valid() && Pos() == filePos
    {
      buffer := [];
    }

    lemma PosInFile()
      requires Valid()
      ensures Pos() <= |file|
    {
    }

    method ReportCorruption()
      requires Valid()
      modifies this`reported
      ensures Valid() && reported && Pos() == old(Pos())
    {
      reported := true;
    }

    method ReadRecord() returns (ok: bool, record: Bytes)
      requires Valid()
      modifies this
      ensures Valid()
      ensures
        match RecordFrom(file, old(Pos()), (false, []), old(reported))
        case Record(data, next, rep) => ok && record == data && Pos() == next && reported == rep
        case End(rep) => !ok && reported == rep
    {
      hide ReadPhysical, Valid;
      PosInFile();
      var scratch: Bytes := [];
      var inFragmentedRecord := false;
      while true
        invariant Valid() && Pos() <= |file|
        invariant RecordFrom(file, old(Pos()), (false, []), old(reported)) ==
          RecordFrom(file, Pos(), (inFragmentedRecord, scratch), reported)
        decreases |file| - Pos()
      {
        var r := ReadPhysicalRecord();
        match r
        case Eof =>
          return false, [];
        case Bad(_, _) =>
          if inFragmentedRecord {
            ReportCorruption();
          }
          inFragmentedRecord, scratch := false, [];
        case Fragment(t, fragment, _) =>
          if t == FULL {
            if inFragmentedRecord && scratch != [] {
              ReportCorruption();
            }
            return true, fragment;
          } else if t == FIRST {
            if inFragmentedRecord && scratch != [] {
              ReportCorruption();
            }
            inFragmentedRecord, scratch := true, fragment;
          } else if t == MIDDLE {
            if !inFragmentedRecord {
              ReportCorruption();
            } else {
              scratch := scratch + fragment;
            }
          } else if t == LAST {
            if !inFragmentedRecord {
              ReportCorruption();
            } else {
              return true, scratch + fragment;
            }
          } else {
            ReportCorruption();
            inFragmentedRecord, scratch := false, [];
          }
      }
    }
  }

  lemma SliceOfSlice(file: Bytes, a: nat, b: nat, i: nat, j: nat)
    requires a <= b <= |file| && i <= j <= b - a
    ensures file[a..b][i..j] == file[a + i..a + j]
    ensures i == 0 ==> file[a..b][..j] == file[a..a + j]
  {
    var whole := file[a..b];
    assert forall k :: 0 <= k < j ==> whole[k] == file[a + k];
    var part, want := whole[i..j], file[a + i..a + j];
    assert |part| == |want|;
    assert forall k :: 0 <= k < j - i ==> part[k] == want[k];
    assert whole[..j] == whole[0..j];
  }

  /** Skipping the short rest of a full block is reading at its end. */
  lemma SkipToBuffer(file: Bytes, pos: nat, end: nat)
    requires pos <= end <= |file| && end - pos < HEADER_SIZE && end % BLOCK_SIZE == 0
    requires pos < end ==> end == BufferEnd(file, pos) && FullBlock(file, pos)
    ensures ReadPhysical(file, pos) == ReadPhysical(file, end)
  {
    hide ParseAt;
  }

  lemma SameBuffer(file: Bytes, pos: nat, next: nat)
    requires pos <= next
    ensures next < BufferEnd(file, pos) ==> BufferEnd(file, next) == BufferEnd(file, pos) && FullBlock(file, next) == FullBlock(file, pos)
  {
  }

  lemma BlockAligned(p: nat, n: nat)
    requires p % BLOCK_SIZE == 0 && n <= BLOCK_SIZE
    ensures BlockStart(p) == p
    ensures n == BLOCK_SIZE ==> (p + n) % BLOCK_SIZE == 0
    ensures n < BLOCK_SIZE ==> BlockStart(p + n) == p
  {
  }

  // ----- reading back what was written -----

  /** The file holds the first `cut` bytes of `whole`, which has `bytes` at pos. */
  ghost predicate Holds(file: Bytes, whole: Bytes, cut: nat, pos: nat, bytes: Bytes) {
    && cut <= |whole| && file == whole[..cut]
    && pos + |bytes| <= |whole| && whole[pos..pos + |bytes|] == bytes
  }

  lemma HoldsPart(file: Bytes, whole: Bytes, cut: nat, pos: nat, a: Bytes, b: Bytes)
    requires Holds(file, whole, cut, pos, a + b)
    ensures Holds(file, whole, cut, pos, a) && Holds(file, whole, cut, pos + |a|, b)
  {
    var all := whole[pos..pos + |a + b|];
    assert whole[pos..pos + |a|] == all[..|a|];
    assert whole[pos + |a|..pos + |a| + |b|] == all[|a|..];
    assert (a + b)[..|a|] == a && (a + b)[|a|..] == b;
  }

  lemma SliceOfFile(file: Bytes, whole: Bytes, cut: nat, pos: nat, bytes: Bytes)
    requires Holds(file, whole, cut, pos, bytes) && pos + |bytes| <= cut
    ensures file[pos..pos + |bytes|] == bytes
  {
  }

  /** The parts of a stored physical record. */
  lemma PhysicalParts(t: Byte, data: Bytes)
    requires |data| < 65536
    ensures
      var p := Physical(t, data);
      && p[..4] == StoredChecksum(t, data)
      && p[4] == LengthLow(|data|) && p[5] == LengthHigh(|data|) && p[6] == t
      && p[HEADER_SIZE..] == data
  {
    hide StoredChecksum, LengthLow, LengthHigh;
  }

  lemma SameBlock(pos: nat, n: nat)
    requires pos % BLOCK_SIZE + n <= BLOCK_SIZE
    ensures pos + n <= BlockStart(pos) + BLOCK_SIZE
    ensures pos % BLOCK_SIZE + n == BLOCK_SIZE ==> (pos + n) % BLOCK_SIZE == 0
  {
  }

  lemma WholeFragmentParsed(file: Bytes, whole: Bytes, cut: nat, pos: nat, t: Byte, data: Bytes)
    requires |data| < 65536 && t != ZERO_TYPE
    requires Holds(file, whole, cut, pos, Physical(t, data))
    requires pos + HEADER_SIZE + |data| <= BufferEnd(file, pos)
    ensures ParseAt(file, pos) == Fragment(t, data, pos + HEADER_SIZE + |data|)
  {
    hide Physical, StoredChecksum, ChecksumOk, LengthLow, LengthHigh, DecodeLength;
    var p := Physical(t, data);
    SliceOfFile(file, whole, cut, pos, p);
    PhysicalParts(t, data);
    LengthRoundTrip(|data|);
    ChecksumMatches(t, data);
    var n := HEADER_SIZE + |data|;
    assert file[pos + 4] == p[4] && file[pos + 5] == p[5] && file[pos + 6] == p[6];
    SliceOfSlice(file, pos, pos + n, 0, 4);
    SliceOfSlice(file, pos, pos + n, HEADER_SIZE, n);
    assert p[HEADER_SIZE..n] == p[HEADER_SIZE..];
  }

  lemma CutFragmentIsEof(file: Bytes, whole: Bytes, cut: nat, pos: nat, t: Byte, data: Bytes)
    requires |data| < 65536
    requires Holds(file, whole, cut, pos, Physical(t, data))
    requires pos + HEADER_SIZE <= cut < pos + HEADER_SIZE + |data| && !FullBlock(file, pos)
    ensures ParseAt(file, pos) == Eof
  {
    hide Physical, StoredChecksum, ChecksumOk, LengthLow, LengthHigh, DecodeLength;
    var p := Physical(t, data);
    PhysicalParts(t, data);
    LengthRoundTrip(|data|);
    assert whole[pos..pos + |p|] == p;
    assert file[pos + 4] == p[4] && file[pos + 5] == p[5];
  }

  /** A fragment is read if it is there in full; if it was cut, the file ends. */
  lemma FragmentRead(file: Bytes, whole: Bytes, cut: nat, pos: nat, t: Byte, data: Bytes)
    requires t != ZERO_TYPE && pos % BLOCK_SIZE + HEADER_SIZE + |data| <= BLOCK_SIZE
    requires Holds(file, whole, cut, pos, Physical(t, data)) && pos <= cut
    ensures ReadPhysical(file, pos) ==
      if pos + HEADER_SIZE + |data| <= cut then Fragment(t, data, pos + HEADER_SIZE + |data|) else Eof
  {
    hide Physical, ParseAt;
    SameBlock(pos, HEADER_SIZE + |data|);
    if pos + HEADER_SIZE + |data| <= cut {
      WholeFragmentParsed(file, whole, cut, pos, t, data);
    } else if pos + HEADER_SIZE <= cut {
      CutFragmentIsEof(file, whole, cut, pos, t, data);
    }
  }

  /** Reading in a block's trailer is reading at the next block, if it is there. */
  lemma TrailerSkipped(file: Bytes, pos: nat)
    requires pos <= |file| && pos % BLOCK_SIZE + HEADER_SIZE > BLOCK_SIZE
    ensures
      var next := BlockStart(pos) + BLOCK_SIZE;
      ReadPhysical(file, pos) == if next <= |file| then ReadPhysical(file, next) else Eof
  {
    hide ParseAt;
  }

  lemma TypesNotZero(begin: bool, end: bool)
    ensures FragmentType(begin, end) != ZERO_TYPE
  {
  }

  ghost predicate ReadsRecord(file: Bytes, pos: nat, scratch: (bool, Bytes), data: Bytes, end: nat, cut: nat)
    requires pos <= |file|
  {
    RecordFrom(file, pos, scratch, false) == if end <= cut then Record(scratch.1 + data, end, false) else End(false)
  }

  lemma LastFragmentRead(file: Bytes, whole: Bytes, cut: nat, pos: nat, data: Bytes, begin: bool, scratch: (bool, Bytes))
    requires pos % BLOCK_SIZE + HEADER_SIZE + |data| <= BLOCK_SIZE && pos <= cut
    requires Holds(file, whole, cut, pos, Physical(FragmentType(begin, true), data))
    requires scratch.0 == !begin && (begin ==> scratch.1 == [])
    ensures ReadsRecord(file, pos, scratch, data, pos + HEADER_SIZE + |data|, cut)
  {
    hide Physical, ReadPhysical;
    TypesNotZero(begin, true);
    FragmentRead(file, whole, cut, pos, FragmentType(begin, true), data);
    assert begin ==> scratch.1 + data == data;
  }

  lemma InnerFragmentRead(file: Bytes, whole: Bytes, cut: nat, pos: nat, data: Bytes, begin: bool, scratch: (bool, Bytes))
    requires pos % BLOCK_SIZE + HEADER_SIZE + |data| <= BLOCK_SIZE && pos <= cut
    requires Holds(file, whole, cut, pos, Physical(FragmentType(begin, false), data))
    requires scratch.0 == !begin && (begin ==> scratch.1 == [])
    ensures
      var next := pos + HEADER_SIZE + |data|;
      RecordFrom(file, pos, scratch, false) ==
        if next <= cut then RecordFrom(file, next, (true, scratch.1 + data), false) else End(false)
  {
    hide Physical, ReadPhysical;
    TypesNotZero(begin, false);
    FragmentRead(file, whole, cut, pos, FragmentType(begin, false), data);
    assert begin ==> scratch.1 + data == data;
  }

  lemma {:induction false} FragmentsRead(file: Bytes, whole: Bytes, cut: nat, pos: nat, off: nat, data: Bytes, begin: bool, scratch: (bool, Bytes))
    requires off == pos % BLOCK_SIZE && off + HEADER_SIZE <= BLOCK_SIZE && pos <= cut == |file|
    requires Holds(file, whole, cut, pos, Fragments(off, data, begin))
    requires scratch.0 == !begin && (begin ==> scratch.1 == [])
    ensures ReadsRecord(file, pos, scratch, data, pos + |Fragments(off, data, begin)|, cut)
    decreases |data|, off
  {
    hide Physical, RecordFrom, Holds, Fragments, FragmentType, ReadsRecord;
    var n := FragmentSize(off, data);
    FragmentsUnfold(off, data, begin);
    if n == |data| {
      LastFragmentRead(file, whole, cut, pos, data, begin, scratch);
    } else {
      var here := Physical(FragmentType(begin, false), data[..n]);
      var next := pos + HEADER_SIZE + n;
      HoldsPart(file, whole, cut, pos, here, Fragments(0, data[n..], false));
      BlockEnds(pos, off, HEADER_SIZE + n);
      if next <= cut {
        FragmentsRead(file, whole, cut, next, 0, data[n..], false, (true, scratch.1 + data[..n]));
      }
      InnerReadsRecord(file, whole, cut, pos, data, n, begin, scratch, next + |Fragments(0, data[n..], false)|);
    }
  }

  lemma BlockEnds(pos: nat, off: nat, n: nat)
    requires off == pos % BLOCK_SIZE && off + n == BLOCK_SIZE
    ensures (pos + n) % BLOCK_SIZE == 0
  {
  }

  lemma InnerReadsRecord(file: Bytes, whole: Bytes, cut: nat, pos: nat, data: Bytes, n: nat, begin: bool, scratch: (bool, Bytes), end: nat)
    requires n <= |data| && pos % BLOCK_SIZE + HEADER_SIZE + n <= BLOCK_SIZE && pos <= cut == |file|
    requires Holds(file, whole, cut, pos, Physical(FragmentType(begin, false), data[..n]))
    requires scratch.0 == !begin && (begin ==> scratch.1 == [])
    requires pos + HEADER_SIZE + n <= end
    requires pos + HEADER_SIZE + n <= cut ==>
      ReadsRecord(file, pos + HEADER_SIZE + n, (true, scratch.1 + data[..n]), data[n..], end, cut)
    ensures ReadsRecord(file, pos, scratch, data, end, cut)
  {
    hide Physical, RecordFrom, Holds, FragmentType;
    InnerFragmentRead(file, whole, cut, pos, data[..n], begin, scratch);
    assert (scratch.1 + data[..n]) + data[n..] == scratch.1 + data;
  }

  /** What AddRecord appended is read as that record, unless it was cut. */
  lemma EmitRead(file: Bytes, whole: Bytes, cut: nat, pos: nat, data: Bytes)
    requires pos <= cut && Holds(file, whole, cut, pos, Emit(pos % BLOCK_SIZE, data))
    ensures ReadsRecord(file, pos, (false, []), data, pos + |Emit(pos % BLOCK_SIZE, data)|, cut)
  {
    hide Fragments, Holds, ReadPhysical, Zeros;
    var off := pos % BLOCK_SIZE;
    if off + HEADER_SIZE <= BLOCK_SIZE {
      FileLength(file, whole, cut, pos, Fragments(off, data, true));
      FragmentsRead(file, whole, cut, pos, off, data, true, (false, []));
    } else {
      var next := pos + (BLOCK_SIZE - off);
      SameBlock(pos, BLOCK_SIZE - off);
      HoldsPart(file, whole, cut, pos, Zeros(BLOCK_SIZE - off), Fragments(0, data, true));
      FileLength(file, whole, cut, pos, Zeros(BLOCK_SIZE - off));
      TrailerSkipped(file, pos);
      if next <= cut {
        FragmentsRead(file, whole, cut, next, 0, data, true, (false, []));
      }
    }
  }

  lemma FileLength(file: Bytes, whole: Bytes, cut: nat, pos: nat, bytes: Bytes)
    requires Holds(file, whole, cut, pos, bytes)
    ensures |file| == cut
  {
  }

  /** Record i of a file lies where the records before it end. */
  lemma {:induction false} RecordAt(records: seq<Bytes>, i: nat)
    requires i < |records|
    ensures
      var whole, before := EncodeAll(records), EncodeAll(records[..i]);
      var bytes := Emit(|before| % BLOCK_SIZE, records[i]);
      && |EncodeAll(records[..i + 1])| == |before| + |bytes| <= |whole|
      && whole[|before|..|before| + |bytes|] == bytes
  {
    hide Emit;
    var n := |records| - 1;
    if i == n {
      assert records[..n + 1] == records;
    } else {
      RecordAt(records[..n], i);
      assert records[..n][..i] == records[..i] && records[..n][..i + 1] == records[..i + 1];
    }
  }

  /** How many records end at or before byte `cut`. */
  function Complete(records: seq<Bytes>, cut: nat): (k: nat)
    ensures k <= |records|
  {
    if records == [] || |EncodeAll(records)| <= cut then |records|
    else Complete(records[..|records| - 1], cut)
  }

  lemma {:induction false} CompleteCounts(records: seq<Bytes>, cut: nat, i: nat)
    requires i <= |records|
    ensures |EncodeAll(records[..i])| <= cut <==> i <= Complete(records, cut) || i == 0
  {
    hide Emit;
    var n := |records|;
    if i == n {
      assert records[..n] == records;
    } else {
      assert records[..n - 1][..i] == records[..i];
      CompleteCounts(records[..n - 1], cut, i);
      if |EncodeAll(records)| <= cut {
        RecordAt(records, i);
      }
    }
  }

  lemma {:induction false} ReadsRest(records: seq<Bytes>, cut: nat, i: nat)
    requires cut <= |EncodeAll(records)| && i <= Complete(records, cut)
    requires |EncodeAll(records[..i])| <= cut
    ensures ReadAll(EncodeAll(records)[..cut], |EncodeAll(records[..i])|) == (records[i..Complete(records, cut)], false)
    decreases |records| - i
  {
    hide Emit, EncodeAll, Complete, RecordFrom;
    var whole, k := EncodeAll(records), Complete(records, cut);
    var file := whole[..cut];
    var pos := |EncodeAll(records[..i])|;
    if i == |records| {
      assert records[..i] == records;
      EndOfFile(records, cut);
    } else {
      RecordAt(records, i);
      EmitRead(file, whole, cut, pos, records[i]);
      CompleteCounts(records, cut, i + 1);
      assert [] + records[i] == records[i];
      if i < k {
        ReadsRest(records, cut, i + 1);
        assert records[i..k] == [records[i]] + records[i + 1..k];
      } else {
        assert records[i..k] == [];
      }
    }
  }

  lemma EndOfFile(records: seq<Bytes>, cut: nat)
    requires cut == |EncodeAll(records)|
    ensures RecordFrom(EncodeAll(records)[..cut], cut, (false, []), false) == End(false)
  {
    hide EncodeAll, ParseAt;
  }

  /** A log cut at any byte reads back as exactly the records that were written in
      full, in order, and no corruption is reported. */
  lemma CutLogReadsBack(records: seq<Bytes>, cut: nat)
    requires cut <= |EncodeAll(records)|
    ensures ReadAll(EncodeAll(records)[..cut], 0) == (records[..Complete(records, cut)], false)
  {
    hide Emit, ReadAll;
    assert records[..0] == [];
    ReadsRest(records, cut, 0);
    assert records[0..Complete(records, cut)] == records[..Complete(records, cut)];
  }

  /** An uncut log reads back as all its records. */
  lemma LogRoundTrip(records: seq<Bytes>)
    ensures ReadAll(EncodeAll(records), 0) == (records, false)
  {
    hide Emit, ReadAll;
    var whole := EncodeAll(records);
    CutLogReadsBack(records, |whole|);
    assert whole[..|whole|] == whole;
    assert records[..|records|] == records;
  }
}
