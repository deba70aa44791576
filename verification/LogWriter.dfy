/** log::Writer: AddRecord appends exactly the bytes of the format. */
module LogWriter {
  import opened Coding
  import opened LogFormat
  import Crc32c

  class Writer {
    var dest: Bytes          // the bytes appended to the file so far
    var blockOffset: nat     // current offset in block

    ghost predicate Valid()
      reads this
    {
      blockOffset <= BLOCK_SIZE && |dest| % BLOCK_SIZE == blockOffset % BLOCK_SIZE
    }

    constructor ()
      ensures Valid() && dest == []
    {
      dest := [];
      blockOffset := 0;
    }

    method AddRecord(record: Bytes)
      requires Valid()
      modifies this
      ensures Valid() && dest == old(dest) + Emit(old(|dest|) % BLOCK_SIZE, record)
    {
      hide Fragments, Physical, Zeros;
      ghost var want := dest + Remaining(blockOffset, record, true);
      FromBlockEnd(blockOffset, record, true);
      var left := AddFragment(record, true);
      while |left| > 0
        invariant Valid() && (|left| > 0 ==> blockOffset == BLOCK_SIZE)
        invariant want == if |left| > 0 then dest + Remaining(blockOffset, left, false) else dest
        decreases |left|
      {
        left := AddFragment(left, false);
      }
    }

    /** One round of the loop: skip a block's trailer if no header fits, then emit
        as much of `left` as the block holds. */
    method AddFragment(left: Bytes, begin: bool) returns (rest: Bytes)
      requires Valid()
      modifies this
      ensures Valid() && |rest| <= |left| && (|rest| > 0 ==> blockOffset == BLOCK_SIZE)
      ensures |rest| > 0 && old(blockOffset) == BLOCK_SIZE ==> |rest| < |left|
      ensures old(dest + Remaining(blockOffset, left, begin)) ==
        if |rest| > 0 then dest + Remaining(blockOffset, rest, false) else dest
    {
      hide Fragments, Physical, Zeros, Remaining;
      SkipTrailer(left, begin);
      var avail := BLOCK_SIZE - blockOffset - HEADER_SIZE;
      var length := if |left| < avail then |left| else avail;
      var end := |left| == length;
      var t := if begin && end then FULL else if begin then FIRST else if end then LAST else MIDDLE;
      FragmentsStep(blockOffset, left, begin);
      ghost var before := dest;
      EmitPhysicalRecord(t, left[..length]);
      rest := left[length..];
      if |rest| > 0 {
        AppendAssociates(before, Physical(t, left[..length]), Remaining(BLOCK_SIZE, rest, false));
      } else {
        AppendAssociates(before, Physical(t, left[..length]), []);
      }
    }

    method SkipTrailer(ghost left: Bytes, ghost begin: bool)
      requires Valid()
      modifies this
      ensures Valid() && blockOffset + HEADER_SIZE <= BLOCK_SIZE
      ensures old(blockOffset) == BLOCK_SIZE ==> blockOffset == 0
      ensures old(dest + Remaining(blockOffset, left, begin)) == dest + Fragments(blockOffset, left, begin)
    {
      hide Fragments, Zeros;
      var leftover := BLOCK_SIZE - blockOffset;
      if leftover < HEADER_SIZE {
        AppendAssociates(dest, Zeros(leftover), Fragments(0, left, begin));
        if leftover > 0 {
          dest := dest + Zeros(leftover);
        }
        blockOffset := 0;
      }
    }

    method EmitPhysicalRecord(t: Byte, data: Bytes)
      requires Valid() && blockOffset + HEADER_SIZE + |data| <= BLOCK_SIZE
      modifies this
      ensures Valid() && dest == old(dest) + Physical(t, data)
      ensures blockOffset == old(blockOffset) + HEADER_SIZE + |data|
    {
      hide Crc32c.Crc, Crc32c.Mask, EncodeFixed32, LengthLow, LengthHigh, AllBits, ToBits;
      var crc := Crc32c.Crc(Crc32c.Crc(CRC_START, [ToBits(t)]), AllBits(data));
      var header := EncodeFixed32(Crc32c.Mask(crc)) + [LengthLow(|data|), LengthHigh(|data|), t];
      dest := dest + header;
      dest := dest + data;
      blockOffset := blockOffset + HEADER_SIZE + |data|;
    }
  }

  /** What is still to be appended at a block offset. */
  function Remaining(off: nat, left: Bytes, begin: bool): Bytes
    requires off <= BLOCK_SIZE
  {
    if off + HEADER_SIZE <= BLOCK_SIZE then Fragments(off, left, begin)
    else Zeros(BLOCK_SIZE - off) + Fragments(0, left, begin)
  }

  lemma AppendAssociates(a: Bytes, b: Bytes, c: Bytes)
    ensures (a + b) + c == a + (b + c)
  {
  }

  lemma FromBlockEnd(off: nat, data: Bytes, begin: bool)
    requires off <= BLOCK_SIZE
    ensures Remaining(off, data, begin) == Remaining(off % BLOCK_SIZE, data, begin)
  {
    hide Fragments;
    if off == BLOCK_SIZE {
      assert Zeros(0) + Fragments(0, data, begin) == Fragments(0, data, begin);
    }
  }

  lemma FragmentsStep(off: nat, data: Bytes, begin: bool)
    requires off + HEADER_SIZE <= BLOCK_SIZE
    ensures
      var n := FragmentSize(off, data);
      Fragments(off, data, begin) ==
        Physical(FragmentType(begin, n == |data|), data[..n]) +
        (if n == |data| then [] else Remaining(BLOCK_SIZE, data[n..], false))
  {
    hide Physical;
    var n := FragmentSize(off, data);
    if n < |data| {
      FromBlockEnd(BLOCK_SIZE, data[n..], false);
    }
  }
}
