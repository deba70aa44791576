/** A block in a table file: its trailer, and reading it back with its checksum. */
module BlockRead {
  import opened Coding
  import LogFormat
  import Crc32c

  /** kBlockTrailerSize. */
  const TRAILER: nat := 5

  const NO_COMPRESSION: Byte := 0
  const SNAPPY: Byte := 1

  /** The checksum of a block and its type byte. */
  function BlockCrc(b: Bytes): Crc32c.Reg {
    Crc32c.Crc(LogFormat.CRC_START, LogFormat.AllBits(b))
  }

  /** WriteRawBlock's trailer: no compression, and the masked checksum of block and
      type, the type added last. */
  function Trailer(block: Bytes): (t: Bytes)
    ensures |t| == TRAILER
  {
    var crc := Crc32c.Crc(BlockCrc(block), [ToBits(NO_COMPRESSION)]);
    [NO_COMPRESSION] + LogFormat.EncodeFixed32(Crc32c.Mask(crc))
  }

  datatype Contents = Block(data: Bytes) | Packed(data: Bytes) | Truncated | Mismatch | BadType

  /** ReadBlock; Packed is a block that is still to be uncompressed. */
  function ReadBlock(file: Bytes, offset: nat, size: nat, verify: bool): Contents {
    if offset + size + TRAILER > |file| then Truncated
    else
      var contents := file[offset..offset + size + TRAILER];
      if verify && BlockCrc(contents[..size + 1]) != Crc32c.Unmask(LogFormat.DecodeFixed32(contents[size + 1..])) then Mismatch
      else if contents[size] == NO_COMPRESSION then Block(contents[..size])
      else if contents[size] == SNAPPY then Packed(contents[..size])
      else BadType
  }

  /** The file has the block and its trailer at this offset. */
  ghost predicate Stored(file: Bytes, offset: nat, block: Bytes) {
    && offset + |block| + TRAILER <= |file|
    && file[offset..offset + |block| + TRAILER] == block + Trailer(block)
  }

  lemma BitsOfLast(block: Bytes, b: Byte)
    ensures LogFormat.AllBits(block + [b]) == LogFormat.AllBits(block) + [ToBits(b)]
  {
    hide ToBits;
  }

  lemma TypeAddedLast(block: Bytes)
    ensures Crc32c.Crc(BlockCrc(block), [ToBits(NO_COMPRESSION)]) == BlockCrc(block + [NO_COMPRESSION])
  {
    hide LogFormat.AllBits, Crc32c.Crc, ToBits;
    BitsOfLast(block, NO_COMPRESSION);
    Crc32c.CrcConcat(LogFormat.CRC_START, LogFormat.AllBits(block), [ToBits(NO_COMPRESSION)]);
  }

  /** The parts of a stored block: contents and type, then their checksum. */
  lemma StoredParts(block: Bytes)
    ensures
      var all, n := block + Trailer(block), |block|;
      && all[..n] == block && all[n] == NO_COMPRESSION && all[..n + 1] == block + [NO_COMPRESSION]
      && Crc32c.Unmask(LogFormat.DecodeFixed32(all[n + 1..])) == BlockCrc(all[..n + 1])
  {
    hide Crc32c.Crc, Crc32c.Mask, Crc32c.Unmask, LogFormat.EncodeFixed32, LogFormat.DecodeFixed32, BlockCrc, ToBits;
    var crc := Crc32c.Crc(BlockCrc(block), [ToBits(NO_COMPRESSION)]);
    var stored := LogFormat.EncodeFixed32(Crc32c.Mask(crc));
    var all, n := block + Trailer(block), |block|;
    assert all == block + [NO_COMPRESSION] + stored;
    assert all[n + 1..] == stored && all[..n + 1] == block + [NO_COMPRESSION];
    TypeAddedLast(block);
    LogFormat.ChecksumRoundTrip(Crc32c.Mask(crc));
    Crc32c.UnmaskMask(crc);
  }

  /** A block that was written is read back, with or without its checksum. */
  lemma WrittenReads(file: Bytes, offset: nat, block: Bytes, verify: bool)
    requires Stored(file, offset, block)
    ensures ReadBlock(file, offset, |block|, verify) == Block(block)
  {
    hide Crc32c.Unmask, LogFormat.DecodeFixed32, BlockCrc, Trailer;
    StoredParts(block);
  }

  /** Change any one byte of a stored block, its type or its checksum: a reader that
      verifies checksums reports the mismatch. */
  lemma ChangedByteIsReported(file: Bytes, offset: nat, block: Bytes, i: nat, b: Byte)
    requires Stored(file, offset, block) && i < |block| + TRAILER && file[offset + i] != b
    ensures ReadBlock(file[offset + i := b], offset, |block|, true) == Mismatch
  {
    hide Crc32c.Unmask, LogFormat.DecodeFixed32, BlockCrc, Trailer;
    var n, all := |block|, block + Trailer(block);
    var changed := all[i := b];
    StoredParts(block);
    ChangedSlice(file, offset, all, i, b);
    if i <= n {
      assert changed[..n + 1] == all[..n + 1][i := b] && changed[n + 1..] == all[n + 1..];
      ChangedCrc(all[..n + 1], i, b);
    } else {
      assert changed[..n + 1] == all[..n + 1] && changed[n + 1..] == all[n + 1..][i - n - 1 := b];
      ChangedChecksum(all[n + 1..], i - n - 1, b);
    }
  }

  lemma ChangedSlice(file: Bytes, offset: nat, all: Bytes, i: nat, b: Byte)
    requires offset + |all| <= |file| && file[offset..offset + |all|] == all && i < |all|
    ensures file[offset + i := b][offset..offset + |all|] == all[i := b]
    ensures all[i] == file[offset + i]
  {
  }

  lemma ChangedCrc(data: Bytes, i: nat, b: Byte)
    requires i < |data| && data[i] != b
    ensures BlockCrc(data[i := b]) != BlockCrc(data)
  {
    hide Crc32c.Crc, ToBits, OfBits;
    assert LogFormat.AllBits(data[i := b]) == LogFormat.AllBits(data)[i := ToBits(b)];
    BytesRoundTrip(b);
    BytesRoundTrip(data[i]);
    Crc32c.OneByteChangesCrc(LogFormat.CRC_START, LogFormat.AllBits(data), i, ToBits(b));
  }

  lemma ChangedChecksum(stored: Bytes, i: nat, b: Byte)
    requires i < |stored| == 4 && stored[i] != b
    ensures Crc32c.Unmask(LogFormat.DecodeFixed32(stored[i := b])) != Crc32c.Unmask(LogFormat.DecodeFixed32(stored))
  {
    hide Crc32c.Unmask, Crc32c.Mask, LogFormat.DecodeFixed32;
    var x, y := LogFormat.DecodeFixed32(stored[i := b]), LogFormat.DecodeFixed32(stored);
    Crc32c.MaskUnmask(x);
    Crc32c.MaskUnmask(y);
    WordSeesByte(stored, i, b);
  }

  lemma WordSeesByte(stored: Bytes, i: nat, b: Byte)
    requires i < |stored| == 4 && stored[i] != b
    ensures LogFormat.DecodeFixed32(stored[i := b]) != LogFormat.DecodeFixed32(stored)
  {
    hide Crc32c.Word, ToBits, OfBits;
    var other := stored[i := b];
    Crc32c.WordBytes(ToBits(stored[0]), ToBits(stored[1]), ToBits(stored[2]), ToBits(stored[3]));
    Crc32c.WordBytes(ToBits(other[0]), ToBits(other[1]), ToBits(other[2]), ToBits(other[3]));
    BytesRoundTrip(b);
    BytesRoundTrip(stored[i]);
  }
}
