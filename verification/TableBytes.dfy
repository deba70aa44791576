/** Tables as bytes: blocks encoded by the block builder, found through encoded
    handles, and searched by the block iterator. */
module TableBytes {
  import opened Coding
  import opened Comparator
  import opened BlockFormat
  import BlockIter
  import opened Table
  import FilterBlock
  import Bloom
  import BlockRead

  // ----- keys in blocks -----

  /** InternalKeyComparator on encoded keys. */
  predicate KeyLess(a: Bytes, b: Bytes) {
    |a| >= 8 && |b| >= 8 && Before(Decode(a), Decode(b))
  }

  lemma KeyLessTransitive()
    ensures BlockIter.Transitive(KeyLess)
  {
    forall a, b, c | KeyLess(a, b) && KeyLess(b, c)
      ensures KeyLess(a, c)
    {
      BeforeTransitive(Decode(a), Decode(b), Decode(c));
    }
  }

  predicate Fits(k: Key) {
    k.tag < TWO64
  }

  ghost predicate ItemsFit(items: seq<Item>) {
    forall i :: 0 <= i < |items| ==> Fits(items[i].key)
  }

  lemma EncodedLess(a: Key, b: Key)
    requires Fits(a) && Fits(b)
    ensures KeyLess(Encode(a), Encode(b)) <==> Before(a, b)
  {
    KeyRoundTrip(a);
    KeyRoundTrip(b);
  }

  /** The pairs of a data block. */
  function Pairs(items: seq<Item>): (r: seq<Pair>)
    requires ItemsFit(items)
    ensures |r| == |items|
  {
    seq(|items|, i requires 0 <= i < |items| => Pair(Encode(items[i].key), items[i].value))
  }

  // ----- block handles -----

  datatype Handle = Handle(offset: nat, size: nat)

  predicate HandleFits(h: Handle) {
    h.offset < TWO64 && h.size < TWO64
  }

  /** BlockHandle::EncodeTo. */
  function EncodeHandle(h: Handle): Bytes {
    Varint(h.offset) + Varint(h.size)
  }

  /** BlockHandle::DecodeFrom. */
  function DecodeHandle(b: Bytes): Parsed<Handle> {
    match GetVarint64(b)
    case Malformed => Malformed
    case Got(offset, rest) =>
      match GetVarint64(rest)
      case Malformed => Malformed
      case Got(size, rest') => Got(Handle(offset, size), rest')
  }

  lemma HandleRoundTrip(h: Handle)
    requires HandleFits(h)
    ensures DecodeHandle(EncodeHandle(h)) == Got(h, [])
  {
    hide Varint, GetVarint64;
    Varint64RoundTrip(h.offset, Varint(h.size));
    assert Varint(h.size) + [] == Varint(h.size);
    Varint64RoundTrip(h.size, []);
  }

  predicate EntryFits(e: IndexEntry, handles: seq<Handle>) {
    Fits(e.key) && e.block < |handles|
  }

  ghost predicate IndexFits(index: seq<IndexEntry>, handles: seq<Handle>) {
    forall i :: 0 <= i < |index| ==> EntryFits(index[i], handles)
  }

  function IndexPair(e: IndexEntry, handles: seq<Handle>): Pair
    requires EntryFits(e, handles)
  {
    Pair(Encode(e.key), EncodeHandle(handles[e.block]))
  }

  /** The pairs of the index block: shortened key and handle of each block. */
  function IndexPairs(index: seq<IndexEntry>, handles: seq<Handle>): (r: seq<Pair>)
    requires IndexFits(index, handles)
    ensures |r| == |index|
  {
    seq(|index|, i requires 0 <= i < |index| && EntryFits(index[i], handles) => IndexPair(index[i], handles))
  }

  // ----- the file -----

  /** The bytes are a finished block of exactly these pairs. */
  ghost predicate BlockHolds(bytes: Bytes, pairs: seq<Pair>) {
    exists data, l :: BlockOk(bytes, data, l) && l.pairs == pairs
  }

  ghost predicate HandleOf(file: Bytes, block: DataBlock, h: Handle) {
    && h.offset == block.offset && HandleFits(h) && h.offset + h.size <= |file|
    && ItemsFit(block.items)
    && BlockHolds(file[h.offset..h.offset + h.size], Pairs(block.items))
    && BlockRead.Stored(file, h.offset, file[h.offset..h.offset + h.size])
  }

  /** Every data block lies in the file where its handle says. */
  ghost predicate DataIn(file: Bytes, blocks: seq<DataBlock>, handles: seq<Handle>) {
    |handles| == |blocks| && forall b :: 0 <= b < |blocks| ==> HandleOf(file, blocks[b], handles[b])
  }

  /** A table file: data blocks, and an index block that leads to them. */
  ghost predicate TableFile(
    file: Bytes, indexBytes: Bytes, blocks: seq<DataBlock>, index: seq<IndexEntry>, handles: seq<Handle>)
  {
    && BlocksSorted(blocks) && IndexOk(blocks, index) && DataIn(file, blocks, handles)
    && IndexFits(index, handles) && BlockHolds(indexBytes, IndexPairs(index, handles))
  }

  // ----- seeking in a block of bytes -----

  /** Block::Iter::Seek on the bytes: the first pair not before the key, if any. */
  method SeekBytes(bytes: Bytes, k: Key, ghost pairs: seq<Pair>) returns (valid: bool, key: Bytes, value: Bytes, ghost pos: nat)
    requires Fits(k) && BlockHolds(bytes, pairs) && BlockIter.Increasing(KeyLess, pairs)
    ensures BlockIter.FirstNotBefore(KeyLess, pairs, Encode(k), pos) && valid == (pos < |pairs|)
    ensures valid ==> key == pairs[pos].key && value == pairs[pos].value
  {
    hide BlockOk, KeyLess, BlockIter.Increasing, BlockIter.FirstNotBefore, BlockIter.Transitive;
    ghost var data, l :| BlockOk(bytes, data, l) && l.pairs == pairs;
    KeyLessTransitive();
    var it := new BlockIter.Iter(KeyLess, bytes, data, l);
    pos := it.Seek(Encode(k));
    valid, key, value := it.Read(pos);
  }

  lemma ItemsIncrease(items: seq<Item>)
    requires ItemsFit(items) && SortedItems(items)
    ensures BlockIter.Increasing(KeyLess, Pairs(items))
  {
    hide KeyLess, Before, Encode;
    forall i, j | 0 <= i < j < |items|
      ensures KeyLess(Pairs(items)[i].key, Pairs(items)[j].key)
    {
      EncodedLess(items[i].key, items[j].key);
    }
  }

  /** What the position found says of the items. */
  lemma FoundItem(items: seq<Item>, k: Key, pos: nat)
    requires ItemsFit(items) && Fits(k) && BlockIter.FirstNotBefore(KeyLess, Pairs(items), Encode(k), pos)
    ensures pos <= |items| && (pos < |items| ==> !Before(items[pos].key, k))
    ensures forall j :: 0 <= j < pos ==> Before(items[j].key, k)
  {
    hide KeyLess, Before, Encode;
    forall j | 0 <= j < |items|
      ensures KeyLess(Pairs(items)[j].key, Encode(k)) <==> Before(items[j].key, k)
    {
      EncodedLess(items[j].key, k);
    }
  }

  // ----- the index -----

  lemma NextIndexKey(blocks: seq<DataBlock>, index: seq<IndexEntry>, b: nat)
    requires BlocksSorted(blocks) && IndexOk(blocks, index) && b + 1 < |index|
    ensures Before(index[b].key, index[b + 1].key)
  {
    hide Less, AllBefore;
    var next := blocks[b + 1].items;
    BlockSorted(blocks, b + 1);
    assert next[0] in next;
    AtMostLast(next, next[0]);
    assert Separates(Last(blocks[b].items), index[b].key, First(next));
    assert Closes(Last(next), index[b + 1].key);
    KeyChain(index[b].key, First(next), Last(next), index[b + 1].key);
  }

  lemma KeyChain(a: Key, b: Key, c: Key, d: Key)
    requires Before(a, b) && !Before(c, b) && !Before(d, c)
    ensures Before(a, d)
  {
    hide Before;
    NotBeforeTrans(a, b, c);
    NotBeforeTrans(a, c, d);
  }

  lemma {:induction false} IndexSorted(blocks: seq<DataBlock>, index: seq<IndexEntry>, i: nat, j: nat)
    requires BlocksSorted(blocks) && IndexOk(blocks, index) && i < j < |index|
    ensures Before(index[i].key, index[j].key)
    decreases j - i
  {
    hide Before, BlocksSorted, IndexOk;
    NextIndexKey(blocks, index, i);
    if i + 1 < j {
      IndexSorted(blocks, index, i + 1, j);
      BeforeTransitive(index[i].key, index[i + 1].key, index[j].key);
    }
  }

  lemma IndexIncreases(blocks: seq<DataBlock>, index: seq<IndexEntry>, handles: seq<Handle>)
    requires BlocksSorted(blocks) && IndexOk(blocks, index) && IndexFits(index, handles)
    ensures BlockIter.Increasing(KeyLess, IndexPairs(index, handles))
  {
    hide KeyLess, Before, Encode, BlocksSorted, IndexOk, EncodeHandle;
    forall i, j | 0 <= i < j < |index|
      ensures KeyLess(IndexPairs(index, handles)[i].key, IndexPairs(index, handles)[j].key)
    {
      IndexSorted(blocks, index, i, j);
      assert EntryFits(index[i], handles) && EntryFits(index[j], handles);
      EncodedLess(index[i].key, index[j].key);
    }
  }

  lemma FoundIndex(index: seq<IndexEntry>, handles: seq<Handle>, k: Key, pos: nat)
    requires IndexFits(index, handles) && Fits(k)
    requires BlockIter.FirstNotBefore(KeyLess, IndexPairs(index, handles), Encode(k), pos)
    ensures pos <= |index| && (pos < |index| ==> !Before(index[pos].key, k))
    ensures forall j :: 0 <= j < pos ==> Before(index[j].key, k)
  {
    hide KeyLess, Before, Encode, EncodeHandle;
    forall j | 0 <= j < |index|
      ensures KeyLess(IndexPairs(index, handles)[j].key, Encode(k)) <==> Before(index[j].key, k)
    {
      assert EntryFits(index[j], handles);
      EncodedLess(index[j].key, k);
    }
  }

  // ----- the lookup -----

  /** The index seek on bytes: the handle of the block to look in, if any. */
  method FindHandle(
    file: Bytes, indexBytes: Bytes, k: Key, ghost blocks: seq<DataBlock>, ghost index: seq<IndexEntry>,
    ghost handles: seq<Handle>)
    returns (found: bool, h: Handle, ghost b: nat)
    requires TableFile(file, indexBytes, blocks, index, handles) && Fits(k)
    ensures found ==> Table.At(blocks, index, k, b) && b < |blocks| == |handles| && h == handles[b]
    ensures !found ==> forall j :: 0 <= j < |index| ==> Before(index[j].key, k)
  {
    hide KeyLess, Before, BlockHolds, BlocksSorted, IndexFits, HandleOf;
    hide BlockIter.FirstNotBefore, BlockIter.Increasing, DecodeHandle, EncodeHandle;
    IndexIncreases(blocks, index, handles);
    var valid, key, value;
    ghost var pos;
    valid, key, value, pos := SeekBytes(indexBytes, k, IndexPairs(index, handles));
    FoundIndex(index, handles, k, pos);
    found, h, b := valid, Handle(0, 0), pos;
    if valid {
      IndexValue(index, handles, pos);
      assert HandleOf(file, blocks[pos], handles[pos]);
      HandleIsFit(file, blocks[pos], handles[pos]);
      HandleRoundTrip(handles[pos]);
      h := DecodeHandle(value).value;
    }
  }

  lemma IndexValue(index: seq<IndexEntry>, handles: seq<Handle>, i: nat)
    requires IndexFits(index, handles) && i < |index|
    ensures index[i].block < |handles| && IndexPairs(index, handles)[i].value == EncodeHandle(handles[index[i].block])
  {
    assert EntryFits(index[i], handles);
  }

  lemma HandleIsFit(file: Bytes, block: DataBlock, h: Handle)
    requires HandleOf(file, block, h)
    ensures HandleFits(h) && h.offset == block.offset && h.offset + h.size <= |file| && ItemsFit(block.items)
    ensures BlockHolds(file[h.offset..h.offset + h.size], Pairs(block.items))
    ensures BlockRead.Stored(file, h.offset, file[h.offset..h.offset + h.size])
  {
  }

  /** Every data block of a table file passes its checksum and is read as it was written. */
  lemma DataBlockReads(file: Bytes, block: DataBlock, h: Handle, verify: bool)
    requires HandleOf(file, block, h)
    ensures var r := BlockRead.ReadBlock(file, h.offset, h.size, verify);
            r.Block? && BlockHolds(r.data, Pairs(block.items))
  {
    hide BlockHolds, BlockRead.ReadBlock, BlockRead.Stored;
    HandleIsFit(file, block, h);
    BlockRead.WrittenReads(file, h.offset, file[h.offset..h.offset + h.size], verify);
  }

  lemma FileFacts(
    file: Bytes, indexBytes: Bytes, blocks: seq<DataBlock>, index: seq<IndexEntry>, handles: seq<Handle>, b: nat)
    requires TableFile(file, indexBytes, blocks, index, handles) && b < |blocks|
    ensures b < |handles| && HandleOf(file, blocks[b], handles[b]) && SortedItems(blocks[b].items)
  {
    hide IndexOk, IndexFits, BlockHolds, HandleOf, AllBefore;
  }

  /** Table::InternalGet on the bytes of a table: an entry of the user key is reported
      if and only if it is the first entry of the whole table not before the key. */
  method InternalGet(
    file: Bytes, indexBytes: Bytes, hash: Bloom.Hash, filter: FilterBlock.Reader, useFilter: bool, verify: bool, k: Key,
    ghost blocks: seq<DataBlock>, ghost index: seq<IndexEntry>, ghost handles: seq<Handle>)
    returns (r: Found)
    requires TableFile(file, indexBytes, blocks, index, handles) && Fits(k)
    requires useFilter ==> FilterOk(blocks, hash, filter)
    ensures Answers(blocks, k, r)
  {
    hide KeyLess, Before, BlockHolds, BlocksSorted, IndexOk, IndexFits, HandleOf, DataIn, Answers, Table.At;
    hide BlockIter.FirstNotBefore, BlockIter.Increasing, FilterBlock.MayMatch, FirstFrom, SortedItems;
    hide BlockRead.ReadBlock, BlockRead.Stored;
    r := Nothing;
    var found, h;
    ghost var b;
    found, h, b := FindHandle(file, indexBytes, k, blocks, index, handles);
    if !found {
      NoneFrom(blocks, index, k);
      return;
    }
    FileFacts(file, indexBytes, blocks, index, handles, b);
    HandleIsFit(file, blocks[b], h);
    if useFilter {
      var may := FilterBlock.KeyMayMatch(hash, filter, h.offset, k.user);
      if !may {
        RuledOut(blocks, index, k, b, hash, filter);
        return;
      }
    }
    ghost var items := blocks[b].items;
    ItemsIncrease(items);
    var valid, key, value;
    ghost var pos;
    DataBlockReads(file, blocks[b], h, verify);
    var contents := BlockRead.ReadBlock(file, h.offset, h.size, verify);
    valid, key, value, pos := SeekBytes(contents.data, k, Pairs(items));
    FoundItem(items, k, pos);
    if valid {
      KeyRoundTrip(items[pos].key);
      r := Saved(Item(Decode(key), value));
      FoundInBlock(blocks, index, k, b, pos);
      AnswersFound(blocks, k, items[pos]);
    } else {
      NotInBlock(blocks, index, k, b);
    }
  }
}
