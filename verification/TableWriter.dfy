/** Writing a table: the blocks of the table builder encoded one after another. */
module TableWriter {
  import opened Coding
  import opened Comparator
  import opened BlockFormat
  import BlockBuilder
  import opened Table
  import TableBuilder
  import opened TableBytes
  import FilterBlock
  import Bloom
  import BlockRead

  /** A block of these pairs, if its size can be counted in 32 bits. Pairs whose
      bytes, with 15 an entry, 4 a restart point and 4 for their number, come to
      less than that are always encoded. */
  method EncodePairs(pairs: seq<Pair>, interval: nat) returns (small: bool, block: Bytes)
    requires interval >= 1
    ensures small ==> BlockHolds(block, pairs) && BlockBuilder.IsBlockOf(block, pairs, interval)
    ensures BlockBuilder.BlockBytes(pairs, interval) < TWO32 ==> small && |block| <= BlockBuilder.BlockBytes(pairs, interval)
  {
    hide BlockOk, BlockBuilder.EntryBytes, BlockBuilder.RestartCount, BlockBuilder.Built, BlockBuilder.IsBlockOf;
    var builder := new BlockBuilder.Builder(interval);
    var i := 0;
    while i < |pairs|
      invariant 0 <= i <= |pairs| && fresh(builder) && builder.Valid() && !builder.finished
      invariant builder.layout.pairs == pairs[..i] && builder.interval == interval
    {
      builder.Add(pairs[i].key, pairs[i].value);
      i := i + 1;
    }
    assert pairs[..i] == pairs;
    BlockBuilder.BuiltSize(interval, builder.data, builder.layout, builder.restarts, builder.counter);
    small, block := |builder.buffer| + 4 * |builder.restarts| + 4 < TWO32, [];
    if small {
      block := builder.Finish();
      assert BlockOk(block, builder.data, builder.layout);
      BlockBuilder.BuiltBlock(interval, builder.data, builder.layout, builder.restarts, builder.counter, block);
    }
  }

  lemma AppendKeepsHandle(file: Bytes, more: Bytes, block: DataBlock, h: Handle)
    requires HandleOf(file, block, h)
    ensures HandleOf(file + more, block, h)
  {
    hide BlockHolds, BlockRead.Trailer;
    var n := h.size + BlockRead.TRAILER;
    assert (file + more)[h.offset..h.offset + h.size] == file[h.offset..h.offset + h.size];
    assert (file + more)[h.offset..h.offset + n] == file[h.offset..h.offset + n];
  }

  lemma AppendBlock(
    file: Bytes, blocks: seq<DataBlock>, handles: seq<Handle>, block: DataBlock, bytes: Bytes, trailer: Bytes)
    requires DataIn(file, blocks, handles) && block.offset == |file| && ItemsFit(block.items)
    requires BlockHolds(bytes, Pairs(block.items)) && trailer == BlockRead.Trailer(bytes)
    requires |file + bytes + trailer| < TWO64
    ensures DataIn(file + bytes + trailer, blocks + [block], handles + [Handle(|file|, |bytes|)])
  {
    hide HandleOf;
    var file' := file + bytes + trailer;
    var blocks', handles' := blocks + [block], handles + [Handle(|file|, |bytes|)];
    forall b | 0 <= b < |blocks'|
      ensures HandleOf(file', blocks'[b], handles'[b])
    {
      if b < |blocks| {
        AppendKeepsHandle(file, bytes + trailer, blocks[b], handles[b]);
        assert file + (bytes + trailer) == file';
      } else {
        NewHandle(file, block, bytes, trailer);
      }
    }
  }

  lemma NewHandle(file: Bytes, block: DataBlock, bytes: Bytes, trailer: Bytes)
    requires block.offset == |file| && ItemsFit(block.items)
    requires BlockHolds(bytes, Pairs(block.items)) && trailer == BlockRead.Trailer(bytes)
    requires |file + bytes + trailer| < TWO64
    ensures HandleOf(file + bytes + trailer, block, Handle(|file|, |bytes|))
  {
    hide BlockHolds, BlockRead.Trailer;
    var all := file + bytes + trailer;
    assert all[|file|..|file| + |bytes|] == bytes;
    assert all[|file|..|file| + |bytes| + BlockRead.TRAILER] == bytes + trailer;
  }

  ghost predicate TagsFit(index: seq<IndexEntry>, waiting: seq<Item>, lastKey: Key) {
    Fits(lastKey) && ItemsFit(waiting) && forall i :: i in index ==> Fits(i.key)
  }

  // ----- how large a table gets -----

  /** At most what these entries add to the data blocks, and to the index block. */
  function Weight(items: seq<Item>): nat {
    if items == [] then 0
    else
      var x := items[|items| - 1];
      Weight(items[..|items| - 1]) + |x.key.user| + |x.value| + 47
  }

  /** A table of these entries stays within 32-bit sizes. */
  predicate WeightFits(items: seq<Item>) {
    Weight(items) + 8 < TWO32
  }

  lemma {:induction false} WeightConcat(a: seq<Item>, b: seq<Item>)
    ensures Weight(a + b) == Weight(a) + Weight(b)
  {
    if b == [] {
      assert a + b == a;
    } else {
      var n := |b| - 1;
      WeightConcat(a, b[..n]);
      assert (a + b)[..|a + b| - 1] == a + b[..n];
    }
  }

  lemma {:induction false} EntriesWeigh(items: seq<Item>)
    requires ItemsFit(items)
    ensures BlockBuilder.EntryBytes(Pairs(items)) + 24 * |items| <= Weight(items)
  {
    if items != [] {
      var n := |items| - 1;
      assert Pairs(items)[..n] == Pairs(items[..n]);
      EntriesWeigh(items[..n]);
    }
  }

  lemma RestartsFew(n: nat, interval: nat)
    requires interval >= 1
    ensures BlockBuilder.RestartCount(n, interval) <= n + 1
  {
    if n > 0 {
      var q := (n - 1) / interval;
      AtMostProduct(q, interval);
      assert n - 1 == interval * q + (n - 1) % interval;
    }
  }

  lemma AtMostProduct(q: nat, k: nat)
    requires k >= 1
    ensures q <= k * q
  {
    assert k * q == (k - 1) * q + q;
  }

  /** A data block and its trailer weigh no more than its entries. */
  lemma BlockWeighs(items: seq<Item>, interval: nat)
    requires ItemsFit(items) && items != [] && interval >= 1
    ensures BlockBuilder.BlockBytes(Pairs(items), interval) + BlockRead.TRAILER <= Weight(items)
  {
    hide BlockBuilder.EntryBytes, BlockBuilder.RestartCount, Weight, Pairs;
    EntriesWeigh(items);
    RestartsFew(|items|, interval);
  }

  /** Flushing the waiting entries keeps the file within their weight. */
  lemma FlushFits(
    blocks: seq<DataBlock>, waiting: seq<Item>, added: seq<Item>, block: DataBlock, interval: nat, file: Bytes,
    fits: bool, bytes: Bytes, trailer: Bytes)
    requires added == TableBuilder.Flat(blocks) + waiting && WeightFits(added) && block.items == waiting != []
    requires interval >= 1 && ItemsFit(waiting) && |file| <= Weight(TableBuilder.Flat(blocks))
    requires BlockBuilder.BlockBytes(Pairs(waiting), interval) < TWO32 ==>
      fits && |bytes| <= BlockBuilder.BlockBytes(Pairs(waiting), interval)
    requires |trailer| == BlockRead.TRAILER
    ensures fits && |file + bytes + trailer| <= Weight(TableBuilder.Flat(blocks + [block])) < TWO64
  {
    hide BlockBuilder.BlockBytes, Weight, Pairs;
    BlockWeighs(waiting, interval);
    WeightConcat(TableBuilder.Flat(blocks), waiting);
    assert (blocks + [block])[..|blocks|] == blocks;
  }

  /** Handles of 20 bytes, 15 for the entry and 4 for its restart point. */
  lemma IndexPairBytes(e: IndexEntry, handles: seq<Handle>)
    requires EntryFits(e, handles) && HandleFits(handles[e.block])
    ensures |IndexPair(e, handles).key| == |e.key.user| + 8 && |IndexPair(e, handles).value| <= 20
  {
    hide Varint;
    VarintBytes(handles[e.block].offset);
    VarintBytes(handles[e.block].size);
  }

  lemma {:induction false} IndexWeighs(blocks: seq<DataBlock>, index: seq<IndexEntry>, handles: seq<Handle>, k: nat)
    requires TableBuilder.IndexShort(blocks, index) && IndexFits(index, handles) && k <= |index|
    requires forall h :: h in handles ==> HandleFits(h)
    ensures BlockBuilder.EntryBytes(IndexPairs(index, handles)[..k]) + 4 * k <= Weight(TableBuilder.Flat(blocks[..k]))
  {
    hide IndexPair, HandleFits;
    if k > 0 {
      var pairs, b := IndexPairs(index, handles), blocks[k - 1];
      IndexWeighs(blocks, index, handles, k - 1);
      assert pairs[..k][..k - 1] == pairs[..k - 1] && blocks[..k][..k - 1] == blocks[..k - 1];
      assert handles[index[k - 1].block] in handles;
      IndexPairBytes(index[k - 1], handles);
      WeightConcat(TableBuilder.Flat(blocks[..k - 1]), b.items);
    }
  }

  lemma {:induction false} FlatGrows(blocks: seq<DataBlock>, k: nat)
    requires k <= |blocks|
    ensures Weight(TableBuilder.Flat(blocks[..k])) <= Weight(TableBuilder.Flat(blocks))
  {
    hide Weight;
    var n := |blocks| - 1;
    if k <= n {
      FlatGrows(blocks[..n], k);
      assert blocks[..n][..k] == blocks[..k];
      WeightConcat(TableBuilder.Flat(blocks[..n]), blocks[n].items);
    } else {
      assert blocks[..k] == blocks;
    }
  }

  lemma FilesHandlesFit(file: Bytes, blocks: seq<DataBlock>, handles: seq<Handle>)
    requires DataIn(file, blocks, handles)
    ensures forall h :: h in handles ==> HandleFits(h)
  {
    hide BlockHolds;
  }

  /** The index block of a table whose entries fit does too. */
  lemma IndexBlockFits(file: Bytes, blocks: seq<DataBlock>, index: seq<IndexEntry>, handles: seq<Handle>)
    requires TableBuilder.IndexShort(blocks, index) && IndexFits(index, handles) && DataIn(file, blocks, handles)
    requires WeightFits(TableBuilder.Flat(blocks))
    ensures BlockBuilder.BlockBytes(IndexPairs(index, handles), 1) < TWO32
  {
    hide Weight, TableBuilder.Flat, TableBuilder.IndexShort, IndexFits, DataIn, BlockBuilder.EntryBytes, HandleFits;
    var k := |index|;
    FilesHandlesFit(file, blocks, handles);
    IndexWeighs(blocks, index, handles, k);
    ShortCount(blocks, index);
    FlatGrows(blocks, k);
    assert IndexPairs(index, handles)[..k] == IndexPairs(index, handles);
    assert BlockBuilder.RestartCount(k, 1) == if k == 0 then 1 else k;
  }

  lemma ShortCount(blocks: seq<DataBlock>, index: seq<IndexEntry>)
    requires TableBuilder.IndexShort(blocks, index)
    ensures |index| <= |blocks|
  {
  }

  lemma FewerFit(items: seq<Item>, x: Item)
    requires WeightFits(items + [x])
    ensures WeightFits(items)
  {
    WeightConcat(items, [x]);
  }

  class Writer {
    const builder: TableBuilder.Builder
    const interval: nat
    var file: Bytes
    var handles: seq<Handle>
    var small: bool         // every block so far can be counted in 32 bits

    ghost predicate Valid()
      reads this, builder, builder.filter
    {
      && interval >= 1 && builder.Valid() && TagsFit(builder.index, builder.waiting, builder.lastKey)
      && (small ==> |file| == builder.offset && DataIn(file, builder.blocks, handles))
      && (WeightFits(builder.added) ==> small && |file| <= Weight(TableBuilder.Flat(builder.blocks)))
    }

    constructor (interval: nat, hash: Bloom.Hash, bitsPerKey: nat, probes: nat)
      requires interval >= 1 && 1 <= probes <= 30
      ensures Valid() && builder.added == [] && fresh(builder) && fresh(builder.filter) && builder.filter.hash == hash
    {
      hide TableBuilder.IndexSoFar, TableBuilder.LastIs, InBlocks, TableBuilder.AllBlocks, FilterBlock.FiltersOk;
      builder := new TableBuilder.Builder(hash, bitsPerKey, probes);
      this.interval, file, handles, small := interval, [], [], true;
    }

    /** TableBuilder::Flush: the waiting block goes to the file. */
    method Flush()
      requires Valid() && (builder.waiting != [] ==> !builder.pending)
      modifies this, builder, builder.filter
      ensures Valid() && builder.added == old(builder.added) && builder.waiting == []
      ensures builder.lastKey == old(builder.lastKey)
    {
      hide TableBuilder.IndexSoFar, TableBuilder.LastIs, InBlocks, TableBuilder.AllBlocks, FilterBlock.FiltersOk;
      hide DataIn, BlockHolds, BlockRead.Trailer, Pairs;
      hide TableBuilder.Flat, TableBuilder.IndexShort, Weight, WeightFits, BlockBuilder.BlockBytes;
      if builder.waiting == [] {
        return;
      }
      var fits, block := EncodePairs(Pairs(builder.waiting), interval);
      var file' := file + block + BlockRead.Trailer(block);
      if small && fits && |file'| < TWO64 {
        AppendBlock(
          file, builder.blocks, handles, DataBlock(builder.offset, builder.waiting), block, BlockRead.Trailer(block));
      }
      if WeightFits(builder.added) {
        FlushFits(
          builder.blocks, builder.waiting, builder.added, DataBlock(builder.offset, builder.waiting), interval, file,
          fits, block, BlockRead.Trailer(block));
      }
      small := small && fits && |file'| < TWO64;
      handles := handles + [Handle(|file|, |block|)];
      file := file';
      builder.Flush(|block|);
    }

    /** TableBuilder::Add; full says that the block has reached its size. */
    method Add(key: Key, value: Bytes, full: bool)
      requires Valid() && (builder.added != [] ==> Before(builder.lastKey, key)) && Fits(key)
      modifies this, builder, builder.filter
      ensures Valid() && builder.added == old(builder.added) + [Item(key, value)] && builder.lastKey == key
      ensures builder.waiting == if full then [] else old(builder.waiting) + [Item(key, value)]
    {
      hide TableBuilder.IndexSoFar, TableBuilder.LastIs, InBlocks, TableBuilder.AllBlocks, FilterBlock.FiltersOk;
      hide DataIn, BlockHolds, Before;
      hide TableBuilder.Flat, TableBuilder.IndexShort, Weight, WeightFits, BlockBuilder.BlockBytes;
      ghost var before := builder.added;
      builder.AddEntry(key, value);
      SeekTagFits();
      if WeightFits(before + [Item(key, value)]) {
        FewerFit(before, Item(key, value));
      }
      if full {
        Flush();
      }
    }

    /** TableBuilder::Finish: the file, its index block and its filter block answer
        every lookup, and hold exactly what was added. */
    method Finish() returns (indexBytes: Bytes, contents: Bytes, ok: bool)
      requires Valid()
      modifies this, builder, builder.filter
      ensures ok ==> TableFile(file, indexBytes, builder.blocks, builder.index, handles)
      ensures WeightFits(builder.added) ==> ok
      ensures |contents| < TWO32 ==> FilterOk(builder.blocks, builder.filter.hash, FilterBlock.Open(contents))
      ensures builder.added == old(builder.added)
      ensures forall x :: InBlocks(builder.blocks, x) <==> x in builder.added
    {
      hide TableBuilder.IndexSoFar, TableBuilder.LastIs, InBlocks, TableBuilder.AllBlocks, FilterBlock.FiltersOk;
      hide DataIn, BlockHolds, Before, FilterOk, FilterBlock.Open, BlocksSorted, IndexOk, IndexPairs;
      hide TableBuilder.Flat, TableBuilder.IndexShort, Weight, WeightFits, BlockBuilder.BlockBytes;
      PendingIsEmpty();
      Flush();
      contents := builder.Finish(0);
      SeekTagFits();
      IndexIsFit(builder.blocks, builder.index, handles, small, file);
      ok, indexBytes := false, [];
      if small {
        if WeightFits(builder.added) {
          IndexBlockFits(file, builder.blocks, builder.index, handles);
        }
        ok, indexBytes := EncodePairs(IndexPairs(builder.index, handles), 1);
      }
    }

    lemma PendingIsEmpty()
      requires Valid()
      ensures builder.waiting != [] ==> !builder.pending
    {
    }
  }

  lemma SeekTagFits()
    ensures SEEK_TAG < TWO64
  {
  }

  lemma IndexIsFit(blocks: seq<DataBlock>, index: seq<IndexEntry>, handles: seq<Handle>, small: bool, file: Bytes)
    requires BlocksSorted(blocks) && IndexOk(blocks, index) && (small ==> DataIn(file, blocks, handles))
    requires forall i :: i in index ==> Fits(i.key)
    ensures small ==> IndexFits(index, handles)
  {
    hide HandleOf, BlocksSorted, Closes, Separates;
    if small {
      forall i | 0 <= i < |index|
        ensures EntryFits(index[i], handles)
      {
        assert index[i] in index;
      }
    }
  }
}
