/** TableBuilder: writes blocks, shortened index keys and filters as keys arrive. */
module TableBuilder {
  import opened Coding
  import opened Comparator
  import opened Table
  import FilterBlock
  import Bloom
  import BlockRead

  /** Every entry written or waiting, as blocks; the waiting ones come last. */
  ghost function AllBlocks(blocks: seq<DataBlock>, waiting: seq<Item>): seq<DataBlock> {
    if waiting == [] then blocks else blocks + [DataBlock(0, waiting)]
  }

  /** Index entries so far: one a block, save the last block's while it is pending. */
  ghost predicate IndexSoFar(blocks: seq<DataBlock>, index: seq<IndexEntry>, waiting: seq<Item>, pending: bool) {
    var all := AllBlocks(blocks, waiting);
    && BlocksSorted(all)
    && |index| == |blocks| - (if pending then 1 else 0)
    && (pending ==> waiting == [])
    && (!pending && blocks != [] ==> waiting != [])
    && (forall b :: 0 <= b < |index| ==>
          index[b].block == b && Separates(Last(all[b].items), index[b].key, First(all[b + 1].items)))
  }

  ghost predicate LastIs(blocks: seq<DataBlock>, waiting: seq<Item>, lastKey: Key) {
    var all := AllBlocks(blocks, waiting);
    all != [] ==> all[|all| - 1].items != [] && lastKey == Last(all[|all| - 1].items)
  }

  lemma AllAfterLast(blocks: seq<DataBlock>, k: Item, lastKey: Key)
    requires BlocksSorted(blocks) && blocks != [] && lastKey == Last(blocks[|blocks| - 1].items) && Before(lastKey, k.key)
    ensures forall b :: 0 <= b < |blocks| ==> AllBefore(blocks[b].items, [k])
  {
    hide Before;
    var n := |blocks| - 1;
    var z := blocks[n].items[|blocks[n].items| - 1];
    assert z in blocks[n].items;
    forall b, x | 0 <= b < |blocks| && x in blocks[b].items
      ensures Before(x.key, k.key)
    {
      if b < n {
        assert AllBefore(blocks[b].items, blocks[n].items);
        assert Before(x.key, z.key);
        BeforeTransitive(x.key, z.key, k.key);
      } else {
        AtMostLast(blocks[n].items, x);
        NotBeforeTrans(x.key, lastKey, k.key);
      }
    }
  }

  /** One more entry in the block being filled. */
  lemma AddKeepsSorted(blocks: seq<DataBlock>, waiting: seq<Item>, k: Item, lastKey: Key)
    requires BlocksSorted(AllBlocks(blocks, waiting)) && LastIs(blocks, waiting, lastKey)
    requires AllBlocks(blocks, waiting) != [] ==> Before(lastKey, k.key)
    ensures BlocksSorted(AllBlocks(blocks, waiting + [k])) && LastIs(blocks, waiting + [k], k.key)
  {
    hide Before;
    var all, all' := AllBlocks(blocks, waiting), AllBlocks(blocks, waiting + [k]);
    if all != [] {
      AllAfterLast(all, k, lastKey);
    }
    assert waiting != [] ==> all[|blocks|].items == waiting;
    forall b | 0 <= b < |blocks|
      ensures AllBefore(blocks[b].items, waiting + [k])
    {
      assert AllBefore(all[b].items, [k]);
      assert waiting != [] ==> AllBefore(all[b].items, all[|blocks|].items);
    }
    assert k in [k];
    assert waiting != [] ==> AllBefore(all[|blocks|].items, [k]);
    assert SortedItems(waiting + [k]) by {
      assert forall i :: 0 <= i < |waiting| ==> waiting[i] in waiting;
    }
    assert forall b :: 0 <= b < |blocks| ==> all[b] == blocks[b];
  }

  /** Adding an entry: the pending index key, if any, can now be chosen. */
  lemma AddKeepsIndex(
    blocks: seq<DataBlock>, index: seq<IndexEntry>, waiting: seq<Item>, pending: bool, k: Item, sep: Key, lastKey: Key)
    requires IndexSoFar(blocks, index, waiting, pending) && LastIs(blocks, waiting, lastKey)
    requires AllBlocks(blocks, waiting) != [] ==> Before(lastKey, k.key)
    requires pending ==> Separates(lastKey, sep, k.key)
    ensures var index' := if pending then index + [IndexEntry(sep, |blocks| - 1)] else index;
            IndexSoFar(blocks, index', waiting + [k], false) && LastIs(blocks, waiting + [k], k.key)
  {
    hide Before, Separates, Less, AllBefore, SortedItems;
    var index' := if pending then index + [IndexEntry(sep, |blocks| - 1)] else index;
    var all, all' := AllBlocks(blocks, waiting), AllBlocks(blocks, waiting + [k]);
    AddKeepsSorted(blocks, waiting, k, lastKey);
    forall b | 0 <= b < |index'|
      ensures index'[b].block == b && Separates(Last(all'[b].items), index'[b].key, First(all'[b + 1].items))
    {
      assert all'[b] == blocks[b];
      if b < |index| {
        assert all[b] == blocks[b] && First(all'[b + 1].items) == First(all[b + 1].items);
      }
    }
  }

  /** Writing out the block being filled: its index key becomes pending. */
  lemma FlushKeepsIndex(blocks: seq<DataBlock>, index: seq<IndexEntry>, waiting: seq<Item>, offset: nat, lastKey: Key)
    requires IndexSoFar(blocks, index, waiting, false) && LastIs(blocks, waiting, lastKey) && waiting != []
    ensures var blocks' := blocks + [DataBlock(offset, waiting)];
            IndexSoFar(blocks', index, [], true) && LastIs(blocks', [], lastKey)
  {
    hide Before, Separates, Less, AllBefore, SortedItems;
    var all, all' := AllBlocks(blocks, waiting), blocks + [DataBlock(offset, waiting)];
    assert forall b :: 0 <= b < |all'| ==> all'[b].items == all[b].items;
  }

  lemma SeparatesCloses(last: Key, r: Key, limit: Key)
    requires Separates(last, r, limit)
    ensures Closes(last, r)
  {
  }

  /** The last index key ends the table. */
  lemma FinishIndex(blocks: seq<DataBlock>, index: seq<IndexEntry>, pending: bool, last: Key, lastKey: Key)
    requires IndexSoFar(blocks, index, [], pending) && LastIs(blocks, [], lastKey)
    requires pending ==> Closes(lastKey, last)
    ensures var index' := if pending then index + [IndexEntry(last, |blocks| - 1)] else index;
            BlocksSorted(blocks) && IndexOk(blocks, index')
  {
    hide Before, Separates, Less, AllBefore, SortedItems, Closes;
    forall b | 0 <= b < |index|
      ensures Closes(Last(blocks[b].items), index[b].key)
    {
      SeparatesCloses(Last(blocks[b].items), index[b].key, First(blocks[b + 1].items));
    }
  }

  lemma FlushedEntries(blocks: seq<DataBlock>, waiting: seq<Item>, offset: nat)
    requires waiting != []
    ensures forall x :: InBlocks(AllBlocks(blocks + [DataBlock(offset, waiting)], []), x) <==> InBlocks(AllBlocks(blocks, waiting), x)
  {
    var all, all' := AllBlocks(blocks, waiting), blocks + [DataBlock(offset, waiting)];
    assert forall b :: 0 <= b < |all'| ==> all'[b].items == all[b].items;
  }

  lemma AddedEntries(blocks: seq<DataBlock>, waiting: seq<Item>, k: Item)
    ensures forall x :: InBlocks(AllBlocks(blocks, waiting + [k]), x) <==> InBlocks(AllBlocks(blocks, waiting), x) || x == k
  {
    var all, all' := AllBlocks(blocks, waiting), AllBlocks(blocks, waiting + [k]);
    forall x
      ensures InBlocks(all', x) <==> InBlocks(all, x) || x == k
    {
      assert all'[|blocks|].items == waiting + [k];
      assert forall b :: 0 <= b < |blocks| ==> all[b] == blocks[b] && all'[b] == blocks[b];
      assert waiting != [] ==> all[|blocks|].items == waiting;
    }
  }

  /** All entries of the blocks, in order. */
  ghost function Flat(blocks: seq<DataBlock>): seq<Item> {
    if blocks == [] then [] else Flat(blocks[..|blocks| - 1]) + blocks[|blocks| - 1].items
  }

  /** No index key is longer than the last key of its block. */
  ghost predicate IndexShort(blocks: seq<DataBlock>, index: seq<IndexEntry>) {
    |index| <= |blocks| && forall b :: 0 <= b < |index| ==> ShortFor(blocks[b], index[b])
  }

  ghost predicate ShortFor(block: DataBlock, i: IndexEntry) {
    block.items != [] && |i.key.user| <= |Last(block.items).user|
  }

  lemma PendingLast(blocks: seq<DataBlock>, index: seq<IndexEntry>, waiting: seq<Item>, lastKey: Key)
    requires IndexSoFar(blocks, index, waiting, true) && LastIs(blocks, waiting, lastKey)
    ensures |blocks| == |index| + 1
    ensures blocks[|index|].items != [] && lastKey == Last(blocks[|index|].items)
  {
    hide BlocksSorted, Separates;
  }

  lemma AddKeepsShort(
    blocks: seq<DataBlock>, index: seq<IndexEntry>, waiting: seq<Item>, pending: bool, sep: Key, lastKey: Key)
    requires IndexShort(blocks, index) && IndexSoFar(blocks, index, waiting, pending) && LastIs(blocks, waiting, lastKey)
    requires pending ==> |sep.user| <= |lastKey.user|
    ensures IndexShort(blocks, if pending then index + [IndexEntry(sep, |blocks| - 1)] else index)
  {
    hide IndexSoFar, LastIs, IndexShort;
    if pending {
      PendingLast(blocks, index, waiting, lastKey);
      OneMoreShort(blocks, index, IndexEntry(sep, |blocks| - 1));
    }
  }

  lemma OneMoreShort(blocks: seq<DataBlock>, index: seq<IndexEntry>, i: IndexEntry)
    requires IndexShort(blocks, index) && |index| < |blocks| && ShortFor(blocks[|index|], i)
    ensures IndexShort(blocks, index + [i])
  {
    hide ShortFor;
  }

  lemma FlushKeepsShort(blocks: seq<DataBlock>, index: seq<IndexEntry>, block: DataBlock)
    requires IndexShort(blocks, index)
    ensures IndexShort(blocks + [block], index) && Flat(blocks + [block]) == Flat(blocks) + block.items
  {
    assert (blocks + [block])[..|blocks|] == blocks;
  }

  class Builder {
    const filter: FilterBlock.Builder
    var blocks: seq<DataBlock>
    var index: seq<IndexEntry>
    var waiting: seq<Item>
    var pending: bool
    var lastKey: Key
    var offset: nat
    ghost var added: seq<Item>

    ghost predicate Valid()
      reads this, filter
    {
      && filter.Valid() && |filter.offsets| == offset / FilterBlock.BASE
      && IndexSoFar(blocks, index, waiting, pending) && LastIs(blocks, waiting, lastKey)
      && (forall x :: InBlocks(AllBlocks(blocks, waiting), x) <==> x in added)
      && Covered()
      && added == Flat(blocks) + waiting && IndexShort(blocks, index)
    }

    /** Every entry's user key is with the filter of its block's offset. */
    ghost predicate Covered()
      reads this, filter
    {
      && (forall b, x :: 0 <= b < |blocks| && x in blocks[b].items ==>
            x.key.user in filter.KeysOf(blocks[b].offset / FilterBlock.BASE))
      && (forall x :: x in waiting ==> x.key.user in filter.KeysOf(offset / FilterBlock.BASE))
    }

    constructor (hash: Bloom.Hash, bitsPerKey: nat, probes: nat)
      requires 1 <= probes <= 30
      ensures Valid() && added == [] && fresh(filter) && filter.hash == hash
      ensures blocks == [] && index == [] && waiting == [] && offset == 0 && lastKey == Key([], 0)
    {
      filter := new FilterBlock.Builder(hash, bitsPerKey, probes);
      blocks, index, waiting, pending, offset, added := [], [], [], false, 0, [];
      lastKey := Key([], 0);
      new;
      filter.StartBlock(0);
    }

    /** Flush, given the size of the encoded block. */
    method Flush(size: nat)
      requires Valid() && (waiting != [] ==> !pending)
      modifies this, filter
      ensures Valid() && added == old(added) && lastKey == old(lastKey) && waiting == [] && (pending || blocks == [])
      ensures index == old(index)
      ensures blocks ==
              if old(waiting) == [] then old(blocks) else old(blocks) + [DataBlock(old(offset), old(waiting))]
      ensures offset == old(offset) + if old(waiting) == [] then 0 else size + BlockRead.TRAILER
    {
      hide FilterBlock.FiltersOk, IndexSoFar, LastIs, InBlocks, FilterBlock.Builder.KeysOf, IndexShort, Flat;
      if waiting == [] {
        NothingWaiting();
        return;
      }
      FlushKeepsIndex(blocks, index, waiting, offset, lastKey);
      FlushedEntries(blocks, waiting, offset);
      FlushKeepsShort(blocks, index, DataBlock(offset, waiting));
      blocks := blocks + [DataBlock(offset, waiting)];
      offset := offset + size + BlockRead.TRAILER;
      waiting, pending := [], true;
      filter.StartBlock(offset);
    }

    lemma NothingWaiting()
      requires Valid() && waiting == []
      ensures pending || blocks == []
    {
    }

    lemma AnyAdded()
      requires Valid()
      ensures AllBlocks(blocks, waiting) != [] ==> added != []
      ensures pending ==> blocks != [] && waiting == [] && AllBlocks(blocks, waiting) != []
    {
      var all := AllBlocks(blocks, waiting);
      if all != [] {
        assert all[0].items[0] in all[0].items;
        assert InBlocks(all, all[0].items[0]);
      }
    }

    /** Add, up to the test of the block's size. */
    method AddEntry(key: Key, value: Bytes)
      requires Valid() && (added != [] ==> Before(lastKey, key))
      modifies this, filter
      ensures Valid() && added == old(added) + [Item(key, value)] && lastKey == key && !pending
      ensures waiting == old(waiting) + [Item(key, value)] && blocks == old(blocks) && offset == old(offset)
      ensures forall i :: i in index ==> i in old(index) || i.key.tag == old(lastKey).tag || i.key.tag == SEEK_TAG
    {
      hide FilterBlock.FiltersOk, IndexSoFar, LastIs, InBlocks, Before, Less, Separates, AllBlocks, FilterBlock.Builder.KeysOf;
      hide IndexShort, Flat, RoomAt;
      var k := Item(key, value);
      AnyAdded();
      var sep := lastKey;
      if pending {
        sep := FindShortestInternalSeparator(lastKey, key);
      }
      AddKeepsIndex(blocks, index, waiting, pending, k, sep, lastKey);
      AddKeepsShort(blocks, index, waiting, pending, sep, lastKey);
      AddedEntries(blocks, waiting, k);
      if pending {
        index := index + [IndexEntry(sep, |blocks| - 1)];
        pending := false;
      }
      filter.AddKey(key.user);
      lastKey := key;
      waiting := waiting + [k];
      added := added + [k];
      CoveredAfterAdd(old(waiting), k);
    }

    lemma CoveredAfterAdd(before: seq<Item>, k: Item)
      requires waiting == before + [k]
      requires k.key.user in filter.KeysOf(offset / FilterBlock.BASE)
      requires forall b, x :: 0 <= b < |blocks| && x in blocks[b].items ==>
                 x.key.user in filter.KeysOf(blocks[b].offset / FilterBlock.BASE)
      requires forall x :: x in before ==> x.key.user in filter.KeysOf(offset / FilterBlock.BASE)
      ensures Covered()
    {
      hide FilterBlock.Builder.KeysOf;
    }

    /** Finish: a table that answers every lookup, holding exactly what was added. */
    method Finish(size: nat) returns (contents: Bytes)
      requires Valid()
      modifies this, filter
      ensures BlocksSorted(blocks) && IndexOk(blocks, index)
      ensures |contents| < TWO32 ==> FilterOk(blocks, filter.hash, FilterBlock.Open(contents))
      ensures added == old(added) && forall x :: InBlocks(blocks, x) <==> x in added
      ensures added == Flat(blocks) && IndexShort(blocks, index)
      ensures blocks ==
              if old(waiting) == [] then old(blocks) else old(blocks) + [DataBlock(old(offset), old(waiting))]
      ensures forall i :: i in index ==> i in old(index) || i.key.tag == old(lastKey).tag || i.key.tag == SEEK_TAG
    {
      hide FilterBlock.FiltersOk, IndexSoFar, LastIs, InBlocks, Before, Less, FilterBlock.Builder.KeysOf, IndexOk;
      hide BlocksSorted, FilterBlock.Contents, FilterBlock.MayMatch, FilterBlock.Open, FilterOk, IndexShort, Flat;
      hide FirstBelowFF;
      AnyAdded();
      Flush(size);
      AnyAdded();
      ghost var filterBytes;
      contents, filterBytes := filter.Finish();
      assert Covered();
      if |contents| < TWO32 {
        FilterCovers(contents, filterBytes);
      }
      var last := lastKey;
      if pending {
        last := FindShortInternalSuccessor(lastKey);
      }
      AddKeepsShort(blocks, index, [], pending, last, lastKey);
      FinishIndex(blocks, index, pending, last, lastKey);
      if pending {
        index := index + [IndexEntry(last, |blocks| - 1)];
        pending := false;
      }
    }

    lemma FilterCovers(contents: Bytes, filterBytes: Bytes)
      requires Covered() && FilterBlock.Contents(contents, filterBytes, filter.offsets) && |contents| < TWO32
      requires filter.probes <= 30
      requires FilterBlock.FiltersOk(
        Bloom.Policy(filter.hash, filter.bitsPerKey, filter.probes), filterBytes, filter.offsets, filter.filters)
      requires forall i: nat :: i >= |filter.filters| ==> filter.KeysOf(i) == []
      ensures FilterOk(blocks, filter.hash, FilterBlock.Open(contents))
    {
      hide FilterBlock.FiltersOk, FilterBlock.Contents, FilterBlock.MayMatch, FilterBlock.Open;
      assert FilterBlock.Opened(FilterBlock.Open(contents)) by { OpenIsOpened(contents); }
      forall b, x | 0 <= b < |blocks| && x in blocks[b].items
        ensures FilterBlock.MayMatch(filter.hash, FilterBlock.Open(contents), blocks[b].offset, x.key.user)
      {
        var i := blocks[b].offset / FilterBlock.BASE;
        assert x.key.user in filter.KeysOf(i);
        assert i < |filter.filters|;
        FilterBlock.FilterNeverMisses(
          Bloom.Policy(filter.hash, filter.bitsPerKey, filter.probes), contents, filterBytes, filter.offsets, filter.filters, blocks[b].offset, x.key.user);
      }
    }
  }

  lemma OpenIsOpened(contents: Bytes)
    ensures FilterBlock.Opened(FilterBlock.Open(contents))
  {
  }
}
