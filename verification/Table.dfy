/** Tables: data blocks under an index of shortened keys and a filter block, and what
    the block that the index leads to says about the whole table. */
module Table {
  import opened Coding
  import opened Comparator
  import FilterBlock
  import Bloom

  datatype Item = Item(key: Key, value: Bytes)

  /** A data block, at its offset in the file. */
  datatype DataBlock = DataBlock(offset: nat, items: seq<Item>)

  /** An index entry; the block handle appears as the number of the block. */
  datatype IndexEntry = IndexEntry(key: Key, block: nat)

  datatype Found = Nothing | Saved(item: Item)

  // ----- sorted blocks -----

  ghost predicate SortedItems(items: seq<Item>) {
    forall i, j :: 0 <= i < j < |items| ==> Before(items[i].key, items[j].key)
  }

  ghost predicate AllBefore(a: seq<Item>, b: seq<Item>) {
    forall x, y :: x in a && y in b ==> Before(x.key, y.key)
  }

  ghost predicate BlocksSorted(blocks: seq<DataBlock>) {
    && (forall b :: 0 <= b < |blocks| ==> blocks[b].items != [] && SortedItems(blocks[b].items))
    && (forall b, c :: 0 <= b < c < |blocks| ==> AllBefore(blocks[b].items, blocks[c].items))
  }

  function First(items: seq<Item>): Key
    requires items != []
  {
    items[0].key
  }

  function Last(items: seq<Item>): Key
    requires items != []
  {
    items[|items| - 1].key
  }

  /** Not before the last key, and past its user key unless it is that key. */
  ghost predicate Closes(last: Key, r: Key) {
    !Before(r, last) && (r == last || Less(last.user, r.user))
  }

  /** The index key of each block separates it from the next one. */
  ghost predicate IndexOk(blocks: seq<DataBlock>, index: seq<IndexEntry>)
    requires BlocksSorted(blocks)
  {
    && |index| == |blocks|
    && (forall b :: 0 <= b < |index| ==> index[b].block == b && Closes(Last(blocks[b].items), index[b].key))
    && (forall b :: 0 <= b < |index| - 1 ==>
          Separates(Last(blocks[b].items), index[b].key, First(blocks[b + 1].items)))
  }

  ghost predicate InBlocks(blocks: seq<DataBlock>, x: Item) {
    exists b :: 0 <= b < |blocks| && x in blocks[b].items
  }

  /** x is the first entry of the table that is not before k. */
  ghost predicate FirstFrom(blocks: seq<DataBlock>, k: Key, x: Item) {
    && InBlocks(blocks, x) && !Before(x.key, k)
    && (forall y :: InBlocks(blocks, y) && !Before(y.key, k) ==> !Before(y.key, x.key))
  }

  // ----- order of keys -----

  lemma NotBeforeTrans(a: Key, b: Key, c: Key)
    ensures !Before(b, a) && Before(b, c) ==> Before(a, c)
    ensures Before(a, b) && !Before(c, b) ==> Before(a, c)
    ensures !Before(b, a) && !Before(c, b) ==> !Before(c, a)
  {
    hide Before;
    BeforeTotal(a, b);
    BeforeTotal(b, c);
    BeforeTotal(a, c);
    if Before(a, b) && Before(b, c) {
      BeforeTransitive(a, b, c);
    }
  }

  lemma AtMostLast(items: seq<Item>, x: Item)
    requires SortedItems(items) && x in items
    ensures items != [] && !Before(Last(items), x.key)
  {
    hide Before;
    var i :| 0 <= i < |items| && items[i] == x;
    BeforeTotal(x.key, Last(items));
  }

  lemma AtLeastFirst(items: seq<Item>, x: Item)
    requires SortedItems(items) && x in items
    ensures items != [] && !Before(x.key, First(items))
  {
    hide Before;
    var i :| 0 <= i < |items| && items[i] == x;
    BeforeTotal(x.key, First(items));
  }

  /** Entries of a block whose index key is before k are before k. */
  lemma BlockBefore(blocks: seq<DataBlock>, index: seq<IndexEntry>, b: nat, k: Key, x: Item)
    requires BlocksSorted(blocks) && IndexOk(blocks, index) && b < |blocks| && x in blocks[b].items
    requires Before(index[b].key, k)
    ensures Before(x.key, k)
  {
    hide Before;
    AtMostLast(blocks[b].items, x);
    NotBeforeTrans(x.key, Last(blocks[b].items), index[b].key);
    NotBeforeTrans(x.key, index[b].key, k);
  }

  /** Past its last entry but not past its index key, no later entry has k's user key. */
  lemma GapHoldsNoUser(blocks: seq<DataBlock>, index: seq<IndexEntry>, b: nat, c: nat, k: Key, x: Item)
    requires BlocksSorted(blocks) && IndexOk(blocks, index) && b < c < |blocks| && x in blocks[c].items
    requires Before(Last(blocks[b].items), k) && !Before(index[b].key, k)
    ensures x.key.user != k.user
  {
    hide Less;
    var last, sep, next := Last(blocks[b].items), index[b].key, First(blocks[b + 1].items);
    assert Separates(last, sep, next);
    assert sep != last;
    var y := blocks[b + 1].items[0];
    assert y in blocks[b + 1].items;
    if c > b + 1 {
      assert AllBefore(blocks[b + 1].items, blocks[c].items);
      assert Before(y.key, x.key);
    } else {
      AtLeastFirst(blocks[c].items, x);
    }
    BeforeTotal(y.key, x.key);
    UserOrder(k, sep, next, x.key);
  }

  lemma UserOrder(k: Key, sep: Key, next: Key, x: Key)
    requires !Before(sep, k) && Less(sep.user, next.user) && !Before(x, next)
    ensures x.user != k.user
  {
    hide Less;
    LessTotal(k.user, sep.user);
    LessTotal(next.user, x.user);
    LessIrreflexive(k.user);
    if Less(k.user, sep.user) {
      LessTransitive(k.user, sep.user, next.user);
    }
    if Less(next.user, x.user) {
      LessTransitive(k.user, next.user, x.user);
    }
  }

  // ----- the answer of a lookup -----

  /** The filter block rules out no user key of any block. */
  ghost predicate FilterOk(blocks: seq<DataBlock>, hash: Bloom.Hash, filter: FilterBlock.Reader) {
    && FilterBlock.Opened(filter)
    && (forall b, x :: 0 <= b < |blocks| && x in blocks[b].items ==>
          FilterBlock.MayMatch(hash, filter, blocks[b].offset, x.key.user))
  }

  /** Answered: what is reported for k's user key is what a scan would find. */
  ghost predicate Answers(blocks: seq<DataBlock>, k: Key, r: Found) {
    forall x: Item :: x.key.user == k.user ==> (r == Saved(x) <==> FirstFrom(blocks, k, x))
  }

  lemma NoneFrom(blocks: seq<DataBlock>, index: seq<IndexEntry>, k: Key)
    requires BlocksSorted(blocks) && IndexOk(blocks, index)
    requires forall j :: 0 <= j < |index| ==> Before(index[j].key, k)
    ensures Answers(blocks, k, Nothing)
  {
    hide Before, BlocksSorted, IndexOk;
    forall x
      ensures !FirstFrom(blocks, k, x)
    {
      if InBlocks(blocks, x) {
        var b :| 0 <= b < |blocks| && x in blocks[b].items;
        IndexLength(blocks, index);
        BlockBefore(blocks, index, b, k, x);
      }
    }
  }

  lemma IndexLength(blocks: seq<DataBlock>, index: seq<IndexEntry>)
    requires BlocksSorted(blocks) && IndexOk(blocks, index)
    ensures |index| == |blocks|
  {
  }

  /** The first entry not before k within the block the index points to. */
  ghost predicate At(blocks: seq<DataBlock>, index: seq<IndexEntry>, k: Key, b: nat) {
    && BlocksSorted(blocks) && IndexOk(blocks, index)
    && b < |index| && !Before(index[b].key, k)
    && (forall j :: 0 <= j < b ==> Before(index[j].key, k))
  }

  lemma LaterIsAfter(blocks: seq<DataBlock>, b: nat, c: nat, x: Item, y: Item)
    requires BlocksSorted(blocks) && b < c < |blocks| && x in blocks[b].items && y in blocks[c].items
    ensures Before(x.key, y.key)
  {
    hide Before;
    assert AllBefore(blocks[b].items, blocks[c].items);
  }

  /** Within a block, what is not before k comes at or after its first such entry. */
  lemma NotBeforeFound(items: seq<Item>, k: Key, i: nat, y: Item)
    requires SortedItems(items) && i < |items| && y in items && !Before(y.key, k)
    requires forall j :: 0 <= j < i ==> Before(items[j].key, k)
    ensures y == items[i] || Before(items[i].key, y.key)
  {
    hide Before;
    var j :| 0 <= j < |items| && items[j] == y;
    assert j >= i;
  }

  lemma FoundInBlock(blocks: seq<DataBlock>, index: seq<IndexEntry>, k: Key, b: nat, i: nat)
    requires At(blocks, index, k, b) && i < |blocks[b].items| && !Before(blocks[b].items[i].key, k)
    requires forall j :: 0 <= j < i ==> Before(blocks[b].items[j].key, k)
    ensures FirstFrom(blocks, k, blocks[b].items[i])
  {
    hide Before, BlocksSorted, IndexOk;
    IndexLength(blocks, index);
    var x := blocks[b].items[i];
    assert x in blocks[b].items && InBlocks(blocks, x);
    forall y | InBlocks(blocks, y) && !Before(y.key, k)
      ensures !Before(y.key, x.key)
    {
      BeforeTotal(x.key, y.key);
      var c :| 0 <= c < |blocks| && y in blocks[c].items;
      if c < b {
        BlockBefore(blocks, index, c, k, y);
      } else if c > b {
        LaterIsAfter(blocks, b, c, x, y);
      } else {
        BlockSorted(blocks, b);
        NotBeforeFound(blocks[b].items, k, i, y);
      }
    }
  }

  lemma BlockSorted(blocks: seq<DataBlock>, b: nat)
    requires BlocksSorted(blocks) && b < |blocks|
    ensures blocks[b].items != [] && SortedItems(blocks[b].items)
  {
  }

  lemma OnlyFirst(blocks: seq<DataBlock>, k: Key, x: Item, y: Item)
    requires BlocksSorted(blocks) && FirstFrom(blocks, k, x) && FirstFrom(blocks, k, y)
    ensures x == y
  {
    hide Before;
    BeforeTotal(x.key, y.key);
    var b :| 0 <= b < |blocks| && x in blocks[b].items;
    var c :| 0 <= c < |blocks| && y in blocks[c].items;
    BeforeTotal(x.key, x.key);
    assert b < c ==> AllBefore(blocks[b].items, blocks[c].items);
    assert c < b ==> AllBefore(blocks[c].items, blocks[b].items);
    assert b == c;
    var i :| 0 <= i < |blocks[b].items| && blocks[b].items[i] == x;
    var j :| 0 <= j < |blocks[b].items| && blocks[b].items[j] == y;
  }

  /** With nothing in its block, the lookup's user key is nowhere from k on. */
  lemma NotInBlock(blocks: seq<DataBlock>, index: seq<IndexEntry>, k: Key, b: nat)
    requires At(blocks, index, k, b)
    requires forall j :: 0 <= j < |blocks[b].items| ==> Before(blocks[b].items[j].key, k)
    ensures Answers(blocks, k, Nothing)
  {
    hide Before, BlocksSorted, IndexOk;
    IndexLength(blocks, index);
    BlockSorted(blocks, b);
    forall x: Item | x.key.user == k.user
      ensures !FirstFrom(blocks, k, x)
    {
      if FirstFrom(blocks, k, x) {
        var c :| 0 <= c < |blocks| && x in blocks[c].items;
        if c < b {
          BlockBefore(blocks, index, c, k, x);
        } else if c > b {
          GapHoldsNoUser(blocks, index, b, c, k, x);
        }
      }
    }
  }

  /** The filter speaks for every entry of the block the index points to. */
  lemma RuledOut(
    blocks: seq<DataBlock>, index: seq<IndexEntry>, k: Key, b: nat, hash: Bloom.Hash, filter: FilterBlock.Reader)
    requires At(blocks, index, k, b) && FilterOk(blocks, hash, filter)
    requires !FilterBlock.MayMatch(hash, filter, blocks[b].offset, k.user)
    ensures Answers(blocks, k, Nothing)
  {
    hide Before, FilterBlock.MayMatch, BlocksSorted, IndexOk;
    IndexLength(blocks, index);
    forall x: Item | x.key.user == k.user
      ensures !FirstFrom(blocks, k, x)
    {
      if FirstFrom(blocks, k, x) {
        var c :| 0 <= c < |blocks| && x in blocks[c].items;
        if c < b {
          BlockBefore(blocks, index, c, k, x);
        } else if c > b {
          LaterBlock(blocks, index, k, b, c, x);
        }
      }
    }
  }

  /** A first entry in a later block has another user key. */
  lemma LaterBlock(blocks: seq<DataBlock>, index: seq<IndexEntry>, k: Key, b: nat, c: nat, x: Item)
    requires At(blocks, index, k, b) && b < c < |blocks| && x in blocks[c].items && FirstFrom(blocks, k, x)
    ensures x.key.user != k.user
  {
    hide Before, BlocksSorted, IndexOk;
    BlockSorted(blocks, b);
    var last := blocks[b].items[|blocks[b].items| - 1];
    assert last in blocks[b].items && InBlocks(blocks, last);
    LaterIsAfter(blocks, b, c, last, x);
    assert Before(last.key, k);
    GapHoldsNoUser(blocks, index, b, c, k, x);
  }

  lemma AnswersFound(blocks: seq<DataBlock>, k: Key, x: Item)
    requires BlocksSorted(blocks) && FirstFrom(blocks, k, x)
    ensures Answers(blocks, k, Saved(x))
  {
    hide BlocksSorted, FirstFrom;
    forall y: Item | y.key.user == k.user
      ensures Saved(x) == Saved(y) <==> FirstFrom(blocks, k, y)
    {
      if FirstFrom(blocks, k, y) {
        OnlyFirst(blocks, k, x, y);
      }
    }
  }
}
