/** HandleTable: the cache's hash table with intrusive chains. */
module HandleTable {
  import opened Coding
  import opened Links

  datatype HKey = HKey(hash: nat, key: Bytes)

  // ----- singly linked chains -----

  /** Following `next` from head visits exactly the chain. */
  ghost predicate Linked(head: Id, next: map<Id, Id>, chain: seq<Id>)
    decreases |chain|
  {
    if chain == [] then head == NIL
    else head == chain[0] && head != NIL && head in next && Linked(next[head], next, chain[1..])
  }

  lemma {:induction false} LinkedFrame(head: Id, next: map<Id, Id>, next': map<Id, Id>, chain: seq<Id>)
    requires Linked(head, next, chain)
    requires forall id :: id in chain && id in next ==> id in next' && next'[id] == next[id]
    ensures Linked(head, next', chain)
    decreases |chain|
  {
    if chain != [] {
      assert chain[0] in chain;
      LinkedFrame(next[head], next, next', chain[1..]);
    }
  }

  /** What the i-th slot of a chain points to. */
  ghost function SlotOf(head: Id, next: map<Id, Id>, chain: seq<Id>, i: nat): Id
    requires i <= |chain| && (i > 0 ==> chain[i - 1] in next)
  {
    if i == 0 then head else next[chain[i - 1]]
  }

  lemma {:induction false} LinkedFrom(head: Id, next: map<Id, Id>, chain: seq<Id>, i: nat)
    requires Linked(head, next, chain) && i <= |chain|
    ensures i > 0 ==> chain[i - 1] in next
    ensures Linked(SlotOf(head, next, chain, i), next, chain[i..])
    decreases |chain|
  {
    if i > 0 {
      LinkedFrom(next[head], next, chain[1..], i - 1);
      assert chain[1..][i - 1..] == chain[i..];
      if i > 1 {
        assert chain[1..][i - 2] == chain[i - 1];
      }
    }
  }

  lemma {:induction false} LinkedMember(head: Id, next: map<Id, Id>, chain: seq<Id>, id: Id)
    requires Linked(head, next, chain) && id in chain
    ensures id != NIL && id in next
    decreases |chain|
  {
    if id != chain[0] {
      LinkedMember(next[head], next, chain[1..], id);
    }
  }

  /** Pointing slot i at x, the head of tail, keeps the prefix and continues there. */
  lemma {:induction false} Splice(
    head: Id, next: map<Id, Id>, chain: seq<Id>, i: nat, x: Id, head': Id, next': map<Id, Id>, tail: seq<Id>)
    requires Linked(head, next, chain) && i <= |chain| && Linked(x, next', tail)
    requires head' == if i == 0 then x else head
    requires forall j :: 0 <= j < i && chain[j] in next ==>
               chain[j] in next' && next'[chain[j]] == if j + 1 < i then next[chain[j]] else x
    ensures Linked(head', next', chain[..i] + tail)
    decreases |chain|
  {
    if i == 0 {
      assert chain[..0] + tail == tail;
    } else {
      var rest := chain[1..];
      assert forall j :: 0 <= j < i - 1 ==> rest[j] == chain[j + 1];
      assert chain[0] in next' && next'[chain[0]] == if 1 < i then next[chain[0]] else x;
      Splice(next[head], next, rest, i - 1, x, next'[head], next', tail);
      var r := chain[..i] + tail;
      assert r[0] == chain[0] && r[1..] == rest[..i - 1] + tail;
    }
  }

  /** The chain with h in place of its i-th member, or at the end. */
  ghost function With(chain: seq<Id>, i: nat, h: Id): seq<Id>
    requires i <= |chain|
  {
    chain[..i] + ([h] + if i < |chain| then chain[i + 1..] else [])
  }

  lemma InsertLinked(
    head: Id, next: map<Id, Id>, chain: seq<Id>, i: nat, h: Id, head': Id, next': map<Id, Id>)
    requires Linked(head, next, chain) && NoDup(chain) && i <= |chain| && h !in chain && h != NIL
    requires i < |chain| ==> chain[i] in next
    requires var n := next[h := if i < |chain| then next[chain[i]] else NIL];
             next' == if i == 0 then n else n[chain[i - 1] := h]
    requires head' == if i == 0 then h else head
    ensures Linked(head', next', With(chain, i, h))
  {
    var rest := if i < |chain| then chain[i + 1..] else [];
    if i < |chain| {
      LinkedFrom(head, next, chain, i + 1);
    }
    LinkedFrame(if i < |chain| then next[chain[i]] else NIL, next, next', rest);
    assert ([h] + rest)[1..] == rest;
    Splice(head, next, chain, i, h, head', next', [h] + rest);
  }

  lemma RemoveLinked(head: Id, next: map<Id, Id>, chain: seq<Id>, i: nat, head': Id, next': map<Id, Id>)
    requires Linked(head, next, chain) && NoDup(chain) && i < |chain| && chain[i] in next
    requires next' == if i == 0 then next else next[chain[i - 1] := next[chain[i]]]
    requires head' == if i == 0 then next[chain[i]] else head
    ensures Linked(head', next', Without(chain, i))
  {
    LinkedFrom(head, next, chain, i + 1);
    LinkedFrame(next[chain[i]], next, next', chain[i + 1..]);
    Splice(head, next, chain, i, next[chain[i]], head', next', chain[i + 1..]);
  }

  // ----- the whole table -----

  ghost predicate PowerOfTwo(n: nat)
  {
    n == 1 || (n > 0 && n % 2 == 0 && PowerOfTwo(n / 2))
  }

  /** Bitwise and. */
  function And(a: nat, b: nat): nat {
    if a == 0 || b == 0 then 0 else (if a % 2 == 1 && b % 2 == 1 then 1 else 0) + 2 * And(a / 2, b / 2)
  }

  /** Masking with a power of two less one takes the remainder. */
  lemma {:induction false} MaskIsHome(hash: nat, length: nat)
    requires PowerOfTwo(length)
    ensures length > 0 && And(hash, length - 1) == Home(hash, length)
  {
    if length > 1 {
      var half := length / 2;
      MaskIsHome(hash / 2, half);
      assert (length - 1) / 2 == half - 1 && (length - 1) % 2 == 1;
      SplitRemainder(hash, half);
      if hash == 0 {
        assert And(hash / 2, half - 1) == 0;
      }
    }
  }

  lemma SplitRemainder(x: nat, m: nat)
    requires m > 0
    ensures x % (2 * m) == x % 2 + 2 * (x / 2 % m)
  {
    var q, r := x / 2 / m, x / 2 % m;
    assert x == 2 * (q * m + r) + x % 2;
    assert x == q * (2 * m) + (2 * r + x % 2);
    RemainderIs(x, 2 * m, q, 2 * r + x % 2);
  }

  lemma RemainderIs(x: nat, m: nat, q: nat, r: nat)
    requires r < m && x == q * m + r
    ensures x % m == r
  {
    assert (x / m - q) * m == r - x % m;
    if x / m != q {
      AtLeastOnce(x / m - q, m);
    }
  }

  lemma AtLeastOnce(k: int, m: nat)
    requires k != 0
    ensures k * m >= m || k * m <= 0 - m
  {
    if k > 0 {
      NotNegative(k - 1, m);
      assert k * m == (k - 1) * m + m;
    } else {
      NotNegative(-k - 1, m);
      assert k * m == -((-k - 1) * m) - m;
    }
  }

  lemma NotNegative(a: nat, b: nat)
    ensures a * b >= 0
  {
  }

  /** hash & (length - 1), for a length that is a power of two. */
  function Home(hash: nat, length: nat): (b: nat)
    requires length > 0
    ensures b < length
  {
    hash % length
  }

  ghost predicate DistinctKeys(chain: seq<Id>, keys: map<Id, HKey>) {
    forall i, j :: 0 <= i < j < |chain| && chain[i] in keys && chain[j] in keys ==> keys[chain[i]] != keys[chain[j]]
  }

  ghost predicate HomeIs(length: nat, keys: map<Id, HKey>, id: Id, b: nat)
    requires length > 0
  {
    id in keys && Home(keys[id].hash, length) == b
  }

  /** The chain of bucket b holds exactly the contents whose home it is. */
  ghost predicate Bucket(
    length: nat, head: Id, next: map<Id, Id>, keys: map<Id, HKey>, chain: seq<Id>, contents: set<Id>, b: nat)
    requires length > 0
  {
    && Linked(head, next, chain) && DistinctKeys(chain, keys)
    && (forall id :: id in chain <==> id in contents && HomeIs(length, keys, id, b))
  }

  ghost predicate TableOk(
    length: nat, list: seq<Id>, next: map<Id, Id>, keys: map<Id, HKey>, chains: seq<seq<Id>>, contents: set<Id>)
  {
    && length > 0 && |list| == length && |chains| == length
    && contents <= keys.Keys
    && (forall b :: 0 <= b < length ==> Bucket(length, list[b], next, keys, chains[b], contents, b))
  }

  lemma BucketNoDup(
    length: nat, head: Id, next: map<Id, Id>, keys: map<Id, HKey>, chain: seq<Id>, contents: set<Id>, b: nat)
    requires length > 0 && Bucket(length, head, next, keys, chain, contents, b)
    ensures NoDup(chain)
    ensures forall i :: 0 <= i < |chain| ==> chain[i] in keys && chain[i] != NIL && chain[i] in next
  {
    hide Home;
    forall i | 0 <= i < |chain|
      ensures chain[i] in keys && chain[i] != NIL && chain[i] in next
    {
      assert chain[i] in chain && HomeIs(length, keys, chain[i], b);
      LinkedMember(head, next, chain, chain[i]);
    }
  }

  /** A bucket none of whose members changed. */
  lemma OtherBucket(
    length: nat, head: Id, next: map<Id, Id>, keys: map<Id, HKey>, chain: seq<Id>, contents: set<Id>, b: nat,
    next': map<Id, Id>, keys': map<Id, HKey>, contents': set<Id>)
    requires length > 0 && Bucket(length, head, next, keys, chain, contents, b)
    requires forall id :: id in chain && id in next ==> id in next' && next'[id] == next[id]
    requires forall id :: id in chain && id in keys ==> id in keys' && keys'[id] == keys[id]
    requires forall id :: id in contents' && HomeIs(length, keys', id, b) <==> id in contents && HomeIs(length, keys, id, b)
    ensures Bucket(length, head, next', keys', chain, contents', b)
  {
    hide Home, HomeIs;
    LinkedFrame(head, next, next', chain);
    BucketNoDup(length, head, next, keys, chain, contents, b);
  }

  /** Where a search for k in the chain of its home ended. */
  ghost predicate SearchEnd(keys: map<Id, HKey>, chain: seq<Id>, k: HKey, i: nat) {
    && i <= |chain|
    && (i < |chain| ==> chain[i] in keys && keys[chain[i]] == k)
    && (forall j :: 0 <= j < i && chain[j] in keys ==> keys[chain[j]] != k)
  }

  lemma WithMembers(chain: seq<Id>, i: nat, h: Id)
    requires NoDup(chain) && i <= |chain|
    ensures forall id :: id in With(chain, i, h) <==> id == h || (id in chain && (i < |chain| ==> id != chain[i]))
  {
    var r := With(chain, i, h);
    assert r[i] == h;
    assert forall j :: 0 <= j < |chain| && j != i ==> r[j] == chain[j];
    assert forall j :: 0 <= j < |r| && j != i ==> j < |chain| && r[j] == chain[j];
  }

  lemma WithDistinct(keys: map<Id, HKey>, chain: seq<Id>, i: nat, h: Id, k: HKey)
    requires DistinctKeys(chain, keys) && SearchEnd(keys, chain, k, i) && h !in keys
    requires forall j :: 0 <= j < |chain| ==> chain[j] in keys
    ensures DistinctKeys(With(chain, i, h), keys[h := k])
  {
    var r := With(chain, i, h);
    assert r[i] == h;
    assert forall j :: 0 <= j < |r| && j != i ==> j < |chain| && r[j] == chain[j];
  }

  ghost function InsertedContents(chain: seq<Id>, i: nat, h: Id, contents: set<Id>): set<Id> {
    (if i < |chain| then contents - {chain[i]} else contents) + {h}
  }

  lemma InsertedIs(chain: seq<Id>, i: nat, h: Id, contents: set<Id>)
    requires i <= |chain|
    ensures i < |chain| ==> InsertedContents(chain, i, h, contents) == contents - {chain[i]} + {h}
    ensures i == |chain| ==> InsertedContents(chain, i, h, contents) == contents + {h}
  {
  }

  lemma InsertHome(
    length: nat, head: Id, next: map<Id, Id>, keys: map<Id, HKey>, chain: seq<Id>, contents: set<Id>, b: nat,
    i: nat, h: Id, k: HKey, head': Id, next': map<Id, Id>)
    requires length > 0 && Bucket(length, head, next, keys, chain, contents, b) && b == Home(k.hash, length)
    requires SearchEnd(keys, chain, k, i) && h != NIL && h !in keys && contents <= keys.Keys
    requires i < |chain| ==> chain[i] in next
    requires var n := next[h := if i < |chain| then next[chain[i]] else NIL];
             next' == if i == 0 then n else n[chain[i - 1] := h]
    requires head' == if i == 0 then h else head
    ensures Bucket(length, head', next', keys[h := k], With(chain, i, h), InsertedContents(chain, i, h, contents), b)
  {
    hide Home, Linked, With, DistinctKeys;
    BucketNoDup(length, head, next, keys, chain, contents, b);
    InsertLinked(head, next, chain, i, h, head', next');
    WithDistinct(keys, chain, i, h, k);
    WithMembers(chain, i, h);
  }

  lemma RemoveHome(
    length: nat, head: Id, next: map<Id, Id>, keys: map<Id, HKey>, chain: seq<Id>, contents: set<Id>, b: nat,
    i: nat, head': Id, next': map<Id, Id>)
    requires length > 0 && Bucket(length, head, next, keys, chain, contents, b)
    requires i < |chain| && chain[i] in next
    requires next' == if i == 0 then next else next[chain[i - 1] := next[chain[i]]]
    requires head' == if i == 0 then next[chain[i]] else head
    ensures Bucket(length, head', next', keys, Without(chain, i), contents - {chain[i]}, b)
  {
    hide Home, Linked;
    BucketNoDup(length, head, next, keys, chain, contents, b);
    RemoveLinked(head, next, chain, i, head', next');
    WithoutMembers(chain, i);
  }

  datatype Slot = AtBucket(b: nat) | AtNext(id: Id)

  /** *ptr = x, for the slot ptr. */
  method Redirect(
    slot: Slot, list: seq<Id>, next: map<Id, Id>, x: Id, ghost chain: seq<Id>, ghost b: nat, ghost i: nat)
    returns (list': seq<Id>, next': map<Id, Id>)
    requires b < |list| && i <= |chain| && slot == if i == 0 then AtBucket(b) else AtNext(chain[i - 1])
    ensures list' == if i == 0 then list[b := x] else list
    ensures next' == if i == 0 then next else next[chain[i - 1] := x]
  {
    list', next' := list, next;
    match slot {
      case AtBucket(bucket) => list' := list[bucket := x];
      case AtNext(id) => next' := next[id := x];
    }
  }

  class Table {
    var length: nat
    var elems: nat
    var list: seq<Id>
    var next: map<Id, Id>
    var keys: map<Id, HKey>
    ghost var chains: seq<seq<Id>>
    ghost var contents: set<Id>

    ghost predicate Consistent()
      reads this
    {
      TableOk(length, list, next, keys, chains, contents) && elems == |contents| && PowerOfTwo(length)
    }

    /** Between calls there is no more than one entry to a bucket on average. */
    ghost predicate Valid()
      reads this
    {
      Consistent() && elems <= length
    }

    constructor ()
      ensures Valid() && contents == {} && keys == map[]
    {
      EmptyTable(4, map[], map[]);
      length, elems, list, next, keys := 4, 0, seq(4, i => NIL), map[], map[];
      chains, contents := seq(4, i => []), {};
    }

    /** Slot i of bucket b. */
    ghost predicate SlotAt(slot: Slot, b: nat, i: nat)
      reads this
    {
      && b < |chains| && b < |list| && i <= |chains[b]|
      && slot == (if i == 0 then AtBucket(b) else AtNext(chains[b][i - 1]))
    }

    function Read(slot: Slot): Id
      reads this
      requires match slot case AtBucket(b) => b < |list| case AtNext(id) => id in next
    {
      match slot
      case AtBucket(b) => list[b]
      case AtNext(id) => next[id]
    }

    lemma ReadSlot(slot: Slot, b: nat, i: nat)
      requires Valid() && SlotAt(slot, b, i)
      ensures match slot case AtBucket(b) => b < |list| case AtNext(id) => id in next
      ensures Read(slot) == if i < |chains[b]| then chains[b][i] else NIL
      ensures i < |chains[b]| ==> chains[b][i] != NIL && chains[b][i] in keys && chains[b][i] in next
      ensures NoDup(chains[b])
    {
      hide Home, DistinctKeys;
      assert Bucket(length, list[b], next, keys, chains[b], contents, b);
      BucketNoDup(length, list[b], next, keys, chains[b], contents, b);
      LinkedFrom(list[b], next, chains[b], i);
    }

    /** FindPointer: the slot of the matching entry, or the last slot of the chain. */
    method FindPointer(k: HKey) returns (slot: Slot, ghost b: nat, ghost i: nat)
      requires Valid()
      ensures b == Home(k.hash, length) && SlotAt(slot, b, i) && SearchEnd(keys, chains[b], k, i)
    {
      hide Home, TableOk;
      assert |list| == |chains| == length > 0 by { Lengths(); }
      b, i := Home(k.hash, length), 0;
      slot := AtBucket(Home(k.hash, length));
      ReadSlot(slot, b, i);
      while Read(slot) != NIL && keys[Read(slot)] != k
        invariant SlotAt(slot, b, i)
        invariant match slot case AtBucket(b) => b < |list| case AtNext(id) => id in next
        invariant Read(slot) == if i < |chains[b]| then chains[b][i] else NIL
        invariant i < |chains[b]| ==> chains[b][i] != NIL && chains[b][i] in keys && chains[b][i] in next
        invariant forall j :: 0 <= j < i && chains[b][j] in keys ==> keys[chains[b][j]] != k
        decreases |chains[b]| - i
      {
        slot := AtNext(Read(slot));
        i := i + 1;
        ReadSlot(slot, b, i);
      }
    }

    lemma Lengths()
      requires Valid()
      ensures |list| == |chains| == length > 0
    {
    }

    method Lookup(k: HKey) returns (e: Id)
      requires Valid()
      ensures e != NIL ==> e in contents && e in keys && keys[e] == k
      ensures e == NIL ==> forall id :: id in contents && id in keys ==> keys[id] != k
    {
      hide Home, TableOk;
      var slot;
      ghost var b, i;
      slot, b, i := FindPointer(k);
      ReadSlot(slot, b, i);
      e := Read(slot);
      Searched(k, b, i);
    }

    /** What the search of one chain says about the whole table. */
    lemma Searched(k: HKey, b: nat, i: nat)
      requires Valid() && b == Home(k.hash, length) && b < |chains| && SearchEnd(keys, chains[b], k, i)
      ensures i < |chains[b]| ==> chains[b][i] in contents && chains[b][i] in keys && keys[chains[b][i]] == k
      ensures i == |chains[b]| ==> forall id :: id in contents && id in keys ==> keys[id] != k
    {
      hide Home, DistinctKeys;
      assert Bucket(length, list[b], next, keys, chains[b], contents, b);
      if i < |chains[b]| {
        assert chains[b][i] in chains[b];
      } else {
        forall id | id in contents && id in keys
          ensures keys[id] != k
        {
          assert HomeIs(length, keys, id, Home(keys[id].hash, length));
        }
      }
    }

    lemma HomeBucket(b: nat)
      requires Valid() && b < length
      ensures b < |list| && b < |chains| && contents <= keys.Keys
      ensures Bucket(length, list[b], next, keys, chains[b], contents, b)
    {
    }

    /** Insert: h takes the place of the entry with the same key, or joins its chain;
        a table with more entries than buckets is resized. */
    method Insert(h: Id, k: HKey) returns (replaced: Id)
      requires Valid() && h != NIL && h !in keys
      modifies this
      ensures Valid() && keys == old(keys)[h := k]
      ensures replaced != NIL ==>
                && replaced in old(contents) && replaced in old(keys) && old(keys)[replaced] == k
                && contents == old(contents) - {replaced} + {h}
      ensures replaced == NIL ==>
                contents == old(contents) + {h} && forall id :: id in old(contents) && id in old(keys) ==> old(keys)[id] != k
    {
      hide Home, TableOk;
      replaced := Link(h, k);
      if replaced == NIL && elems > length {
        length, list, next, chains := Resize(length, list, next, keys, elems, chains, contents);
      }
    }

    /** Insert, before the test of the load. */
    method Link(h: Id, k: HKey) returns (replaced: Id)
      requires Valid() && h != NIL && h !in keys
      modifies this
      ensures Consistent() && keys == old(keys)[h := k] && length == old(length)
      ensures elems == old(elems) + if replaced == NIL then 1 else 0
      ensures replaced != NIL ==>
                && replaced in old(contents) && replaced in old(keys) && old(keys)[replaced] == k
                && contents == old(contents) - {replaced} + {h}
      ensures replaced == NIL ==>
                contents == old(contents) + {h} && forall id :: id in old(contents) && id in old(keys) ==> old(keys)[id] != k
    {
      hide Home, TableOk, Bucket, With, NoDup, PowerOfTwo, DistinctKeys, Linked, SearchEnd, InsertedContents;
      var slot;
      ghost var b, i;
      slot, b, i := FindPointer(k);
      ReadSlot(slot, b, i);
      Searched(k, b, i);
      Lengths();
      HomeBucket(b);
      replaced := Read(slot);
      var linked := next[h := if replaced == NIL then NIL else next[replaced]];
      var list', next' := Redirect(slot, list, linked, h, chains[b], b, i);
      LinkOk(length, list, next, keys, chains, contents, b, i, h, k, list', next');
      InsertedIs(chains[b], i, h, contents);
      ghost var contents' := InsertedContents(chains[b], i, h, contents);
      ghost var chains' := chains[b := With(chains[b], i, h)];
      var added := if replaced == NIL then 1 else 0;
      list, next, keys, elems, contents, chains := list', next', keys[h := k], elems + added, contents', chains';
    }

    /** Remove: takes the matching entry, if any, out of its chain. */
    method Remove(k: HKey) returns (e: Id)
      requires Valid()
      modifies this
      ensures Valid() && keys == old(keys)
      ensures e != NIL ==> e in old(contents) && e in keys && keys[e] == k && contents == old(contents) - {e}
      ensures e == NIL ==> contents == old(contents) && forall id :: id in contents && id in keys ==> keys[id] != k
    {
      hide Home, TableOk, Bucket;
      var slot;
      ghost var b, i;
      slot, b, i := FindPointer(k);
      ReadSlot(slot, b, i);
      Searched(k, b, i);
      Lengths();
      e := Read(slot);
      if e != NIL {
        HomeBucket(b);
        var list', next' := Redirect(slot, list, next, next[e], chains[b], b, i);
        RemoveHome(length, list[b], next, keys, chains[b], contents, b, i, list'[b], next');
        RemoveOk(length, list, next, keys, chains, contents, b, i, list', next');
        list, next := list', next';
        chains := chains[b := Without(chains[b], i)];
        contents := contents - {e};
        elems := elems - 1;
      }
    }
  }

  /** The other buckets after one has gained a member, perhaps in place of another. */
  lemma InsertOk(
    length: nat, list: seq<Id>, next: map<Id, Id>, keys: map<Id, HKey>, chains: seq<seq<Id>>, contents: set<Id>,
    b: nat, i: nat, h: Id, k: HKey, list': seq<Id>, next': map<Id, Id>)
    requires TableOk(length, list, next, keys, chains, contents) && b < length && b == Home(k.hash, length)
    requires i <= |chains[b]| && h !in keys
    requires |list'| == |list| && forall c :: 0 <= c < |list| && c != b ==> list'[c] == list[c]
    requires forall id :: id in next && id in keys && id !in chains[b] ==> id in next' && next'[id] == next[id]
    requires Bucket(
               length, list'[b], next', keys[h := k], With(chains[b], i, h), InsertedContents(chains[b], i, h, contents), b)
    ensures TableOk(
              length, list', next', keys[h := k], chains[b := With(chains[b], i, h)],
              InsertedContents(chains[b], i, h, contents))
  {
    hide Home, Bucket, With;
    var contents' := InsertedContents(chains[b], i, h, contents);
    forall c | 0 <= c < length && c != b
      ensures Bucket(length, list'[c], next', keys[h := k], chains[c], contents', c)
    {
      assert HomeIs(length, keys[h := k], h, b);
      OtherAfter(length, list, next, keys, chains, contents, b, c, next', keys[h := k], contents');
    }
  }

  lemma LinkOk(
    length: nat, list: seq<Id>, next: map<Id, Id>, keys: map<Id, HKey>, chains: seq<seq<Id>>, contents: set<Id>,
    b: nat, i: nat, h: Id, k: HKey, list': seq<Id>, next': map<Id, Id>)
    requires TableOk(length, list, next, keys, chains, contents) && b < length && b == Home(k.hash, length)
    requires SearchEnd(keys, chains[b], k, i) && h != NIL && h !in keys
    requires i < |chains[b]| ==> chains[b][i] in next
    requires var n := next[h := if i < |chains[b]| then next[chains[b][i]] else NIL];
             next' == if i == 0 then n else n[chains[b][i - 1] := h]
    requires list' == if i == 0 then list[b := h] else list
    ensures TableOk(
              length, list', next', keys[h := k], chains[b := With(chains[b], i, h)],
              InsertedContents(chains[b], i, h, contents))
    ensures |InsertedContents(chains[b], i, h, contents)| == |contents| + if i < |chains[b]| then 0 else 1
  {
    hide Home, Linked, With, DistinctKeys, NoDup;
    assert Bucket(length, list[b], next, keys, chains[b], contents, b);
    InsertHome(length, list[b], next, keys, chains[b], contents, b, i, h, k, list'[b], next');
    assert i > 0 ==> chains[b][i - 1] in chains[b];
    assert i < |chains[b]| ==> chains[b][i] in chains[b];
    InsertOk(length, list, next, keys, chains, contents, b, i, h, k, list', next');
  }

  // ----- resizing -----

  lemma KeysDistinct(
    length: nat, list: seq<Id>, next: map<Id, Id>, keys: map<Id, HKey>, chains: seq<seq<Id>>, contents: set<Id>, x: Id, y: Id)
    requires TableOk(length, list, next, keys, chains, contents) && x in contents && y in contents && x != y
    ensures keys[x] != keys[y]
  {
    hide Home, Linked;
    var b := Home(keys[x].hash, length);
    assert HomeIs(length, keys, x, b);
    assert Bucket(length, list[b], next, keys, chains[b], contents, b);
    if HomeIs(length, keys, y, b) {
      var i :| 0 <= i < |chains[b]| && chains[b][i] == x;
      var j :| 0 <= j < |chains[b]| && chains[b][j] == y;
    }
  }

  /** Pushing h on the front of its bucket. */
  lemma PushHome(
    length: nat, head: Id, next: map<Id, Id>, keys: map<Id, HKey>, chain: seq<Id>, contents: set<Id>, b: nat, h: Id)
    requires length > 0 && Bucket(length, head, next, keys, chain, contents, b)
    requires h != NIL && h !in contents && HomeIs(length, keys, h, b)
    requires forall id :: id in contents && id in keys ==> keys[id] != keys[h]
    ensures Bucket(length, h, next[h := head], keys, [h] + chain, contents + {h}, b)
  {
    hide Home;
    BucketNoDup(length, head, next, keys, chain, contents, b);
    assert h !in chain;
    LinkedFrame(head, next, next[h := head], chain);
    assert ([h] + chain)[1..] == chain;
    PushDistinct(keys, chain, contents, h);
  }

  lemma PushDistinct(keys: map<Id, HKey>, chain: seq<Id>, contents: set<Id>, h: Id)
    requires DistinctKeys(chain, keys) && h in keys
    requires forall id :: id in chain ==> id in contents
    requires forall id :: id in contents && id in keys ==> keys[id] != keys[h]
    ensures DistinctKeys([h] + chain, keys)
  {
  }

  lemma PushOk(
    length: nat, list: seq<Id>, next: map<Id, Id>, keys: map<Id, HKey>, chains: seq<seq<Id>>, contents: set<Id>, h: Id)
    requires TableOk(length, list, next, keys, chains, contents)
    requires h != NIL && h !in contents && h in keys
    requires forall id :: id in contents && id in keys ==> keys[id] != keys[h]
    ensures |list| == |chains| == length > 0
    ensures var b := Home(keys[h].hash, length);
            TableOk(length, list[b := h], next[h := list[b]], keys, chains[b := [h] + chains[b]], contents + {h})
  {
    hide Home, Bucket;
    var b := Home(keys[h].hash, length);
    PushHome(length, list[b], next, keys, chains[b], contents, b, h);
    forall c | 0 <= c < length && c != b
      ensures Bucket(length, list[c], next[h := list[b]], keys, chains[c], contents + {h}, c)
    {
      PushOther(length, list[c], next, keys, chains[c], contents, b, c, h, list[b]);
    }
  }

  lemma PushOther(
    length: nat, head: Id, next: map<Id, Id>, keys: map<Id, HKey>, chain: seq<Id>, contents: set<Id>,
    b: nat, c: nat, h: Id, x: Id)
    requires length > 0 && Bucket(length, head, next, keys, chain, contents, c)
    requires h !in contents && HomeIs(length, keys, h, b) && b != c
    ensures Bucket(length, head, next[h := x], keys, chain, contents + {h}, c)
  {
    hide Home, Linked, DistinctKeys;
    OtherBucket(length, head, next, keys, chain, contents, c, next[h := x], keys, contents + {h});
  }

  /** The old buckets from i on are still linked, and none of them has been moved. */
  ghost predicate Remaining(list: seq<Id>, next: map<Id, Id>, chains: seq<seq<Id>>, i: nat, moved: set<Id>)
    requires |list| == |chains|
  {
    forall c :: i <= c < |chains| ==> Linked(list[c], next, chains[c]) && forall id :: id in chains[c] ==> id !in moved
  }

  /** Everything in the old buckets before i has been moved. */
  ghost predicate MovedBelow(chains: seq<seq<Id>>, i: nat, moved: set<Id>, contents: set<Id>) {
    moved <= contents && forall c, id :: 0 <= c < i && c < |chains| && id in chains[c] ==> id in moved
  }

  /** Moving one member of bucket i leaves the later buckets as they are. */
  lemma StillRemaining(
    length: nat, list: seq<Id>, next0: map<Id, Id>, keys: map<Id, HKey>, chains: seq<seq<Id>>, contents: set<Id>,
    i: nat, next: map<Id, Id>, moved: set<Id>, h: Id, x: Id)
    requires TableOk(length, list, next0, keys, chains, contents) && i < length && h in chains[i]
    requires Remaining(list, next, chains, i + 1, moved)
    ensures Remaining(list, next[h := x], chains, i + 1, moved + {h})
  {
    hide Home, DistinctKeys;
    assert Bucket(length, list[i], next0, keys, chains[i], contents, i);
    forall c | i + 1 <= c < |chains|
      ensures Linked(list[c], next[h := x], chains[c]) && h !in chains[c]
    {
      assert Bucket(length, list[c], next0, keys, chains[c], contents, c);
      LinkedFrame(list[c], next, next[h := x], chains[c]);
    }
  }

  lemma AllMoved(
    length: nat, list: seq<Id>, next: map<Id, Id>, keys: map<Id, HKey>, chains: seq<seq<Id>>, contents: set<Id>, moved: set<Id>)
    requires TableOk(length, list, next, keys, chains, contents) && MovedBelow(chains, length, moved, contents)
    ensures moved == contents
  {
    hide Home, Linked, DistinctKeys;
    forall id | id in contents
      ensures id in moved
    {
      var b := Home(keys[id].hash, length);
      assert HomeIs(length, keys, id, b);
      assert Bucket(length, list[b], next, keys, chains[b], contents, b);
    }
  }

  lemma EmptyTable(length: nat, next: map<Id, Id>, keys: map<Id, HKey>)
    requires length > 0
    ensures TableOk(length, seq(length, i => NIL), next, keys, seq(length, i => []), {})
  {
    hide Home;
  }

  /** Resize: a power of two not below the number of entries, every entry rehashed. */
  method Resize(
    length: nat, list: seq<Id>, next: map<Id, Id>, keys: map<Id, HKey>, elems: nat,
    ghost chains: seq<seq<Id>>, ghost contents: set<Id>)
    returns (length': nat, list': seq<Id>, next': map<Id, Id>, ghost chains': seq<seq<Id>>)
    requires TableOk(length, list, next, keys, chains, contents)
    ensures TableOk(length', list', next', keys, chains', contents)
    ensures PowerOfTwo(length') && length' >= 4 && length' >= elems
  {
    hide Home, TableOk, Linked, MovedBelow, Remaining;
    length' := 4;
    while length' < elems
      invariant length' >= 4 && PowerOfTwo(length')
      decreases elems - length'
    {
      length' := length' * 2;
    }
    EmptyTable(length', next, keys);
    list', chains', next' := seq(length', i => NIL), seq(length', i => []), next;
    ghost var moved: set<Id> := {};
    ResizeStart(length, list, next, keys, chains, contents);
    var i := 0;
    while i < length
      invariant 0 <= i <= length == |list| == |chains|
      invariant TableOk(length', list', next', keys, chains', moved)
      invariant Remaining(list, next', chains, i, moved) && MovedBelow(chains, i, moved, contents)
    {
      list', next', chains', moved := MoveBucket(
        length, list, next, keys, chains, contents, i, length', list', next', chains', moved);
      i := i + 1;
    }
    AllMoved(length, list, next, keys, chains, contents, moved);
  }

  lemma ResizeStart(
    length: nat, list: seq<Id>, next: map<Id, Id>, keys: map<Id, HKey>, chains: seq<seq<Id>>, contents: set<Id>)
    requires TableOk(length, list, next, keys, chains, contents)
    ensures |list| == |chains| == length && Remaining(list, next, chains, 0, {}) && MovedBelow(chains, 0, {}, contents)
  {
    hide Home, Linked, DistinctKeys;
    assert forall c :: 0 <= c < length ==> Bucket(length, list[c], next, keys, chains[c], contents, c);
  }

  lemma StartBucket(list: seq<Id>, next: map<Id, Id>, chains: seq<seq<Id>>, i: nat, moved: set<Id>)
    requires i < |list| == |chains| && Remaining(list, next, chains, i, moved)
    ensures Linked(list[i], next, chains[i]) && Remaining(list, next, chains, i + 1, moved)
    ensures forall id :: id in chains[i] ==> id !in moved
  {
    hide Linked;
  }

  /** The member about to be moved, and what follows it. */
  lemma NextMember(
    length: nat, list: seq<Id>, next0: map<Id, Id>, keys: map<Id, HKey>, chains: seq<seq<Id>>, contents: set<Id>,
    i: nat, j: nat, h: Id, next: map<Id, Id>, moved0: set<Id>)
    requires TableOk(length, list, next0, keys, chains, contents) && i < length && j <= |chains[i]|
    requires Linked(h, next, chains[i][j..]) && h != NIL
    requires moved0 <= contents && forall id :: id in chains[i] ==> id !in moved0
    ensures j < |chains[i]| && h == chains[i][j] && h in chains[i] && h in next && h in keys
    ensures h !in moved0 + Members(chains[i][..j])
    ensures moved0 + Members(chains[i][..j]) + {h} == moved0 + Members(chains[i][..j + 1])
    ensures Linked(next[h], next, chains[i][j + 1..]) && h !in chains[i][j + 1..]
    ensures forall id :: id in moved0 + Members(chains[i][..j]) && id in keys ==> keys[id] != keys[h]
  {
    hide Home, DistinctKeys;
    var chain := chains[i];
    assert Bucket(length, list[i], next0, keys, chain, contents, i);
    BucketNoDup(length, list[i], next0, keys, chain, contents, i);
    assert chain[j..] != [] && chain[j..][1..] == chain[j + 1..];
    assert chain[..j + 1] == chain[..j] + [h];
    assert h in chain;
    forall id | id in moved0 + Members(chain[..j]) && id in keys
      ensures keys[id] != keys[h]
    {
      KeysDistinct(length, list, next0, keys, chains, contents, id, h);
    }
  }

  /** The inner loop of Resize: moves one old chain, front to back. */
  method MoveBucket(
    ghost length: nat, list: seq<Id>, ghost next0: map<Id, Id>, keys: map<Id, HKey>, ghost chains: seq<seq<Id>>,
    ghost contents: set<Id>, i: nat, length': nat, list0: seq<Id>, next: map<Id, Id>, ghost chains0: seq<seq<Id>>,
    ghost moved0: set<Id>)
    returns (list': seq<Id>, next': map<Id, Id>, ghost chains': seq<seq<Id>>, ghost moved: set<Id>)
    requires TableOk(length, list, next0, keys, chains, contents) && i < length
    requires TableOk(length', list0, next, keys, chains0, moved0)
    requires |list| == |chains| == length && Remaining(list, next, chains, i, moved0) && MovedBelow(chains, i, moved0, contents)
    ensures TableOk(length', list', next', keys, chains', moved)
    ensures Remaining(list, next', chains, i + 1, moved) && MovedBelow(chains, i + 1, moved, contents)
  {
    hide Home, TableOk, Linked, Remaining, MovedBelow, Members;
    list', next', chains', moved := list0, next, chains0, moved0;
    StartBucket(list, next, chains, i, moved0);
    BucketStart(chains, i, moved0, contents);
    var h := list[i];
    ghost var j := 0;
    while h != NIL
      invariant 0 <= j <= |chains[i]| && Linked(h, next', chains[i][j..])
      invariant TableOk(length', list', next', keys, chains', moved)
      invariant Remaining(list, next', chains, i + 1, moved) && moved == moved0 + Members(chains[i][..j])
      decreases |chains[i]| - j
    {
      NextMember(length, list, next0, keys, chains, contents, i, j, h, next', moved0);
      PushOk(length', list', next', keys, chains', moved, h);
      var b := Home(keys[h].hash, length');
      var n := next'[h];
      StillRemaining(length, list, next0, keys, chains, contents, i, next', moved, h, list'[b]);
      LinkedFrame(n, next', next'[h := list'[b]], chains[i][j + 1..]);
      chains' := chains'[b := [h] + chains'[b]];
      next' := next'[h := list'[b]];
      list' := list'[b := h];
      moved := moved + {h};
      h := n;
      j := j + 1;
    }
    BucketEnd(length, list, next0, keys, chains, contents, i, j, next', moved0);
  }

  lemma BucketStart(chains: seq<seq<Id>>, i: nat, moved: set<Id>, contents: set<Id>)
    requires i < |chains| && MovedBelow(chains, i, moved, contents)
    ensures moved <= contents && chains[i][0..] == chains[i] && moved == moved + Members(chains[i][..0])
  {
  }

  lemma BucketEnd(
    length: nat, list: seq<Id>, next0: map<Id, Id>, keys: map<Id, HKey>, chains: seq<seq<Id>>, contents: set<Id>,
    i: nat, j: nat, next: map<Id, Id>, moved0: set<Id>)
    requires TableOk(length, list, next0, keys, chains, contents) && i < length && j <= |chains[i]|
    requires MovedBelow(chains, i, moved0, contents) && Linked(NIL, next, chains[i][j..])
    ensures MovedBelow(chains, i + 1, moved0 + Members(chains[i][..j]), contents)
  {
    hide Home, DistinctKeys;
    assert Bucket(length, list[i], next0, keys, chains[i], contents, i);
    assert chains[i][j..] == [];
    assert chains[i][..j] == chains[i];
  }

  /** The other buckets after one has lost a member. */
  lemma RemoveOk(
    length: nat, list: seq<Id>, next: map<Id, Id>, keys: map<Id, HKey>, chains: seq<seq<Id>>, contents: set<Id>,
    b: nat, i: nat, list': seq<Id>, next': map<Id, Id>)
    requires TableOk(length, list, next, keys, chains, contents) && b < length && i < |chains[b]|
    requires |list'| == |list| && forall c :: 0 <= c < |list| && c != b ==> list'[c] == list[c]
    requires forall id :: id in next && (id !in chains[b]) ==> id in next' && next'[id] == next[id]
    requires Bucket(length, list'[b], next', keys, Without(chains[b], i), contents - {chains[b][i]}, b)
    ensures TableOk(length, list', next', keys, chains[b := Without(chains[b], i)], contents - {chains[b][i]})
  {
    hide Home, Bucket;
    var contents' := contents - {chains[b][i]};
    forall c | 0 <= c < length && c != b
      ensures Bucket(length, list'[c], next', keys, chains[c], contents', c)
    {
      OtherAfter(length, list, next, keys, chains, contents, b, c, next', keys, contents');
    }
  }

  /** Another bucket is not touched by changes to members of bucket b. */
  lemma OtherAfter(
    length: nat, list: seq<Id>, next: map<Id, Id>, keys: map<Id, HKey>, chains: seq<seq<Id>>, contents: set<Id>,
    b: nat, c: nat, next': map<Id, Id>, keys': map<Id, HKey>, contents': set<Id>)
    requires TableOk(length, list, next, keys, chains, contents) && b < length && c < length && c != b
    requires forall id :: id in next && id in keys && id !in chains[b] ==> id in next' && next'[id] == next[id]
    requires forall id :: id in keys ==> id in keys' && keys'[id] == keys[id]
    requires forall id :: id in contents && id !in chains[b] ==> id in contents'
    requires forall id :: id in contents' ==> id in contents || HomeIs(length, keys', id, b)
    ensures Bucket(length, list[c], next', keys', chains[c], contents', c)
  {
    hide Home, Linked, DistinctKeys;
    assert Bucket(length, list[b], next, keys, chains[b], contents, b);
    assert Bucket(length, list[c], next, keys, chains[c], contents, c);
    OtherBucket(length, list[c], next, keys, chains[c], contents, c, next', keys', contents');
  }
}
