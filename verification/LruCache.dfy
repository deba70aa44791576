/** LRUCache: one shard of the block cache. */
module LruCache {
  import opened Links
  import opened HandleTable

  // ----- references and charges -----

  ghost function Total(ids: set<Id>, charge: map<Id, nat>): nat
    requires ids <= charge.Keys
  {
    if ids == {} then 0 else var id :| id in ids; charge[id] + Total(ids - {id}, charge)
  }

  lemma {:induction false} TotalSplit(ids: set<Id>, charge: map<Id, nat>, id: Id)
    requires ids <= charge.Keys && id in ids
    ensures Total(ids, charge) == charge[id] + Total(ids - {id}, charge)
    decreases |ids|
  {
    var x :| x in ids && Total(ids, charge) == charge[x] + Total(ids - {x}, charge);
    if x != id {
      TotalSplit(ids - {x}, charge, id);
      TotalSplit(ids - {id}, charge, x);
      assert ids - {x} - {id} == ids - {id} - {x};
    }
  }

  lemma {:induction false} TotalSame(ids: set<Id>, charge: map<Id, nat>, charge': map<Id, nat>)
    requires ids <= charge.Keys && ids <= charge'.Keys && forall id :: id in ids ==> charge[id] == charge'[id]
    ensures Total(ids, charge) == Total(ids, charge')
    decreases |ids|
  {
    if ids != {} {
      var id :| id in ids;
      TotalSplit(ids, charge, id);
      TotalSplit(ids, charge', id);
      TotalSame(ids - {id}, charge, charge');
    }
  }

  /** refs counts the outstanding handles and the cache's own reference; usage is
      the total charge of the entries not yet freed. */
  ghost predicate Accounts(
    refs: map<Id, nat>, handles: map<Id, nat>, charge: map<Id, nat>, cached: set<Id>, usage: nat)
  {
    && refs.Keys == handles.Keys && refs.Keys <= charge.Keys && cached <= refs.Keys
    && (forall id :: id in refs ==> refs[id] > 0 && refs[id] == handles[id] + if id in cached then 1 else 0)
    && usage == Total(refs.Keys, charge)
  }

  /** What dropping one reference to e leaves. */
  ghost predicate Dropped(refs: map<Id, nat>, charge: map<Id, nat>, usage: nat, e: Id, refs': map<Id, nat>, usage': nat)
    requires e in refs && e in charge && refs[e] > 0
  {
    if refs[e] == 1 then refs' == refs - {e} && usage' == usage - charge[e]
    else refs' == refs[e := refs[e] - 1] && usage' == usage
  }

  ghost function LessOne(handles: map<Id, nat>, e: Id, freed: bool): map<Id, nat>
    requires e in handles && handles[e] > 0
  {
    if freed then handles - {e} else handles[e := handles[e] - 1]
  }

  lemma EnoughUsage(refs: map<Id, nat>, handles: map<Id, nat>, charge: map<Id, nat>, cached: set<Id>, usage: nat, e: Id)
    requires Accounts(refs, handles, charge, cached, usage) && e in refs
    ensures usage >= charge[e] && usage - charge[e] == Total((refs - {e}).Keys, charge)
  {
    TotalSplit(refs.Keys, charge, e);
    assert (refs - {e}).Keys == refs.Keys - {e};
  }

  /** The cache gives up its own reference. */
  lemma UncacheAccounts(
    refs: map<Id, nat>, handles: map<Id, nat>, charge: map<Id, nat>, cached: set<Id>, usage: nat,
    e: Id, refs': map<Id, nat>, usage': nat)
    requires Accounts(refs, handles, charge, cached, usage) && e in cached
    requires Dropped(refs, charge, usage, e, refs', usage')
    ensures Accounts(refs', if refs[e] == 1 then handles - {e} else handles, charge, cached - {e}, usage')
  {
    hide Total;
    EnoughUsage(refs, handles, charge, cached, usage, e);
    assert refs[e] != 1 ==> refs'.Keys == refs.Keys;
  }

  /** A caller gives up a handle. */
  lemma ReleaseAccounts(
    refs: map<Id, nat>, handles: map<Id, nat>, charge: map<Id, nat>, cached: set<Id>, usage: nat,
    e: Id, refs': map<Id, nat>, usage': nat)
    requires Accounts(refs, handles, charge, cached, usage) && e in handles && handles[e] > 0
    requires Dropped(refs, charge, usage, e, refs', usage')
    ensures Accounts(refs', LessOne(handles, e, refs[e] == 1), charge, cached, usage')
  {
    hide Total;
    EnoughUsage(refs, handles, charge, cached, usage, e);
    assert refs[e] != 1 ==> refs'.Keys == refs.Keys;
  }

  /** A new entry, with the cache's reference and one handle. */
  lemma AllocateAccounts(
    refs: map<Id, nat>, handles: map<Id, nat>, charge: map<Id, nat>, cached: set<Id>, usage: nat, e: Id, c: nat)
    requires Accounts(refs, handles, charge, cached, usage) && e !in refs
    ensures Accounts(refs[e := 2], handles[e := 1], charge[e := c], cached + {e}, usage + c)
  {
    var ids := refs[e := 2].Keys;
    assert ids - {e} == refs.Keys;
    TotalSplit(ids, charge[e := c], e);
    TotalSame(refs.Keys, charge, charge[e := c]);
    hide Total;
  }

  // ----- what has been freed -----

  /** Every entry ever made is either alive or was freed, once. */
  ghost predicate Ledger(nextId: Id, live: set<Id>, freed: seq<Id>) {
    && NoDup(freed) && nextId > HEAD
    && (forall id :: id in live ==> HEAD < id < nextId && id !in freed)
    && (forall id :: id in freed ==> HEAD < id < nextId)
    && (forall id: Id :: HEAD < id < nextId ==> id in live || id in freed)
  }

  ghost function Freed(freed: seq<Id>, e: Id, now: bool): seq<Id> {
    if now then freed + [e] else freed
  }

  lemma LedgerFree(nextId: Id, live: set<Id>, freed: seq<Id>, e: Id)
    requires Ledger(nextId, live, freed) && e in live
    ensures Ledger(nextId, live - {e}, freed + [e])
  {
  }

  lemma LedgerNew(nextId: Id, live: set<Id>, freed: seq<Id>)
    requires Ledger(nextId, live, freed)
    ensures Ledger(nextId + 1, live + {nextId}, freed)
  {
  }

  /** Whoever holds a handle keeps it, with the same count. */
  ghost predicate HandlesKept(handles: map<Id, nat>, handles': map<Id, nat>) {
    forall id :: id in handles && handles[id] > 0 ==> id in handles' && handles'[id] == handles[id]
  }

  // ----- eviction, told from the list alone -----

  /** What the usage falls by when e leaves the cache: nothing while it is held. */
  ghost function Cost(handles: map<Id, nat>, charge: map<Id, nat>, e: Id): nat {
    if e in handles && handles[e] == 0 && e in charge then charge[e] else 0
  }

  /** The usage once the n least recently used entries are gone. */
  ghost function UsageAfter(usage: nat, order: seq<Id>, handles: map<Id, nat>, charge: map<Id, nat>, n: nat): int
    requires n <= |order|
  {
    if n == 0 then usage else UsageAfter(usage, order, handles, charge, n - 1) - Cost(handles, charge, order[n - 1])
  }

  /** Evicting has come from (usage, order) to (usage', order'): the least recently used
      entries are gone, and the usage was above the capacity before each. */
  ghost predicate Evicting(
    usage: nat, capacity: nat, order: seq<Id>, handles: map<Id, nat>, charge: map<Id, nat>, usage': nat, order': seq<Id>)
  {
    && |order'| <= |order|
    && var n := |order| - |order'|;
       && order' == order[n..] && usage' == UsageAfter(usage, order, handles, charge, n)
       && forall k: nat :: k < n ==> UsageAfter(usage, order, handles, charge, k) > capacity
  }

  /** It goes on until the usage fits or the list is empty. */
  ghost predicate Evicts(
    usage: nat, capacity: nat, order: seq<Id>, handles: map<Id, nat>, charge: map<Id, nat>, usage': nat, order': seq<Id>)
  {
    Evicting(usage, capacity, order, handles, charge, usage', order') && (usage' <= capacity || order' == [])
  }

  /** There is one such end: the fewest entries that are enough. */
  lemma EvictsOnce(
    usage: nat, capacity: nat, order: seq<Id>, handles: map<Id, nat>, charge: map<Id, nat>,
    usage1: nat, order1: seq<Id>, usage2: nat, order2: seq<Id>)
    requires Evicts(usage, capacity, order, handles, charge, usage1, order1)
    ensures Evicts(usage, capacity, order, handles, charge, usage2, order2) ==> usage1 == usage2 && order1 == order2
    ensures usage <= capacity ==> usage1 == usage && order1 == order
  {
    hide UsageAfter;
    NoneGone(usage, order, handles, charge);
  }

  lemma StartEvicting(usage: nat, capacity: nat, order: seq<Id>, handles: map<Id, nat>, charge: map<Id, nat>)
    ensures Evicting(usage, capacity, order, handles, charge, usage, order)
    ensures Unheld(order[..0], handles) == []
  {
    assert order[0..] == order;
  }

  lemma NoneGone(usage: nat, order: seq<Id>, handles: map<Id, nat>, charge: map<Id, nat>)
    ensures UsageAfter(usage, order, handles, charge, 0) == usage
  {
  }

  /** Those of the entries that nobody holds: their deleters run when they leave. */
  ghost function Unheld(order: seq<Id>, handles: map<Id, nat>): seq<Id> {
    if order == [] then []
    else
      var e := order[|order| - 1];
      Unheld(order[..|order| - 1], handles) + (if e in handles && handles[e] == 0 then [e] else [])
  }

  /** The maps agree on the entries of the list. */
  ghost predicate AgreeOn(order: seq<Id>, handles: map<Id, nat>, handles': map<Id, nat>) {
    forall e :: e in order ==> e in handles && e in handles' && handles[e] == handles'[e]
  }

  /** One more eviction, in terms of the list as it was at the start. */
  lemma OneMore(
    usage0: nat, capacity: nat, order0: seq<Id>, handles0: map<Id, nat>, charge: map<Id, nat>,
    usage: nat, order: seq<Id>, handles: map<Id, nat>, usage': nat, order': seq<Id>)
    requires Evicting(usage0, capacity, order0, handles0, charge, usage, order) && usage > capacity
    requires order != [] && AgreeOn(order, handles0, handles) && order' == order[1..]
    requires usage' == usage - Cost(handles, charge, order[0])
    ensures Evicting(usage0, capacity, order0, handles0, charge, usage', order')
    ensures order[0] in handles
    ensures Unheld(order0[..|order0| - |order'|], handles0) ==
      Freed(Unheld(order0[..|order0| - |order|], handles0), order[0], handles[order[0]] == 0)
  {
    hide HandlesKept;
    var n := |order0| - |order|;
    assert order0[n..][0] == order0[n] && order0[n..][1..] == order0[n + 1..];
    assert order0[..n + 1][..n] == order0[..n];
  }

  lemma FreedAfter(before: seq<Id>, gone: seq<Id>, e: Id, now: bool)
    ensures Freed(before + gone, e, now) == before + Freed(gone, e, now)
  {
  }

  /** The entry cached under k, if there is one. */
  ghost function Holder(contents: set<Id>, keys: map<Id, HKey>, k: HKey): (h: Id)
    ensures h != NIL ==> h in contents && h in keys && keys[h] == k
  {
    if e :| e in contents && e in keys && keys[e] == k && e != NIL then e else NIL
  }

  /** No two of the entries have one key. */
  ghost predicate OneKeyEach(contents: set<Id>, keys: map<Id, HKey>) {
    && contents <= keys.Keys
    && forall x, y :: x in contents && y in contents && x != y ==> keys[x] != keys[y]
  }

  class LRUCache {
    const table: Table
    var capacity: nat
    var usage: nat
    var next: map<Id, Id>
    var prev: map<Id, Id>
    var refs: map<Id, nat>
    var charge: map<Id, nat>
    var nextId: Id
    ghost var order: seq<Id>              // least recently used first
    ghost var handles: map<Id, nat>       // handles given out and not released
    ghost var freed: seq<Id>              // entries whose deleter has run, in order

    ghost predicate Core(cached: set<Id>)
      reads this
    {
      && Ring(next, prev, order)
      && Accounts(refs, handles, charge, cached, usage)
      && Ledger(nextId, refs.Keys, freed)
    }

    /** The hash table and the list hold the same entries. */
    ghost predicate Valid()
      reads this, table
    {
      && table.Valid() && Core(table.contents) && Members(order) == table.contents
      && (forall id :: id in table.keys ==> id < nextId)
    }

    constructor (capacity: nat)
      ensures Valid() && fresh(table) && this.capacity == capacity && order == [] && handles == map[] && freed == []
    {
      table := new Table();
      this.capacity, usage := capacity, 0;
      next, prev := map[HEAD := HEAD], map[HEAD := HEAD];
      refs, charge, nextId := map[], map[], 1;
      order, handles, freed := [], map[], [];
    }

    method LruRemove(e: Id)
      requires Ring(next, prev, order) && e in order
      modifies this`next, this`prev, this`order
      ensures Ring(next, prev, order) && Members(order) == old(Members(order)) - {e} && e !in order
      ensures order == Minus(old(order), e)
      ensures old(order)[0] == e ==> order == old(order)[1..]
    {
      hide Path, Back, Minus;
      ghost var i :| 0 <= i < |order| && order[i] == e;
      RingRemove(next, prev, order, i);
      MinusIsWithout(order, i);
      WithoutMembers(order, i);
      var n, p := next[e], prev[e];
      prev := prev[n := p];
      next := next[p := n];
      order := Without(order, i);
    }

    method LruAppend(e: Id)
      requires Ring(next, prev, order) && e !in order && e != HEAD
      modifies this`next, this`prev, this`order
      ensures Ring(next, prev, order) && order == old(order) + [e]
    {
      hide Path, Back;
      RingAppend(next, prev, order, e);
      var p := prev[HEAD];
      next := next[e := HEAD];
      prev := prev[e := p];
      next := next[p := e];
      prev := prev[HEAD := e];
      order := order + [e];
    }

    method MoveToEnd(e: Id)
      requires Ring(next, prev, order) && e in Members(order)
      modifies this`next, this`prev, this`order
      ensures Ring(next, prev, order) && Members(order) == old(Members(order))
      ensures order == Minus(old(order), e) + [e]
    {
      hide Path, Back, Members, Minus;
      InOrder(order, e);
      LruRemove(e);
      AppendedMembers(order, e);
      LruAppend(e);
    }

    /** Unref: the deleter runs when the last reference goes. */
    method Unref(e: Id)
      requires e in refs && e in charge && refs[e] > 0 && usage >= charge[e] && Ledger(nextId, refs.Keys, freed)
      modifies this`refs, this`usage, this`freed
      ensures Dropped(old(refs), charge, old(usage), e, refs, usage)
      ensures Ledger(nextId, refs.Keys, freed) && freed == Freed(old(freed), e, old(refs)[e] == 1)
    {
      hide Ledger;
      LedgerFree(nextId, refs.Keys, freed, e);
      assert refs.Keys - {e} == (refs - {e}).Keys;
      assert refs[e := refs[e] - 1].Keys == refs.Keys;
      refs := refs[e := refs[e] - 1];
      if refs[e] == 0 {
        usage := usage - charge[e];
        assert old(refs) - {e} == refs - {e};
        refs := refs - {e};
        freed := freed + [e];
      }
    }

    /** Unref of an entry just taken out of the cache. */
    method UnrefCached(e: Id, ghost cached: set<Id>)
      requires Core(cached) && e in cached
      modifies this`refs, this`usage, this`freed, this`handles
      ensures Core(cached - {e}) && HandlesKept(old(handles), handles)
      ensures e in old(handles) && freed == Freed(old(freed), e, old(handles)[e] == 0)
      ensures handles == if old(handles)[e] == 0 then old(handles) - {e} else old(handles)
      ensures usage == old(usage) - Cost(old(handles), charge, e)
    {
      hide Ring, Ledger, Total;
      EnoughUsage(refs, handles, charge, cached, usage, e);
      ghost var refs0, usage0 := refs, usage;
      Unref(e);
      UncacheAccounts(refs0, handles, charge, cached, usage0, e, refs, usage);
      if refs0[e] == 1 {
        handles := handles - {e};
      }
    }

    /** Release: gives back one handle. */
    method Release(e: Id)
      requires Valid() && e in handles && handles[e] > 0
      modifies this
      ensures Valid() && order == old(order) && table.contents == old(table.contents) && capacity == old(capacity)
      ensures handles == LessOne(old(handles), e, old(handles)[e] == 1 && e !in table.contents)
      ensures freed == Freed(old(freed), e, old(handles)[e] == 1 && e !in table.contents) && charge == old(charge)
      ensures e in charge && usage == old(usage) - if old(handles)[e] == 1 && e !in table.contents then charge[e] else 0
    {
      hide Ring, Ledger, Total, TableOk, Members;
      EnoughUsage(refs, handles, charge, table.contents, usage, e);
      ghost var refs0, usage0 := refs, usage;
      Unref(e);
      ReleaseAccounts(refs0, handles, charge, table.contents, usage0, e, refs, usage);
      handles := LessOne(handles, e, refs0[e] == 1);
    }

    /** Erase: the entry leaves table and list; it is freed when no handle is left. */
    method Erase(k: HKey)
      requires Valid()
      modifies this, table
      ensures Valid() && HandlesKept(old(handles), handles) && capacity == old(capacity)
      ensures forall id :: id in table.contents && id in table.keys ==> table.keys[id] != k
      ensures table.contents <= old(table.contents) && old(freed) <= freed
      ensures forall id :: id in old(table.contents) && id !in table.contents ==> old(table.keys)[id] == k
      ensures
        var d := Holder(old(table.contents), old(table.keys), k);
        && table.contents == old(table.contents) - {d} && order == Minus(old(order), d)
        && usage == old(usage) - Cost(old(handles), old(charge), d)
    {
      hide Ring, Ledger, Accounts, TableOk, Members, Minus;
      ghost var contents0 := table.contents;
      DistinctCached();
      NotCached(order, handles);
      var e := table.Remove(k);
      assert e == Holder(old(table.contents), old(table.keys), k);
      if e != NIL {
        InOrder(order, e);
        LruRemove(e);
        UnrefCached(e, contents0);
      }
    }

    /** The null pointer is no entry. */
    lemma NotCached(order0: seq<Id>, handles0: map<Id, nat>)
      requires Valid() && order0 == order && handles0 == handles
      ensures NIL !in table.contents && Minus(order0, NIL) == order0 && Cost(handles0, charge, NIL) == 0
    {
      hide Path, Back, TableOk, Total;
      MinusAbsent(order, NIL);
      assert NIL in table.contents ==> NIL in Members(order);
    }

    /** Cached entries have distinct keys. */
    lemma DistinctCached()
      requires Valid()
      ensures forall x :: x in table.contents ==> x in table.keys && x in handles
      ensures OneKeyEach(table.contents, table.keys)
    {
      hide Ring, Ledger, Members, Bucket;
      forall x, y | x in table.contents && y in table.contents && x != y
        ensures table.keys[x] != table.keys[y]
      {
        KeysDistinct(table.length, table.list, table.next, table.keys, table.chains, table.contents, x, y);
      }
    }

    /** The eviction loop of Insert: the least recently used entries go, as few as
        bring the usage within the capacity; those nobody holds are freed. */
    method Evict()
      requires Valid()
      modifies this, table
      ensures Valid() && HandlesKept(old(handles), handles) && capacity == old(capacity) && nextId == old(nextId)
      ensures charge == old(charge) && table.keys == old(table.keys)
      ensures Evicts(old(usage), capacity, old(order), old(handles), charge, usage, order)
      ensures freed == old(freed) + Unheld(old(order)[..|old(order)| - |order|], old(handles))
      ensures table.contents <= old(table.contents)
    {
      hide Ring, Ledger, Accounts, TableOk, Members, Evicting, Unheld, Cost, AgreeOn, HandlesKept, Freed;
      ghost var usage0, order0, handles0, freed0 := usage, order, handles, freed;
      StartEvicting(usage, capacity, order, handles, charge);
      EvictStart();
      while usage > capacity && next[HEAD] != HEAD
        invariant Valid() && HandlesKept(handles0, handles) && capacity == old(capacity) && nextId == old(nextId)
        invariant charge == old(charge) && table.keys == old(table.keys) && table.contents <= old(table.contents)
        invariant |order| <= |order0| && Evicting(usage0, capacity, order0, handles0, charge, usage, order)
        invariant AgreeOn(order, handles0, handles)
        invariant freed == freed0 + Unheld(order0[..|order0| - |order|], handles0)
        invariant HEAD in next && (next[HEAD] == HEAD <==> order == [])
        decreases |order|
      {
        ghost var usage1, order1, handles1 := usage, order, handles;
        ghost var gone := Unheld(order0[..|order0| - |order|], handles0);
        EvictOne();
        OneMore(usage0, capacity, order0, handles0, charge, usage1, order1, handles1, usage, order);
        FreedAfter(freed0, gone, order1[0], handles1[order1[0]] == 0);
        KeptTwice(handles0, handles1, handles);
        AgreeLess(order1, handles0, handles1, handles);
        EmptyRing(next, prev, order);
      }
    }

    lemma EvictStart()
      requires Valid()
      ensures HEAD in next && (next[HEAD] == HEAD <==> order == [])
      ensures AgreeOn(order, handles, handles) && HandlesKept(handles, handles)
    {
      hide Path, Back, TableOk, Total, Ledger;
      EmptyRing(next, prev, order);
      assert forall e :: e in order ==> e in Members(order);
    }

    method EvictOne()
      requires Valid() && HEAD in next && next[HEAD] != HEAD
      modifies this, table
      ensures Valid() && HandlesKept(old(handles), handles) && capacity == old(capacity) && nextId == old(nextId)
      ensures old(order) != [] && order == old(order)[1..] && charge == old(charge)
      ensures table.keys == old(table.keys) && table.contents <= old(table.contents)
      ensures old(order)[0] in old(handles)
      ensures freed == Freed(old(freed), old(order)[0], old(handles)[old(order)[0]] == 0)
      ensures handles == old(handles) || handles == old(handles) - {old(order)[0]}
      ensures old(order)[0] !in order
      ensures usage == old(usage) - Cost(old(handles), charge, old(order)[0])
    {
      hide Ring, Ledger, Accounts, TableOk, Members, Minus, Cost;
      EmptyRing(next, prev, order);
      ghost var contents0 := table.contents;
      var victim := next[HEAD];
      FirstOf(next, prev, order);
      DistinctCached();
      LruRemove(victim);
      var e := table.Remove(table.keys[victim]);
      UnrefCached(victim, contents0);
    }

    /** Insert: a new entry, most recently used, with one handle; it displaces the
        entry with the same key and then evicts until the charge fits. When it fits
        at once, the new entry is cached and only the displaced one has left. */
    method Insert(k: HKey, c: nat) returns (e: Id)
      requires Valid()
      modifies this, table
      ensures Valid() && capacity == old(capacity) && (usage <= capacity || order == [])
      ensures e == old(nextId) && e in handles && handles[e] == 1
      ensures HandlesKept(old(handles), handles) && old(freed) <= freed
      ensures OnlyHolder(old(table.contents), table.keys, table.contents, e, k)
      ensures charge == old(charge)[e := c]
      ensures
        var d := Holder(old(table.contents), old(table.keys), k);
        var admitted, total := Minus(old(order), d) + [e], old(usage) + c - Cost(old(handles), old(charge), d);
        && total >= 0 && Evicts(total, capacity, admitted, old(handles)[e := 1], charge, usage, order)
        && (total <= capacity ==>
              order == admitted && usage == total && table.contents == old(table.contents) - {d} + {e})
    {
      hide Ring, Ledger, Accounts, TableOk, Members, UsageAfter, Cost, AgreeOn, Holder, Minus, HandlesKept, Unheld, Evicting;
      ghost var d := Holder(table.contents, table.keys, k);
      ghost var was := handles;
      e := Admit(k, c);
      ghost var usage1, order1, handles1 := usage, order, handles;
      Evict();
      KeptTwice(old(handles), handles1, handles);
      KeptAt(handles1, handles, e);
      EvictsThere(usage1, capacity, order1, handles1, was[e := 1], charge, usage, order);
    }

    /** Insert, before the eviction loop. */
    method Admit(k: HKey, c: nat) returns (e: Id)
      requires Valid()
      modifies this, table
      ensures Valid() && capacity == old(capacity)
      ensures e == old(nextId) && e in handles && handles[e] == 1
      ensures HandlesKept(old(handles), handles) && old(freed) <= freed
      ensures OnlyHolder(old(table.contents), table.keys, table.contents, e, k)
      ensures charge == old(charge)[e := c] && AgreeOn(order, handles, old(handles)[e := 1])
      ensures
        var d := Holder(old(table.contents), old(table.keys), k);
        && order == Minus(old(order), d) + [e] && table.contents == old(table.contents) - {d} + {e}
        && usage == old(usage) + c - Cost(old(handles), old(charge), d)
    {
      hide TableOk, Members, Core, HandlesKept, OnlyHolder, Minus, AgreeOn, Holder, Cost, OneKeyEach;
      DistinctCached();
      NewId();
      NotCached(order, handles);
      KeptNew(handles, nextId);
      ghost var d := Holder(table.contents, table.keys, k);
      CostNew(handles, charge, d, nextId, c);
      e := Allocate(c, table.contents);
      ghost var handles1 := handles;
      MinusAppend(old(order), e, d);
      Publish(e, k, table.contents);
      KeptTwice(old(handles), handles1, handles);
      KeptAt(handles1, handles, e);
      OrderAgrees(handles1, d);
    }

    lemma OrderAgrees(handles1: map<Id, nat>, d: Id)
      requires Valid() && (handles == handles1 || handles == handles1 - {d})
      ensures AgreeOn(order, handles, handles1)
    {
      hide Path, Back, TableOk, Total, Ledger;
      assert forall x :: x in order ==> x in Members(order);
    }

    /** Puts a new entry into the table and drops the one it displaces. */
    method Publish(e: Id, k: HKey, ghost cached: set<Id>)
      requires table.Valid() && table.contents == cached && OneKeyEach(cached, table.keys) && NIL !in cached
      requires Core(cached + {e}) && Members(order) == cached + {e}
      requires e !in cached && e != NIL && e !in table.keys && e < nextId && forall id :: id in table.keys ==> id < nextId
      modifies this, table
      ensures Valid() && HandlesKept(old(handles), handles) && old(freed) <= freed
      ensures capacity == old(capacity) && OnlyHolder(cached, table.keys, table.contents, e, k)
      ensures charge == old(charge) && table.contents == cached - {Holder(cached, old(table.keys), k)} + {e}
      ensures LeftOne(
        Holder(cached, old(table.keys), k), old(order), old(handles), old(usage), charge, order, handles, usage)
    {
      hide TableOk, Members, Core, HandlesKept, OnlyHolder, Minus, Holder, Cost, OneKeyEach;
      var replaced := Exchange(e, k, cached);
      if replaced != NIL {
        Drop(replaced, cached + {e});
      } else {
        KeptSame(handles);
      }
    }

    /** The hash table's part of an insertion. */
    method Exchange(e: Id, k: HKey, ghost cached: set<Id>) returns (replaced: Id)
      requires table.Valid() && table.contents == cached && OneKeyEach(cached, table.keys) && NIL !in cached
      requires e !in cached && e != NIL && e !in table.keys && e < nextId && forall id :: id in table.keys ==> id < nextId
      modifies table
      ensures table.Valid() && forall id :: id in table.keys ==> id < nextId
      ensures replaced == Holder(cached, old(table.keys), k)
      ensures table.contents == cached - {replaced} + {e}
      ensures if replaced != NIL then replaced in cached + {e} && table.contents == cached + {e} - {replaced}
              else table.contents == cached + {e}
      ensures OnlyHolder(cached, table.keys, table.contents, e, k)
    {
      hide TableOk, OnlyHolder, Holder, OneKeyEach;
      ghost var keys0 := table.keys;
      replaced := table.Insert(e, k);
      NewHolder(cached, keys0, e, k, replaced, table.contents);
      HolderIs(cached, keys0, k, replaced);
      Swapped(cached, e, replaced);
    }

    /** LRU_Remove and Unref of a displaced entry. */
    method Drop(e: Id, ghost cached: set<Id>)
      requires Core(cached) && Members(order) == cached && e in cached
      modifies this
      ensures Core(cached - {e}) && Members(order) == cached - {e}
      ensures HandlesKept(old(handles), handles) && old(freed) <= freed && capacity == old(capacity) && nextId == old(nextId)
      ensures charge == old(charge) && order == Minus(old(order), e)
      ensures usage == old(usage) - Cost(old(handles), charge, e)
      ensures handles == old(handles) || handles == old(handles) - {e}
    {
      hide Ring, Ledger, Accounts, Members, Minus, Cost;
      InOrder(order, e);
      LruRemove(e);
      UnrefCached(e, cached);
    }

    method Allocate(c: nat, ghost cached: set<Id>) returns (e: Id)
      requires Core(cached) && Members(order) == cached && nextId > HEAD && nextId !in refs && nextId !in order
      modifies this
      ensures e == old(nextId) && nextId == e + 1 && capacity == old(capacity)
      ensures Core(cached + {e}) && Members(order) == cached + {e}
      ensures handles == old(handles)[e := 1] && freed == old(freed)
      ensures order == old(order) + [e] && usage == old(usage) + c && charge == old(charge)[e := c]
    {
      hide Ring, Ledger, Accounts, Members;
      AllocateAccounts(refs, handles, charge, cached, usage, nextId, c);
      LedgerNew(nextId, refs.Keys, freed);
      e := nextId;
      nextId := nextId + 1;
      assert refs[e := 2].Keys == refs.Keys + {e};
      refs, charge, handles := refs[e := 2], charge[e := c], handles[e := 1];
      usage := usage + c;
      AppendedMembers(order, e);
      LruAppend(e);
    }

    /** The next address is not in use. */
    lemma NewId()
      requires Valid()
      ensures nextId > HEAD && nextId !in refs && nextId !in handles && nextId !in order && nextId !in table.contents
      ensures nextId !in table.keys
    {
      hide Ring, Total, TableOk;
      assert nextId !in table.contents;
      assert nextId in order ==> nextId in Members(order);
    }

    /** Lookup: a cached entry becomes the most recently used and gains a handle. */
    method Lookup(k: HKey) returns (e: Id)
      requires Valid()
      modifies this
      ensures Valid() && table.contents == old(table.contents) && usage == old(usage) && freed == old(freed)
      ensures e == NIL ==>
                && order == old(order) && handles == old(handles)
                && forall id :: id in table.contents && id in table.keys ==> table.keys[id] != k
      ensures e != NIL ==>
                && e in table.contents && e in table.keys && table.keys[e] == k
                && e in old(handles) && handles == old(handles)[e := old(handles)[e] + 1]
                && order == Minus(old(order), e) + [e]
    {
      hide Ring, Ledger, Accounts, TableOk, Members, Minus;
      e := table.Lookup(k);
      if e != NIL {
        RefAccounts(refs, handles, charge, table.contents, usage, e);
        refs := refs[e := refs[e] + 1];
        handles := handles[e := handles[e] + 1];
        MoveToEnd(e);
      }
    }
  }

  /** e has key k, and whatever else is cached was cached before under another key. */
  ghost predicate OnlyHolder(contents: set<Id>, keys: map<Id, HKey>, contents': set<Id>, e: Id, k: HKey) {
    && e in keys && keys[e] == k
    && (forall id :: id in contents' && id != e ==> id in contents && id in keys && keys[id] != k)
  }

  lemma NewHolder(contents: set<Id>, keys: map<Id, HKey>, e: Id, k: HKey, replaced: Id, contents': set<Id>)
    requires e !in keys && OneKeyEach(contents, keys)
    requires replaced != NIL ==> replaced in contents && keys[replaced] == k && contents' == contents - {replaced} + {e}
    requires replaced == NIL ==> contents' == contents + {e} && forall id :: id in contents && id in keys ==> keys[id] != k
    ensures OnlyHolder(contents, keys[e := k], contents', e, k)
  {
  }

  /** The entry the table reports is the one cached under the key. */
  lemma HolderIs(contents: set<Id>, keys: map<Id, HKey>, k: HKey, r: Id)
    requires OneKeyEach(contents, keys)
    requires if r != NIL then r in contents && keys[r] == k else forall id :: id in contents && id in keys ==> keys[id] != k
    ensures Holder(contents, keys, k) == r
  {
  }

  lemma Swapped(cached: set<Id>, e: Id, d: Id)
    requires NIL !in cached && e !in cached && (d in cached || d == NIL)
    ensures cached - {d} + {e} == cached + {e} - {d} || d == NIL
    ensures d == NIL ==> cached - {d} == cached
  {
  }

  lemma CostNew(handles: map<Id, nat>, charge: map<Id, nat>, d: Id, e: Id, c: nat)
    ensures d != e ==> Cost(handles[e := 1], charge[e := c], d) == Cost(handles, charge, d)
  {
  }

  /** A handle less on entries that are not in the list changes no eviction. */
  lemma AgreeLess(order: seq<Id>, handles0: map<Id, nat>, handles: map<Id, nat>, handles': map<Id, nat>)
    requires order != [] && AgreeOn(order, handles0, handles) && order[0] !in order[1..]
    requires handles' == handles || handles' == handles - {order[0]}
    ensures AgreeOn(order[1..], handles0, handles')
  {
  }

  lemma {:induction false} UsageSame(
    usage: nat, order: seq<Id>, handles: map<Id, nat>, handles': map<Id, nat>, charge: map<Id, nat>, n: nat)
    requires AgreeOn(order, handles, handles') && n <= |order|
    ensures UsageAfter(usage, order, handles, charge, n) == UsageAfter(usage, order, handles', charge, n)
  {
    if n > 0 {
      UsageSame(usage, order, handles, handles', charge, n - 1);
    }
  }

  lemma EvictsThere(
    usage: nat, capacity: nat, order: seq<Id>, handles: map<Id, nat>, handles': map<Id, nat>, charge: map<Id, nat>,
    usage': nat, order': seq<Id>)
    requires AgreeOn(order, handles, handles') && Evicts(usage, capacity, order, handles, charge, usage', order')
    ensures Evicts(usage, capacity, order, handles', charge, usage', order')
    ensures usage <= capacity ==> order' == order && usage' == usage
  {
    hide UsageAfter, AgreeOn;
    EvictsOnce(usage, capacity, order, handles, charge, usage', order', usage', order');
    forall k: nat | k <= |order|
      ensures UsageAfter(usage, order, handles', charge, k) == UsageAfter(usage, order, handles, charge, k)
    {
      UsageSame(usage, order, handles, handles', charge, k);
    }
  }

  /** d has left the list, if it was in it. */
  ghost predicate LeftOne(
    d: Id, order: seq<Id>, handles: map<Id, nat>, usage: nat, charge: map<Id, nat>,
    order': seq<Id>, handles': map<Id, nat>, usage': nat)
  {
    if d == NIL then order' == order && handles' == handles && usage' == usage
    else
      && order' == Minus(order, d) && usage' == usage - Cost(handles, charge, d)
      && (handles' == handles || handles' == handles - {d})
  }

  lemma KeptSame(a: map<Id, nat>)
    ensures HandlesKept(a, a)
  {
  }

  lemma KeptAt(a: map<Id, nat>, b: map<Id, nat>, e: Id)
    requires HandlesKept(a, b) && e in a && a[e] > 0
    ensures e in b && b[e] == a[e]
  {
  }

  lemma KeptNew(handles: map<Id, nat>, e: Id)
    requires e !in handles
    ensures HandlesKept(handles, handles[e := 1])
  {
  }

  lemma KeptTwice(a: map<Id, nat>, b: map<Id, nat>, c: map<Id, nat>)
    requires HandlesKept(a, b) && HandlesKept(b, c)
    ensures HandlesKept(a, c)
  {
  }

  /** One more handle on a cached entry. */
  lemma RefAccounts(refs: map<Id, nat>, handles: map<Id, nat>, charge: map<Id, nat>, cached: set<Id>, usage: nat, e: Id)
    requires Accounts(refs, handles, charge, cached, usage) && e in cached
    ensures e in refs && e in handles
    ensures Accounts(refs[e := refs[e] + 1], handles[e := handles[e] + 1], charge, cached, usage)
    ensures refs[e := refs[e] + 1].Keys == refs.Keys
  {
    hide Total;
    assert refs[e := refs[e] + 1].Keys == refs.Keys;
  }
}
