/** The live snapshots: a circular doubly linked list in order of creation. */
module SnapshotList {
  import opened Links

  class SnapshotList {
    var next: map<Id, Id>
    var prev: map<Id, Id>
    var number: map<Id, nat>
    var nextId: Id
    ghost var order: seq<Id>

    /** Sequence numbers do not decrease along the list. */
    ghost predicate Valid()
      reads this
    {
      && Ring(next, prev, order) && nextId > HEAD
      && (forall id :: id in order ==> id in number && id < nextId)
      && (forall i, j :: 0 <= i < j < |order| && order[i] in number && order[j] in number ==>
            number[order[i]] <= number[order[j]])
    }

    ghost predicate NoneAbove(n: nat)
      reads this
    {
      forall id :: id in order && id in number ==> number[id] <= n
    }

    constructor ()
      ensures Valid() && order == []
    {
      next, prev := map[HEAD := HEAD], map[HEAD := HEAD];
      number, nextId, order := map[], 1, [];
    }

    /** empty(). */
    method Empty() returns (r: bool)
      requires Valid()
      ensures r <==> order == []
    {
      EmptyRing(next, prev, order);
      r := next[HEAD] == HEAD;
    }

    /** oldest()->number_: no live snapshot is older. */
    method Oldest() returns (n: nat)
      requires Valid() && order != []
      ensures forall id :: id in order && id in number ==> n <= number[id]
      ensures order[0] in number && n == number[order[0]]
    {
      hide Ring;
      FirstOf(next, prev, order);
      var first := next[HEAD];
      assert first in order;
      n := number[first];
      forall id | id in order && id in number
        ensures n <= number[id]
      {
        var i :| 0 <= i < |order| && order[i] == id;
      }
    }

    /** New: snapshots are taken at the last sequence number, which never falls. */
    method New(n: nat) returns (s: Id)
      requires Valid() && NoneAbove(n)
      modifies this
      ensures Valid() && order == old(order) + [s] && s !in old(order) && number == old(number)[s := n]
    {
      hide Ring;
      s := nextId;
      RingAppend(next, prev, order, s);
      nextId := nextId + 1;
      number := number[s := n];
      var p := prev[HEAD];
      next := next[s := HEAD];
      prev := prev[s := p];
      next := next[p := s];
      prev := prev[HEAD := s];
      order := order + [s];
    }

    /** Delete: the others stay, in order. */
    method Delete(s: Id)
      requires Valid() && s in order
      modifies this
      ensures Valid() && number == old(number) && Members(order) == old(Members(order)) - {s}
      ensures exists i :: 0 <= i < |old(order)| && old(order)[i] == s && order == Without(old(order), i)
    {
      hide Path, Back;
      ghost var i :| 0 <= i < |order| && order[i] == s;
      RingRemove(next, prev, order, i);
      WithoutMembers(order, i);
      var n, p := next[s], prev[s];
      next := next[p := n];
      prev := prev[n := p];
      order := Without(order, i);
      StillSorted(old(order), i);
    }

    lemma StillSorted(before: seq<Id>, k: nat)
      requires k < |before| && order == Without(before, k)
      requires forall i, j :: 0 <= i < j < |before| && before[i] in number && before[j] in number ==>
                 number[before[i]] <= number[before[j]]
      ensures forall i, j :: 0 <= i < j < |order| && order[i] in number && order[j] in number ==>
                number[order[i]] <= number[order[j]]
    {
      assert forall j :: 0 <= j < |order| ==> order[j] == before[if j < k then j else j + 1];
    }
  }
}
