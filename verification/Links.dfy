/** Intrusive circular doubly linked lists with a dummy head. */
module Links {

  /** A node's address; NIL is the null pointer. */
  type Id = nat

  const NIL: Id := 0

  ghost predicate NoDup(chain: seq<Id>) {
    forall i, j :: 0 <= i < j < |chain| ==> chain[i] != chain[j]
  }

  /** The list after its i-th member is taken out. */
  ghost function Without(chain: seq<Id>, i: nat): seq<Id> {
    if i < |chain| then chain[..i] + chain[i + 1..] else chain
  }

  lemma WithoutMembers(chain: seq<Id>, i: nat)
    requires NoDup(chain) && i < |chain|
    ensures forall id :: id in Without(chain, i) <==> id in chain && id != chain[i]
  {
    var r := Without(chain, i);
    assert forall j :: 0 <= j < |r| ==> r[j] == if j < i then chain[j] else chain[j + 1];
    assert forall j :: 0 <= j < i ==> r[j] == chain[j];
    assert forall j :: i < j < |chain| ==> r[j - 1] == chain[j];
  }

  /** The list without e, the rest in their order. */
  ghost function Minus(order: seq<Id>, e: Id): seq<Id> {
    if order == [] then []
    else (if order[0] == e then [] else [order[0]]) + Minus(order[1..], e)
  }

  lemma {:induction false} MinusAbsent(order: seq<Id>, e: Id)
    requires e !in order
    ensures Minus(order, e) == order
  {
    if order != [] {
      MinusAbsent(order[1..], e);
    }
  }

  lemma {:induction false} MinusAppend(order: seq<Id>, x: Id, e: Id)
    requires x != e
    ensures Minus(order + [x], e) == Minus(order, e) + [x]
  {
    if order != [] {
      MinusAppend(order[1..], x, e);
      assert (order + [x])[1..] == order[1..] + [x];
    } else {
      assert order + [x] == [x] && [x][1..] == [];
    }
  }

  lemma {:induction false} MinusIsWithout(order: seq<Id>, i: nat)
    requires NoDup(order) && i < |order|
    ensures Minus(order, order[i]) == Without(order, i)
  {
    hide NoDup, Without;
    TailDistinct(order, i);
    if i == 0 {
      MinusAbsent(order[1..], order[0]);
    } else {
      MinusIsWithout(order[1..], i - 1);
    }
    WithoutTail(order, i);
  }

  lemma TailDistinct(order: seq<Id>, i: nat)
    requires NoDup(order) && i < |order|
    ensures NoDup(order[1..]) && order[0] !in order[1..] && (i > 0 ==> order[i] == order[1..][i - 1] && order[i] != order[0])
  {
  }

  lemma WithoutTail(order: seq<Id>, i: nat)
    requires i < |order|
    ensures Without(order, i) == if i == 0 then order[1..] else [order[0]] + Without(order[1..], i - 1)
  {
  }

  ghost function Members(chain: seq<Id>): set<Id> {
    set id | id in chain
  }

  /** The dummy head: next leads to the first node, prev to the last. */
  const HEAD: Id := NIL

  // ----- the circular doubly linked list -----

  /** The list as a walk from the head around and back to the head. */
  ghost function Circle(order: seq<Id>): seq<Id> {
    [HEAD] + order + [HEAD]
  }

  ghost predicate Path(next: map<Id, Id>, r: seq<Id>) {
    forall i :: 0 <= i < |r| - 1 ==> r[i] in next && next[r[i]] == r[i + 1]
  }

  ghost predicate Back(prev: map<Id, Id>, r: seq<Id>) {
    forall i :: 0 < i < |r| ==> r[i] in prev && prev[r[i]] == r[i - 1]
  }

  /** next goes around the circle and prev goes back the same way. */
  ghost predicate Ring(next: map<Id, Id>, prev: map<Id, Id>, order: seq<Id>) {
    NoDup(order) && HEAD !in order && Path(next, Circle(order)) && Back(prev, Circle(order))
  }

  lemma PathRemove(next: map<Id, Id>, r: seq<Id>, k: nat)
    requires Path(next, r) && 0 < k < |r| - 1 && NoDup(r[..|r| - 1])
    ensures Path(next[r[k - 1] := r[k + 1]], Without(r, k))
  {
    var r', next' := Without(r, k), next[r[k - 1] := r[k + 1]];
    var s := r[..|r| - 1];
    assert forall j :: 0 <= j < |r| - 1 ==> s[j] == r[j];
    forall i | 0 <= i < |r'| - 1
      ensures r'[i] in next' && next'[r'[i]] == r'[i + 1]
    {
      if i < k {
        assert r'[i] == r[i] && (i < k - 1 ==> s[i] != s[k - 1]);
      } else {
        assert r'[i] == r[i + 1] && s[i + 1] != s[k - 1];
      }
    }
  }

  lemma BackRemove(prev: map<Id, Id>, r: seq<Id>, k: nat)
    requires Back(prev, r) && 0 < k < |r| - 1 && NoDup(r[1..])
    ensures Back(prev[r[k + 1] := r[k - 1]], Without(r, k))
  {
    var r', prev' := Without(r, k), prev[r[k + 1] := r[k - 1]];
    var s := r[1..];
    assert forall j :: 0 < j < |r| ==> s[j - 1] == r[j];
    forall i | 0 < i < |r'|
      ensures r'[i] in prev' && prev'[r'[i]] == r'[i - 1]
    {
      if i < k {
        assert r'[i] == r[i] && s[i - 1] != s[k];
      } else {
        assert r'[i] == r[i + 1] && (i > k ==> s[i] != s[k]);
      }
    }
  }

  lemma CircleDistinct(order: seq<Id>)
    requires NoDup(order) && HEAD !in order
    ensures var r := Circle(order);
            NoDup(r[..|r| - 1]) && NoDup(r[1..])
  {
    var r := Circle(order);
    assert r[..|r| - 1] == [HEAD] + order && r[1..] == order + [HEAD];
  }

  /** Unlinking a node joins its neighbours. */
  lemma RingRemove(next: map<Id, Id>, prev: map<Id, Id>, order: seq<Id>, i: nat)
    requires Ring(next, prev, order) && i < |order|
    ensures var e := order[i];
            && e in next && e in prev
            && Ring(next[prev[e] := next[e]], prev[next[e] := prev[e]], Without(order, i))
  {
    hide Path, Back;
    var r := Circle(order);
    CircleDistinct(order);
    Neighbours(next, prev, r, i + 1);
    PathRemove(next, r, i + 1);
    BackRemove(prev, r, i + 1);
    assert Without(r, i + 1) == Circle(Without(order, i));
    WithoutMembers(order, i);
    WithoutNoDup(order, i);
  }

  lemma Neighbours(next: map<Id, Id>, prev: map<Id, Id>, r: seq<Id>, k: nat)
    requires Path(next, r) && Back(prev, r) && 0 < k < |r| - 1
    ensures r[k] in next && r[k] in prev && next[r[k]] == r[k + 1] && prev[r[k]] == r[k - 1]
  {
  }

  lemma WithoutNoDup(order: seq<Id>, i: nat)
    requires NoDup(order) && i < |order|
    ensures NoDup(Without(order, i))
  {
    var r := Without(order, i);
    assert forall j :: 0 <= j < |r| ==> r[j] == if j < i then order[j] else order[j + 1];
  }

  /** Linking a node just before the head makes it the last. */
  lemma RingAppend(next: map<Id, Id>, prev: map<Id, Id>, order: seq<Id>, e: Id)
    requires Ring(next, prev, order) && e != HEAD && e !in order
    ensures HEAD in prev
    ensures var p := prev[HEAD];
            Ring(next[e := HEAD][p := e], prev[e := p][HEAD := e], order + [e])
  {
    var r := Circle(order);
    var n := |r| - 1;
    assert prev[r[n]] == r[n - 1];
    CircleDistinct(order);
    PathAppend(next, r, e);
    BackAppend(prev, r, e);
    assert r[..n] + [e, HEAD] == Circle(order + [e]);
  }

  lemma PathAppend(next: map<Id, Id>, r: seq<Id>, e: Id)
    requires |r| >= 2 && Path(next, r) && NoDup(r[..|r| - 1]) && e !in r && r[|r| - 1] == HEAD
    ensures Path(next[e := HEAD][r[|r| - 2] := e], r[..|r| - 1] + [e, HEAD])
  {
    var n := |r| - 1;
    var r', next' := r[..n] + [e, HEAD], next[e := HEAD][r[n - 1] := e];
    var s := r[..n];
    forall i | 0 <= i < |r'| - 1
      ensures r'[i] in next' && next'[r'[i]] == r'[i + 1]
    {
      if i < n {
        assert r'[i] == s[i] == r[i] && (i < n - 1 ==> s[i] != s[n - 1]);
      } else {
        assert r'[i] == e && r[n - 1] in r;
      }
    }
  }

  lemma BackAppend(prev: map<Id, Id>, r: seq<Id>, e: Id)
    requires |r| >= 2 && Back(prev, r) && NoDup(r[1..]) && e !in r && r[|r| - 1] == HEAD
    ensures Back(prev[e := r[|r| - 2]][HEAD := e], r[..|r| - 1] + [e, HEAD])
  {
    var n := |r| - 1;
    var r', prev' := r[..n] + [e, HEAD], prev[e := r[n - 1]][HEAD := e];
    var s := r[1..];
    forall i | 0 < i < |r'|
      ensures r'[i] in prev' && prev'[r'[i]] == r'[i - 1]
    {
      if i < n {
        assert r'[i] == r[i] == s[i - 1] && s[i - 1] != s[n - 1] == HEAD;
      } else if i == n {
        assert r'[i] == e && r[n] in r;
      }
    }
  }

  lemma AppendedMembers(order: seq<Id>, e: Id)
    ensures Members(order + [e]) == Members(order) + {e}
  {
  }

  lemma InOrder(order: seq<Id>, e: Id)
    requires e in Members(order)
    ensures e in order
  {
  }

  lemma EmptyRing(next: map<Id, Id>, prev: map<Id, Id>, order: seq<Id>)
    requires Ring(next, prev, order)
    ensures HEAD in next && (next[HEAD] == HEAD <==> order == [])
  {
    var r := Circle(order);
    assert r[0] == HEAD && next[r[0]] == r[1];
    assert order != [] ==> r[1] == order[0] && order[0] in order;
  }

  lemma FirstOf(next: map<Id, Id>, prev: map<Id, Id>, order: seq<Id>)
    requires Ring(next, prev, order) && order != []
    ensures HEAD in next && next[HEAD] == order[0] && order[0] in Members(order)
  {
    var r := Circle(order);
    assert r[0] == HEAD && next[r[0]] == r[1] == order[0];
  }
}
