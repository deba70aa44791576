/** The skip list under one writer and a lock-free reader. Insertion is taken one
    pointer store at a time, with a reader's loads anywhere in between. */
module SkipList {
  import opened InternalKeys

  /** kMaxHeight. */
  const MAX_HEIGHT: nat := 12

  type Node = nat

  const HEAD: Node := 0

  /** The shared memory. `next` holds the links that have been stored; a missing
      one is uninitialised. `order` is an auxiliary record of the nodes linked at
      each level, head first: no step reads it. */
  datatype Mem = Mem(
    key: map<Node, UserKey>,
    next: map<(Node, nat), Option<Node>>,
    maxHeight: nat,
    order: seq<seq<Node>>)

  /** Where an insertion is: after its search, after raising the height, or linking
      level i of the new node x, whose own link at i may already be stored. */
  datatype Writer =
    | Idle
    | Found(k: UserKey, height: nat, prev: seq<Node>)
    | Raised(k: UserKey, height: nat, prev: seq<Node>)
    | Linking(x: Node, height: nat, prev: seq<Node>, i: nat, stored: bool)

  /** FindGreaterOrEqual, FindLessThan (Iterator::Prev) or FindLast (SeekToLast). */
  datatype Search = AtOrAfter(k: UserKey) | LessThan(k: UserKey) | Last

  /** The search walks past a node with this key. */
  predicate Passes(want: Search, key: UserKey) {
    want.Last? || key < want.k
  }

  /** A search between two loads. A result None is the null pointer or the head. */
  datatype Reader =
    | NotStarted
    | Searching(want: Search, x: Node, level: nat)
    | Done(want: Search, result: Option<Node>)

  datatype Sys = Sys(m: Mem, w: Writer, r: Reader)

  datatype Step =
    | Begin(k: UserKey, height: nat, prev: seq<Node>)
    | RaiseHeight
    | Allocate(x: Node)
    | SetNext
    | Publish(at: nat)
    | Start(want: Search)
    | Load

  // ----- the linked lists -----

  ghost predicate Linked(m: Mem, l: nat, j: nat)
    requires l < |m.order| && j < |m.order[l]|
  {
    var o := m.order[l];
    (o[j], l) in m.next && m.next[(o[j], l)] == if j + 1 < |o| then Some(o[j + 1]) else None
  }

  /** Level l is a chain from the head, strictly sorted. */
  ghost predicate LevelOk(m: Mem, l: nat)
    requires l < |m.order|
  {
    var o := m.order[l];
    && |o| > 0 && o[0] == HEAD
    && (forall j :: 0 < j < |o| ==> o[j] != HEAD && o[j] in m.key)
    && (forall i, j :: 0 < i < j < |o| ==> m.key[o[i]] < m.key[o[j]])
    && (forall j :: 0 <= j < |o| ==> Linked(m, l, j))
  }

  ghost predicate Contained(m: Mem, l: nat)
    requires l + 1 < |m.order|
  {
    forall n :: n in m.order[l + 1] ==> n in m.order[l]
  }

  ghost predicate ListsOk(m: Mem) {
    && |m.order| == MAX_HEIGHT
    && 1 <= m.maxHeight <= MAX_HEIGHT
    && (forall l :: 0 <= l < MAX_HEIGHT ==> LevelOk(m, l))
    && (forall l :: 0 <= l < MAX_HEIGHT - 1 ==> Contained(m, l))
    && (forall l :: m.maxHeight <= l < MAX_HEIGHT ==> m.order[l] == [HEAD])
    && HEAD !in m.key
  }

  /** Node j of level l is the last one before k. */
  ghost predicate LastBefore(m: Mem, l: nat, j: nat, k: UserKey)
    requires l < |m.order| && LevelOk(m, l)
  {
    var o := m.order[l];
    && j < |o|
    && (j > 0 ==> m.key[o[j]] < k)
    && (j + 1 < |o| ==> k < m.key[o[j + 1]])
  }

  ghost predicate PrevOk(m: Mem, l: nat, p: Node, k: UserKey)
    requires l < |m.order| && LevelOk(m, l)
  {
    exists j: nat :: LastBefore(m, l, j, k) && m.order[l][j] == p
  }

  /** r is the first node at or after k among those linked at level 0. */
  ghost predicate FirstAtOrAfter(m: Mem, k: UserKey, r: Option<Node>)
    requires |m.order| > 0 && LevelOk(m, 0)
  {
    && (r.Some? ==> r.value != HEAD && r.value in m.order[0] && r.value in m.key && m.key[r.value] >= k)
    && forall n :: n in m.order[0] && n != HEAD && m.key[n] >= k ==> r.Some? && m.key[r.value] <= m.key[n]
  }

  /** r is the last node that the search walks past among those linked at level 0. */
  ghost predicate LastPassing(m: Mem, want: Search, r: Option<Node>)
    requires |m.order| > 0
  {
    && (r.Some? ==> r.value != HEAD && r.value in m.order[0] && r.value in m.key && Passes(want, m.key[r.value]))
    && forall n :: n in m.order[0] && n != HEAD && n in m.key && Passes(want, m.key[n]) ==>
         r.Some? && m.key[n] <= m.key[r.value]
  }

  /** The answer that the lists at this moment give. */
  ghost predicate Right(m: Mem, want: Search, r: Option<Node>)
    requires |m.order| > 0 && LevelOk(m, 0)
  {
    if want.AtOrAfter? then FirstAtOrAfter(m, want.k, r) else LastPassing(m, want, r)
  }

  // ----- the steps -----

  /** The search of Insert. The writer is the only one to store, so its search is
      one step; the lists it walks are sound (shown below). */
  ghost predicate BeginStep(s: Sys, k: UserKey, height: nat, prev: seq<Node>, s': Sys) {
    && ListsOk(s.m)
    && s.w.Idle?
    && 1 <= height <= MAX_HEIGHT && |prev| == height
    && (forall n :: n in s.m.key ==> s.m.key[n] != k)
    && (forall l :: 0 <= l < height ==> PrevOk(s.m, l, prev[l], k))
    && s' == s.(w := Found(k, height, prev))
  }

  ghost predicate RaiseStep(s: Sys, s': Sys) {
    && s.w.Found?
    && var m' := if s.w.height > s.m.maxHeight then s.m.(maxHeight := s.w.height) else s.m;
       s' == s.(m := m', w := Raised(s.w.k, s.w.height, s.w.prev))
  }

  ghost predicate AllocateStep(s: Sys, x: Node, s': Sys) {
    && s.w.Raised? && x != HEAD && x !in s.m.key
    && (forall l :: (x, l) !in s.m.next)
    && s' == s.(m := s.m.(key := s.m.key[x := s.w.k]), w := Linking(x, s.w.height, s.w.prev, 0, false))
  }

  /** x->next[i] takes the link of prev[i]. */
  ghost predicate SetNextStep(s: Sys, s': Sys) {
    && s.w.Linking? && !s.w.stored && s.w.i < |s.w.prev|
    && (s.w.prev[s.w.i], s.w.i) in s.m.next
    && s' == s.(
      m := s.m.(next := s.m.next[(s.w.x, s.w.i) := s.m.next[(s.w.prev[s.w.i], s.w.i)]]),
      w := s.w.(stored := true))
  }

  /** prev[i]->next[i] takes x; `at` is where x thereby enters the list. */
  ghost predicate PublishStep(s: Sys, at: nat, s': Sys) {
    && s.w.Linking? && s.w.stored && s.w.i < |s.w.prev| && s.w.i < |s.m.order|
    && var o := s.m.order[s.w.i];
       && at < |o| && o[at] == s.w.prev[s.w.i]
       && s' == s.(
         m := Published(s.m, s.w.i, at, s.w.x),
         w := if s.w.i + 1 == s.w.height then Idle else s.w.(i := s.w.i + 1, stored := false))
  }

  function Published(m: Mem, l: nat, at: nat, x: Node): Mem
    requires l < |m.order| && at < |m.order[l]|
  {
    var o := m.order[l];
    m.(next := m.next[(o[at], l) := Some(x)], order := m.order[l := o[..at + 1] + [x] + o[at + 1..]])
  }

  ghost predicate StartStep(s: Sys, want: Search, s': Sys) {
    !s.r.Searching? && s.m.maxHeight > 0 && s' == s.(r := Searching(want, HEAD, s.m.maxHeight - 1))
  }

  /** One load of x->next[level] and what the search does with it. */
  ghost predicate LoadStep(s: Sys, s': Sys) {
    && s.r.Searching?
    && (s.r.x, s.r.level) in s.m.next
    && var n := s.m.next[(s.r.x, s.r.level)];
       if n.Some? && n.value in s.m.key && Passes(s.r.want, s.m.key[n.value]) then s' == s.(r := s.r.(x := n.value))
       else if s.r.level == 0 then s' == s.(r := Done(s.r.want, Result(s.r.want, s.r.x, n)))
       else s' == s.(r := s.r.(level := s.r.level - 1))
  }

  /** Forward the node found, backward the one the search stands on. */
  function Result(want: Search, x: Node, n: Option<Node>): Option<Node> {
    if want.AtOrAfter? then n else if x == HEAD then None else Some(x)
  }

  ghost predicate Next(s: Sys, step: Step, s': Sys) {
    match step
    case Begin(k, h, prev) => BeginStep(s, k, h, prev, s')
    case RaiseHeight => RaiseStep(s, s')
    case Allocate(x) => AllocateStep(s, x, s')
    case SetNext => SetNextStep(s, s')
    case Publish(at) => PublishStep(s, at, s')
    case Start(want) => StartStep(s, want, s')
    case Load => LoadStep(s, s')
  }

  // ----- the invariant -----

  /** Both links are stored and equal. */
  ghost predicate SameLink(m: Mem, l: nat, x: Node, p: Node) {
    (x, l) in m.next && (p, l) in m.next && m.next[(x, l)] == m.next[(p, l)]
  }

  ghost predicate WriterInv(m: Mem, w: Writer)
    requires ListsOk(m)
  {
    match w
    case Idle => true
    case Found(k, h, prev) =>
      && 1 <= h <= MAX_HEIGHT && |prev| == h
      && forall l :: 0 <= l < h ==> PrevOk(m, l, prev[l], k)
    case Raised(k, h, prev) =>
      && 1 <= h <= m.maxHeight && |prev| == h
      && forall l :: 0 <= l < h ==> PrevOk(m, l, prev[l], k)
    case Linking(x, h, prev, i, stored) =>
      && 1 <= h <= m.maxHeight && |prev| == h && i < h
      && x != HEAD && x in m.key
      && (forall l :: i <= l < h ==> PrevOk(m, l, prev[l], m.key[x]))
      && (forall l :: 0 <= l < i ==> x in m.order[l])
      && (forall l :: i <= l < MAX_HEIGHT ==> x !in m.order[l])
      && (stored ==> SameLink(m, i, x, prev[i]))
  }

  /** The reader stands on a node that is linked at its level and before its key. */
  ghost predicate ReaderInv(m: Mem, r: Reader)
    requires ListsOk(m)
  {
    r.Searching? ==>
      && r.level < MAX_HEIGHT
      && r.x in m.order[r.level]
      && (r.x == HEAD || (r.x in m.key && Passes(r.want, m.key[r.x])))
  }

  ghost predicate Inv(s: Sys) {
    ListsOk(s.m) && WriterInv(s.m, s.w) && ReaderInv(s.m, s.r)
  }

  /** No reader ever follows an uninitialised link. */
  lemma LoadIsInitialised(s: Sys)
    requires Inv(s) && s.r.Searching?
    ensures (s.r.x, s.r.level) in s.m.next
  {
    var o := s.m.order[s.r.level];
    assert LevelOk(s.m, s.r.level);
    var j :| 0 <= j < |o| && o[j] == s.r.x;
    assert Linked(s.m, s.r.level, j);
  }

  /** The link read is to the successor in the list of that level. */
  lemma LoadReadsSuccessor(s: Sys) returns (j: nat)
    requires Inv(s) && s.r.Searching?
    ensures LevelOk(s.m, s.r.level) && j < |s.m.order[s.r.level]| && s.m.order[s.r.level][j] == s.r.x
    ensures (s.r.x, s.r.level) in s.m.next
    ensures s.m.next[(s.r.x, s.r.level)] ==
      if j + 1 < |s.m.order[s.r.level]| then Some(s.m.order[s.r.level][j + 1]) else None
  {
    var o := s.m.order[s.r.level];
    assert LevelOk(s.m, s.r.level);
    j :| 0 <= j < |o| && o[j] == s.r.x;
    assert Linked(s.m, s.r.level, j);
  }

  lemma LoadKeepsInv(s: Sys, s': Sys)
    requires Inv(s) && LoadStep(s, s')
    ensures Inv(s')
    ensures s'.r.Done? ==> Right(s.m, s'.r.want, s'.r.result)
  {
    var j := LoadReadsSuccessor(s);
    if s'.r.Done? && s.r.want.AtOrAfter? {
      SuccessorIsFirst(s.m, s.r.want.k, j, s'.r.result);
    } else if s'.r.Done? {
      StandsOnLast(s.m, s.r.want, j, s'.r.result);
    } else if s'.r.level != s.r.level {
      assert Contained(s.m, s'.r.level);
    }
  }

  /** A load that does not end the search takes it to a later node of its level, or
      down one level on the node it stands on. */
  lemma LoadAdvances(s: Sys, s': Sys)
    requires Inv(s) && LoadStep(s, s') && s'.r.Searching?
    ensures s'.r.want == s.r.want
    ensures
      || (s'.r.level + 1 == s.r.level && s'.r.x == s.r.x)
      || (s'.r.level == s.r.level && s'.r.x in s.m.order[s.r.level] && s'.r.x in s.m.key
          && (s.r.x == HEAD || (s.r.x in s.m.key && s.m.key[s.r.x] < s.m.key[s'.r.x])))
  {
    var j := LoadReadsSuccessor(s);
    hide Linked, WriterInv, ListsOk;
  }

  lemma SuccessorIsFirst(m: Mem, k: UserKey, j: nat, r: Option<Node>)
    requires |m.order| > 0 && LevelOk(m, 0) && j < |m.order[0]|
    requires r == if j + 1 < |m.order[0]| then Some(m.order[0][j + 1]) else None
    requires j > 0 ==> m.key[m.order[0][j]] < k
    requires r.Some? ==> m.key[r.value] >= k
    ensures FirstAtOrAfter(m, k, r)
  {
    var o := m.order[0];
    forall n | n in o && n != HEAD && m.key[n] >= k
      ensures r.Some? && m.key[r.value] <= m.key[n]
    {
      var i :| 0 <= i < |o| && o[i] == n;
      assert j < i;
    }
  }

  lemma StandsOnLast(m: Mem, want: Search, j: nat, r: Option<Node>)
    requires |m.order| > 0 && LevelOk(m, 0) && j < |m.order[0]|
    requires j > 0 ==> Passes(want, m.key[m.order[0][j]])
    requires j + 1 < |m.order[0]| ==> !Passes(want, m.key[m.order[0][j + 1]])
    requires r == if m.order[0][j] == HEAD then None else Some(m.order[0][j])
    ensures LastPassing(m, want, r)
  {
    var o := m.order[0];
    forall n | n in o && n != HEAD && n in m.key && Passes(want, m.key[n])
      ensures r.Some? && m.key[n] <= m.key[r.value]
    {
      var i :| 0 <= i < |o| && o[i] == n;
      assert i <= j;
    }
  }

  // ----- the writer -----

  lemma SameNode(m: Mem, l: nat, i: nat, j: nat)
    requires l < |m.order| && LevelOk(m, l) && i < |m.order[l]| && j < |m.order[l]|
    ensures m.order[l][i] == m.order[l][j] ==> i == j
  {
  }

  /** The level being linked stays a sorted chain. */
  lemma PublishLevel(m: Mem, l: nat, at: nat, x: Node)
    requires l < |m.order| && LevelOk(m, l) && x in m.key && LastBefore(m, l, at, m.key[x])
    requires x != HEAD && x !in m.order[l] && HEAD !in m.key
    requires SameLink(m, l, x, m.order[l][at])
    ensures LevelOk(Published(m, l, at, x), l)
  {
    var o := m.order[l];
    var m' := Published(m, l, at, x);
    var p := m'.order[l];
    assert forall j :: 0 <= j <= at ==> p[j] == o[j];
    assert p[at + 1] == x;
    assert forall j :: at + 1 < j < |p| ==> p[j] == o[j - 1];
    PublishSorted(m, l, at, x);
    forall j | 0 <= j < |p|
      ensures Linked(m', l, j)
    {
      PublishLink(m, l, at, x, j);
    }
  }

  lemma PublishSorted(m: Mem, l: nat, at: nat, x: Node)
    requires l < |m.order| && LevelOk(m, l) && x in m.key && LastBefore(m, l, at, m.key[x])
    ensures
      var p := Published(m, l, at, x).order[l];
      forall i, j :: 0 < i < j < |p| ==> p[i] in m.key && p[j] in m.key && m.key[p[i]] < m.key[p[j]]
  {
    var o := m.order[l];
    var p := Published(m, l, at, x).order[l];
    forall i, j | 0 < i < j < |p|
      ensures p[i] in m.key && p[j] in m.key && m.key[p[i]] < m.key[p[j]]
    {
      assert p[i] == if i <= at then o[i] else if i == at + 1 then x else o[i - 1];
      assert p[j] == if j <= at then o[j] else if j == at + 1 then x else o[j - 1];
      assert i < at ==> m.key[o[i]] < m.key[o[at]];
      assert j > at + 2 ==> m.key[o[at + 1]] < m.key[o[j - 1]];
    }
  }

  lemma PublishLink(m: Mem, l: nat, at: nat, x: Node, j: nat)
    requires l < |m.order| && LevelOk(m, l) && at < |m.order[l]|
    requires x !in m.order[l]
    requires SameLink(m, l, x, m.order[l][at])
    requires j < |m.order[l]| + 1
    ensures Linked(Published(m, l, at, x), l, j)
  {
    var o := m.order[l];
    var p := Published(m, l, at, x).order[l];
    if j < at {
      assert p[j] == o[j] && p[j + 1] == o[j + 1] && Linked(m, l, j);
      SameNode(m, l, j, at);
    } else if j == at {
      assert p[j] == o[at] && p[j + 1] == x;
    } else if j == at + 1 {
      assert p[j] == x && Linked(m, l, at);
    } else {
      assert p[j] == o[j - 1] && Linked(m, l, j - 1);
      SameNode(m, l, j - 1, at);
    }
  }

  /** Other levels do not notice. */
  lemma PublishOtherLevel(m: Mem, l: nat, at: nat, x: Node, k: nat)
    requires l < |m.order| && at < |m.order[l]| && k < |m.order| && k != l && LevelOk(m, k)
    ensures LevelOk(Published(m, l, at, x), k)
  {
    var m' := Published(m, l, at, x);
    assert m'.order[k] == m.order[k];
    forall j | 0 <= j < |m.order[k]|
      ensures Linked(m', k, j)
    {
      assert Linked(m, k, j);
    }
  }

  lemma AtInRange(m: Mem, l: nat, at: nat, k: UserKey)
    requires l < |m.order| && LevelOk(m, l) && LastBefore(m, l, at, k)
    ensures at < |m.order[l]|
  {
  }

  lemma PublishKeepsLists(m: Mem, l: nat, at: nat, x: Node)
    requires ListsOk(m) && l < m.maxHeight && x in m.key && LastBefore(m, l, at, m.key[x])
    requires x != HEAD && x !in m.order[l]
    requires l > 0 ==> x in m.order[l - 1]
    requires SameLink(m, l, x, m.order[l][at])
    ensures ListsOk(Published(m, l, at, x))
  {
    AtInRange(m, l, at, m.key[x]);
    hide LevelOk, LastBefore;
    var m' := Published(m, l, at, x);
    PublishLevel(m, l, at, x);
    forall k | 0 <= k < MAX_HEIGHT && k != l
      ensures LevelOk(m', k)
    {
      PublishOtherLevel(m, l, at, x, k);
    }
    forall k | 0 <= k < MAX_HEIGHT - 1
      ensures Contained(m', k)
    {
      PublishContained(m, l, at, x, k);
    }
  }

  lemma PublishContained(m: Mem, l: nat, at: nat, x: Node, k: nat)
    requires l < |m.order| && at < |m.order[l]| && k + 1 < |m.order| && Contained(m, k)
    requires l > 0 ==> x in m.order[l - 1]
    ensures Contained(Published(m, l, at, x), k)
  {
    var o := m.order[l];
    var m' := Published(m, l, at, x);
    assert o == o[..at + 1] + o[at + 1..];
    forall n | n in m'.order[k + 1]
      ensures n in m'.order[k]
    {
      if n != x || k + 1 != l {
        assert n in m.order[k + 1];
        assert n in m.order[k];
      }
    }
  }

  // ----- each store keeps the invariant -----

  lemma RaiseKeepsInv(s: Sys, s': Sys)
    requires Inv(s) && RaiseStep(s, s')
    ensures Inv(s')
  {
    forall l | 0 <= l < MAX_HEIGHT
      ensures LevelOk(s'.m, l)
    {
      SameLinksLevel(s.m, s'.m, l);
    }
    forall l | 0 <= l < MAX_HEIGHT - 1
      ensures Contained(s'.m, l)
    {
      assert Contained(s.m, l);
    }
    forall l | 0 <= l < s.w.height
      ensures PrevOk(s'.m, l, s.w.prev[l], s.w.k)
    {
      SameOrderPrev(s.m, s'.m, l, s.w.prev[l], s.w.k);
    }
  }

  /** A level whose nodes, keys and links are kept is still a sorted chain. */
  lemma SameLinksLevel(m: Mem, m': Mem, l: nat)
    requires l < |m.order| && LevelOk(m, l) && m'.order == m.order
    requires forall n :: n in m.key ==> n in m'.key && m'.key[n] == m.key[n]
    requires forall j :: 0 <= j < |m.order[l]| ==> (m.order[l][j], l) in m.next ==>
      (m.order[l][j], l) in m'.next && m'.next[(m.order[l][j], l)] == m.next[(m.order[l][j], l)]
    ensures LevelOk(m', l)
  {
    forall j | 0 <= j < |m.order[l]|
      ensures Linked(m', l, j)
    {
      assert Linked(m, l, j);
    }
  }

  lemma SameOrderPrev(m: Mem, m': Mem, l: nat, p: Node, k: UserKey)
    requires l < |m.order| && LevelOk(m, l) && PrevOk(m, l, p, k)
    requires m'.order == m.order && LevelOk(m', l)
    requires forall n :: n in m.key ==> n in m'.key && m'.key[n] == m.key[n]
    ensures PrevOk(m', l, p, k)
  {
    var j: nat :| LastBefore(m, l, j, k) && m.order[l][j] == p;
    assert LastBefore(m', l, j, k);
  }

  lemma AllocateKeepsInv(s: Sys, x: Node, s': Sys)
    requires Inv(s) && AllocateStep(s, x, s')
    ensures Inv(s')
  {
    forall l | 0 <= l < MAX_HEIGHT
      ensures LevelOk(s'.m, l) && x !in s'.m.order[l]
    {
      SameLinksLevel(s.m, s'.m, l);
      assert LevelOk(s.m, l);
    }
    forall l | 0 <= l < MAX_HEIGHT - 1
      ensures Contained(s'.m, l)
    {
      assert Contained(s.m, l);
    }
    forall l | 0 <= l < s.w.height
      ensures PrevOk(s'.m, l, s.w.prev[l], s.w.k)
    {
      SameOrderPrev(s.m, s'.m, l, s.w.prev[l], s.w.k);
    }
  }

  lemma SetNextKeepsInv(s: Sys, s': Sys)
    requires Inv(s) && SetNextStep(s, s')
    ensures Inv(s')
  {
    forall l | 0 <= l < MAX_HEIGHT
      ensures LevelOk(s'.m, l)
    {
      if l < s.w.i {
        assert LevelOk(s.m, l);
      }
      SameLinksLevel(s.m, s'.m, l);
    }
    forall l | 0 <= l < MAX_HEIGHT - 1
      ensures Contained(s'.m, l)
    {
      assert Contained(s.m, l);
    }
    forall l | s.w.i <= l < s.w.height
      ensures PrevOk(s'.m, l, s.w.prev[l], s'.m.key[s.w.x])
    {
      SameOrderPrev(s.m, s'.m, l, s.w.prev[l], s.m.key[s.w.x]);
    }
  }

  lemma PublishKeepsInv(s: Sys, at: nat, s': Sys)
    requires Inv(s) && PublishStep(s, at, s')
    ensures Inv(s')
  {
    var x, i := s.w.x, s.w.i;
    PublishAt(s, at);
    PublishKeepsLists(s.m, i, at, x);
    if i + 1 < s.w.height {
      forall l | i + 1 <= l < s.w.height
        ensures PrevOk(s'.m, l, s.w.prev[l], s.m.key[x])
      {
        OtherLevelPrev(s.m, s'.m, l, s.w.prev[l], s.m.key[x]);
      }
    }
    PublishAdds(s.m, i, at, x);
  }

  /** `at` is the position the search found. */
  lemma PublishAt(s: Sys, at: nat)
    requires Inv(s) && s.w.Linking? && s.w.stored
    requires at < |s.m.order[s.w.i]| && s.m.order[s.w.i][at] == s.w.prev[s.w.i]
    ensures LastBefore(s.m, s.w.i, at, s.m.key[s.w.x])
  {
    assert PrevOk(s.m, s.w.i, s.w.prev[s.w.i], s.m.key[s.w.x]);
    var j: nat :| LastBefore(s.m, s.w.i, j, s.m.key[s.w.x]) && s.m.order[s.w.i][j] == s.w.prev[s.w.i];
    SameNode(s.m, s.w.i, j, at);
  }

  lemma OtherLevelPrev(m: Mem, m': Mem, l: nat, p: Node, k: UserKey)
    requires l < |m.order| == |m'.order| && LevelOk(m, l) && PrevOk(m, l, p, k)
    requires m'.order[l] == m.order[l] && LevelOk(m', l) && m'.key == m.key
    ensures PrevOk(m', l, p, k)
  {
    var j: nat :| LastBefore(m, l, j, k) && m.order[l][j] == p;
    assert LastBefore(m', l, j, k);
  }

  /** Linking only adds x, and only to its level. */
  lemma PublishAdds(m: Mem, l: nat, at: nat, x: Node)
    requires l < |m.order| && at < |m.order[l]|
    ensures forall k, n :: 0 <= k < |m.order| ==>
      (n in Published(m, l, at, x).order[k] <==> n in m.order[k] || (k == l && n == x))
  {
    var o := m.order[l];
    assert o == o[..at + 1] + o[at + 1..];
  }

  /** Whatever thread moves, the invariant is kept. */
  lemma NextKeepsInv(s: Sys, step: Step, s': Sys)
    requires Inv(s) && Next(s, step, s')
    ensures Inv(s')
  {
    match step
    case Begin(k, h, prev) =>
    case RaiseHeight => RaiseKeepsInv(s, s');
    case Allocate(x) => AllocateKeepsInv(s, x, s');
    case SetNext => SetNextKeepsInv(s, s');
    case Publish(at) => PublishKeepsInv(s, at, s');
    case Start(want) => StartKeepsInv(s, want, s');
    case Load => LoadKeepsInv(s, s');
  }

  lemma StartKeepsInv(s: Sys, want: Search, s': Sys)
    requires Inv(s) && StartStep(s, want, s')
    ensures Inv(s')
  {
    assert LevelOk(s.m, s'.r.level);
    assert s.m.order[s'.r.level][0] == HEAD;
  }

  // ----- runs -----

  /** Nodes stay linked, with the same keys. */
  ghost predicate Grows(m: Mem, m': Mem)
    requires ListsOk(m) && ListsOk(m')
  {
    forall n :: n in m.order[0] ==> n in m'.order[0] && (n in m.key ==> n in m'.key && m'.key[n] == m.key[n])
  }

  lemma NextGrows(s: Sys, step: Step, s': Sys)
    requires Inv(s) && Next(s, step, s') && Inv(s')
    ensures Grows(s.m, s'.m)
  {
    if step.Publish? {
      PublishAdds(s.m, s.w.i, step.at, s.w.x);
    }
  }

  /** The constructor: every head link is stored and empty. */
  ghost predicate Init(s: Sys) {
    && s.w == Idle && s.r == NotStarted
    && s.m.key == map[] && s.m.maxHeight == 1
    && |s.m.order| == MAX_HEIGHT
    && forall l: nat :: l < MAX_HEIGHT ==> s.m.order[l] == [HEAD] && (HEAD, l) in s.m.next && s.m.next[(HEAD, l)] == None
  }

  lemma InitInv(s: Sys)
    requires Init(s)
    ensures Inv(s)
  {
    forall l | 0 <= l < MAX_HEIGHT
      ensures LevelOk(s.m, l)
    {
      assert Linked(s.m, l, 0);
    }
  }

  ghost predicate IsRun(states: seq<Sys>, steps: seq<Step>) {
    && |states| == |steps| + 1
    && Init(states[0])
    && forall i :: 0 <= i < |steps| ==> Next(states[i], steps[i], states[i + 1])
  }

  lemma {:induction false} RunInv(states: seq<Sys>, steps: seq<Step>, i: nat)
    requires IsRun(states, steps) && i < |states|
    ensures Inv(states[i])
  {
    hide Inv, Next, Init;
    if i == 0 {
      InitInv(states[0]);
    } else {
      RunInv(states, steps, i - 1);
      NextKeepsInv(states[i - 1], steps[i - 1], states[i]);
    }
  }

  lemma {:induction false} RunGrows(states: seq<Sys>, steps: seq<Step>, i: nat, j: nat)
    requires IsRun(states, steps) && i <= j < |states|
    ensures Inv(states[i]) && Inv(states[j]) && Grows(states[i].m, states[j].m)
    decreases j
  {
    hide Next, Init, LevelOk, WriterInv, ReaderInv;
    RunInv(states, steps, i);
    RunInv(states, steps, j);
    if i < j {
      RunGrows(states, steps, i, j - 1);
      NextGrows(states[j - 1], steps[j - 1], states[j]);
    }
  }

  /** n is linked and holds k. */
  ghost predicate HasKey(m: Mem, n: Node, k: UserKey) {
    |m.order| > 0 && n in m.order[0] && n != HEAD && n in m.key && m.key[n] == k
  }

  /** Wherever a search's loads fall among the stores of an insertion, its result is
      the right one for the nodes linked at its last load. A forward search finds
      every node linked with its key when it began; a backward one returns no node
      before one it should have reached among those linked when it began. */
  lemma SearchNeverMisses(states: seq<Sys>, steps: seq<Step>, a: nat, b: nat, n: Node)
    requires IsRun(states, steps) && a < b < |steps|
    requires steps[a].Start? && steps[b].Load? && states[b + 1].r.Done?
    ensures Inv(states[a]) && Inv(states[b])
    ensures Right(states[b].m, states[b + 1].r.want, states[b + 1].r.result)
    ensures var d := states[b + 1].r;
            && (d.want.AtOrAfter? && HasKey(states[a].m, n, d.want.k) ==> d.result == Some(n))
            && (!d.want.AtOrAfter? && LinkedNode(states[a].m, n) && Passes(d.want, states[a].m.key[n]) ==>
                  d.result.Some? && d.result.value in states[b].m.key
                  && states[a].m.key[n] <= states[b].m.key[d.result.value])
  {
    RunGrows(states, steps, a, b);
    hide ReaderInv, WriterInv, Init;
    var m, d := states[b].m, states[b + 1].r;
    assert LoadStep(states[b], states[b + 1]);
    LoadKeepsInv(states[b], states[b + 1]);
    if d.want.AtOrAfter? && HasKey(states[a].m, n, d.want.k) {
      SameKeySameNode(m, n, d.result.value);
    }
  }

  ghost predicate LinkedNode(m: Mem, n: Node) {
    |m.order| > 0 && n in m.order[0] && n != HEAD && n in m.key
  }

  lemma SameKeySameNode(m: Mem, n: Node, p: Node)
    requires |m.order| > 0 && LevelOk(m, 0)
    requires n in m.order[0] && p in m.order[0] && n != HEAD && p != HEAD && m.key[n] == m.key[p]
    ensures n == p
  {
    var o := m.order[0];
    var i :| 0 <= i < |o| && o[i] == n;
    var j :| 0 <= j < |o| && o[j] == p;
  }

  // ----- what an insertion adds -----

  /** Going from m0 to m, x has joined the levels below n and nothing else has changed
      place: every other node is at the levels it was at. */
  ghost predicate Joined(m0: Mem, m: Mem, x: Node, n: nat) {
    && |m0.order| == |m.order| == MAX_HEIGHT
    && forall l, y :: 0 <= l < MAX_HEIGHT ==> (y in m.order[l] <==> y in m0.order[l] || (l < n && y == x))
  }

  /** A new node x with key k, of height h, is the one difference. */
  ghost predicate Inserted(m0: Mem, m: Mem, x: Node, k: UserKey, h: nat) {
    x != HEAD && x !in m0.key && m.key == m0.key[x := k] && Joined(m0, m, x, h)
  }

  /** How far the insertion of k that began in m0 has come. */
  ghost predicate Underway(m0: Mem, k: UserKey, h: nat, s: Sys) {
    match s.w
    case Idle => exists x :: Inserted(m0, s.m, x, k, h)
    case Found(k', h', prev) => k' == k && h' == h && s.m.order == m0.order && s.m.key == m0.key
    case Raised(k', h', prev) => k' == k && h' == h && s.m.order == m0.order && s.m.key == m0.key
    case Linking(x, h', prev, i, stored) => h' == h && Inserted(m0, s.m, x, k, i)
  }

  lemma StepUnderway(m0: Mem, k: UserKey, h: nat, s: Sys, step: Step, s': Sys)
    requires Inv(s) && !s.w.Idle? && Next(s, step, s') && |m0.order| == MAX_HEIGHT
    requires Underway(m0, k, h, s)
    ensures Underway(m0, k, h, s')
  {
    hide LevelOk, Contained, PrevOk, SameLink, ReaderInv, Joined;
    match step
    case Publish(at) =>
      PublishJoins(m0, s.m, s.w.i, at, s.w.x);
      assert Inserted(m0, s'.m, s.w.x, k, s.w.i + 1);
    case Allocate(x) =>
      NothingJoined(m0, s'.m, x);
    case SetNext =>
      SameJoined(m0, s.m, s'.m, s.w.x, s.w.i);
    case _ =>
  }

  lemma PublishJoins(m0: Mem, m: Mem, i: nat, at: nat, x: Node)
    requires i < |m.order| && at < |m.order[i]| && Joined(m0, m, x, i)
    ensures Joined(m0, Published(m, i, at, x), x, i + 1)
  {
    PublishAdds(m, i, at, x);
  }

  lemma NothingJoined(m0: Mem, m: Mem, x: Node)
    requires m.order == m0.order && |m0.order| == MAX_HEIGHT
    ensures Joined(m0, m, x, 0)
  {
  }

  lemma SameJoined(m0: Mem, m: Mem, m': Mem, x: Node, i: nat)
    requires Joined(m0, m, x, i) && m'.order == m.order
    ensures Joined(m0, m', x, i)
  {
  }

  lemma {:induction false} RunUnderway(states: seq<Sys>, steps: seq<Step>, a: nat, i: nat)
    requires IsRun(states, steps) && a < i < |states| && steps[a].Begin?
    requires forall j :: a < j < i ==> !states[j].w.Idle?
    ensures Underway(states[a].m, steps[a].k, steps[a].height, states[i])
    decreases i
  {
    hide Inv, Underway;
    assert Next(states[i - 1], steps[i - 1], states[i]);
    RunInv(states, steps, a);
    RunInv(states, steps, i - 1);
    if i == a + 1 {
      BeginUnderway(states[a], steps[a], states[i]);
    } else {
      hide Next;
      RunUnderway(states, steps, a, i - 1);
      LevelCount(states[a]);
      StepUnderway(states[a].m, steps[a].k, steps[a].height, states[i - 1], steps[i - 1], states[i]);
    }
  }

  lemma BeginUnderway(s: Sys, step: Step, s': Sys)
    requires step.Begin? && Next(s, step, s')
    ensures Underway(s.m, step.k, step.height, s')
  {
  }

  lemma LevelCount(s: Sys)
    requires Inv(s)
    ensures |s.m.order| == MAX_HEIGHT
  {
  }

  /** Whatever readers do meanwhile: when the writer of an insertion is idle again,
      one new node holds the key, at every level below its height and at no other,
      and every other node is where it was. */
  lemma InsertInserts(states: seq<Sys>, steps: seq<Step>, a: nat, b: nat) returns (x: Node)
    requires IsRun(states, steps) && a < b < |states| && steps[a].Begin?
    requires states[b].w.Idle? && forall j :: a < j < b ==> !states[j].w.Idle?
    ensures Inserted(states[a].m, states[b].m, x, steps[a].k, steps[a].height)
  {
    hide Next, Init, Inserted;
    RunUnderway(states, steps, a, b);
    x :| Inserted(states[a].m, states[b].m, x, steps[a].k, steps[a].height);
  }

  /** A forward search for the key that starts once the insertion is over returns
      the inserted node. */
  lemma InsertedIsFound(states: seq<Sys>, steps: seq<Step>, a: nat, b: nat, c: nat, d: nat) returns (x: Node)
    requires IsRun(states, steps) && a < b <= c < d < |steps| && steps[a].Begin?
    requires states[b].w.Idle? && forall j :: a < j < b ==> !states[j].w.Idle?
    requires steps[c].Start? && steps[d].Load? && states[d + 1].r.Done?
    requires states[d + 1].r.want == AtOrAfter(steps[a].k)
    ensures Inserted(states[a].m, states[b].m, x, steps[a].k, steps[a].height)
    ensures states[d + 1].r.result == Some(x)
  {
    hide Next, Init, LevelOk, WriterInv, ReaderInv, Right, Inserted, HasKey, Grows;
    x := InsertInserts(states, steps, a, b);
    assert 1 <= steps[a].height by { BeginHeight(states, steps, a); }
    InsertedHasKey(states[a].m, states[b].m, x, steps[a].k, steps[a].height);
    RunGrows(states, steps, b, c);
    HasKeyStays(states[b].m, states[c].m, x, steps[a].k);
    SearchNeverMisses(states, steps, c, d, x);
  }

  lemma BeginHeight(states: seq<Sys>, steps: seq<Step>, a: nat)
    requires IsRun(states, steps) && a < |steps| && steps[a].Begin?
    ensures 1 <= steps[a].height
  {
    assert Next(states[a], steps[a], states[a + 1]);
  }

  lemma InsertedHasKey(m0: Mem, m: Mem, x: Node, k: UserKey, h: nat)
    requires Inserted(m0, m, x, k, h) && 1 <= h
    ensures HasKey(m, x, k)
  {
    assert x in m.order[0];
  }

  lemma HasKeyStays(m: Mem, m': Mem, x: Node, k: UserKey)
    requires ListsOk(m) && ListsOk(m') && Grows(m, m') && HasKey(m, x, k)
    ensures HasKey(m', x, k)
  {
  }

  // ----- an insertion can always go on, and ends -----

  /** The stores an insertion has yet to make. */
  function Left(w: Writer): int {
    match w
    case Idle => 0
    case Found(k, h, prev) => 2 * h + 2
    case Raised(k, h, prev) => 2 * h + 1
    case Linking(x, h, prev, i, stored) => 2 * (h - i) - if stored then 1 else 0
  }

  predicate IsWriterStep(step: Step) {
    step.RaiseHeight? || step.Allocate? || step.SetNext? || step.Publish?
  }

  /** An insertion of height h takes 2 h + 2 stores: each is one fewer to make, and no
      reader changes what is left. */
  lemma StoreCounts(s: Sys, step: Step, s': Sys)
    requires Inv(s) && !s.w.Idle? && Next(s, step, s')
    ensures Left(s'.w) == Left(s.w) - (if IsWriterStep(step) then 1 else 0)
    ensures Left(s.w) > 0
  {
    hide ListsOk, PrevOk, SameLink, ReaderInv;
  }

  /** The writer is never stuck: an insertion under way always has a next store. */
  lemma WriterCanStep(s: Sys) returns (step: Step, s': Sys)
    requires Inv(s) && !s.w.Idle?
    ensures IsWriterStep(step) && Next(s, step, s')
  {
    hide LevelOk, Contained, ReaderInv;
    match s.w
    case Found(k, h, prev) =>
      var m' := if h > s.m.maxHeight then s.m.(maxHeight := h) else s.m;
      step, s' := RaiseHeight, s.(m := m', w := Raised(k, h, prev));
    case Raised(k, h, prev) =>
      var x := FreshNode(s.m);
      step, s' := Allocate(x), s.(m := s.m.(key := s.m.key[x := k]), w := Linking(x, h, prev, 0, false));
    case Linking(x, h, prev, i, stored) =>
      var at := PrevAt(s);
      if stored {
        step := Publish(at);
        s' := s.(m := Published(s.m, i, at, x), w := if i + 1 == h then Idle else s.w.(i := i + 1, stored := false));
      } else {
        step := SetNext;
        s' := s.(m := s.m.(next := s.m.next[(x, i) := s.m.next[(prev[i], i)]]), w := s.w.(stored := true));
      }
  }

  lemma PrevAt(s: Sys) returns (at: nat)
    requires Inv(s) && s.w.Linking?
    ensures at < |s.m.order[s.w.i]| && s.m.order[s.w.i][at] == s.w.prev[s.w.i]
    ensures (s.w.prev[s.w.i], s.w.i) in s.m.next
  {
    hide ReaderInv, SameLink;
    assert LevelOk(s.m, s.w.i);
    assert PrevOk(s.m, s.w.i, s.w.prev[s.w.i], s.m.key[s.w.x]);
    at :| LastBefore(s.m, s.w.i, at, s.m.key[s.w.x]) && s.m.order[s.w.i][at] == s.w.prev[s.w.i];
    assert Linked(s.m, s.w.i, at);
  }

  /** There is always an unused node. */
  lemma FreshNode(m: Mem) returns (x: Node)
    ensures x != HEAD && x !in m.key && forall l :: (x, l) !in m.next
  {
    var used := m.key.Keys + set e | e in m.next.Keys :: e.0;
    x := AboveAll(used);
    forall l
      ensures (x, l) !in m.next
    {
      assert (x, l) in m.next ==> (x, l).0 in used;
    }
  }

  lemma {:induction false} AboveAll(used: set<Node>) returns (x: Node)
    ensures x > 0 && forall n :: n in used ==> n < x
    decreases used
  {
    if used == {} {
      x := 1;
    } else {
      var n :| n in used;
      var y := AboveAll(used - {n});
      x := if n < y then y else n + 1;
      forall i | i in used
        ensures i < x
      {
        assert i == n || i in used - {n};
      }
    }
  }

  // ----- the searches when nobody stores -----

  /** Walk right while the next key is smaller, else go down a level. */
  method FindGreaterOrEqual(m: Mem, k: UserKey) returns (r: Option<Node>, prev: seq<Node>)
    requires ListsOk(m)
    ensures FirstAtOrAfter(m, k, r)
    ensures |prev| == MAX_HEIGHT
    ensures (forall n :: n in m.key ==> m.key[n] != k) ==> forall l :: 0 <= l < MAX_HEIGHT ==> PrevOk(m, l, prev[l], k)
  {
    hide LevelOk, FirstAtOrAfter, PrevOk;
    prev := seq(MAX_HEIGHT, i => HEAD);
    TopPrevs(m, k);
    var x := HEAD;
    var level: nat := m.maxHeight - 1;
    ghost var j := 0;
    HeadFirst(m, level);
    while true
      invariant |prev| == MAX_HEIGHT && level < m.maxHeight && OnPath(m, level, j, x, k)
      invariant forall l :: m.maxHeight <= l < MAX_HEIGHT ==> prev[l] == HEAD
      invariant (forall n :: n in m.key ==> m.key[n] != k) ==> forall l :: level < l < m.maxHeight ==> PrevOk(m, l, prev[l], k)
      decreases level, |m.order[level]| - j
    {
      PathLink(m, level, j, x, k);
      var next := m.next[(x, level)];
      if next.Some? && m.key[next.value] < k {
        x, j := next.value, j + 1;
      } else {
        prev := prev[level := x];
        PathPrev(m, level, j, x, k);
        if level == 0 {
          PathResult(m, j, x, k);
          r := next;
          return;
        }
        j := PathDown(m, level, j, x, k);
        level := level - 1;
      }
    }
  }

  /** Standing on node j of the level, which is the head or before k. */
  ghost predicate OnPath(m: Mem, level: nat, j: nat, x: Node, k: UserKey) {
    && level < |m.order| && j < |m.order[level]| && m.order[level][j] == x
    && (j > 0 ==> x in m.key && m.key[x] < k)
  }

  lemma HeadFirst(m: Mem, level: nat)
    requires ListsOk(m) && level < MAX_HEIGHT
    ensures |m.order[level]| > 0 && m.order[level][0] == HEAD
  {
    assert LevelOk(m, level);
  }

  lemma TopPrevs(m: Mem, k: UserKey)
    requires ListsOk(m)
    ensures forall l :: m.maxHeight <= l < MAX_HEIGHT ==> PrevOk(m, l, HEAD, k)
  {
    forall l | m.maxHeight <= l < MAX_HEIGHT
      ensures PrevOk(m, l, HEAD, k)
    {
      assert LastBefore(m, l, 0, k);
    }
  }

  lemma PathLink(m: Mem, level: nat, j: nat, x: Node, k: UserKey)
    requires ListsOk(m) && OnPath(m, level, j, x, k)
    ensures (x, level) in m.next
    ensures m.next[(x, level)] == if j + 1 < |m.order[level]| then Some(m.order[level][j + 1]) else None
    ensures j + 1 < |m.order[level]| ==> m.order[level][j + 1] in m.key
  {
    assert LevelOk(m, level);
    assert Linked(m, level, j);
  }

  lemma PathPrev(m: Mem, level: nat, j: nat, x: Node, k: UserKey)
    requires ListsOk(m) && OnPath(m, level, j, x, k)
    requires j + 1 < |m.order[level]| ==> m.order[level][j + 1] in m.key && !(m.key[m.order[level][j + 1]] < k)
    ensures (forall n :: n in m.key ==> m.key[n] != k) ==> PrevOk(m, level, x, k)
  {
    assert LevelOk(m, level);
    if forall n :: n in m.key ==> m.key[n] != k {
      assert LastBefore(m, level, j, k);
    }
  }

  lemma PathResult(m: Mem, j: nat, x: Node, k: UserKey)
    requires ListsOk(m) && OnPath(m, 0, j, x, k)
    requires j + 1 < |m.order[0]| ==> m.order[0][j + 1] in m.key && !(m.key[m.order[0][j + 1]] < k)
    ensures FirstAtOrAfter(m, k, if j + 1 < |m.order[0]| then Some(m.order[0][j + 1]) else None)
  {
    assert LevelOk(m, 0);
    SuccessorIsFirst(m, k, j, if j + 1 < |m.order[0]| then Some(m.order[0][j + 1]) else None);
  }

  lemma PathDown(m: Mem, level: nat, j: nat, x: Node, k: UserKey) returns (i: nat)
    requires ListsOk(m) && OnPath(m, level, j, x, k) && level > 0
    ensures OnPath(m, level - 1, i, x, k)
  {
    assert Contained(m, level - 1);
    assert LevelOk(m, level) && LevelOk(m, level - 1);
    var o := m.order[level - 1];
    assert x in m.order[level] && x in o;
    i :| 0 <= i < |o| && o[i] == x;
  }

  /** Used to step an iterator back: there are no links to predecessors. */
  method FindLessThan(m: Mem, k: UserKey) returns (x: Node)
    requires ListsOk(m)
    ensures LastPassing(m, LessThan(k), if x == HEAD then None else Some(x))
  {
    hide LevelOk, LastPassing;
    x := HEAD;
    var level: nat := m.maxHeight - 1;
    ghost var j := 0;
    HeadFirst(m, level);
    while true
      invariant level < m.maxHeight && OnPath(m, level, j, x, k)
      decreases level, |m.order[level]| - j
    {
      PathLink(m, level, j, x, k);
      var next := m.next[(x, level)];
      if next.None? || m.key[next.value] >= k {
        if level == 0 {
          PathLast(m, j, x, k);
          return;
        }
        j := PathDown(m, level, j, x, k);
        level := level - 1;
      } else {
        x, j := next.value, j + 1;
      }
    }
  }

  lemma PathLast(m: Mem, j: nat, x: Node, k: UserKey)
    requires ListsOk(m) && OnPath(m, 0, j, x, k)
    requires j + 1 < |m.order[0]| ==> m.order[0][j + 1] in m.key && m.key[m.order[0][j + 1]] >= k
    ensures LastPassing(m, LessThan(k), if x == HEAD then None else Some(x))
  {
    assert LevelOk(m, 0);
    StandsOnLast(m, LessThan(k), j, if x == HEAD then None else Some(x));
  }
}
