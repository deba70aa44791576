/** Group commit: every interleaving of Write calls between lock regions. */
module WriteQueue {
  import opened InternalKeys
  import opened Lsm

  /** A WriteBatch: its operations and the byte size of its representation. */
  datatype Batch = Batch(ops: seq<Op>, size: nat)

  /** DBImpl::Writer. A missing batch is the NULL batch of a forced memtable switch. */
  datatype Writer = Writer(id: nat, batch: Option<Batch>, sync: bool)

  function OpsOf(w: Writer): seq<Op> {
    if w.batch.Some? then w.batch.value.ops else []
  }

  /** The operations of several writers, in queue order. */
  function GroupOps(ws: seq<Writer>): seq<Op> {
    if ws == [] then [] else GroupOps(ws[..|ws| - 1]) + OpsOf(ws[|ws| - 1])
  }

  // ----- BuildBatchGroup -----

  const MAX_GROUP: nat := 0x10_0000
  const SMALL_WRITE: nat := 0x2_0000

  function MaxSize(first: nat): nat {
    if first <= SMALL_WRITE then first + SMALL_WRITE else MAX_GROUP
  }

  function TotalSize(ws: seq<Writer>): nat {
    if ws == [] then 0
    else TotalSize(ws[..|ws| - 1]) + (if ws[|ws| - 1].batch.Some? then ws[|ws| - 1].batch.value.size else 0)
  }

  /** The first n writers may be served together by the first one. */
  ghost predicate GroupOk(queue: seq<Writer>, n: nat) {
    && 1 <= n <= |queue|
    && (forall i :: 0 <= i < n && queue[i].sync ==> queue[0].sync)
    && (n > 1 ==> queue[0].batch.Some?)
    && (queue[0].batch.Some? ==>
          || TotalSize(queue[..n]) == queue[0].batch.value.size
          || TotalSize(queue[..n]) <= MaxSize(queue[0].batch.value.size))
  }

  /** Take writers from the front until one must not be absorbed. */
  method BuildBatchGroup(queue: seq<Writer>) returns (n: nat, updates: seq<Op>)
    requires |queue| > 0 && queue[0].batch.Some?
    ensures GroupOk(queue, n)
    ensures updates == GroupOps(queue[..n])
    ensures n < |queue| ==>
      || (queue[n].sync && !queue[0].sync)
      || (queue[n].batch.Some? && TotalSize(queue[..n + 1]) > MaxSize(queue[0].batch.value.size))
  {
    hide GroupOps, TotalSize;
    var first := queue[0];
    updates := first.batch.value.ops;
    var size := first.batch.value.size;
    var maxSize := if size <= SMALL_WRITE then size + SMALL_WRITE else MAX_GROUP;
    n := 1;
    One(queue);
    while n < |queue|
      invariant 1 <= n <= |queue|
      invariant updates == GroupOps(queue[..n])
      invariant size == TotalSize(queue[..n]) && (size <= maxSize || size == first.batch.value.size)
      invariant forall i :: 0 <= i < n && queue[i].sync ==> first.sync
    {
      var w := queue[n];
      More(queue, n);
      if w.sync && !first.sync {
        break;
      }
      if w.batch.Some? {
        size := size + w.batch.value.size;
        if size > maxSize {
          break;
        }
        updates := updates + w.batch.value.ops;
      }
      n := n + 1;
    }
  }

  lemma One(queue: seq<Writer>)
    requires |queue| > 0 && queue[0].batch.Some?
    ensures GroupOps(queue[..1]) == queue[0].batch.value.ops && TotalSize(queue[..1]) == queue[0].batch.value.size
  {
    assert queue[..1][..0] == [];
  }

  lemma More(queue: seq<Writer>, n: nat)
    requires n < |queue|
    ensures GroupOps(queue[..n + 1]) == GroupOps(queue[..n]) + OpsOf(queue[n])
    ensures TotalSize(queue[..n + 1]) == TotalSize(queue[..n]) + (if queue[n].batch.Some? then queue[n].batch.value.size else 0)
  {
    assert queue[..n + 1][..n] == queue[..n];
  }

  // ----- the protocol -----

  /** What the leader does next with the lock released: append to the log, sync the
      log, insert into the memtable, or come back under the lock. */
  datatype Stage = ToLog | ToSync | ToInsert | ToFinish

  /** A leader at work holds its group, how much of it succeeded (`ok` is its status
      so far) and whether the log record was written. */
  datatype Phase =
    | Free
    | Busy(n: nat, updates: seq<Op>, start: nat, at: Stage, logged: bool, ok: bool)

  /** One group served: the sequence number it began at, its writers, the operations
      numbered for it, whether its log record was written, its status and whether it
      reached the memtable. */
  datatype Group = Group(start: nat, writers: seq<Writer>, ops: seq<Op>, logged: bool, ok: bool, inserted: bool)

  /** A log record or a memtable insertion: operations numbered from `start`. */
  datatype Chunk = Chunk(start: nat, ops: seq<Op>)

  /** `synced` counts the log records known to be on disk. `arrived` and `groups` are
      auxiliary histories: no step reads them. */
  datatype Sys = Sys(
    queue: seq<Writer>,
    phase: Phase,
    lastSequence: nat,
    log: seq<Chunk>,
    synced: nat,
    mem: seq<Chunk>,
    bgError: bool,
    arrived: seq<Writer>,
    groups: seq<Group>)

  datatype Step =
    | Enqueue(w: Writer)
    | BackgroundError       // recorded by other work
    | Fail                  // MakeRoomForWrite reports a background error
    | Switched              // a NULL batch: nothing to write
    | Lead(n: nat)
    | Append(ok: bool)
    | Sync(ok: bool)
    | Insert
    | Finish

  /** push_back under the lock. */
  ghost predicate EnqueueStep(s: Sys, w: Writer, s': Sys) {
    s' == s.(queue := s.queue + [w], arrived := s.arrived + [w])
  }

  /** The front writer returns alone, without writing anything. */
  ghost predicate ReturnsAlone(s: Sys, ok: bool, s': Sys) {
    && s.phase == Free && |s.queue| > 0
    && s' == s.(queue := s.queue[1..], groups := s.groups + [Group(s.lastSequence + 1, s.queue[..1], [], false, ok, false)])
  }

  /** The front writer has room and takes a group; the lock is released. */
  ghost predicate LeadStep(s: Sys, n: nat, s': Sys) {
    && s.phase == Free && |s.queue| > 0 && s.queue[0].batch.Some? && !s.bgError
    && GroupOk(s.queue, n)
    && s' == s.(phase := Busy(n, GroupOps(s.queue[..n]), s.lastSequence + 1, ToLog, false, true))
  }

  /** AddRecord, without the lock. */
  ghost predicate AppendStep(s: Sys, ok: bool, s': Sys) {
    && s.phase.Busy? && s.phase.at == ToLog
    && s' == s.(
      log := if ok then s.log + [Chunk(s.phase.start, s.phase.updates)] else s.log,
      phase := s.phase.(at := ToSync, logged := ok, ok := ok))
  }

  /** Sync, when the leader asked for it and the record was written. */
  ghost predicate SyncStep(s: Sys, ok: bool, s': Sys) {
    && s.phase.Busy? && s.phase.at == ToSync && |s.queue| > 0
    && if s.phase.ok && s.queue[0].sync then
         s' == s.(synced := if ok then |s.log| else s.synced, phase := s.phase.(at := ToInsert, ok := ok))
       else
         s' == s.(phase := s.phase.(at := ToInsert))
  }

  /** InsertInto, if everything before it succeeded. */
  ghost predicate InsertStep(s: Sys, s': Sys) {
    && s.phase.Busy? && s.phase.at == ToInsert
    && s' == s.(
      mem := if s.phase.ok then s.mem + [Chunk(s.phase.start, s.phase.updates)] else s.mem,
      phase := s.phase.(at := ToFinish))
  }

  /** Back under the lock: remember a failed sync, publish the sequence number and
      release the group. */
  ghost predicate FinishStep(s: Sys, s': Sys) {
    && s.phase.Busy? && s.phase.at == ToFinish && s.phase.n <= |s.queue|
    && s' == s.(
      queue := s.queue[s.phase.n..],
      lastSequence := s.lastSequence + |s.phase.updates|,
      phase := Free,
      bgError := s.bgError || (s.phase.logged && !s.phase.ok),
      groups := s.groups + [Group(s.phase.start, s.queue[..s.phase.n], s.phase.updates, s.phase.logged, s.phase.ok, s.phase.ok)])
  }

  ghost predicate Next(s: Sys, step: Step, s': Sys) {
    match step
    case Enqueue(w) => EnqueueStep(s, w, s')
    case BackgroundError => s' == s.(bgError := true)
    case Fail => s.bgError && ReturnsAlone(s, false, s')
    case Switched => |s.queue| > 0 && s.queue[0].batch.None? && ReturnsAlone(s, true, s')
    case Lead(n) => LeadStep(s, n, s')
    case Append(ok) => AppendStep(s, ok, s')
    case Sync(ok) => SyncStep(s, ok, s')
    case Insert => InsertStep(s, s')
    case Finish => FinishStep(s, s')
  }

  ghost predicate Init(s: Sys) {
    && s.queue == [] && s.phase == Free && s.log == [] && s.synced == 0 && s.mem == [] && s.arrived == [] && s.groups == []
    && !s.bgError
  }

  // ----- the invariant -----

  function Served(groups: seq<Group>): seq<Writer> {
    if groups == [] then [] else Served(groups[..|groups| - 1]) + groups[|groups| - 1].writers
  }

  /** The sequence number before which everything up to group i was numbered. */
  function StartAt(first: nat, groups: seq<Group>, i: nat): nat
    requires i <= |groups|
  {
    if i == 0 then first else StartAt(first, groups, i - 1) + |groups[i - 1].ops|
  }

  function ChunkIf(b: bool, g: Group): seq<Chunk> {
    if b then [Chunk(g.start, g.ops)] else []
  }

  /** What the served groups have put into the memtable. */
  function Inserted(groups: seq<Group>): seq<Chunk> {
    if groups == [] then []
    else
      var g := groups[|groups| - 1];
      Inserted(groups[..|groups| - 1]) + ChunkIf(g.inserted, g)
  }

  /** What the served groups have put into the log. */
  function Logged(groups: seq<Group>): seq<Chunk> {
    if groups == [] then []
    else
      var g := groups[|groups| - 1];
      Logged(groups[..|groups| - 1]) + ChunkIf(g.logged, g)
  }

  ghost predicate GroupGood(g: Group) {
    && g.writers != []
    && (forall j :: 0 <= j < |g.writers| && g.writers[j].sync ==> g.writers[0].sync)
    && (g.ok ==> g.ops == GroupOps(g.writers))
    && (g.inserted ==> g.ok && g.logged)
    && (g.ok && !g.inserted ==> g.ops == [])
  }

  ghost predicate GroupsOk(first: nat, groups: seq<Group>) {
    forall i :: 0 <= i < |groups| ==> groups[i].start == StartAt(first, groups, i) && GroupGood(groups[i])
  }

  predicate SyncFailed(g: Group) {
    g.logged && !g.ok
  }

  /** After a group whose sync failed nothing is written to the log. */
  ghost predicate FailureIsFinal(groups: seq<Group>) {
    forall a, b :: 0 <= a < b < |groups| && SyncFailed(groups[a]) ==> !groups[b].logged
  }

  ghost predicate NoFailure(groups: seq<Group>) {
    forall a :: 0 <= a < |groups| ==> !SyncFailed(groups[a])
  }

  /** The record of every group that reached the memtable for a sync writer is among
      the first `synced` of the log. */
  ghost predicate SyncedOk(groups: seq<Group>, synced: nat) {
    forall a :: 0 <= a < |groups| && groups[a].inserted && groups[a].writers != [] && groups[a].writers[0].sync ==>
      |Logged(groups[..a + 1])| <= synced
  }

  /** The record of the group at work, once it is in the log; in the memtable. */
  function LogChunk(p: Phase): seq<Chunk> {
    if p.Busy? && p.logged then [Chunk(p.start, p.updates)] else []
  }

  function MemChunk(p: Phase): seq<Chunk> {
    if p.Busy? && p.at == ToFinish && p.ok then [Chunk(p.start, p.updates)] else []
  }

  ghost predicate PhaseOk(s: Sys) {
    s.phase.Busy? ==>
      var p := s.phase;
      && GroupOk(s.queue, p.n) && p.updates == GroupOps(s.queue[..p.n]) && p.start == s.lastSequence + 1
      && (p.at == ToLog ==> p.ok && !p.logged)
      && (p.at == ToSync ==> p.ok == p.logged)
      && (p.at == ToInsert || p.at == ToFinish ==> (p.ok ==> p.logged) && (p.ok && s.queue[0].sync ==> s.synced == |s.log|))
      && NoFailure(s.groups)
  }

  ghost predicate Inv(s: Sys, first: nat) {
    && PhaseOk(s)
    && s.arrived == Served(s.groups) + s.queue
    && GroupsOk(first, s.groups)
    && s.lastSequence + 1 == StartAt(first, s.groups, |s.groups|)
    && s.mem == Inserted(s.groups) + MemChunk(s.phase)
    && s.log == Logged(s.groups) + LogChunk(s.phase)
    && s.synced <= |s.log| && SyncedOk(s.groups, s.synced)
    && (s.bgError || NoFailure(s.groups)) && FailureIsFinal(s.groups)
  }

  lemma {:induction false} StartAtPrefix(first: nat, groups: seq<Group>, g: Group, i: nat)
    requires i <= |groups|
    ensures StartAt(first, groups + [g], i) == StartAt(first, groups, i)
  {
    if i > 0 {
      StartAtPrefix(first, groups, g, i - 1);
    }
  }

  lemma GroupOkGrows(queue: seq<Writer>, w: Writer, n: nat)
    requires GroupOk(queue, n)
    ensures GroupOk(queue + [w], n) && (queue + [w])[..n] == queue[..n]
  {
    assert (queue + [w])[..n] == queue[..n];
  }

  lemma EnqueueKeepsInv(s: Sys, w: Writer, s': Sys, first: nat)
    requires Inv(s, first) && EnqueueStep(s, w, s')
    ensures Inv(s', first)
  {
    hide GroupOk, GroupsOk, Served, Inserted, Logged, StartAt, GroupOps, SyncedOk, NoFailure, FailureIsFinal;
    if s.phase.Busy? {
      GroupOkGrows(s.queue, w, s.phase.n);
      FrontStays(s.queue, w, s.phase.n);
    }
    assert (Served(s.groups) + s.queue) + [w] == Served(s.groups) + (s.queue + [w]);
  }

  lemma FrontStays(queue: seq<Writer>, w: Writer, n: nat)
    requires GroupOk(queue, n)
    ensures queue != [] && (queue + [w])[0] == queue[0]
  {
  }

  /** Appending a served group to the histories. */
  lemma AddGroup(groups: seq<Group>, g: Group, first: nat)
    requires GroupsOk(first, groups) && GroupGood(g)
    requires g.start == StartAt(first, groups, |groups|)
    ensures GroupsOk(first, groups + [g])
    ensures StartAt(first, groups + [g], |groups| + 1) == StartAt(first, groups, |groups|) + |g.ops|
    ensures Served(groups + [g]) == Served(groups) + g.writers
    ensures Inserted(groups + [g]) == Inserted(groups) + ChunkIf(g.inserted, g)
    ensures Logged(groups + [g]) == Logged(groups) + ChunkIf(g.logged, g)
  {
    hide GroupGood, ChunkIf;
    assert (groups + [g])[..|groups|] == groups;
    StartAtPrefix(first, groups, g, |groups|);
    AddGroupOk(groups, g, first);
  }

  lemma AddSynced(groups: seq<Group>, g: Group, synced: nat)
    requires SyncedOk(groups, synced)
    requires g.inserted && g.writers != [] && g.writers[0].sync ==> |Logged(groups + [g])| <= synced
    ensures SyncedOk(groups + [g], synced)
  {
    hide Logged;
    var all := groups + [g];
    forall a | 0 <= a < |all| && all[a].inserted && all[a].writers != [] && all[a].writers[0].sync
      ensures |Logged(all[..a + 1])| <= synced
    {
      if a < |groups| {
        assert all[..a + 1] == groups[..a + 1];
      } else {
        assert all[..a + 1] == all;
      }
    }
  }

  lemma AddFailure(groups: seq<Group>, g: Group, bgError: bool, bgError': bool)
    requires bgError || NoFailure(groups)
    requires FailureIsFinal(groups) && (g.logged ==> NoFailure(groups))
    requires bgError' == (bgError || SyncFailed(g))
    ensures FailureIsFinal(groups + [g]) && (bgError' || NoFailure(groups + [g]))
  {
  }

  lemma AddGroupOk(groups: seq<Group>, g: Group, first: nat)
    requires GroupsOk(first, groups) && GroupGood(g)
    requires g.start == StartAt(first, groups, |groups|)
    ensures GroupsOk(first, groups + [g])
  {
    hide GroupGood, StartAt;
    var all := groups + [g];
    forall i | 0 <= i < |all|
      ensures all[i].start == StartAt(first, all, i) && GroupGood(all[i])
    {
      StartAtPrefix(first, groups, g, i);
    }
  }

  lemma AloneKeepsInv(s: Sys, ok: bool, s': Sys, first: nat)
    requires Inv(s, first) && ReturnsAlone(s, ok, s') && (ok ==> s.queue[0].batch.None?)
    ensures Inv(s', first)
  {
    hide GroupsOk, Served, Inserted, Logged, StartAt, GroupOps, SyncedOk, NoFailure, FailureIsFinal;
    var g := s'.groups[|s.groups|];
    SingleGroup(s.queue);
    assert GroupGood(g);
    AddGroup(s.groups, g, first);
    AddSynced(s.groups, g, s.synced);
    AddFailure(s.groups, g, s.bgError, s.bgError);
    SplitQueue(Served(s.groups), s.queue, 1);
  }

  lemma SplitQueue(a: seq<Writer>, queue: seq<Writer>, n: nat)
    requires n <= |queue|
    ensures a + queue == (a + queue[..n]) + queue[n..]
  {
  }

  lemma SingleGroup(queue: seq<Writer>)
    requires |queue| > 0
    ensures GroupOps(queue[..1]) == OpsOf(queue[0])
  {
    assert queue[..1][..0] == [];
  }

  lemma FinishKeepsInv(s: Sys, s': Sys, first: nat)
    requires Inv(s, first) && FinishStep(s, s')
    ensures Inv(s', first)
  {
    hide GroupsOk, Served, Inserted, Logged, StartAt, GroupOps, TotalSize, SyncedOk, NoFailure, FailureIsFinal, GroupGood;
    var g := s'.groups[|s.groups|];
    FinishedGroupGood(s.queue, s.phase.n, g);
    AddGroup(s.groups, g, first);
    AddSynced(s.groups, g, s.synced);
    AddFailure(s.groups, g, s.bgError, s'.bgError);
    SplitQueue(Served(s.groups), s.queue, s.phase.n);
  }

  lemma FinishedGroupGood(queue: seq<Writer>, n: nat, g: Group)
    requires GroupOk(queue, n) && g.writers == queue[..n] && g.ops == GroupOps(queue[..n])
    requires g.inserted == g.ok && (g.ok ==> g.logged)
    ensures GroupGood(g)
  {
  }

  lemma NextKeepsInv(s: Sys, step: Step, s': Sys, first: nat)
    requires Inv(s, first) && Next(s, step, s')
    ensures Inv(s', first)
  {
    match step
    case Enqueue(w) => EnqueueKeepsInv(s, w, s', first);
    case Fail => AloneKeepsInv(s, false, s', first);
    case Switched => AloneKeepsInv(s, true, s', first);
    case Lead(n) => LeadKeepsInv(s, n, s', first);
    case Append(ok) => AppendKeepsInv(s, ok, s', first);
    case Sync(ok) => SyncKeepsInv(s, ok, s', first);
    case Insert => InsertKeepsInv(s, s', first);
    case Finish => FinishKeepsInv(s, s', first);
    case BackgroundError =>
  }

  lemma LeadKeepsInv(s: Sys, n: nat, s': Sys, first: nat)
    requires Inv(s, first) && LeadStep(s, n, s')
    ensures Inv(s', first)
  {
    hide GroupOk, GroupsOk, Served, Inserted, Logged, StartAt, GroupOps, SyncedOk, NoFailure, FailureIsFinal;
  }

  lemma AppendKeepsInv(s: Sys, ok: bool, s': Sys, first: nat)
    requires Inv(s, first) && AppendStep(s, ok, s')
    ensures Inv(s', first)
  {
    hide GroupOk, GroupsOk, Served, Inserted, Logged, StartAt, GroupOps, SyncedOk, NoFailure, FailureIsFinal;
    assert Logged(s.groups) + [] == Logged(s.groups);
  }

  lemma SyncKeepsInv(s: Sys, ok: bool, s': Sys, first: nat)
    requires Inv(s, first) && SyncStep(s, ok, s')
    ensures Inv(s', first)
  {
    hide GroupOk, GroupsOk, Served, Inserted, Logged, StartAt, GroupOps, NoFailure, FailureIsFinal;
    SyncedGrows(s.groups, s.synced, s'.synced);
  }

  lemma SyncedGrows(groups: seq<Group>, n: nat, n': nat)
    requires SyncedOk(groups, n) && n <= n'
    ensures SyncedOk(groups, n')
  {
    hide Logged;
  }

  lemma InsertKeepsInv(s: Sys, s': Sys, first: nat)
    requires Inv(s, first) && InsertStep(s, s')
    ensures Inv(s', first)
  {
    hide GroupOk, GroupsOk, Served, Inserted, Logged, StartAt, GroupOps, SyncedOk, NoFailure, FailureIsFinal;
    assert Inserted(s.groups) + [] == Inserted(s.groups);
  }

  // ----- runs -----

  ghost predicate IsRun(states: seq<Sys>, steps: seq<Step>) {
    && |states| == |steps| + 1
    && Init(states[0])
    && forall i :: 0 <= i < |steps| ==> Next(states[i], steps[i], states[i + 1])
  }

  lemma {:induction false} RunInv(states: seq<Sys>, steps: seq<Step>, i: nat)
    requires IsRun(states, steps) && i < |states|
    ensures Inv(states[i], states[0].lastSequence + 1)
  {
    hide Inv, Next, Init;
    if i == 0 {
      InitInv(states[0]);
    } else {
      RunInv(states, steps, i - 1);
      NextKeepsInv(states[i - 1], steps[i - 1], states[i], states[0].lastSequence + 1);
    }
  }

  lemma InitInv(s: Sys)
    requires Init(s)
    ensures Inv(s, s.lastSequence + 1)
  {
  }

  lemma StartAtStep(first: nat, groups: seq<Group>, i: nat)
    requires i < |groups|
    ensures StartAt(first, groups, i + 1) == StartAt(first, groups, i) + |groups[i].ops|
  {
  }

  lemma {:induction false} StartAtMonotone(first: nat, groups: seq<Group>, i: nat, j: nat)
    requires i <= j <= |groups|
    ensures StartAt(first, groups, i) <= StartAt(first, groups, j)
    decreases j
  {
    if i < j {
      StartAtMonotone(first, groups, i, j - 1);
    }
  }

  /** In every interleaving, between groups: service is in arrival order, the memtable holds
      exactly the numbered operations of the groups that succeeded, each once and
      in order, a writer that got OK has all its operations in its group, group
      ranges never overlap, and no sync write rides on a non-sync leader. */
  lemma GroupCommit(states: seq<Sys>, steps: seq<Step>, i: nat, a: nat, b: nat)
    requires IsRun(states, steps) && i < |states| && states[i].phase == Free
    requires a < b < |states[i].groups|
    ensures
      var s := states[i];
      var ga, gb := s.groups[a], s.groups[b];
      && s.arrived == Served(s.groups) + s.queue
      && s.mem == Inserted(s.groups)
      && ga.start + |ga.ops| <= gb.start
      && gb.start + |gb.ops| <= s.lastSequence + 1
      && (ga.ok ==> ga.ops == GroupOps(ga.writers) && (ga.inserted || ga.ops == []))
      && (forall j :: 0 <= j < |ga.writers| && ga.writers[j].sync ==> ga.writers[0].sync)
  {
    hide Inv, IsRun, Served, Inserted, GroupOps;
    RunInv(states, steps, i);
    GroupFacts(states[i], states[0].lastSequence + 1, a, b);
  }

  lemma GroupFacts(s: Sys, first: nat, a: nat, b: nat)
    requires Inv(s, first) && s.phase == Free && a < b < |s.groups|
    ensures
      var ga, gb := s.groups[a], s.groups[b];
      && s.arrived == Served(s.groups) + s.queue
      && s.mem == Inserted(s.groups)
      && ga.start + |ga.ops| <= gb.start
      && gb.start + |gb.ops| <= s.lastSequence + 1
      && (ga.ok ==> ga.ops == GroupOps(ga.writers) && (ga.inserted || ga.ops == []))
      && (forall j :: 0 <= j < |ga.writers| && ga.writers[j].sync ==> ga.writers[0].sync)
  {
    hide Served, Inserted, GroupOps, GroupGood, StartAt;
    StartAtStep(first, s.groups, a);
    StartAtStep(first, s.groups, b);
    StartAtMonotone(first, s.groups, a + 1, b);
    StartAtMonotone(first, s.groups, b + 1, |s.groups|);
    assert Inserted(s.groups) + [] == Inserted(s.groups);
    GoodGroupFacts(s.groups[a]);
  }

  /** Nobody waits for ever on the protocol: while a writer is queued, the front writer
      or its leader has a step to take. */
  lemma FrontCanStep(s: Sys, first: nat) returns (step: Step, s': Sys)
    requires Inv(s, first) && s.queue != []
    ensures Next(s, step, s') && !step.Enqueue? && !step.BackgroundError?
  {
    hide GroupsOk, Served, Inserted, Logged, StartAt, GroupOps, SyncedOk, NoFailure, FailureIsFinal, TotalSize, GroupGood;
    if s.phase.Busy? {
      var p := s.phase;
      var c := Chunk(p.start, p.updates);
      match p.at
      case ToLog => step, s' := Append(true), s.(log := s.log + [c], phase := p.(at := ToSync, logged := true, ok := true));
      case ToSync =>
        step := Sync(true);
        s' := if p.ok && s.queue[0].sync then s.(synced := |s.log|, phase := p.(at := ToInsert, ok := true))
              else s.(phase := p.(at := ToInsert));
      case ToInsert => step, s' := Insert, s.(mem := if p.ok then s.mem + [c] else s.mem, phase := p.(at := ToFinish));
      case ToFinish =>
        step := Finish;
        s' := s.(
          queue := s.queue[p.n..], lastSequence := s.lastSequence + |p.updates|, phase := Free,
          bgError := s.bgError || (p.logged && !p.ok),
          groups := s.groups + [Group(p.start, s.queue[..p.n], p.updates, p.logged, p.ok, p.ok)]);
    } else {
      var alone := s.(queue := s.queue[1..]);
      if s.bgError {
        step, s' := Fail, alone.(groups := s.groups + [Group(s.lastSequence + 1, s.queue[..1], [], false, false, false)]);
      } else if s.queue[0].batch.None? {
        step, s' := Switched, alone.(groups := s.groups + [Group(s.lastSequence + 1, s.queue[..1], [], false, true, false)]);
      } else {
        One(s.queue);
        step, s' := Lead(1), s.(phase := Busy(1, GroupOps(s.queue[..1]), s.lastSequence + 1, ToLog, false, true));
      }
    }
  }

  // ----- the log comes first -----

  /** a is b with some elements left out. */
  ghost predicate Subsequence(a: seq<Chunk>, b: seq<Chunk>) {
    || a == []
    || (b != []
        && var b1 := b[..|b| - 1];
           (a[|a| - 1] == b[|b| - 1] && Subsequence(a[..|a| - 1], b1)) || Subsequence(a, b1))
  }

  lemma SubsequenceBoth(a: seq<Chunk>, b: seq<Chunk>, c: Chunk)
    requires Subsequence(a, b)
    ensures Subsequence(a + [c], b + [c])
  {
    assert (a + [c])[..|a|] == a && (b + [c])[..|b|] == b;
  }

  lemma SubsequenceSkip(a: seq<Chunk>, b: seq<Chunk>, c: Chunk)
    requires Subsequence(a, b)
    ensures Subsequence(a, b + [c])
  {
    assert (b + [c])[..|b|] == b;
  }

  lemma SubsequenceMore(a: seq<Chunk>, b: seq<Chunk>, more: seq<Chunk>, all: seq<Chunk>)
    requires Subsequence(a, b) && |all| <= 1 && (more == all || more == [])
    ensures Subsequence(a + more, b + all)
  {
    hide Subsequence;
    assert a + [] == a && b + [] == b;
    assert all == [] || all == [all[0]];
    if more != [] {
      SubsequenceBoth(a, b, all[0]);
    } else if all != [] {
      SubsequenceSkip(a, b, all[0]);
    }
  }

  lemma {:induction false} InsertedWasLogged(groups: seq<Group>)
    requires forall i :: 0 <= i < |groups| && groups[i].inserted ==> groups[i].logged
    ensures Subsequence(Inserted(groups), Logged(groups))
  {
    hide Subsequence;
    if groups == [] {
      assert Subsequence([], []) by { EmptySubsequence(); }
    } else {
      var front, g := groups[..|groups| - 1], groups[|groups| - 1];
      InsertedWasLogged(front);
      SubsequenceMore(Inserted(front), Logged(front), ChunkIf(g.inserted, g), ChunkIf(g.logged, g));
    }
  }

  lemma EmptySubsequence()
    ensures Subsequence([], [])
  {
  }

  /** Where the record of group a is in the log. */
  lemma {:induction false} LoggedAt(groups: seq<Group>, a: nat)
    requires a < |groups| && groups[a].logged
    ensures
      var p := |Logged(groups[..a])|;
      && |Logged(groups[..a + 1])| == p + 1 <= |Logged(groups)|
      && Logged(groups)[p] == Chunk(groups[a].start, groups[a].ops)
  {
    var n := |groups| - 1;
    var front := groups[..n];
    if a == n {
      assert groups[..a + 1] == groups;
    } else {
      LoggedAt(front, a);
      assert front[..a] == groups[..a] && front[..a + 1] == groups[..a + 1];
    }
  }

  /** The records of the appends that succeeded among the first i steps, each numbered
      after everything published before it. */
  ghost function Appends(states: seq<Sys>, steps: seq<Step>, i: nat): seq<Chunk>
    requires |states| == |steps| + 1 && i <= |steps|
  {
    if i == 0 then []
    else
      var s := states[i - 1];
      Appends(states, steps, i - 1)
      + (if steps[i - 1] == Append(true) && s.phase.Busy? && s.phase.n <= |s.queue|
         then [Chunk(s.lastSequence + 1, GroupOps(s.queue[..s.phase.n]))] else [])
  }

  lemma {:induction false} LogIsAppends(states: seq<Sys>, steps: seq<Step>, i: nat)
    requires IsRun(states, steps) && i < |states|
    ensures states[i].log == Appends(states, steps, i)
  {
    hide Init, Inv, Next;
    if i == 0 {
      assert states[0].log == [] by { InitLog(states[0]); }
    } else {
      LogIsAppends(states, steps, i - 1);
      RunInv(states, steps, i - 1);
      StepLog(states[i - 1], steps[i - 1], states[i], states[0].lastSequence + 1);
    }
  }

  lemma InitLog(s: Sys)
    requires Init(s)
    ensures s.log == []
  {
  }

  lemma StepLog(s: Sys, step: Step, s': Sys, first: nat)
    requires Inv(s, first) && Next(s, step, s')
    ensures s'.log == s.log +
      (if step == Append(true) && s.phase.Busy? && s.phase.n <= |s.queue|
       then [Chunk(s.lastSequence + 1, GroupOps(s.queue[..s.phase.n]))] else [])
  {
    hide GroupsOk, Served, Inserted, Logged, StartAt, GroupOps, SyncedOk, NoFailure, FailureIsFinal;
  }

  /** In every state of every interleaving, also between the log write and the
      insertion: the log is the records of the appends that succeeded, once each, in
      service order and with their sequence numbers; the memtable is a subsequence of
      the log; after a group whose sync failed nothing more is logged. */
  lemma LogBeforeMemtable(states: seq<Sys>, steps: seq<Step>, i: nat)
    requires IsRun(states, steps) && i < |states|
    ensures
      var s := states[i];
      && s.log == Appends(states, steps, i) == Logged(s.groups) + LogChunk(s.phase)
      && s.mem == Inserted(s.groups) + MemChunk(s.phase)
      && Subsequence(s.mem, s.log)
      && FailureIsFinal(s.groups)
  {
    hide IsRun, Appends, Inv;
    LogIsAppends(states, steps, i);
    RunInv(states, steps, i);
    MemFollowsLog(states[i], states[0].lastSequence + 1);
  }

  lemma MemFollowsLog(s: Sys, first: nat)
    requires Inv(s, first)
    ensures s.log == Logged(s.groups) + LogChunk(s.phase)
    ensures s.mem == Inserted(s.groups) + MemChunk(s.phase)
    ensures Subsequence(s.mem, s.log) && FailureIsFinal(s.groups)
  {
    hide Served, Inserted, Logged, StartAt, GroupOps, GroupOk, SyncedOk, NoFailure, FailureIsFinal, Subsequence;
    InsertedWasLogged(s.groups);
    SubsequenceMore(Inserted(s.groups), Logged(s.groups), MemChunk(s.phase), LogChunk(s.phase));
  }

  /** A record enters the memtable only when it is already the last of the log, and a
      sync leader's only when the whole log is on disk. */
  lemma InsertedAfterLogged(states: seq<Sys>, steps: seq<Step>, i: nat)
    requires IsRun(states, steps) && i < |steps| && states[i + 1].mem != states[i].mem
    ensures
      var s, s' := states[i], states[i + 1];
      && s'.log == s.log && |s.log| > 0
      && s'.mem == s.mem + [s.log[|s.log| - 1]]
      && |s.queue| > 0 && (s.queue[0].sync ==> s.synced == |s.log|)
  {
    RunInv(states, steps, i);
    StepInserts(states[i], steps[i], states[i + 1], states[0].lastSequence + 1);
  }

  lemma StepInserts(s: Sys, step: Step, s': Sys, first: nat)
    requires Inv(s, first) && Next(s, step, s') && s'.mem != s.mem
    ensures s'.log == s.log && |s.log| > 0
    ensures s'.mem == s.mem + [s.log[|s.log| - 1]]
    ensures |s.queue| > 0 && (s.queue[0].sync ==> s.synced == |s.log|)
  {
    hide GroupsOk, Served, Inserted, Logged, StartAt, GroupOps, SyncedOk, NoFailure, FailureIsFinal;
  }

  /** A group told that it succeeded, if it has operations, has its record in the log,
      numbered from its start; if any of its writers asked for sync, the record is
      on disk. */
  lemma AcknowledgedIsLogged(states: seq<Sys>, steps: seq<Step>, i: nat, a: nat)
    requires IsRun(states, steps) && i < |states| && a < |states[i].groups|
    requires states[i].groups[a].ok && states[i].groups[a].ops != []
    ensures
      var s := states[i];
      var g, p := s.groups[a], |Logged(s.groups[..a])|;
      && p < |s.log| && s.log[p] == Chunk(g.start, g.ops) && g.ops == GroupOps(g.writers)
      && ((exists w :: w in g.writers && w.sync) ==> p < s.synced <= |s.log|)
  {
    hide IsRun, Inv, Logged, GroupOps;
    RunInv(states, steps, i);
    GroupIsLogged(states[i], states[0].lastSequence + 1, a);
  }

  lemma GroupIsLogged(s: Sys, first: nat, a: nat)
    requires Inv(s, first) && a < |s.groups| && s.groups[a].ok && s.groups[a].ops != []
    ensures
      var g, p := s.groups[a], |Logged(s.groups[..a])|;
      && p < |s.log| && s.log[p] == Chunk(g.start, g.ops) && g.ops == GroupOps(g.writers)
      && ((exists w :: w in g.writers && w.sync) ==> p < s.synced <= |s.log|)
  {
    hide Served, Inserted, Logged, StartAt, GroupOps, PhaseOk, NoFailure, FailureIsFinal;
    var g := s.groups[a];
    assert GroupGood(g);
    LoggedAt(s.groups, a);
  }

  /** Writer j of a group owns one contiguous run of the group's operations, right
      after those of the writers queued before it. */
  lemma {:induction false} WriterSlot(ws: seq<Writer>, j: nat)
    requires j < |ws|
    ensures
      var off, mine := |GroupOps(ws[..j])|, OpsOf(ws[j]);
      && off + |mine| == |GroupOps(ws[..j + 1])| <= |GroupOps(ws)|
      && GroupOps(ws)[off..off + |mine|] == mine
  {
    hide OpsOf;
    var n := |ws| - 1;
    More(ws, j);
    assert ws[..n + 1] == ws;
    if j == n {
      EndSlice(GroupOps(ws[..n]), OpsOf(ws[n]));
    } else {
      WriterSlot(ws[..n], j);
      assert ws[..n][..j] == ws[..j] && ws[..n][..j + 1] == ws[..j + 1];
      InnerSlice(GroupOps(ws[..n]), OpsOf(ws[n]), |GroupOps(ws[..j])|, |GroupOps(ws[..j + 1])|);
      More(ws, n);
    }
  }

  lemma EndSlice(a: seq<Op>, b: seq<Op>)
    ensures (a + b)[|a|..|a| + |b|] == b
  {
  }

  lemma InnerSlice(a: seq<Op>, b: seq<Op>, i: nat, j: nat)
    requires i <= j <= |a|
    ensures (a + b)[i..j] == a[i..j]
  {
  }

  lemma GoodGroupFacts(g: Group)
    requires GroupGood(g)
    ensures g.ok ==> g.ops == GroupOps(g.writers) && (g.inserted || g.ops == [])
    ensures forall j :: 0 <= j < |g.writers| && g.writers[j].sync ==> g.writers[0].sync
  {
  }
}
