/** What readers see in every run: snapshots never change, and the latest view is
    the map that the writes describe. */
module LsmReads {
  import opened InternalKeys
  import opened Version
  import opened Compaction
  import opened CleanCuts
  import opened Lsm
  import opened LsmInvariant

  /** What a reader of k at `snap` must see. */
  ghost function View(db: Db, k: UserKey, snap: nat): Option<Value> {
    Read(All(db), k, snap)
  }

  /** A snapshot some reader may use. */
  ghost predicate Live(db: Db, snap: nat) {
    snap == db.lastSeq || snap in db.snapshots
  }

  // ----- no step changes a live view -----

  lemma WriteKeepsViews(db: Db, ops: seq<Op>, db': Db, k: UserKey, snap: nat)
    requires Inv(db) && WriteStep(db, ops, db') && snap <= db.lastSeq
    ensures View(db', k, snap) == View(db, k, snap)
  {
    var B := BatchEntries(ops, db.lastSeq + 1);
    BatchSeqnos(ops, db.lastSeq + 1);
    assert ImmRun(db') == ImmRun(db);
    assert All(db') == All(db) + B;
    WriteKeepsInv(db, ops, db');
    SameCandidatesSameRead(All(db'), snap, All(db), snap, k);
  }

  lemma FinishKeepsViews(db: Db, outs: seq<File>, db': Db, k: UserKey, snap: nat)
    requires Inv(db) && FinishStep(db, outs, db') && db.job.value.floor <= snap
    ensures View(db', k, snap) == View(db, k, snap)
  {
    var j := db.job.value;
    var I := FileEntries(j.in0 + j.in1);
    var R := MemEntries(db) + VersionEntries(Rest(db.v, j.level, j.in0, j.in1));
    FinishEntries(db, outs, db');
    EntriesBefore(db.v, j.level, j.in0, j.in1);
    MemNewerThanInputs(db, I);
    JobHasNoResurrection(db.v, j.input, j.level, j.in0, j.in1, MemEntries(db), j.floor);
    PreservedAt(j.input, j.level, I, R, j.floor, k, snap);
  }

  lemma MemNewerThanInputs(db: Db, I: set<Entry>)
    requires MemInv(db) && I <= VersionEntries(db.v)
    ensures NewerEntries(MemEntries(db), I)
  {
  }

  /** Whatever the engine does, a live reader's view stays the same. */
  lemma NextKeepsViews(db: Db, step: Step, db': Db, k: UserKey, snap: nat)
    requires Inv(db) && Next(db, step, db') && Live(db, snap)
    ensures View(db', k, snap) == View(db, k, snap)
  {
    match step
    case Write(ops) =>
      WriteKeepsViews(db, ops, db', k, snap);
    case SwitchMemtable =>
      assert All(db') == All(db);
    case Flush(level) =>
      FlushKeepsInv(db, level, db');
    case TakeSnapshot =>
      assert All(db') == All(db);
    case ReleaseSnapshot(i) =>
      assert All(db') == All(db);
    case TrivialMove(L, f) =>
      MoveKeepsInv(db, L, f, db');
    case StartCompaction(L, in0, in1) =>
      assert All(db') == All(db);
    case FinishCompaction(outs) =>
      FinishKeepsViews(db, outs, db', k, snap);
  }

  // ----- runs -----

  ghost predicate IsRun(states: seq<Db>, steps: seq<Step>) {
    && |states| == |steps| + 1
    && Init(states[0])
    && forall i :: 0 <= i < |steps| ==> Next(states[i], steps[i], states[i + 1])
  }

  lemma {:induction false} ReachableInv(states: seq<Db>, steps: seq<Step>, i: nat)
    requires IsRun(states, steps) && i < |states|
    ensures Inv(states[i])
  {
    if i == 0 {
      InitInv(states[0]);
    } else {
      ReachableInv(states, steps, i - 1);
      NextKeepsInv(states[i - 1], steps[i - 1], states[i]);
    }
  }

  /** Snapshot isolation: while a snapshot is held, reads through it never change. */
  lemma {:induction false} SnapshotIsStable(states: seq<Db>, steps: seq<Step>, i: nat, j: nat, k: UserKey, snap: nat)
    requires IsRun(states, steps) && i <= j < |states|
    requires forall n :: i <= n < j ==> Live(states[n], snap)
    ensures View(states[j], k, snap) == View(states[i], k, snap)
    decreases j
  {
    hide Inv, Next, Init, View;
    if i < j {
      SnapshotIsStable(states, steps, i, j - 1, k, snap);
      ReachableInv(states, steps, j - 1);
      NextKeepsViews(states[j - 1], steps[j - 1], states[j], k, snap);
    }
  }

  // ----- what a compaction clears away -----

  /** Every view that is live, or will be taken, is at or after sequence number n. */
  ghost predicate OldForAll(db: Db, n: nat) {
    n <= db.lastSeq && forall i :: 0 <= i < |db.snapshots| ==> n <= db.snapshots[i]
  }

  /** A compaction works with the version and the snapshots of the moment it began. */
  lemma {:induction false} JobIsKept(states: seq<Db>, steps: seq<Step>, a: nat, b: nat)
    requires IsRun(states, steps) && a < b < |states| && steps[a].StartCompaction?
    requires forall i :: a < i < b ==> !steps[i].FinishCompaction?
    ensures states[b].job ==
      Some(Job(steps[a].level, steps[a].in0, steps[a].in1, states[a].v, Floor(states[a])))
    decreases b
  {
    hide Init, Floor;
    assert Next(states[b - 1], steps[b - 1], states[b]);
    if b > a + 1 {
      JobIsKept(states, steps, a, b - 1);
      StepKeepsJob(states[b - 1], steps[b - 1], states[b]);
    }
  }

  lemma StepKeepsJob(db: Db, step: Step, db': Db)
    requires Next(db, step, db') && db.job.Some? && !step.FinishCompaction?
    ensures db'.job == db.job
  {
    hide CleanCut, Sorted, Entries, BatchEntries;
    if step.Flush? && db.imm.value != [] {
      var f :| FlushTo(db, step.level, f, db');
    }
  }

  lemma OldIsAtFloor(db: Db, n: nat)
    requires OldForAll(db, n)
    ensures n <= Floor(db)
  {
  }

  /** Of two survivors for a key, both at or below the floor, the older would be hidden. */
  lemma OneSurvivor(v: Levels, L: nat, I: set<Entry>, floor: nat, x: Entry, y: Entry)
    requires x in Survivors(v, L, I, floor) && y in Survivors(v, L, I, floor)
    requires x.key.user == y.key.user && x.key.seqno <= floor && y.key.seqno <= floor
    ensures x.key.seqno == y.key.seqno
    ensures x.key.kind == Deletion ==> !BaseLevelFor(v, L, x.key.user)
  {
    assert !Hidden(I, x, floor) && !Hidden(I, y, floor);
  }

  lemma OutputsAreHeld(db: Db, outs: seq<File>, db': Db, e: Entry)
    requires FinishStep(db, outs, db') && e in FileEntries(outs)
    ensures e in All(db')
  {
    hide UnusedNumbers;
    var f := FileEntriesFrom(outs, e);
    var L := db.job.value.level;
    assert f in db'.v[L + 1];
    FileEntriesHas(db'.v[L + 1], f, e);
    VersionEntriesHas(db'.v, L + 1, e);
  }

  /** Among the entries a compaction writes, at most one for each user key is at or
      below every view that was live when it began, and that one is no deletion
      marker unless a file two or more levels down covers its key. */
  lemma CompactionKeepsOneOldEntry(states: seq<Db>, steps: seq<Step>, a: nat, b: nat, x: Entry, y: Entry)
    requires IsRun(states, steps) && a < b < |steps| && steps[a].StartCompaction? && steps[b].FinishCompaction?
    requires forall i :: a < i < b ==> !steps[i].FinishCompaction?
    requires x in FileEntries(steps[b].outs) && y in FileEntries(steps[b].outs) && x.key.user == y.key.user
    requires OldForAll(states[a], x.key.seqno) && OldForAll(states[a], y.key.seqno)
    ensures x == y
    ensures x.key.kind == Deletion ==> !BaseLevelFor(states[a].v, steps[a].level, x.key.user)
  {
    hide Init, Inv, OldForAll, Survivors, FinishStep, BaseLevelFor, Floor;
    JobIsKept(states, steps, a, b);
    ReachableInv(states, steps, b + 1);
    OldIsAtFloor(states[a], x.key.seqno);
    OldIsAtFloor(states[a], y.key.seqno);
    assert Next(states[b], steps[b], states[b + 1]);
    FinishMeans(states[b], steps[b].outs, states[b + 1]);
    var j := states[b].job.value;
    OneSurvivor(states[a].v, j.level, FileEntries(j.in0 + j.in1), j.floor, x, y);
    OutputsAreHeld(states[b], steps[b].outs, states[b + 1], x);
    OutputsAreHeld(states[b], steps[b].outs, states[b + 1], y);
    HeldOnce(states[b + 1], x, y);
  }

  lemma FinishMeans(db: Db, outs: seq<File>, db': Db)
    requires FinishStep(db, outs, db')
    ensures db.job.Some?
    ensures var j := db.job.value;
            FileEntries(outs) == Survivors(j.input, j.level, FileEntries(j.in0 + j.in1), j.floor)
  {
    hide Survivors, FileEntries;
  }

  lemma HeldOnce(db: Db, x: Entry, y: Entry)
    requires Inv(db) && x in All(db) && y in All(db) && x.key.user == y.key.user && x.key.seqno == y.key.seqno
    ensures x == y
  {
    hide FilesInv, SnapshotsOk, JobInv, NewerEntries, Sorted, VersionEntries;
  }

  // ----- the latest view is a map -----

  /** The value of k after applying ops in order to a map where it was `was`. */
  function Applied(ops: seq<Op>, k: UserKey, was: Option<Value>): Option<Value> {
    if ops == [] then was
    else
      var op := ops[|ops| - 1];
      if op.key == k then (if op.OpPut? then Some(op.value) else None)
      else Applied(ops[..|ops| - 1], k, was)
  }

  /** All operations written by a run, in order. */
  function Written(steps: seq<Step>): seq<Op> {
    if steps == [] then []
    else
      var last := steps[|steps| - 1];
      Written(steps[..|steps| - 1]) + (if last.Write? then last.ops else [])
  }

  lemma {:induction false} ReadAfterBatch(E: set<Entry>, ops: seq<Op>, n: nat, k: UserKey)
    requires Unique(E) && SeqnosAtMost(E, n)
    ensures Read(E + BatchEntries(ops, n + 1), k, n + |ops|) == Applied(ops, k, Read(E, k, n))
  {
    hide Unique, SeqnosAtMost, Read;
    if ops == [] {
      assert E + BatchEntries(ops, n + 1) == E;
    } else {
      var m := |ops| - 1;
      ReadAfterBatch(E, ops[..m], n, k);
      ReadAfterLastOp(E, ops, m, n, k);
    }
  }

  lemma ReadAfterLastOp(E: set<Entry>, ops: seq<Op>, m: nat, n: nat, k: UserKey)
    requires Unique(E) && SeqnosAtMost(E, n) && |ops| == m + 1
    ensures Read(E + BatchEntries(ops, n + 1), k, n + |ops|) ==
      if ops[m].key == k then Payload(OpEntry(ops[m], n + 1 + m))
      else Read(E + BatchEntries(ops[..m], n + 1), k, n + m)
  {
    hide Unique, SeqnosAtMost, Read;
    var x := OpEntry(ops[m], n + 1 + m);
    BatchPrefix(E, ops[..m], n);
    BatchGrows(E, ops, m, n + 1, x);
    ReadAfterOne(E + BatchEntries(ops[..m], n + 1), x, E + BatchEntries(ops, n + 1), n + m, k);
  }

  lemma BatchPrefix(E: set<Entry>, ops: seq<Op>, n: nat)
    requires Unique(E) && SeqnosAtMost(E, n)
    ensures Unique(E + BatchEntries(ops, n + 1)) && SeqnosAtMost(E + BatchEntries(ops, n + 1), n + |ops|)
  {
    BatchSeqnos(ops, n + 1);
    UniqueUnion(E, BatchEntries(ops, n + 1), n);
  }

  lemma BatchGrows(E: set<Entry>, ops: seq<Op>, m: nat, start: nat, x: Entry)
    requires |ops| == m + 1 && x == OpEntry(ops[m], start + m)
    ensures E + BatchEntries(ops, start) == E + BatchEntries(ops[..m], start) + {x}
  {
  }

  lemma ReadAfterOne(E: set<Entry>, x: Entry, F: set<Entry>, n: nat, k: UserKey)
    requires Unique(E) && SeqnosAtMost(E, n) && x.key.seqno == n + 1 && F == E + {x}
    ensures Read(F, k, n + 1) == if x.key.user == k then Payload(x) else Read(E, k, n)
  {
    UniqueUnion(E, {x}, n);
    if x.key.user == k {
      assert Newest(F, k, n + 1, x);
      ReadOfNewest(F, k, n + 1, x);
    } else {
      SameCandidatesSameRead(F, n + 1, E, n, k);
    }
  }

  lemma WriteAdds(db: Db, ops: seq<Op>, db': Db)
    requires WriteStep(db, ops, db')
    ensures All(db') == All(db) + BatchEntries(ops, db.lastSeq + 1)
  {
    assert ImmRun(db') == ImmRun(db);
  }

  lemma WriteUpdatesLatest(db: Db, ops: seq<Op>, db': Db, k: UserKey)
    requires MemInv(db) && WriteStep(db, ops, db')
    ensures View(db', k, db'.lastSeq) == Applied(ops, k, View(db, k, db.lastSeq))
  {
    hide Unique, SeqnosAtMost, Read, NewerEntries, Sorted, BatchEntries, Applied, All, Entries, VersionEntries;
    WriteAdds(db, ops, db');
    ReadAfterBatch(All(db), ops, db.lastSeq, k);
  }

  lemma NextUpdatesLatest(db: Db, step: Step, db': Db, k: UserKey)
    requires Inv(db) && Next(db, step, db')
    ensures View(db', k, db'.lastSeq) ==
      Applied(if step.Write? then step.ops else [], k, View(db, k, db.lastSeq))
  {
    if step.Write? {
      WriteUpdatesLatest(db, step.ops, db', k);
    } else {
      NextKeepsViews(db, step, db', k, db.lastSeq);
      LastSeqOnlyWrites(db, step, db');
    }
  }

  lemma LastSeqOnlyWrites(db: Db, step: Step, db': Db)
    requires Next(db, step, db') && !step.Write?
    ensures db'.lastSeq == db.lastSeq
  {
    if step.Flush? && db.imm.value != [] {
      var f :| FlushTo(db, step.level, f, db');
    }
  }

  lemma {:induction false} AppliedConcat(a: seq<Op>, b: seq<Op>, k: UserKey, was: Option<Value>)
    ensures Applied(a + b, k, was) == Applied(b, k, Applied(a, k, was))
  {
    if b == [] {
      assert a + b == a;
    } else {
      var n := |b| - 1;
      assert (a + b)[..|a + b| - 1] == a + b[..n];
      AppliedConcat(a, b[..n], k, was);
    }
  }

  /** After any run, whatever was flushed, moved or compacted in between, the
      latest read of k is the last operation written for k. */
  lemma {:induction false} LatestIsLastWritten(states: seq<Db>, steps: seq<Step>, k: UserKey)
    requires IsRun(states, steps)
    ensures View(states[|steps|], k, states[|steps|].lastSeq) == Applied(Written(steps), k, None)
    decreases |steps|
  {
    var n := |steps|;
    if n == 0 {
      NoEntries(states[0].v);
      ReadOfAbsent(All(states[0]), k, 0);
    } else {
      var states', steps' := states[..n], steps[..n - 1];
      assert IsRun(states', steps');
      LatestIsLastWritten(states', steps', k);
      ReachableInv(states, steps, n - 1);
      NextUpdatesLatest(states[n - 1], steps[n - 1], states[n], k);
      AppliedConcat(Written(steps'), if steps[n - 1].Write? then steps[n - 1].ops else [], k, None);
    }
  }

  // ----- DBImpl::Get -----

  /** The memtable, then the immutable memtable, then the levels; the first of
      them that knows the key decides. */
  method Get(db: Db, k: UserKey, snap: nat) returns (r: Option<Value>)
    requires Inv(db)
    ensures r == View(db, k, snap)
  {
    SearchRunFindsNewest(db.mem, k, snap);
    var hit := SearchRun(db.mem, k, snap);
    if hit.Some? {
      HitInMem(db, k, snap, hit.value);
      return Payload(hit.value);
    }
    if db.imm.Some? {
      SearchRunFindsNewest(db.imm.value, k, snap);
      hit := SearchRun(db.imm.value, k, snap);
      if hit.Some? {
        HitInImm(db, k, snap, hit.value);
        return Payload(hit.value);
      }
    }
    hit := Version.Get(db.v, k, snap);
    HitInVersion(db, k, snap, hit);
    r := if hit.Some? then Payload(hit.value) else None;
  }

  lemma HitInMem(db: Db, k: UserKey, snap: nat, e: Entry)
    requires MemInv(db) && Newest(Entries(db.mem), k, snap, e)
    ensures View(db, k, snap) == Payload(e)
  {
    assert e in MemEntries(db);
    assert Newest(All(db), k, snap, e);
    ReadOfNewest(All(db), k, snap, e);
  }

  lemma HitInImm(db: Db, k: UserKey, snap: nat, e: Entry)
    requires MemInv(db) && Absent(Entries(db.mem), k, snap) && Newest(Entries(ImmRun(db)), k, snap, e)
    ensures View(db, k, snap) == Payload(e)
  {
    assert e in MemEntries(db);
    assert Newest(All(db), k, snap, e);
    ReadOfNewest(All(db), k, snap, e);
  }

  lemma HitInVersion(db: Db, k: UserKey, snap: nat, hit: Option<Entry>)
    requires MemInv(db) && Absent(MemEntries(db), k, snap) && Answers(VersionEntries(db.v), k, snap, hit)
    ensures View(db, k, snap) == if hit.Some? then Payload(hit.value) else None
  {
    if hit.Some? {
      assert Newest(All(db), k, snap, hit.value);
      ReadOfNewest(All(db), k, snap, hit.value);
    } else {
      ReadOfAbsent(All(db), k, snap);
    }
  }
}
