/** Durability over whole runs: any number of writes, flushes, compactions, file
    deletions, crashes, failed recoveries and reopenings. */
module RecoveryRuns {
  import opened InternalKeys
  import opened Recovery

  // ----- disk and memory agree -----

  lemma NeededSplit(s: Sys, p: Process, e: Entry)
    requires LogsOk(s, p)
    ensures InNeededLogs(s, e) <==> InOlderLog(s, p.log, e) || InLog(s.logs[p.log], e)
  {
    hide InLog;
    if InNeededLogs(s, e) {
      var n :| n in s.logs && s.manifest.logNumber <= n && InLog(s.logs[n], e);
      assert n == p.log || n < p.log;
    }
    if InOlderLog(s, p.log, e) {
      var n :| n in s.logs && s.manifest.logNumber <= n < p.log && InLog(s.logs[n], e);
    }
  }

  /** What recovery would rebuild is what the database holds and, at most, the one
      record appended but not yet acknowledged. */
  lemma DurableIsPresent(s: Sys, e: Entry)
    requires Inv(s) && s.process.Some?
    ensures Durable(s, e) <==> Present(s, s.process.value, e) || InFlightHas(s.process.value, e)
  {
    hide InLog, InOlderLog, InNeededLogs, InTables;
    NeededSplit(s, s.process.value, e);
  }

  /** Reopening holds exactly what was durable, and numbers new writes above it. */
  lemma ReopenRebuilds(s: Sys, r: set<nat>, s': Sys, e: Entry)
    requires Inv(s) && ReopenStep(s, r, s')
    ensures Durable(s, e) <==> Present(s', s'.process.value, e)
    ensures Present(s', s'.process.value, e) ==> e.key.seqno <= s'.process.value.lastSeq
  {
    hide InTables, InNeededLogs;
    RecoveredTables(s, r, s');
  }

  // ----- what each step does to the durable entries -----

  ghost predicate Appended(step: Step, e: Entry) {
    step.Append? && e in step.rec.entries
  }

  /** The step is a compaction that takes e out of the tables. */
  ghost predicate Dropped(s: Sys, step: Step, s': Sys, e: Entry) {
    && step.InstallCompaction?
    && InTables(s.tables, s.manifest.live, e)
    && !InTables(s'.tables, s'.manifest.live, e)
    && !InNeededLogs(s', e)
  }

  ghost predicate SameNeeded(s: Sys, s': Sys) {
    forall e :: InNeededLogs(s', e) <==> InNeededLogs(s, e)
  }

  /** Needed logs are as before, apart from added empty ones. */
  lemma NeededKept(s: Sys, s': Sys)
    requires s'.manifest.logNumber == s.manifest.logNumber
    requires forall n :: n in s.logs && s.manifest.logNumber <= n ==> n in s'.logs && s'.logs[n] == s.logs[n]
    requires forall n :: n in s'.logs && s.manifest.logNumber <= n ==> n in s.logs || s'.logs[n] == []
    ensures SameNeeded(s, s')
  {
    forall e
      ensures InNeededLogs(s', e) <==> InNeededLogs(s, e)
    {
      if InNeededLogs(s, e) {
        var n :| n in s.logs && s.manifest.logNumber <= n && InLog(s.logs[n], e);
        assert n in s'.logs && InLog(s'.logs[n], e);
      }
      if InNeededLogs(s', e) {
        var n :| n in s'.logs && s'.manifest.logNumber <= n && InLog(s'.logs[n], e);
        assert n in s.logs && InLog(s.logs[n], e);
      }
    }
  }

  ghost predicate StepKeeps(s: Sys, step: Step, s': Sys, e: Entry) {
    Durable(s', e) <==> (Durable(s, e) && !Dropped(s, step, s', e)) || Appended(step, e)
  }

  lemma AppendKeeps(s: Sys, rec: Rec, s': Sys, e: Entry)
    requires Inv(s) && AppendStep(s, rec, s')
    ensures StepKeeps(s, Append(rec), s', e)
  {
    hide InLog, InOlderLog, InNeededLogs, InTables;
    AppendKeepsInv(s, rec, s');
    NeededSplit(s, s.process.value, e);
    NeededSplit(s', s'.process.value, e);
  }

  lemma SwitchKeeps(s: Sys, s': Sys, e: Entry)
    requires Inv(s) && SwitchStep(s, s')
    ensures StepKeeps(s, SwitchMemtable, s', e)
  {
    hide InLog, InNeededLogs, InTables;
    NeededKept(s, s');
  }

  lemma FlushKeeps(s: Sys, n: nat, nf: nat, ls: nat, s': Sys, e: Entry)
    requires Inv(s) && InstallFlushStep(s, n, nf, ls, s')
    ensures StepKeeps(s, InstallFlush(n, nf, ls), s', e)
  {
    hide InLog, InOlderLog, InNeededLogs, InTables;
    InstallFlushKeepsInv(s, n, nf, ls, s');
    FlushedTables(s, n, nf, ls, s');
    NeededSplit(s, s.process.value, e);
    NeededSplit(s', s'.process.value, e);
  }

  lemma CompactionKeeps(s: Sys, ins: set<nat>, outs: set<nat>, nf: nat, ls: nat, s': Sys, e: Entry)
    requires Inv(s) && InstallCompactionStep(s, ins, outs, nf, ls, s')
    ensures StepKeeps(s, InstallCompaction(ins, outs, nf, ls), s', e)
  {
    hide InNeededLogs, InTables;
    CompactedTables(s, ins, outs, nf, ls, s');
    NeededKept(s, s');
  }

  lemma WriteTableKeeps(s: Sys, c: set<Entry>, s': Sys, e: Entry)
    requires Inv(s) && WriteTableStep(s, c, s')
    ensures StepKeeps(s, WriteTable(c), s', e)
  {
    hide InNeededLogs, InTables;
    SameTables(s.tables, s'.tables, s.manifest.live);
    NeededKept(s, s');
  }

  lemma DeleteKeeps(s: Sys, s': Sys, e: Entry)
    requires Inv(s) && DeleteStep(s, s')
    ensures StepKeeps(s, DeleteObsoleteFiles, s', e)
  {
    hide InNeededLogs, InTables;
    SameTables(s.tables, s'.tables, s.manifest.live);
    NeededKept(s, s');
  }

  lemma RecoverTableKeeps(s: Sys, n: nat, c: set<Entry>, s': Sys, e: Entry)
    requires Inv(s) && RecoverTableStep(s, n, c, s')
    ensures StepKeeps(s, RecoverTable(n, c), s', e)
  {
    hide InNeededLogs, InTables;
    SameTables(s.tables, s'.tables, s.manifest.live);
    NeededKept(s, s');
  }

  lemma RecoverLogKeeps(s: Sys, n: nat, s': Sys, e: Entry)
    requires Inv(s) && RecoverLogStep(s, n, s')
    ensures StepKeeps(s, RecoverLog(n), s', e)
  {
    hide InLog, InNeededLogs, InTables;
    NeededKept(s, s');
  }

  lemma ReopenKeeps(s: Sys, r: set<nat>, s': Sys, e: Entry)
    requires Inv(s) && ReopenStep(s, r, s')
    ensures StepKeeps(s, Reopen(r), s', e)
  {
    hide InLog, InOlderLog, InNeededLogs, InTables;
    RecoveredTables(s, r, s');
    ReopenKeepsInv(s, r, s');
    NeededSplit(s', s'.process.value, e);
  }

  /** Steps that touch neither the manifest nor a file. */
  lemma SameDiskKeeps(s: Sys, step: Step, s': Sys, e: Entry)
    requires s'.logs == s.logs && s'.tables == s.tables && s'.manifest == s.manifest
    requires !step.Append? && !step.InstallCompaction?
    ensures StepKeeps(s, step, s', e)
  {
    hide InTables;
    NeededKept(s, s');
  }

  /** Only an append adds a durable entry and only a compaction removes one: not a
      flush, not a file deletion, not a crash, not an unfinished recovery. */
  lemma NextKeepsDurable(s: Sys, step: Step, s': Sys, e: Entry)
    requires Inv(s) && Next(s, step, s')
    ensures StepKeeps(s, step, s', e)
  {
    hide Inv, StepKeeps, AppendStep, SwitchStep, WriteTableStep, InstallFlushStep;
    hide InstallCompactionStep, DeleteStep, RecoverTableStep, RecoverLogStep, ReopenStep;
    match step
    case Append(rec) => AppendKeeps(s, rec, s', e);
    case SwitchMemtable => SwitchKeeps(s, s', e);
    case WriteTable(c) => WriteTableKeeps(s, c, s', e);
    case InstallFlush(n, nf, ls) => FlushKeeps(s, n, nf, ls, s', e);
    case InstallCompaction(ins, outs, nf, ls) => CompactionKeeps(s, ins, outs, nf, ls, s', e);
    case DeleteObsoleteFiles => DeleteKeeps(s, s', e);
    case RecoverTable(n, c) => RecoverTableKeeps(s, n, c, s', e);
    case RecoverLog(n) => RecoverLogKeeps(s, n, s', e);
    case Reopen(r) => ReopenKeeps(s, r, s', e);
    case _ => SameDiskKeeps(s, step, s', e);
  }

  // ----- runs -----

  ghost predicate Run(states: seq<Sys>, steps: seq<Step>) {
    && |states| == |steps| + 1 && Init(states[0])
    && (forall i :: 0 <= i < |steps| ==> Next(states[i], steps[i], states[i + 1]))
  }

  lemma {:induction false} RunInv(states: seq<Sys>, steps: seq<Step>, k: nat)
    requires Run(states, steps) && k <= |steps|
    ensures Inv(states[k])
  {
    hide Inv, Init, Next;
    if k == 0 {
      InitInv(states[0]);
    } else {
      RunInv(states, steps, k - 1);
      assert Next(states[k - 1], steps[k - 1], states[k - 1 + 1]);
      NextKeepsInv(states[k - 1], steps[k - 1], states[k]);
    }
  }

  ghost predicate DroppedAt(states: seq<Sys>, steps: seq<Step>, k: nat, e: Entry)
    requires k < |steps| < |states|
  {
    Dropped(states[k], steps[k], states[k + 1], e)
  }

  /** e was appended at step i and no compaction since has dropped it. */
  ghost predicate Logged(states: seq<Sys>, steps: seq<Step>, i: nat, k: nat, e: Entry)
    requires |steps| < |states|
  {
    && i < k <= |steps| && Appended(steps[i], e)
    && (forall j :: i < j < k ==> !DroppedAt(states, steps, j, e))
  }

  ghost predicate IsLogged(states: seq<Sys>, steps: seq<Step>, k: nat, e: Entry)
    requires |steps| < |states|
  {
    exists i: nat :: Logged(states, steps, i, k, e)
  }

  lemma InitEmpty(s: Sys, e: Entry)
    requires Init(s)
    ensures !Durable(s, e)
  {
  }

  /** At every point of every run, the durable entries are exactly those appended to
      a log and not dropped by a later compaction. */
  lemma {:induction false} DurableIffLogged(states: seq<Sys>, steps: seq<Step>, k: nat, e: Entry)
    requires Run(states, steps) && k <= |steps|
    ensures Durable(states[k], e) <==> IsLogged(states, steps, k, e)
  {
    hide Init, Next, Inv, Durable, Appended, Dropped;
    if k == 0 {
      InitEmpty(states[0], e);
    } else {
      DurableIffLogged(states, steps, k - 1, e);
      RunInv(states, steps, k - 1);
      assert Next(states[k - 1], steps[k - 1], states[k - 1 + 1]);
      NextKeepsDurable(states[k - 1], steps[k - 1], states[k], e);
      LoggedStep(states, steps, k, e);
    }
  }

  lemma LoggedStep(states: seq<Sys>, steps: seq<Step>, k: nat, e: Entry)
    requires 0 < k <= |steps| < |states|
    ensures IsLogged(states, steps, k, e)
            <==> (IsLogged(states, steps, k - 1, e) && !DroppedAt(states, steps, k - 1, e))
                 || Appended(steps[k - 1], e)
  {
    hide Appended, Dropped, DroppedAt;
    NotBoth(states, steps, k - 1, e);
    if IsLogged(states, steps, k - 1, e) {
      var i: nat :| Logged(states, steps, i, k - 1, e);
      if !DroppedAt(states, steps, k - 1, e) {
        assert Logged(states, steps, i, k, e);
      }
    }
    if Appended(steps[k - 1], e) {
      assert Logged(states, steps, k - 1, k, e);
    }
    if IsLogged(states, steps, k, e) {
      var i: nat :| Logged(states, steps, i, k, e);
      if i < k - 1 {
        assert Logged(states, steps, i, k - 1, e);
      }
    }
  }

  lemma NotBoth(states: seq<Sys>, steps: seq<Step>, k: nat, e: Entry)
    requires k < |steps| < |states|
    ensures !(Appended(steps[k], e) && DroppedAt(states, steps, k, e))
  {
  }

  /** The process is down from just after i up to k, and comes up at k + 1. */
  ghost predicate Outage(states: seq<Sys>, steps: seq<Step>, i: nat, k: nat)
    requires |states| == |steps| + 1
  {
    && i < k < |steps| && states[i].process.Some? && states[k + 1].process.Some?
    && (forall j :: i < j <= k ==> states[j].process.None?)
  }

  /** Between a crash and the reopening nothing durable changes. */
  lemma {:induction false} OutageKeepsDurable(states: seq<Sys>, steps: seq<Step>, i: nat, k: nat, e: Entry)
    requires Run(states, steps) && i < k <= |steps| && states[i].process.Some?
    requires forall j :: i < j <= k ==> states[j].process.None?
    ensures Durable(states[k], e) <==> Durable(states[i], e)
  {
    hide Init, Inv, Durable, Next;
    RunInv(states, steps, k - 1);
    assert Next(states[k - 1], steps[k - 1], states[k - 1 + 1]);
    NextKeepsDurable(states[k - 1], steps[k - 1], states[k], e);
    DownStep(states[k - 1], steps[k - 1], states[k]);
    if i < k - 1 {
      OutageKeepsDurable(states, steps, i, k - 1, e);
    }
  }

  /** A step that leaves the process down neither appends nor compacts. */
  lemma DownStep(s: Sys, step: Step, s': Sys)
    requires Next(s, step, s') && s'.process.None?
    ensures !step.Append? && !step.InstallCompaction?
  {
  }

  /** Crash recovery: however often recovery itself is cut short, the reopened
      database holds exactly what the process held and, at most, its one appended
      and unacknowledged record; and its counter is past every sequence number. */
  lemma RecoveryRebuilds(states: seq<Sys>, steps: seq<Step>, i: nat, k: nat, e: Entry)
    requires Run(states, steps) && Outage(states, steps, i, k)
    ensures var p, p' := states[i].process.value, states[k + 1].process.value;
            && (Present(states[k + 1], p', e) <==> Present(states[i], p, e) || InFlightHas(p, e))
            && (Present(states[k + 1], p', e) ==> e.key.seqno <= p'.lastSeq)
  {
    hide Inv, Durable, Present, Init, InTables, ReopenStep;
    RunInv(states, steps, i);
    RunInv(states, steps, k);
    DurableIsPresent(states[i], e);
    OutageKeepsDurable(states, steps, i, k, e);
    assert Next(states[k], steps[k], states[k + 1]);
    OnlyReopenStarts(states[k], steps[k], states[k + 1]);
    ReopenRebuilds(states[k], steps[k].recovered, states[k + 1], e);
  }

  lemma OnlyReopenStarts(s: Sys, step: Step, s': Sys)
    requires Next(s, step, s') && s.process.None? && s'.process.Some?
    ensures step.Reopen? && ReopenStep(s, step.recovered, s')
  {
  }

  // ----- what deletion may not touch -----

  /** No step removes or rewrites a table that is live, pinned by a reader, still being
      produced or waiting for its install, and none removes or rewrites a log that recovery needs. */
  lemma NextKeepsFiles(s: Sys, step: Step, s': Sys)
    requires Inv(s) && Next(s, step, s')
    ensures s.process.Some? ==>
              forall n :: n in s.tables && KeepTable(s.process.value, n) ==> n in s'.tables && s'.tables[n] == s.tables[n]
    ensures s.process.Some? && s.process.value.flushing.Some? ==>
              var n := s.process.value.flushing.value;
              n in s.tables ==> n in s'.tables && s'.tables[n] == s.tables[n]
    ensures forall n :: n in s.tables && n in s.manifest.live ==> n in s'.tables && s'.tables[n] == s.tables[n]
    ensures forall n :: n in s.logs && n >= s.manifest.logNumber ==> n in s'.logs && s.logs[n] <= s'.logs[n]
  {
    hide InTables, InNeededLogs, InLog, SeqnosOk, InFlightHas;
  }

  /** The manifest lists the table, a version in use holds it, or it is being produced. */
  ghost predicate Referenced(m: Manifest, p: Process, n: nat) {
    n in m.live || n in p.pending || exists v :: v in p.pinned && n in v
  }

  /** After DeleteObsoleteFiles, in any run: the tables left are those the manifest
      lists, those of versions still referenced and those being produced; no log
      older than the manifest's is left; nothing that stays has changed. With no
      reader and no compaction at work the tables are exactly the manifest's. */
  lemma DeleteLeavesNoGarbage(states: seq<Sys>, steps: seq<Step>, k: nat)
    requires Run(states, steps) && k < |steps| && steps[k].DeleteObsoleteFiles?
    ensures states[k].process.Some?
    ensures
      var s, s', p := states[k], states[k + 1], states[k].process.value;
      && (forall n :: n in s'.tables <==> n in s.tables && Referenced(s.manifest, p, n))
      && (forall n :: n in s'.logs <==> n in s.logs && n >= s.manifest.logNumber)
      && (forall n :: n in s'.tables ==> s'.tables[n] == s.tables[n])
      && (forall n :: n in s'.logs ==> s'.logs[n] == s.logs[n])
      && s'.manifest == s.manifest && s'.process == s.process
      && (p.pinned == {} && p.pending == {} ==> s'.tables.Keys == s'.manifest.live)
  {
    hide Init;
    RunInv(states, steps, k);
    assert Next(states[k], steps[k], states[k + 1]);
    DeleteLeaves(states[k], states[k + 1]);
  }

  lemma DeleteLeaves(s: Sys, s': Sys)
    requires Inv(s) && DeleteStep(s, s')
    ensures
      var p := s.process.value;
      && (forall n :: n in s'.tables <==> n in s.tables && Referenced(s.manifest, p, n))
      && (forall n :: n in s'.logs <==> n in s.logs && n >= s.manifest.logNumber)
      && (p.pinned == {} && p.pending == {} ==> s'.tables.Keys == s'.manifest.live)
  {
    hide LogsOk, SeqnosOk, InTables;
  }

  /** A version pinned throughout keeps every table, unchanged, to the end. */
  lemma {:induction false} PinnedTablesStay(states: seq<Sys>, steps: seq<Step>, i: nat, k: nat, v: set<nat>, n: nat)
    requires Run(states, steps) && i <= k <= |steps| && n in v
    requires forall j :: i <= j <= k ==> states[j].process.Some? && v in states[j].process.value.pinned
    ensures n in states[i].tables && n in states[k].tables && states[k].tables[n] == states[i].tables[n]
  {
    hide Init, Next;
    RunInv(states, steps, i);
    if i < k {
      PinnedTablesStay(states, steps, i, k - 1, v, n);
      RunInv(states, steps, k - 1);
      assert Next(states[k - 1], steps[k - 1], states[k - 1 + 1]);
      NextKeepsFiles(states[k - 1], steps[k - 1], states[k]);
      assert KeepTable(states[k - 1].process.value, n);
    }
  }
}
