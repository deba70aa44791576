/** Every run of the whole engine: writes, flushes, moves, compactions, file deletions,
    crashes, interrupted recoveries and reopenings. */
module EngineRuns {
  import opened InternalKeys
  import opened Version
  import opened Compaction
  import opened Lsm
  import opened LsmReads
  import L = LsmInvariant
  import opened Engine
  import opened EngineInvariant
  import opened EngineReopen
  import R = Recovery

  /** Every act keeps the invariant. */
  lemma ActKeepsInv(s: State, act: Act, s': State)
    requires EngineInv(s) && Does(s, act, s')
    ensures EngineInv(s')
  {
    hide EngineInv, BeginWriteStep, CommitWriteStep, SwitchBothStep, BackgroundStep, LocalStep, Engine.InstallFlushStep;
    hide InstallMoveStep, Engine.InstallCompactionStep, Engine.CrashStep, RecoveringStep, Engine.ReopenStep;
    match act
    case BeginWrite(ops) => BeginWriteKeeps(s, ops, s');
    case CommitWrite => CommitWriteKeeps(s, s');
    case Switch => SwitchKeeps(s, s');
    case Background(step) => BackgroundKeeps(s, step, s');
    case Local(step) => LocalKeeps(s, step, s');
    case InstallFlush(level, f, nf, ls) => InstallFlushKeeps(s, level, f, nf, ls, s');
    case InstallMove(level, f, nf, ls) => InstallMoveKeeps(s, level, f, nf, ls, s');
    case InstallCompaction(outs, nf, ls) => InstallCompactionKeeps(s, outs, nf, ls, s');
    case Crash => CrashKeeps(s, s');
    case Recovering(step) => RecoveringKeeps(s, step, s');
    case Reopen(files) => ReopenKeeps(s, files, s');
  }

  /** What a reader sees now; while the process is down, what the disk will give. */
  ghost function Latest(s: State, k: UserKey): Option<Value> {
    if s.db.Some? then View(s.db.value, k, s.db.value.lastSeq) else Read(s.disk, k, MAX_SEQUENCE)
  }

  /** The operations that become part of the database with this act: those
      acknowledged, and at a crash those whose record was already in the log. */
  function Gained(s: State, act: Act): seq<Op> {
    if (act.CommitWrite? || act.Crash?) && s.inFlight.Some? then s.inFlight.value else []
  }

  // ----- each act and the latest view -----

  lemma SameDb(s: State, s': State, k: UserKey)
    requires s'.db == s.db && (s.db.None? ==> s'.disk == s.disk)
    ensures Latest(s', k) == Latest(s, k)
  {
  }

  lemma LsmStepLatest(s: State, step: Step, s': State, k: UserKey)
    requires UpInv(s) && s'.db.Some? && Next(s.db.value, step, s'.db.value)
    ensures Latest(s', k) == Applied(if step.Write? then step.ops else [], k, Latest(s, k))
  {
    hide Inv, Next, MemLink, View, Applied;
    NextUpdatesLatest(s.db.value, step, s'.db.value, k);
  }

  /** All sequence numbers are at most n, so every snapshot from n on reads the same. */
  lemma ReadAbove(E: set<Entry>, k: UserKey, n: nat, m: nat)
    requires Unique(E) && SeqnosAtMost(E, n) && n <= m
    ensures Read(E, k, m) == Read(E, k, n)
  {
    SameCandidatesSameRead(E, m, E, n, k);
  }

  lemma CrashLatest(s: State, s': State, k: UserKey)
    requires EngineInv(s) && Engine.CrashStep(s, s')
    ensures Latest(s', k) == Applied(Gained(s, Crash), k, Latest(s, k))
  {
    hide DiskInv, DownInv, Inv, Read, Applied, BatchEntries, All, R.CrashStep;
    if s.db.Some? {
      var d := s.db.value;
      var ops := Gained(s, Crash);
      UpWhenRunning(s);
      MemOf(d);
      BatchPrefix(All(d), ops, d.lastSeq);
      ReadAfterBatch(All(d), ops, d.lastSeq, k);
      LeftIs(s, ops);
      ReadAbove(Left(s), k, d.lastSeq + |ops|, MAX_SEQUENCE);
    } else {
      NothingGained(s, k);
    }
  }

  lemma MemOf(d: Db)
    requires Inv(d)
    ensures Unique(All(d)) && SeqnosAtMost(All(d), d.lastSeq) && d.lastSeq < MAX_SEQUENCE
  {
    hide FilesInv, SnapshotsOk, JobInv;
  }

  lemma LeftIs(s: State, ops: seq<Op>)
    requires UpInv(s) && ops == Gained(s, Crash)
    ensures Left(s) == All(s.db.value) + BatchEntries(ops, s.db.value.lastSeq + 1)
    ensures s.db.value.lastSeq + |ops| < MAX_SEQUENCE
  {
    hide Inv, All, BatchEntries;
    MemOf(s.db.value);
    NoOps(s.db.value.lastSeq + 1);
  }

  lemma NoOps(start: nat)
    ensures BatchEntries([], start) == {}
  {
  }

  lemma NothingGained(s: State, k: UserKey)
    requires EngineInv(s) && s.db.None?
    ensures Gained(s, Crash) == [] && Applied([], k, Latest(s, k)) == Latest(s, k)
  {
    hide DiskInv;
  }

  lemma ReopenLatest(s: State, files: seq<File>, s': State, k: UserKey)
    requires EngineInv(s) && Engine.ReopenStep(s, files, s')
    ensures Latest(s', k) == Latest(s, k)
  {
    assert DownInv(s);
    ReopenEntries(s, files, s');
    ReopenMem(s, files, s');
    hide DiskInv, Engine.ReopenStep, VersionOk, UniqueNumbers, R.Durable, Read, All, Sorted, Unique;
    ReadAbove(s.disk, k, s'.db.value.lastSeq, MAX_SEQUENCE);
  }

  lemma InstallFlushLatest(s: State, level: nat, f: File, nf: nat, ls: nat, s': State, k: UserKey)
    requires UpInv(s) && Engine.InstallFlushStep(s, level, f, nf, ls, s')
    ensures Latest(s', k) == Latest(s, k)
  {
    hide Inv, MemLink, R.InstallFlushStep, FlushTo, View;
    FlushIsStep(s.db.value, level, f, s'.db.value);
    LsmStepLatest(s, Flush(level), s', k);
  }

  lemma UpWhenRunning(s: State)
    requires EngineInv(s) && s.db.Some?
    ensures UpInv(s)
  {
    hide DiskInv, Inv;
  }

  /** Each act applies what it gains to the latest view and changes nothing else. */
  lemma ActLatest(s: State, act: Act, s': State, k: UserKey)
    requires EngineInv(s) && Does(s, act, s')
    ensures Latest(s', k) == Applied(Gained(s, act), k, Latest(s, k))
  {
    hide EngineInv, UpInv, Latest, WriteStep, SwitchStep, FinishStep, MoveStep, R.Next, R.AppendStep, R.AcknowledgeStep;
    hide R.SwitchStep, R.InstallCompactionStep, Engine.ReopenStep, Engine.CrashStep, Engine.InstallFlushStep;
    if s.db.Some? {
      UpWhenRunning(s);
    }
    match act
    case BeginWrite(ops) => SameDb(s, s', k);
    case CommitWrite => LsmStepLatest(s, Write(s.inFlight.value), s', k);
    case Switch => LsmStepLatest(s, SwitchMemtable, s', k);
    case Background(step) => SameDb(s, s', k);
    case Local(step) => LsmStepLatest(s, step, s', k);
    case InstallFlush(level, f, nf, ls) => Running(s, act, s'); InstallFlushLatest(s, level, f, nf, ls, s', k);
    case InstallMove(level, f, nf, ls) => LsmStepLatest(s, TrivialMove(level, f), s', k);
    case InstallCompaction(outs, nf, ls) => LsmStepLatest(s, FinishCompaction(outs), s', k);
    case Crash => CrashLatest(s, s', k);
    case Recovering(step) => SameDb(s, s', k);
    case Reopen(files) => ReopenLatest(s, files, s', k);
  }

  lemma Running(s: State, act: Act, s': State)
    requires EngineInv(s) && Does(s, act, s') && act.InstallFlush?
    ensures UpInv(s)
  {
    hide DiskInv, Inv, R.InstallFlushStep, FlushTo;
  }

  // ----- runs -----

  ghost predicate Run(states: seq<State>, acts: seq<Act>) {
    && |states| == |acts| + 1 && New(states[0])
    && (forall i :: 0 <= i < |acts| ==> Does(states[i], acts[i], states[i + 1]))
  }

  /** All operations gained by the first i acts, in order. */
  function History(states: seq<State>, acts: seq<Act>, i: nat): seq<Op>
    requires i <= |acts| < |states|
  {
    if i == 0 then [] else History(states, acts, i - 1) + Gained(states[i - 1], acts[i - 1])
  }

  lemma NewInv(s: State)
    requires New(s)
    ensures EngineInv(s)
  {
    R.InitInv(s.sys);
    NewLevels(s);
    NewDisk(s);
  }

  lemma NewLevels(s: State)
    requires New(s)
    ensures LevelsLink(s.levels, s.sys) && VersionOk(s.levels) && UniqueNumbers(s.levels)
  {
    L.EmptyVersionOk(s.levels);
  }

  lemma NewDisk(s: State)
    requires New(s)
    ensures Bounded(s.sys) && R.Inv(s.sys) && (forall e :: R.Durable(s.sys, e) <==> e in s.disk)
  {
  }

  lemma {:induction false} RunInv(states: seq<State>, acts: seq<Act>, i: nat)
    requires Run(states, acts) && i <= |acts|
    ensures EngineInv(states[i])
  {
    hide EngineInv, New, Does;
    if i == 0 {
      NewInv(states[0]);
    } else {
      RunInv(states, acts, i - 1);
      assert Does(states[i - 1], acts[i - 1], states[i - 1 + 1]);
      ActKeepsInv(states[i - 1], acts[i - 1], states[i]);
    }
  }

  /** In every run, with any number of crashes and reopenings, whenever the database is
      open its levels are searchable and every key reads as the last operation written
      for it, over all acknowledged operations and those that a crash found in the log. */
  lemma {:induction false} EveryRunReadsItsHistory(states: seq<State>, acts: seq<Act>, i: nat, k: UserKey)
    requires Run(states, acts) && i <= |acts|
    ensures Latest(states[i], k) == Applied(History(states, acts, i), k, None)
    ensures states[i].db.Some? ==> Inv(states[i].db.value)
  {
    hide EngineInv, New, Does, Latest, Applied, Gained;
    RunInv(states, acts, i);
    InvOfDb(states[i]);
    if i == 0 {
      NewLatest(states[0], k);
    } else {
      EveryRunReadsItsHistory(states, acts, i - 1, k);
      RunInv(states, acts, i - 1);
      assert Does(states[i - 1], acts[i - 1], states[i - 1 + 1]);
      ActLatest(states[i - 1], acts[i - 1], states[i], k);
      AppliedConcat(History(states, acts, i - 1), Gained(states[i - 1], acts[i - 1]), k, None);
    }
  }

  lemma InvOfDb(s: State)
    requires EngineInv(s)
    ensures s.db.Some? ==> Inv(s.db.value)
  {
    hide DiskInv;
  }

  lemma NewLatest(s: State, k: UserKey)
    requires New(s)
    ensures Latest(s, k) == None && Applied([], k, None) == None
  {
    ReadOfAbsent(s.disk, k, MAX_SEQUENCE);
  }

  /** The lookup of the source, in any open state of any run. */
  method GetInRun(db: Db, k: UserKey, ghost states: seq<State>, ghost acts: seq<Act>, ghost i: nat) returns (r: Option<Value>)
    requires Run(states, acts) && i <= |acts| && states[i].db == Some(db)
    ensures r == Applied(History(states, acts, i), k, None)
  {
    hide Run, Inv, View, Applied;
    EveryRunReadsItsHistory(states, acts, i, k);
    r := LsmReads.Get(db, k, db.lastSeq);
  }
}
