/** The whole engine: memory, levels, logs, manifest and crashes in one machine. Each
    step is a step of the state machine over levels and one over files, on the same
    entries. */
module Engine {
  import opened InternalKeys
  import opened Version
  import opened LsmEdits
  import opened Lsm
  import R = Recovery

  /** A running database or none, the files on disk, and the levels that the manifest
      describes. `inFlight` holds the operations of a record in the log that is not yet
      acknowledged; `disk` records, while the process is down, the entries it left. */
  datatype State = State(
    db: Option<Db>,
    sys: R.Sys,
    levels: Levels,
    inFlight: Option<seq<Op>>,
    disk: set<Entry>)

  datatype Act =
    | BeginWrite(ops: seq<Op>)
    | CommitWrite
    | Switch
    | Background(step: R.Step)
    | Local(local: Step)
    | InstallFlush(level: nat, file: File, nextFile: nat, lastSeq: nat)
    | InstallMove(level: nat, file: File, nextFile: nat, lastSeq: nat)
    | InstallCompaction(outs: seq<File>, nextFile: nat, lastSeq: nat)
    | Crash
    | Recovering(step: R.Step)
    | Reopen(files: seq<File>)

  // ----- files and levels -----

  ghost function Numbers(files: seq<File>): (r: set<nat>)
    ensures forall n :: n in r <==> exists f :: f in files && f.number == n
  {
    set f | f in files :: f.number
  }

  /** The files on disk hold the tables. */
  ghost predicate Hold(tables: map<nat, set<Entry>>, files: seq<File>) {
    forall f :: f in files ==> f.number in tables && tables[f.number] == Entries(f.table)
  }

  ghost predicate HasNumber(levels: Levels, n: nat) {
    exists l, f :: 0 <= l < |levels| && f in levels[l] && f.number == n
  }

  /** The manifest's live tables are those of the levels. */
  ghost predicate LevelsLink(levels: Levels, sys: R.Sys) {
    && |levels| == NUM_LEVELS
    && (forall n :: n in sys.manifest.live <==> HasNumber(levels, n))
    && (forall l :: 0 <= l < |levels| ==> Hold(sys.tables, levels[l]))
  }

  /** A file with a higher number holds only newer entries. */
  ghost predicate AgeOrder(files: seq<File>) {
    forall f, g, e, x :: f in files && g in files && f.number < g.number && e in f.table && x in g.table
      ==> e.key.seqno < x.key.seqno
  }

  // ----- the steps -----

  /** The log record of a group of operations. */
  function Record(ops: seq<Op>, lastSeq: nat): R.Rec {
    R.Rec(BatchEntries(ops, lastSeq + 1), lastSeq + |ops|)
  }

  ghost predicate BeginWriteStep(s: State, ops: seq<Op>, s': State) {
    && s.db.Some? && s.inFlight.None?
    && s.db.value.lastSeq + |ops| < MAX_SEQUENCE
    && R.AppendStep(s.sys, Record(ops, s.db.value.lastSeq), s'.sys)
    && s' == s.(sys := s'.sys, inFlight := Some(ops))
  }

  ghost predicate CommitWriteStep(s: State, s': State) {
    && s.db.Some? && s.inFlight.Some? && s'.db.Some?
    && R.AcknowledgeStep(s.sys, s'.sys)
    && WriteStep(s.db.value, s.inFlight.value, s'.db.value)
    && s' == s.(db := s'.db, sys := s'.sys, inFlight := None)
  }

  ghost predicate SwitchBothStep(s: State, s': State) {
    && s.db.Some? && s'.db.Some?
    && R.SwitchStep(s.sys, s'.sys)
    && SwitchStep(s.db.value, s'.db.value)
    && s' == s.(db := s'.db, sys := s'.sys)
  }

  /** Writing tables, releasing them, pinning versions, deleting files. */
  predicate IsBackground(step: R.Step) {
    step.WriteTable? || step.FlushWritten? || step.Cleanup? || step.Pin? || step.Unpin? || step.DeleteObsoleteFiles?
  }

  ghost predicate BackgroundStep(s: State, step: R.Step, s': State) {
    s.db.Some? && IsBackground(step) && R.Next(s.sys, step, s'.sys) && s' == s.(sys := s'.sys)
  }

  predicate IsLocal(step: Step) {
    step.TakeSnapshot? || step.ReleaseSnapshot? || step.StartCompaction?
  }

  ghost predicate LocalStep(s: State, step: Step, s': State) {
    s.db.Some? && s'.db.Some? && IsLocal(step) && Next(s.db.value, step, s'.db.value) && s' == s.(db := s'.db)
  }

  ghost predicate InstallFlushStep(s: State, level: nat, f: File, nextFile: nat, lastSeq: nat, s': State) {
    && s.db.Some? && s'.db.Some? && s.db.value.imm.Some?
    && R.InstallFlushStep(s.sys, f.number, nextFile, lastSeq, s'.sys)
    && (if s.db.value.imm.value == [] then s'.db.value == s.db.value.(imm := None)
        else FlushTo(s.db.value, level, f, s'.db.value))
    && s' == s.(db := s'.db, sys := s'.sys, levels := s'.db.value.v)
  }

  ghost predicate InstallMoveStep(s: State, level: nat, f: File, nextFile: nat, lastSeq: nat, s': State) {
    && s.db.Some? && s'.db.Some?
    && R.InstallCompactionStep(s.sys, {}, {}, nextFile, lastSeq, s'.sys)
    && MoveStep(s.db.value, level, f, s'.db.value)
    && s' == s.(db := s'.db, sys := s'.sys, levels := s'.db.value.v)
  }

  ghost predicate InstallCompactionStep(s: State, outs: seq<File>, nextFile: nat, lastSeq: nat, s': State) {
    && s.db.Some? && s'.db.Some? && s.db.value.job.Some?
    && var j := s.db.value.job.value;
       && R.InstallCompactionStep(s.sys, Numbers(j.in0 + j.in1), Numbers(outs), nextFile, lastSeq, s'.sys)
       && Hold(s.sys.tables, outs)
       && FinishStep(s.db.value, outs, s'.db.value)
       && s' == s.(db := s'.db, sys := s'.sys, levels := s'.db.value.v)
  }

  /** What is on disk when the process stops: what it held, and a record in flight. */
  ghost function Left(s: State): set<Entry> {
    if s.db.None? then s.disk
    else All(s.db.value) + if s.inFlight.Some? then BatchEntries(s.inFlight.value, s.db.value.lastSeq + 1) else {}
  }

  ghost predicate CrashStep(s: State, s': State) {
    R.CrashStep(s.sys, s'.sys) && s' == State(None, s'.sys, s.levels, None, Left(s))
  }

  ghost predicate RecoveringStep(s: State, step: R.Step, s': State) {
    && s.db.None? && (step.RecoverTable? || step.RecoverLog?)
    && R.Next(s.sys, step, s'.sys) && s' == s.(sys := s'.sys)
  }

  /** DB::Open: the tables made from the logs join level 0, newer ones under higher
      numbers as replaying makes them; memtables and snapshots start empty. */
  ghost predicate ReopenStep(s: State, files: seq<File>, s': State) {
    && s.db.None? && s'.sys.process.Some?
    && R.ReopenStep(s.sys, Numbers(files), s'.sys)
    && Hold(s.sys.tables, files) && FilesOk(files) && DistinctNumbers(files) && AgeOrder(files)
    && OnlyLevelChanged(s.levels, s'.levels, 0) && Installed(s.levels[0], [], files, s'.levels[0])
    && var p := s'.sys.process.value;
       s' == State(Some(Db([], None, s'.levels, [], p.lastSeq, p.nextFile, None)), s'.sys, s'.levels, None, {})
  }

  ghost predicate Does(s: State, act: Act, s': State) {
    match act
    case BeginWrite(ops) => BeginWriteStep(s, ops, s')
    case CommitWrite => CommitWriteStep(s, s')
    case Switch => SwitchBothStep(s, s')
    case Background(step) => BackgroundStep(s, step, s')
    case Local(step) => LocalStep(s, step, s')
    case InstallFlush(level, f, nf, ls) => InstallFlushStep(s, level, f, nf, ls, s')
    case InstallMove(level, f, nf, ls) => InstallMoveStep(s, level, f, nf, ls, s')
    case InstallCompaction(outs, nf, ls) => InstallCompactionStep(s, outs, nf, ls, s')
    case Crash => CrashStep(s, s')
    case Recovering(step) => RecoveringStep(s, step, s')
    case Reopen(files) => ReopenStep(s, files, s')
  }

  /** NewDB: an empty manifest and no process yet. */
  ghost predicate New(s: State) {
    && s.db.None? && R.Init(s.sys) && s.inFlight.None? && s.disk == {}
    && |s.levels| == NUM_LEVELS && forall l :: 0 <= l < NUM_LEVELS ==> s.levels[l] == []
  }
}
