/** The engine as a state machine over memtables, levels, snapshots and one
    background compaction, and what every run of it keeps. */
module Lsm {
  import opened InternalKeys
  import opened Version
  import opened CompactionInputs
  import opened LsmEdits
  import opened Compaction
  import opened CleanCuts

  /** config::kMaxMemCompactLevel. */
  const MAX_MEM_COMPACT_LEVEL: nat := 2

  datatype Op = OpPut(key: UserKey, value: Value) | OpDelete(key: UserKey)

  /** A compaction between its start and the install of its results. */
  datatype Job = Job(level: nat, in0: seq<File>, in1: seq<File>, input: Levels, floor: nat)

  datatype Db = Db(
    mem: seq<Entry>,
    imm: Option<seq<Entry>>,
    v: Levels,
    snapshots: seq<nat>,
    lastSeq: nat,
    nextFile: nat,
    job: Option<Job>)

  datatype Step =
    | Write(ops: seq<Op>)
    | SwitchMemtable
    | Flush(level: nat)
    | TakeSnapshot
    | ReleaseSnapshot(index: nat)
    | TrivialMove(level: nat, file: File)
    | StartCompaction(level: nat, in0: seq<File>, in1: seq<File>)
    | FinishCompaction(outs: seq<File>)

  // ----- contents -----

  function ImmRun(db: Db): seq<Entry> {
    if db.imm.Some? then db.imm.value else []
  }

  function MemEntries(db: Db): set<Entry> {
    Entries(db.mem) + Entries(ImmRun(db))
  }

  /** Every entry the database holds, wherever it is. */
  function All(db: Db): set<Entry> {
    MemEntries(db) + VersionEntries(db.v)
  }

  function OpEntry(op: Op, seqno: nat): Entry {
    match op
    case OpPut(k, x) => Entry(IKey(k, seqno, Put), x)
    case OpDelete(k) => Entry(IKey(k, seqno, Deletion), "")
  }

  /** MemTableInserter: consecutive sequence numbers from `start`. */
  function BatchEntries(ops: seq<Op>, start: nat): set<Entry> {
    if ops == [] then {}
    else
      var n := |ops| - 1;
      BatchEntries(ops[..n], start) + {OpEntry(ops[n], start + n)}
  }

  /** DoCompactionWork: the oldest snapshot, or the last sequence number. */
  function Floor(db: Db): nat {
    if db.snapshots == [] then db.lastSeq else db.snapshots[0]
  }

  function FlushedFile(t: seq<Entry>, number: nat, size: nat): File
    requires t != []
  {
    File(number, size, t[0].key, t[|t| - 1].key, t)
  }

  // ----- the steps -----

  ghost predicate WriteStep(db: Db, ops: seq<Op>, db': Db) {
    && db.lastSeq + |ops| < MAX_SEQUENCE
    && Sorted(db'.mem)
    && Entries(db'.mem) == Entries(db.mem) + BatchEntries(ops, db.lastSeq + 1)
    && db' == db.(mem := db'.mem, lastSeq := db.lastSeq + |ops|)
  }

  ghost predicate SwitchStep(db: Db, db': Db) {
    db.imm.None? && db' == db.(imm := Some(db.mem), mem := [])
  }

  /** CompactMemTable. An empty memtable leaves no file. A file that lands in the
      output level of a running compaction must miss the hull of its inputs. */
  ghost predicate FlushStep(db: Db, level: nat, db': Db) {
    && db.imm.Some?
    && if db.imm.value == [] then db' == db.(imm := None) else
       exists f :: FlushTo(db, level, f, db')
  }

  ghost predicate FlushTo(db: Db, level: nat, f: File, db': Db) {
    && db.imm.Some? && db.imm.value != []
    && f == FlushedFile(db.imm.value, f.number, f.size)
    && db.nextFile <= f.number < db'.nextFile
    && level <= MAX_MEM_COMPACT_LEVEL
    && (level > 0 ==> ClearDownTo(db.v, level, f))
    && OnlyLevelChanged(db.v, db'.v, level)
    && Installed(db.v[level], [], [f], db'.v[level])
    && (db.job.Some? && level == db.job.value.level + 1 ==> MissesAll(f, db.job.value.in0 + db.job.value.in1))
    && db' == db.(imm := None, v := db'.v, nextFile := db'.nextFile)
  }

  ghost predicate ReleaseStep(db: Db, i: nat, db': Db) {
    && i < |db.snapshots|
    && db' == db.(snapshots := db.snapshots[..i] + db.snapshots[i + 1..])
  }

  ghost predicate MoveStep(db: Db, L: nat, f: File, db': Db) {
    && db.job.None?
    && GoodInputs(db.v, L, [f], [])
    && CleanCut(db.v[L], [f])
    && CompactionInstalled(db.v, db'.v, L, [f], [], [f])
    && db' == db.(v := db'.v)
  }

  ghost predicate StartStep(db: Db, L: nat, in0: seq<File>, in1: seq<File>, db': Db) {
    && db.job.None?
    && GoodInputs(db.v, L, in0, in1)
    && CleanCut(db.v[L], in0) && CleanCut(db.v[L + 1], in1)
    && db' == db.(job := Some(Job(L, in0, in1, db.v, Floor(db))))
  }

  ghost predicate UnusedNumbers(v: Levels, outs: seq<File>) {
    forall l, g, o :: 0 <= l < |v| && g in v[l] && o in outs ==> g.number != o.number
  }

  ghost predicate FinishStep(db: Db, outs: seq<File>, db': Db) {
    && db.job.Some?
    && var j := db.job.value;
       && OutputsOk(j.in0 + j.in1, outs)
       && FileEntries(outs) == Survivors(j.input, j.level, FileEntries(j.in0 + j.in1), j.floor)
       && UnusedNumbers(db.v, outs)
       && db.nextFile <= db'.nextFile && (forall o :: o in outs ==> o.number < db'.nextFile)
       && CompactionInstalled(db.v, db'.v, j.level, j.in0, j.in1, outs)
       && db' == db.(v := db'.v, nextFile := db'.nextFile, job := None)
  }

  ghost predicate Next(db: Db, step: Step, db': Db) {
    match step
    case Write(ops) => WriteStep(db, ops, db')
    case SwitchMemtable => SwitchStep(db, db')
    case Flush(level) => FlushStep(db, level, db')
    case TakeSnapshot => db' == db.(snapshots := db.snapshots + [db.lastSeq])
    case ReleaseSnapshot(i) => ReleaseStep(db, i, db')
    case TrivialMove(L, f) => MoveStep(db, L, f, db')
    case StartCompaction(L, in0, in1) => StartStep(db, L, in0, in1, db')
    case FinishCompaction(outs) => FinishStep(db, outs, db')
  }

  ghost predicate Init(db: Db) {
    && db.mem == [] && db.imm == None && db.snapshots == [] && db.job == None
    && db.lastSeq == 0
    && |db.v| == NUM_LEVELS && forall l :: 0 <= l < NUM_LEVELS ==> db.v[l] == []
  }

  // ----- the invariant -----

  ghost predicate UniqueNumbers(v: Levels) {
    forall i, j, f, g :: 0 <= i < j < |v| && f in v[i] && g in v[j] ==> f.number != g.number
  }

  ghost predicate SeqnosAtMost(E: set<Entry>, n: nat) {
    forall e :: e in E ==> e.key.seqno <= n
  }

  ghost predicate SnapshotsOk(db: Db) {
    && (forall i :: 0 <= i < |db.snapshots| ==> db.snapshots[i] <= db.lastSeq)
    && (forall i, j :: 0 <= i < j < |db.snapshots| ==> db.snapshots[i] <= db.snapshots[j])
  }

  ghost predicate JobInv(db: Db) {
    db.job.Some? ==>
      var j := db.job.value;
      && JobOk(db.v, j.input, j.level, j.in0, j.in1)
      && j.floor <= db.lastSeq
      && forall i :: 0 <= i < |db.snapshots| ==> j.floor <= db.snapshots[i]
  }

  ghost predicate FilesInv(db: Db) {
    VersionOk(db.v) && NumbersBelow(db.v, db.nextFile) && UniqueNumbers(db.v)
  }

  ghost predicate MemInv(db: Db) {
    && Sorted(db.mem) && Sorted(ImmRun(db))
    && NewerEntries(Entries(db.mem), Entries(ImmRun(db)))
    && NewerEntries(MemEntries(db), VersionEntries(db.v))
    && Unique(All(db))
    && SeqnosAtMost(All(db), db.lastSeq)
    && db.lastSeq < MAX_SEQUENCE
  }

  ghost predicate Inv(db: Db) {
    FilesInv(db) && MemInv(db) && SnapshotsOk(db) && JobInv(db)
  }
}
