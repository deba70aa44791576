/** Crash and reopen: what is on disk always rebuilds what the database held. */
module Recovery {
  import opened InternalKeys

  /** One log record: a group of entries and the last sequence number it uses. */
  datatype Rec = Rec(entries: set<Entry>, last: nat)

  /** What the manifest says: the live tables, the oldest log still needed, the
      next file number and the last sequence number. */
  datatype Manifest = Manifest(live: set<nat>, logNumber: nat, nextFile: nat, lastSeq: nat)

  /** The process: memtables, their log, the current version, versions pinned by
      readers, outputs being written, counters, a record appended to the log but
      not yet acknowledged, the last sequence number when imm was frozen, and the
      table of a flush between its end and its install. */
  datatype Process = Process(
    mem: set<Entry>,
    imm: Option<set<Entry>>,
    log: nat,
    current: set<nat>,
    pinned: set<set<nat>>,
    pending: set<nat>,
    nextFile: nat,
    lastSeq: nat,
    inFlight: Option<Rec>,
    immSeq: nat,
    flushing: Option<nat>)

  datatype Sys = Sys(
    logs: map<nat, seq<Rec>>,
    tables: map<nat, set<Entry>>,
    manifest: Manifest,
    process: Option<Process>)

  datatype Step =
    | Append(rec: Rec)
    | Acknowledge
    | SwitchMemtable
    | WriteTable(contents: set<Entry>)       // a flush or compaction output, still pending
    | FlushWritten(number: nat)
    | InstallFlush(number: nat, nextFile: nat, lastSeq: nat)
    | InstallCompaction(inputs: set<nat>, outputs: set<nat>, nextFile: nat, lastSeq: nat)
    | Cleanup(outputs: set<nat>)
    | Pin
    | Unpin(version: set<nat>)
    | DeleteObsoleteFiles
    | Crash
    | RecoverTable(number: nat, contents: set<Entry>)
    | RecoverLog(number: nat)
    | Reopen(recovered: set<nat>)

  // ----- contents -----

  ghost predicate InLog(rs: seq<Rec>, e: Entry) {
    exists i :: 0 <= i < |rs| && e in rs[i].entries
  }

  ghost predicate InTables(tables: map<nat, set<Entry>>, numbers: set<nat>, e: Entry) {
    exists n :: n in numbers && n in tables && e in tables[n]
  }

  /** e is in a log that recovery replays. */
  ghost predicate InNeededLogs(s: Sys, e: Entry) {
    exists n :: n in s.logs && s.manifest.logNumber <= n && InLog(s.logs[n], e)
  }

  /** e would be rebuilt by recovery. */
  ghost predicate Durable(s: Sys, e: Entry) {
    InTables(s.tables, s.manifest.live, e) || InNeededLogs(s, e)
  }

  ghost predicate InImm(p: Process, e: Entry) {
    p.imm.Some? && e in p.imm.value
  }

  /** e is part of the running database. */
  ghost predicate Present(s: Sys, p: Process, e: Entry) {
    e in p.mem || InImm(p, e) || InTables(s.tables, p.current, e)
  }

  ghost predicate InFlightHas(p: Process, e: Entry) {
    p.inFlight.Some? && e in p.inFlight.value.entries
  }

  // ----- the steps -----

  ghost predicate AppendStep(s: Sys, rec: Rec, s': Sys) {
    && s.process.Some?
    && var p := s.process.value;
       && p.inFlight.None? && p.log in s.logs
       && (forall e :: e in rec.entries ==> p.lastSeq < e.key.seqno <= rec.last) && p.lastSeq <= rec.last
       && s' == s.(
         logs := s.logs[p.log := s.logs[p.log] + [rec]],
         process := Some(p.(inFlight := Some(rec))))
  }

  ghost predicate AcknowledgeStep(s: Sys, s': Sys) {
    && s.process.Some? && s.process.value.inFlight.Some?
    && var p := s.process.value;
       s' == s.(process := Some(p.(
         mem := p.mem + p.inFlight.value.entries,
         lastSeq := p.inFlight.value.last,
         inFlight := None)))
  }

  /** MakeRoomForWrite: a new log for a new memtable. */
  ghost predicate SwitchStep(s: Sys, s': Sys) {
    && s.process.Some?
    && var p := s.process.value;
       && p.imm.None? && p.inFlight.None?
       && s' == s.(
         logs := s.logs[p.nextFile := []],
         process := Some(p.(
           imm := Some(p.mem), immSeq := p.lastSeq, mem := {}, log := p.nextFile, nextFile := p.nextFile + 1)))
  }

  ghost predicate WriteTableStep(s: Sys, contents: set<Entry>, s': Sys) {
    && s.process.Some?
    && var p := s.process.value;
       s' == s.(
         tables := s.tables[p.nextFile := contents],
         process := Some(p.(pending := p.pending + {p.nextFile}, nextFile := p.nextFile + 1)))
  }

  /** WriteLevel0Table takes its output off the pending ones before the manifest is
      written. Until the install nothing but the flushing thread refers to it. */
  ghost predicate FlushWrittenStep(s: Sys, number: nat, s': Sys) {
    && s.process.Some?
    && var p := s.process.value;
       && number in p.pending && p.flushing.None?
       && s' == s.(process := Some(p.(pending := p.pending - {number}, flushing := Some(number))))
  }

  /** LogAndApply reads the counters, then writes the manifest without the lock, so
      the record may hold counters older than those of the moment it takes effect. */
  ghost predicate ReadBefore(s: Sys, p: Process, nextFile: nat, lastSeq: nat) {
    s.manifest.nextFile <= nextFile <= p.nextFile && s.manifest.lastSeq <= lastSeq <= p.lastSeq
  }

  /** CompactMemTable: the table replaces the immutable memtable, and earlier logs
      are no longer needed. An empty memtable leaves no table. */
  ghost predicate InstallFlushStep(s: Sys, number: nat, nextFile: nat, lastSeq: nat, s': Sys) {
    && s.process.Some?
    && var p := s.process.value;
       && p.imm.Some?
       && ReadBefore(s, p, nextFile, lastSeq) && p.immSeq <= lastSeq && p.log < nextFile
       && (p.imm.value != {} ==>
             && p.flushing == Some(number) && number in s.tables && number < nextFile
             && s.tables[number] == p.imm.value)
       && var live := if p.imm.value == {} then p.current else p.current + {number};
          s' == s.(
            manifest := Manifest(live, p.log, nextFile, lastSeq),
            process := Some(p.(imm := None, current := live, flushing := None)))
  }

  /** InstallCompactionResults. Outputs hold only entries of the inputs. */
  ghost predicate InstallCompactionStep(
    s: Sys, inputs: set<nat>, outputs: set<nat>, nextFile: nat, lastSeq: nat, s': Sys)
  {
    && s.process.Some?
    && var p := s.process.value;
       && inputs <= p.current && outputs <= p.pending && outputs <= s.tables.Keys
       && ReadBefore(s, p, nextFile, lastSeq) && NumbersBelow(outputs, nextFile)
       && (forall e :: InTables(s.tables, outputs, e) ==> InTables(s.tables, inputs, e))
       && var live := p.current - inputs + outputs;
          s' == s.(
            manifest := Manifest(live, s.manifest.logNumber, nextFile, lastSeq),
            process := Some(p.(current := live)))
  }

  ghost predicate CleanupStep(s: Sys, outputs: set<nat>, s': Sys) {
    s.process.Some? && s' == s.(process := Some(s.process.value.(pending := s.process.value.pending - outputs)))
  }

  ghost predicate PinStep(s: Sys, s': Sys) {
    && s.process.Some?
    && var p := s.process.value;
       s' == s.(process := Some(p.(pinned := p.pinned + {p.current})))
  }

  ghost predicate UnpinStep(s: Sys, version: set<nat>, s': Sys) {
    s.process.Some? && s' == s.(process := Some(s.process.value.(pinned := s.process.value.pinned - {version})))
  }

  /** AddLiveFiles: pending outputs and the tables of every live version. */
  predicate KeepTable(p: Process, n: nat) {
    n in p.pending || n in p.current || exists v :: v in p.pinned && n in v
  }

  /** DeleteObsoleteFiles runs on the thread that flushes, so never between the end of
      a flush and its install. */
  ghost predicate DeleteStep(s: Sys, s': Sys) {
    && s.process.Some? && s.process.value.flushing.None?
    && var p := s.process.value;
       s' == s.(
         logs := map n | n in s.logs && n >= s.manifest.logNumber :: s.logs[n],
         tables := map n | n in s.tables && KeepTable(p, n) :: s.tables[n])
  }

  ghost predicate CrashStep(s: Sys, s': Sys) {
    s' == s.(process := None)
  }

  /** Recovery writes a table for what it has replayed so far; nothing refers to it
      yet, so a crash here changes nothing. */
  ghost predicate RecoverTableStep(s: Sys, number: nat, contents: set<Entry>, s': Sys) {
    && s.process.None? && s.manifest.nextFile < number
    && s' == s.(tables := s.tables[number := contents])
  }

  /** DB::Open creates its log before the manifest names it; a crash may fall
      between the two. */
  ghost predicate RecoverLogStep(s: Sys, number: nat, s': Sys) {
    && s.process.None? && s.manifest.nextFile < number && AfterLogs(s, number)
    && s' == s.(logs := s.logs[number := []])
  }

  /** MarkFileNumberUsed, for every log replayed. */
  ghost predicate AfterLogs(s: Sys, number: nat) {
    forall n :: n in s.logs && s.manifest.logNumber <= n ==> n < number
  }

  /** n is the manifest's last sequence number or that of a record recovery replays. */
  ghost predicate IsLastSeq(s: Sys, n: nat) {
    n == s.manifest.lastSeq || NeededLast(s, n)
  }

  ghost predicate NeededLast(s: Sys, n: nat) {
    exists log, i :: log in s.logs && s.manifest.logNumber <= log && 0 <= i < |s.logs[log]| && s.logs[log][i].last == n
  }

  /** Recover and DB::Open: install the tables made from the needed logs, and start
      a fresh log. */
  ghost predicate ReopenStep(s: Sys, recovered: set<nat>, s': Sys) {
    && s.process.None?
    && s'.process.Some?
    && var p := s'.process.value;
       && recovered <= s.tables.Keys && (forall n :: n in recovered ==> s.manifest.nextFile < n < p.log)
       && (forall e :: InTables(s.tables, recovered, e) <==> InNeededLogs(s, e))
       && AfterLogs(s, p.log) && s.manifest.nextFile < p.log < p.nextFile
       && (forall e :: InNeededLogs(s, e) ==> e.key.seqno <= p.lastSeq) && s.manifest.lastSeq <= p.lastSeq
       && IsLastSeq(s, p.lastSeq)
       && var live := s.manifest.live + recovered;
          && p == Process({}, None, p.log, live, {}, {}, p.nextFile, p.lastSeq, None, 0, None)
          && s' == s.(
            logs := s.logs[p.log := []],
            manifest := Manifest(live, p.log, p.nextFile, p.lastSeq),
            process := Some(p))
  }

  ghost predicate Next(s: Sys, step: Step, s': Sys) {
    match step
    case Append(rec) => AppendStep(s, rec, s')
    case Acknowledge => AcknowledgeStep(s, s')
    case SwitchMemtable => SwitchStep(s, s')
    case WriteTable(c) => WriteTableStep(s, c, s')
    case FlushWritten(n) => FlushWrittenStep(s, n, s')
    case InstallFlush(n, nf, ls) => InstallFlushStep(s, n, nf, ls, s')
    case InstallCompaction(ins, outs, nf, ls) => InstallCompactionStep(s, ins, outs, nf, ls, s')
    case Cleanup(outs) => CleanupStep(s, outs, s')
    case Pin => PinStep(s, s')
    case Unpin(v) => UnpinStep(s, v, s')
    case DeleteObsoleteFiles => DeleteStep(s, s')
    case Crash => CrashStep(s, s')
    case RecoverTable(n, c) => RecoverTableStep(s, n, c, s')
    case RecoverLog(n) => RecoverLogStep(s, n, s')
    case Reopen(r) => ReopenStep(s, r, s')
  }

  /** A fresh database: NewDB writes a manifest without tables. */
  ghost predicate Init(s: Sys) {
    && s.process.None? && s.logs == map[] && s.tables == map[]
    && s.manifest == Manifest({}, 0, 2, 0)
  }

  // ----- the invariant -----

  ghost predicate NumbersBelow(numbers: set<nat>, n: nat) {
    forall x :: x in numbers ==> x < n
  }

  ghost predicate DiskOk(s: Sys) {
    && s.manifest.live <= s.tables.Keys
    && NumbersBelow(s.manifest.live, s.manifest.nextFile) && s.manifest.logNumber < s.manifest.nextFile
    && (forall e :: InTables(s.tables, s.manifest.live, e) ==> e.key.seqno <= s.manifest.lastSeq)
  }

  ghost predicate CountersOk(s: Sys, p: Process) {
    && s.manifest.nextFile <= p.nextFile && s.manifest.lastSeq <= p.lastSeq
    && NumbersBelow(s.logs.Keys, p.nextFile) && NumbersBelow(p.pending, p.nextFile)
    && (p.flushing.Some? ==> p.flushing.value < p.nextFile)
    && (forall v :: v in p.pinned ==> NumbersBelow(v, p.nextFile) && v <= s.tables.Keys)
    && p.current == s.manifest.live
  }

  /** e is in a needed log before `log`. */
  ghost predicate InOlderLog(s: Sys, log: nat, e: Entry) {
    exists n :: n in s.logs && s.manifest.logNumber <= n < log && InLog(s.logs[n], e)
  }

  /** The logs of the memtables: those before the current one hold exactly the
      immutable memtable, the current one the memtable and the record in flight. */
  ghost predicate LogsOk(s: Sys, p: Process) {
    && p.log in s.logs && s.manifest.logNumber <= p.log
    && (forall n :: n in s.logs ==> n <= p.log)
    && (forall e :: InLog(s.logs[p.log], e) <==> e in p.mem || InFlightHas(p, e))
    && (forall e :: InOlderLog(s, p.log, e) <==> InImm(p, e))
  }

  ghost predicate SeqnosOk(p: Process) {
    && (forall e :: e in p.mem ==> e.key.seqno <= p.lastSeq)
    && (forall e :: InImm(p, e) ==> e.key.seqno <= p.immSeq) && p.immSeq <= p.lastSeq
    && (forall e :: InFlightHas(p, e) ==> p.lastSeq < e.key.seqno <= p.inFlight.value.last)
    && (p.inFlight.Some? ==> p.lastSeq <= p.inFlight.value.last)
  }

  ghost predicate Inv(s: Sys) {
    && DiskOk(s)
    && (s.process.Some? ==>
          var p := s.process.value;
          CountersOk(s, p) && LogsOk(s, p) && SeqnosOk(p))
  }

  lemma InitInv(s: Sys)
    requires Init(s)
    ensures Inv(s)
  {
  }

  // ----- how logs and tables change -----

  lemma AppendedLog(rs: seq<Rec>, rec: Rec)
    ensures forall e :: InLog(rs + [rec], e) <==> InLog(rs, e) || e in rec.entries
  {
    forall e
      ensures InLog(rs + [rec], e) <==> InLog(rs, e) || e in rec.entries
    {
      if InLog(rs, e) {
        var i :| 0 <= i < |rs| && e in rs[i].entries;
        assert (rs + [rec])[i] == rs[i];
      }
      assert (rs + [rec])[|rs|] == rec;
    }
  }

  /** Needed logs before `log` are as they were. */
  ghost predicate SameOlder(s: Sys, s': Sys, log: nat) {
    && s'.manifest.logNumber == s.manifest.logNumber
    && (forall n :: s.manifest.logNumber <= n < log ==> (n in s'.logs <==> n in s.logs))
    && (forall n :: s.manifest.logNumber <= n < log && n in s.logs ==> n in s'.logs && s'.logs[n] == s.logs[n])
  }

  lemma OlderKept(s: Sys, s': Sys, log: nat)
    requires SameOlder(s, s', log)
    ensures forall e :: InOlderLog(s', log, e) <==> InOlderLog(s, log, e)
  {
    hide InLog;
    forall e
      ensures InOlderLog(s', log, e) <==> InOlderLog(s, log, e)
    {
      if InOlderLog(s, log, e) {
        var n :| n in s.logs && s.manifest.logNumber <= n < log && InLog(s.logs[n], e);
        assert n in s'.logs && InLog(s'.logs[n], e);
      }
      if InOlderLog(s', log, e) {
        var n :| n in s'.logs && s'.manifest.logNumber <= n < log && InLog(s'.logs[n], e);
        assert n in s.logs && InLog(s.logs[n], e);
      }
    }
  }

  /** Only tables outside `numbers` changed. */
  lemma SameTables(t: map<nat, set<Entry>>, t': map<nat, set<Entry>>, numbers: set<nat>)
    requires forall n :: n in numbers && n in t ==> n in t' && t'[n] == t[n]
    requires forall n :: n in numbers && n in t' ==> n in t
    ensures forall e :: InTables(t', numbers, e) <==> InTables(t, numbers, e)
  {
    forall e
      ensures InTables(t', numbers, e) <==> InTables(t, numbers, e)
    {
      if InTables(t, numbers, e) {
        var n :| n in numbers && n in t && e in t[n];
        assert n in t' && e in t'[n];
      }
      if InTables(t', numbers, e) {
        var n :| n in numbers && n in t' && e in t'[n];
        assert n in t && e in t[n];
      }
    }
  }

  lemma UnionTables(t: map<nat, set<Entry>>, a: set<nat>, b: set<nat>)
    ensures forall e :: InTables(t, a + b, e) <==> InTables(t, a, e) || InTables(t, b, e)
  {
    forall e
      ensures InTables(t, a + b, e) <==> InTables(t, a, e) || InTables(t, b, e)
    {
      if InTables(t, a, e) {
        var n :| n in a && n in t && e in t[n];
        assert n in a + b;
      }
      if InTables(t, b, e) {
        var n :| n in b && n in t && e in t[n];
        assert n in a + b;
      }
    }
  }

  // ----- each step keeps the invariant -----

  lemma AppendKeepsInv(s: Sys, rec: Rec, s': Sys)
    requires Inv(s) && AppendStep(s, rec, s')
    ensures Inv(s')
  {
    hide InLog, InOlderLog, InTables;
    var p := s.process.value;
    AppendedLog(s.logs[p.log], rec);
    OlderKept(s, s', p.log);
  }

  lemma AcknowledgeKeepsInv(s: Sys, s': Sys)
    requires Inv(s) && AcknowledgeStep(s, s')
    ensures Inv(s')
  {
    hide InLog, InOlderLog, InTables;
    var p := s.process.value;
    OlderKept(s, s', p.log);
  }

  /** The log before the new one is the only older log with entries. */
  lemma SwitchedLogs(s: Sys, p: Process, s': Sys, e: Entry)
    requires LogsOk(s, p) && p.imm.None? && p.log < p.nextFile
    requires s'.logs == s.logs[p.nextFile := []] && s'.manifest == s.manifest
    ensures InOlderLog(s', p.nextFile, e) <==> InLog(s.logs[p.log], e)
  {
    hide InLog;
    if InOlderLog(s', p.nextFile, e) {
      var n :| n in s'.logs && s'.manifest.logNumber <= n < p.nextFile && InLog(s'.logs[n], e);
      assert !InOlderLog(s, p.log, e);
    }
    if InLog(s.logs[p.log], e) {
      assert p.log in s'.logs && InLog(s'.logs[p.log], e);
    }
  }

  lemma SwitchKeepsInv(s: Sys, s': Sys)
    requires Inv(s) && SwitchStep(s, s')
    ensures Inv(s')
  {
    hide InOlderLog, InTables;
    var p, p' := s.process.value, s'.process.value;
    forall e
      ensures InOlderLog(s', p'.log, e) <==> InImm(p', e)
    {
      SwitchedLogs(s, p, s', e);
    }
    assert NumbersBelow(s'.logs.Keys, p'.nextFile);
  }

  /** A step that leaves memtables and logs alone. */
  lemma SameMemory(s: Sys, p: Process, s': Sys, p': Process)
    requires LogsOk(s, p) && SeqnosOk(p)
    requires p' == p.(
               current := p'.current, pinned := p'.pinned, pending := p'.pending, nextFile := p'.nextFile,
               flushing := p'.flushing)
    requires s'.logs == s.logs && s'.manifest.logNumber == s.manifest.logNumber
    ensures LogsOk(s', p') && SeqnosOk(p')
  {
    hide InLog, InOlderLog;
    OlderKept(s, s', p.log);
  }

  lemma WriteTableKeepsInv(s: Sys, c: set<Entry>, s': Sys)
    requires Inv(s) && WriteTableStep(s, c, s')
    ensures Inv(s')
  {
    hide LogsOk, SeqnosOk, InTables;
    SameTables(s.tables, s'.tables, s.manifest.live);
    SameMemory(s, s.process.value, s', s'.process.value);
  }

  lemma CleanupKeepsInv(s: Sys, outs: set<nat>, s': Sys)
    requires Inv(s) && CleanupStep(s, outs, s')
    ensures Inv(s')
  {
    hide LogsOk, SeqnosOk, InTables;
    SameMemory(s, s.process.value, s', s'.process.value);
  }

  lemma FlushWrittenKeepsInv(s: Sys, number: nat, s': Sys)
    requires Inv(s) && FlushWrittenStep(s, number, s')
    ensures Inv(s')
  {
    hide LogsOk, SeqnosOk, InTables;
    SameMemory(s, s.process.value, s', s'.process.value);
  }

  lemma PinKeepsInv(s: Sys, s': Sys)
    requires Inv(s) && PinStep(s, s')
    ensures Inv(s')
  {
    hide LogsOk, SeqnosOk, InTables;
    SameMemory(s, s.process.value, s', s'.process.value);
  }

  lemma UnpinKeepsInv(s: Sys, v: set<nat>, s': Sys)
    requires Inv(s) && UnpinStep(s, v, s')
    ensures Inv(s')
  {
    hide LogsOk, SeqnosOk, InTables;
    SameMemory(s, s.process.value, s', s'.process.value);
  }

  /** Flushed: the manifest's tables gain exactly the immutable memtable. */
  lemma FlushedTables(s: Sys, number: nat, nf: nat, ls: nat, s': Sys)
    requires Inv(s) && InstallFlushStep(s, number, nf, ls, s')
    ensures forall e :: InTables(s'.tables, s'.manifest.live, e)
              <==> InTables(s.tables, s.manifest.live, e) || InImm(s.process.value, e)
  {
    hide LogsOk, SeqnosOk, InTables;
    var p := s.process.value;
    if p.imm.value != {} {
      UnionTables(s.tables, p.current, {number});
      OneTable(s.tables, number);
    }
  }

  lemma OneTable(t: map<nat, set<Entry>>, number: nat)
    requires number in t
    ensures forall e :: InTables(t, {number}, e) <==> e in t[number]
  {
    forall e | e in t[number]
      ensures InTables(t, {number}, e)
    {
      assert number in {number};
    }
  }

  lemma NothingOlder(s: Sys, log: nat)
    requires log <= s.manifest.logNumber
    ensures forall e :: !InOlderLog(s, log, e)
  {
  }

  lemma InstallFlushKeepsInv(s: Sys, number: nat, nf: nat, ls: nat, s': Sys)
    requires Inv(s) && InstallFlushStep(s, number, nf, ls, s')
    ensures Inv(s')
  {
    hide InLog, InOlderLog, InTables;
    FlushedTables(s, number, nf, ls, s');
    NothingOlder(s', s'.process.value.log);
  }

  /** A compaction leaves no entry in the manifest's tables that was not there. */
  lemma CompactedTables(s: Sys, ins: set<nat>, outs: set<nat>, nf: nat, ls: nat, s': Sys)
    requires Inv(s) && InstallCompactionStep(s, ins, outs, nf, ls, s')
    ensures forall e :: InTables(s'.tables, s'.manifest.live, e) ==> InTables(s.tables, s.manifest.live, e)
  {
    hide LogsOk, SeqnosOk, InTables;
    var p := s.process.value;
    UnionTables(s.tables, p.current - ins, outs);
    assert p.current == (p.current - ins) + ins;
    UnionTables(s.tables, p.current - ins, ins);
  }

  lemma InstallCompactionKeepsInv(s: Sys, ins: set<nat>, outs: set<nat>, nf: nat, ls: nat, s': Sys)
    requires Inv(s) && InstallCompactionStep(s, ins, outs, nf, ls, s')
    ensures Inv(s')
  {
    hide LogsOk, SeqnosOk, InTables;
    CompactedTables(s, ins, outs, nf, ls, s');
    SameMemory(s, s.process.value, s', s'.process.value);
  }

  lemma DeleteKeepsInv(s: Sys, s': Sys)
    requires Inv(s) && DeleteStep(s, s')
    ensures Inv(s')
  {
    hide InLog, InOlderLog, InTables;
    var p := s.process.value;
    SameTables(s.tables, s'.tables, s.manifest.live);
    OlderKept(s, s', p.log);
    forall v | v in p.pinned
      ensures v <= s'.tables.Keys
    {
      assert forall n :: n in v ==> KeepTable(p, n);
    }
  }

  lemma RecoverTableKeepsInv(s: Sys, n: nat, c: set<Entry>, s': Sys)
    requires Inv(s) && RecoverTableStep(s, n, c, s')
    ensures Inv(s')
  {
    SameTables(s.tables, s'.tables, s.manifest.live);
  }

  lemma RecoveredTables(s: Sys, r: set<nat>, s': Sys)
    requires Inv(s) && ReopenStep(s, r, s')
    ensures forall e :: InTables(s'.tables, s'.manifest.live, e) <==> Durable(s, e)
  {
    hide InTables, InNeededLogs;
    UnionTables(s.tables, s.manifest.live, r);
  }

  lemma ReopenKeepsInv(s: Sys, r: set<nat>, s': Sys)
    requires Inv(s) && ReopenStep(s, r, s')
    ensures Inv(s')
  {
    hide InTables, InNeededLogs, InOlderLog;
    RecoveredTables(s, r, s');
    NothingOlder(s', s'.process.value.log);
  }

  lemma CrashKeepsInv(s: Sys, s': Sys)
    requires Inv(s) && CrashStep(s, s')
    ensures Inv(s')
  {
  }

  lemma RecoverLogKeepsInv(s: Sys, n: nat, s': Sys)
    requires Inv(s) && RecoverLogStep(s, n, s')
    ensures Inv(s')
  {
  }

  lemma NextKeepsInv(s: Sys, step: Step, s': Sys)
    requires Inv(s) && Next(s, step, s')
    ensures Inv(s')
  {
    hide Inv, AppendStep, AcknowledgeStep, SwitchStep, WriteTableStep, InstallFlushStep;
    hide InstallCompactionStep, CleanupStep, PinStep, UnpinStep, DeleteStep, CrashStep;
    hide FlushWrittenStep, RecoverTableStep, RecoverLogStep, ReopenStep;
    match step
    case Append(rec) => AppendKeepsInv(s, rec, s');
    case Acknowledge => AcknowledgeKeepsInv(s, s');
    case SwitchMemtable => SwitchKeepsInv(s, s');
    case WriteTable(c) => WriteTableKeepsInv(s, c, s');
    case FlushWritten(n) => FlushWrittenKeepsInv(s, n, s');
    case InstallFlush(n, nf, ls) => InstallFlushKeepsInv(s, n, nf, ls, s');
    case InstallCompaction(ins, outs, nf, ls) => InstallCompactionKeepsInv(s, ins, outs, nf, ls, s');
    case Cleanup(outs) => CleanupKeepsInv(s, outs, s');
    case Pin => PinKeepsInv(s, s');
    case Unpin(v) => UnpinKeepsInv(s, v, s');
    case DeleteObsoleteFiles => DeleteKeepsInv(s, s');
    case Crash => CrashKeepsInv(s, s');
    case RecoverTable(n, c) => RecoverTableKeepsInv(s, n, c, s');
    case RecoverLog(n) => RecoverLogKeepsInv(s, n, s');
    case Reopen(r) => ReopenKeepsInv(s, r, s');
  }
}
