/** What every step of the whole engine keeps. */
module EngineInvariant {
  import opened InternalKeys
  import opened Version
  import opened LsmEdits
  import opened CleanCuts
  import opened Lsm
  import L = LsmInvariant
  import opened Engine
  import R = Recovery
  import RR = RecoveryReplay
  import Runs = RecoveryRuns

  // ----- the invariant -----

  /** Memory as the levels see it and as the files see it. */
  ghost predicate MemLink(d: Db, p: R.Process, inFlight: Option<seq<Op>>) {
    && p.mem == Entries(d.mem) && p.lastSeq == d.lastSeq
    && (p.imm.Some? <==> d.imm.Some?) && (p.imm.Some? ==> p.imm.value == Entries(d.imm.value))
    && (p.inFlight.Some? <==> inFlight.Some?)
    && (inFlight.Some? ==>
          p.inFlight.value == Record(inFlight.value, d.lastSeq) && d.lastSeq + |inFlight.value| < MAX_SEQUENCE)
  }

  /** Recovered sequence numbers stay below the maximum. */
  ghost predicate Bounded(sys: R.Sys) {
    forall n: nat :: R.IsLastSeq(sys, n) ==> n < MAX_SEQUENCE
  }

  ghost predicate DiskInv(s: State) {
    R.Inv(s.sys) && RR.Ordered(s.sys) && Bounded(s.sys) && LevelsLink(s.levels, s.sys)
  }

  ghost predicate UpInv(s: State) {
    && s.db.Some? && s.sys.process.Some?
    && Inv(s.db.value) && s.db.value.v == s.levels
    && MemLink(s.db.value, s.sys.process.value, s.inFlight)
  }

  /** What the process left is what recovery will rebuild. */
  ghost predicate DownInv(s: State) {
    && s.db.None? && s.sys.process.None? && s.inFlight.None?
    && VersionOk(s.levels) && UniqueNumbers(s.levels) && Unique(s.disk)
    && (forall e :: R.Durable(s.sys, e) <==> e in s.disk)
  }

  ghost predicate EngineInv(s: State) {
    DiskInv(s) && (UpInv(s) || DownInv(s))
  }

  // ----- the files hold the entries of the levels -----

  lemma TablesOfLevels(levels: Levels, sys: R.Sys, e: Entry)
    requires LevelsLink(levels, sys)
    ensures R.InTables(sys.tables, sys.manifest.live, e) <==> e in VersionEntries(levels)
  {
    if R.InTables(sys.tables, sys.manifest.live, e) {
      var n :| n in sys.manifest.live && n in sys.tables && e in sys.tables[n];
      assert HasNumber(levels, n);
      var l, f :| 0 <= l < |levels| && f in levels[l] && f.number == n;
      assert Hold(sys.tables, levels[l]);
      FileEntriesHas(levels[l], f, e);
      VersionEntriesHas(levels, l, e);
    }
    if e in VersionEntries(levels) {
      var l := VersionEntriesFrom(levels, e);
      var f := FileEntriesFrom(levels[l], e);
      assert Hold(sys.tables, levels[l]);
      assert HasNumber(levels, f.number);
    }
  }

  /** Live tables unchanged. */
  lemma LinkKept(levels: Levels, sys: R.Sys, sys': R.Sys)
    requires LevelsLink(levels, sys) && sys'.manifest.live == sys.manifest.live
    requires forall n :: n in sys.tables && n in sys.manifest.live ==> n in sys'.tables && sys'.tables[n] == sys.tables[n]
    ensures LevelsLink(levels, sys')
  {
    forall l | 0 <= l < |levels|
      ensures Hold(sys'.tables, levels[l])
    {
      assert Hold(sys.tables, levels[l]);
      forall f | f in levels[l]
        ensures f.number in sys'.tables && sys'.tables[f.number] == Entries(f.table)
      {
        assert HasNumber(levels, f.number);
      }
    }
  }

  // ----- recovered sequence numbers -----

  /** No record is new to the needed logs. */
  ghost predicate NoNewRecords(sys: R.Sys, sys': R.Sys) {
    forall n :: RR.NeededLog(sys', n) ==> sys'.logs[n] == [] || (RR.NeededLog(sys, n) && sys'.logs[n] == sys.logs[n])
  }

  lemma BoundedKept(sys: R.Sys, sys': R.Sys)
    requires Bounded(sys) && NoNewRecords(sys, sys') && sys'.manifest.lastSeq < MAX_SEQUENCE
    ensures Bounded(sys')
  {
    forall n: nat | R.IsLastSeq(sys', n)
      ensures n < MAX_SEQUENCE
    {
      if n != sys'.manifest.lastSeq {
        var log, i :| log in sys'.logs && sys'.manifest.logNumber <= log && 0 <= i < |sys'.logs[log]| && sys'.logs[log][i].last == n;
        assert RR.NeededLog(sys', log);
        assert RR.NeededLog(sys, log) && sys.logs[log][i].last == n;
        assert R.NeededLast(sys, n) && R.IsLastSeq(sys, n);
      }
    }
  }

  lemma BoundedAppend(sys: R.Sys, rec: R.Rec, sys': R.Sys)
    requires Bounded(sys) && R.AppendStep(sys, rec, sys') && rec.last < MAX_SEQUENCE
    ensures Bounded(sys')
  {
    var p := sys.process.value;
    forall n: nat | R.IsLastSeq(sys', n)
      ensures n < MAX_SEQUENCE
    {
      if n == sys.manifest.lastSeq {
        assert R.IsLastSeq(sys, n);
      } else {
        var log, i :| log in sys'.logs && sys'.manifest.logNumber <= log && 0 <= i < |sys'.logs[log]| && sys'.logs[log][i].last == n;
        if log == p.log && i == |sys.logs[log]| {
          assert sys'.logs[log][i] == rec;
        } else {
          assert sys'.logs[log][i] == sys.logs[log][i];
          assert R.NeededLast(sys, n) && R.IsLastSeq(sys, n);
        }
      }
    }
  }

  // ----- steps on the files -----

  lemma SysKept(sys: R.Sys, step: R.Step, sys': R.Sys)
    requires R.Inv(sys) && RR.Ordered(sys) && R.Next(sys, step, sys')
    ensures R.Inv(sys') && RR.Ordered(sys')
  {
    hide R.Inv, R.Next, RR.Ordered;
    R.NextKeepsInv(sys, step, sys');
    RR.NextKeepsOrder(sys, step, sys');
  }

  /** The process changed only in what readers, outputs and the file counter use. */
  ghost predicate SameProcess(p: R.Process, p': R.Process) {
    p' == p.(pinned := p'.pinned, pending := p'.pending, flushing := p'.flushing, nextFile := p'.nextFile)
  }

  lemma BackgroundChanges(sys: R.Sys, step: R.Step, sys': R.Sys)
    requires R.Inv(sys) && IsBackground(step) && R.Next(sys, step, sys')
    ensures sys.process.Some? && sys'.process.Some? && SameProcess(sys.process.value, sys'.process.value)
    ensures sys'.manifest == sys.manifest && NoNewRecords(sys, sys')
    ensures forall n :: n in sys.tables && n in sys.manifest.live ==> n in sys'.tables && sys'.tables[n] == sys.tables[n]
  {
    Runs.NextKeepsFiles(sys, step, sys');
    hide R.Inv;
  }

  lemma BackgroundKeeps(s: State, step: R.Step, s': State)
    requires EngineInv(s) && BackgroundStep(s, step, s')
    ensures EngineInv(s') && s'.db == s.db
  {
    hide R.Inv, RR.Ordered, Inv, R.Next, LevelsLink, NoNewRecords, Bounded;
    SysKept(s.sys, step, s'.sys);
    BackgroundChanges(s.sys, step, s'.sys);
    LinkKept(s.levels, s.sys, s'.sys);
    ManifestBounded(s.sys);
    BoundedKept(s.sys, s'.sys);
  }

  lemma ManifestBounded(sys: R.Sys)
    requires Bounded(sys)
    ensures sys.manifest.lastSeq < MAX_SEQUENCE
  {
    assert R.IsLastSeq(sys, sys.manifest.lastSeq);
  }

  lemma LocalKeeps(s: State, step: Step, s': State)
    requires EngineInv(s) && LocalStep(s, step, s')
    ensures EngineInv(s')
  {
    hide R.Inv, RR.Ordered, LevelsLink, Bounded, Inv, Next;
    L.NextKeepsInv(s.db.value, step, s'.db.value);
    LocalChanges(s.db.value, step, s'.db.value);
  }

  lemma LocalChanges(d: Db, step: Step, d': Db)
    requires IsLocal(step) && Next(d, step, d')
    ensures d'.mem == d.mem && d'.imm == d.imm && d'.v == d.v && d'.lastSeq == d.lastSeq
  {
  }

  lemma BeginWriteKeeps(s: State, ops: seq<Op>, s': State)
    requires EngineInv(s) && BeginWriteStep(s, ops, s')
    ensures EngineInv(s') && s'.db == s.db
  {
    hide R.Inv, RR.Ordered, Inv, LevelsLink, Bounded, BatchEntries;
    var rec := Record(ops, s.db.value.lastSeq);
    SysKept(s.sys, R.Append(rec), s'.sys);
    BoundedAppend(s.sys, rec, s'.sys);
    LinkKept(s.levels, s.sys, s'.sys);
  }

  lemma CommitWriteKeeps(s: State, s': State)
    requires EngineInv(s) && CommitWriteStep(s, s')
    ensures EngineInv(s')
  {
    hide R.Inv, RR.Ordered, Inv, LevelsLink, Bounded, BatchEntries, Sorted;
    SysKept(s.sys, R.Acknowledge, s'.sys);
    L.WriteKeepsInv(s.db.value, s.inFlight.value, s'.db.value);
    LinkKept(s.levels, s.sys, s'.sys);
    ManifestBounded(s.sys);
    BoundedKept(s.sys, s'.sys);
  }

  lemma SwitchKeeps(s: State, s': State)
    requires EngineInv(s) && SwitchBothStep(s, s')
    ensures EngineInv(s')
  {
    hide RR.Ordered, Inv, LevelsLink, Bounded, R.Inv;
    SysKept(s.sys, R.SwitchMemtable, s'.sys);
    L.SwitchKeepsInv(s.db.value, s'.db.value);
    LinkKept(s.levels, s.sys, s'.sys);
    ManifestBounded(s.sys);
    SwitchRecords(s.sys, s'.sys);
    BoundedKept(s.sys, s'.sys);
  }

  lemma SwitchRecords(sys: R.Sys, sys': R.Sys)
    requires R.SwitchStep(sys, sys')
    ensures NoNewRecords(sys, sys')
  {
  }

  // ----- installing a flush -----

  lemma NumberAdded(v: Levels, w: Levels, level: nat, f: File)
    requires OnlyLevelChanged(v, w, level) && Installed(v[level], [], [f], w[level])
    ensures forall n :: HasNumber(w, n) <==> HasNumber(v, n) || n == f.number
  {
    hide SortedBySmallest;
    assert f in [f] && f in w[level];
    forall n | HasNumber(v, n)
      ensures HasNumber(w, n)
    {
      var l, g :| 0 <= l < |v| && g in v[l] && g.number == n;
      assert g in w[l];
    }
    forall n | HasNumber(w, n) && n != f.number
      ensures HasNumber(v, n)
    {
      var l, g :| 0 <= l < |w| && g in w[l] && g.number == n;
      assert g in v[l];
    }
  }

  lemma FlushLink(s: State, level: nat, f: File, nf: nat, ls: nat, s': State)
    requires DiskInv(s) && UpInv(s) && InstallFlushStep(s, level, f, nf, ls, s') && s.db.value.imm.value != []
    ensures LevelsLink(s'.levels, s'.sys)
  {
    hide RR.Ordered, Inv, Bounded, R.LogsOk, R.SeqnosOk, SortedBySmallest, ClearDownTo, MissesAll, HasNumber;
    var d, d' := s.db.value, s'.db.value;
    NumberAdded(d.v, d'.v, level, f);
    ImmNotEmpty(d.imm.value);
    forall l | 0 <= l < |d'.v|
      ensures Hold(s'.sys.tables, d'.v[l])
    {
      assert Hold(s.sys.tables, d.v[l]);
    }
  }

  lemma ImmNotEmpty(t: seq<Entry>)
    ensures Entries(t) == {} <==> t == []
  {
    if t != [] {
      assert t[0] in Entries(t);
    }
  }

  lemma InstalledManifestBounded(s: State, lastSeq: nat)
    requires UpInv(s) && lastSeq <= s.sys.process.value.lastSeq
    ensures lastSeq < MAX_SEQUENCE
  {
    hide FilesInv, SnapshotsOk, JobInv;
  }

  lemma InstallFlushKeeps(s: State, level: nat, f: File, nf: nat, ls: nat, s': State)
    requires EngineInv(s) && InstallFlushStep(s, level, f, nf, ls, s')
    ensures EngineInv(s')
  {
    hide R.Inv, RR.Ordered, Inv, LevelsLink, Bounded, R.InstallFlushStep, FlushTo, NoNewRecords;
    SysKept(s.sys, R.InstallFlush(f.number, nf, ls), s'.sys);
    if s.db.value.imm.value == [] {
      EmptyFlushLink(s, level, f, nf, ls, s');
    } else {
      FlushLink(s, level, f, nf, ls, s');
    }
    FlushProcess(s.sys, f.number, nf, ls, s'.sys);
    InstalledManifestBounded(s, ls);
    FlushRecords(s.sys, f.number, nf, ls, s'.sys);
    BoundedKept(s.sys, s'.sys);
    FlushIsStep(s.db.value, level, f, s'.db.value);
    L.FlushKeepsInv(s.db.value, level, s'.db.value);
    FlushChanges(s.db.value, level, f, s'.db.value);
  }

  lemma FlushProcess(sys: R.Sys, number: nat, nf: nat, ls: nat, sys': R.Sys)
    requires R.InstallFlushStep(sys, number, nf, ls, sys')
    ensures sys.process.Some? && sys'.process.Some? && sys'.manifest.lastSeq == ls <= sys.process.value.lastSeq
    ensures var p, p' := sys.process.value, sys'.process.value;
            p' == p.(imm := None, current := p'.current, flushing := None)
  {
  }

  lemma FlushIsStep(d: Db, level: nat, f: File, d': Db)
    requires d.imm.Some? && if d.imm.value == [] then d' == d.(imm := None) else FlushTo(d, level, f, d')
    ensures FlushStep(d, level, d')
  {
  }

  lemma FlushChanges(d: Db, level: nat, f: File, d': Db)
    requires d.imm.Some? && if d.imm.value == [] then d' == d.(imm := None) else FlushTo(d, level, f, d')
    ensures d'.mem == d.mem && d'.imm == None && d'.lastSeq == d.lastSeq
  {
  }

  lemma FlushRecords(sys: R.Sys, number: nat, nf: nat, ls: nat, sys': R.Sys)
    requires R.Inv(sys) && R.InstallFlushStep(sys, number, nf, ls, sys')
    ensures NoNewRecords(sys, sys')
  {
    hide R.InLog, R.InOlderLog, R.InTables, R.SeqnosOk;
  }

  lemma EmptyFlushLink(s: State, level: nat, f: File, nf: nat, ls: nat, s': State)
    requires DiskInv(s) && UpInv(s) && InstallFlushStep(s, level, f, nf, ls, s') && s.db.value.imm.value == []
    ensures LevelsLink(s'.levels, s'.sys)
  {
    hide RR.Ordered, Inv, Bounded, R.LogsOk, R.SeqnosOk, LevelsLink;
    ImmNotEmpty(s.db.value.imm.value);
    LinkKept(s.levels, s.sys, s'.sys);
  }

  // ----- installing a compaction -----

  /** Files that are not inputs have other numbers. */
  lemma OtherNumbers(v: Levels, L: nat, in0: seq<File>, in1: seq<File>, l: nat, u: File, c: File)
    requires VersionOk(v) && UniqueNumbers(v) && Bystander(v, L, in0, in1, l, u) && L + 1 < |v|
    requires (forall f :: f in in0 ==> f in v[L]) && (forall f :: f in in1 ==> f in v[L + 1]) && c in in0 + in1
    ensures u.number != c.number
  {
    hide FilesOk, SortedDisjoint, LevelRecency, Level0Recency;
    var m := if c in in0 then L else L + 1;
    assert c in v[m];
    if l == m {
      DistinctWithin(v[l], u, c);
    }
  }

  lemma NumbersAfter(v: Levels, w: Levels, L: nat, in0: seq<File>, in1: seq<File>, outs: seq<File>)
    requires VersionOk(v) && UniqueNumbers(v) && CompactionInstalled(v, w, L, in0, in1, outs)
    requires (forall f :: f in in0 ==> f in v[L]) && (forall f :: f in in1 ==> f in v[L + 1])
    ensures forall n :: HasNumber(w, n) <==> (HasNumber(v, n) && n !in Numbers(in0 + in1)) || n in Numbers(outs)
  {
    hide VersionOk, UniqueNumbers, SortedBySmallest;
    forall n
      ensures HasNumber(w, n) <==> (HasNumber(v, n) && n !in Numbers(in0 + in1)) || n in Numbers(outs)
    {
      if HasNumber(w, n) {
        var l, g :| 0 <= l < |w| && g in w[l] && g.number == n;
        if !(l == L + 1 && g in outs) {
          assert Bystander(v, L, in0, in1, l, g);
          forall c | c in in0 + in1
            ensures c.number != n
          {
            OtherNumbers(v, L, in0, in1, l, g, c);
          }
        }
      }
      if HasNumber(v, n) && n !in Numbers(in0 + in1) {
        var l, g :| 0 <= l < |v| && g in v[l] && g.number == n;
        assert g in in0 ==> g in in0 + in1;
        assert g in in1 ==> g in in0 + in1;
        assert g in w[l];
      }
      if n in Numbers(outs) {
        var o :| o in outs && o.number == n;
        assert o in w[L + 1];
      }
    }
  }

  lemma InstalledHold(v: Levels, w: Levels, L: nat, in0: seq<File>, in1: seq<File>, outs: seq<File>, tables: map<nat, set<Entry>>)
    requires CompactionInstalled(v, w, L, in0, in1, outs) && Hold(tables, outs)
    requires forall l :: 0 <= l < |v| ==> Hold(tables, v[l])
    ensures forall l :: 0 <= l < |w| ==> Hold(tables, w[l])
  {
    hide SortedBySmallest;
    forall l | 0 <= l < |w|
      ensures Hold(tables, w[l])
    {
      assert Hold(tables, v[l]);
    }
  }

  lemma CompactionLink(s: State, outs: seq<File>, nf: nat, ls: nat, s': State)
    requires DiskInv(s) && UpInv(s) && InstallCompactionStep(s, outs, nf, ls, s')
    ensures LevelsLink(s'.levels, s'.sys)
  {
    hide RR.Ordered, Bounded, R.LogsOk, R.SeqnosOk, HasNumber, CompactionInstalled, MemInv, SnapshotsOk, JobOk, OutputsOk;
    hide VersionOk, UniqueNumbers, NumbersBelow, UnusedNumbers, R.DiskOk;
    var j := s.db.value.job.value;
    L.JobInputs(s.db.value.v, j.input, j.level, j.in0, j.in1);
    NumbersAfter(s.levels, s'.levels, j.level, j.in0, j.in1, outs);
    InstalledHold(s.levels, s'.levels, j.level, j.in0, j.in1, outs, s.sys.tables);
    SevenAfter(s.levels, s'.levels, j.level, j.in0, j.in1, outs);
  }

  lemma SevenAfter(v: Levels, w: Levels, L: nat, in0: seq<File>, in1: seq<File>, outs: seq<File>)
    requires CompactionInstalled(v, w, L, in0, in1, outs)
    ensures |w| == |v|
  {
  }

  lemma CompactionProcess(sys: R.Sys, ins: set<nat>, outs: set<nat>, nf: nat, ls: nat, sys': R.Sys)
    requires R.InstallCompactionStep(sys, ins, outs, nf, ls, sys')
    ensures sys.process.Some? && sys'.process.Some? && sys'.manifest.lastSeq == ls <= sys.process.value.lastSeq
    ensures var p, p' := sys.process.value, sys'.process.value;
            p' == p.(current := p'.current)
    ensures NoNewRecords(sys, sys')
  {
  }

  lemma InstallCompactionKeeps(s: State, outs: seq<File>, nf: nat, ls: nat, s': State)
    requires EngineInv(s) && InstallCompactionStep(s, outs, nf, ls, s')
    ensures EngineInv(s')
  {
    hide R.Inv, RR.Ordered, Inv, LevelsLink, Bounded, R.InstallCompactionStep, FinishStep, NoNewRecords;
    var j := s.db.value.job.value;
    SysKept(s.sys, R.InstallCompaction(Numbers(j.in0 + j.in1), Numbers(outs), nf, ls), s'.sys);
    CompactionLink(s, outs, nf, ls, s');
    CompactionProcess(s.sys, Numbers(j.in0 + j.in1), Numbers(outs), nf, ls, s'.sys);
    InstalledManifestBounded(s, ls);
    BoundedKept(s.sys, s'.sys);
    L.FinishKeepsInv(s.db.value, outs, s'.db.value);
    FinishChanges(s.db.value, outs, s'.db.value);
  }

  lemma FinishChanges(d: Db, outs: seq<File>, d': Db)
    requires FinishStep(d, outs, d')
    ensures d'.mem == d.mem && d'.imm == d.imm && d'.lastSeq == d.lastSeq
  {
  }

  lemma MoveLink(s: State, level: nat, f: File, nf: nat, ls: nat, s': State)
    requires DiskInv(s) && UpInv(s) && InstallMoveStep(s, level, f, nf, ls, s')
    ensures LevelsLink(s'.levels, s'.sys)
  {
    hide RR.Ordered, Bounded, R.LogsOk, R.SeqnosOk, HasNumber, CompactionInstalled, MemInv, SnapshotsOk, JobInv;
    hide VersionOk, UniqueNumbers, NumbersBelow, R.DiskOk;
    var v: Levels, w: Levels := s.levels, s'.levels;
    assert f in [f] && f in v[level];
    NumbersAfter(v, w, level, [f], [], [f]);
    assert [f] + [] == [f];
    assert HasNumber(v, f.number) by { FileHasNumber(v, level, f); }
    assert Hold(s.sys.tables, v[level]);
    InstalledHold(v, w, level, [f], [], [f], s.sys.tables);
    SevenAfter(v, w, level, [f], [], [f]);
  }

  lemma FileHasNumber(v: Levels, l: nat, f: File)
    requires l < |v| && f in v[l]
    ensures HasNumber(v, f.number)
  {
  }

  lemma InstallMoveKeeps(s: State, level: nat, f: File, nf: nat, ls: nat, s': State)
    requires EngineInv(s) && InstallMoveStep(s, level, f, nf, ls, s')
    ensures EngineInv(s')
  {
    hide R.Inv, RR.Ordered, Inv, LevelsLink, Bounded, R.InstallCompactionStep, MoveStep, NoNewRecords;
    SysKept(s.sys, R.InstallCompaction({}, {}, nf, ls), s'.sys);
    MoveLink(s, level, f, nf, ls, s');
    CompactionProcess(s.sys, {}, {}, nf, ls, s'.sys);
    InstalledManifestBounded(s, ls);
    BoundedKept(s.sys, s'.sys);
    L.MoveKeepsInv(s.db.value, level, f, s'.db.value);
    MoveChanges(s.db.value, level, f, s'.db.value);
  }

  lemma MoveChanges(d: Db, level: nat, f: File, d': Db)
    requires MoveStep(d, level, f, d')
    ensures d'.mem == d.mem && d'.imm == d.imm && d'.lastSeq == d.lastSeq
  {
  }

  // ----- crash -----

  /** A running process leaves exactly what it held and the record in flight. */
  lemma LeftIsDurable(s: State, e: Entry)
    requires DiskInv(s) && UpInv(s)
    ensures R.Durable(s.sys, e) <==> e in Left(s)
  {
    hide RR.Ordered, Bounded, Inv, BatchEntries, LevelsLink, R.InTables, R.InNeededLogs;
    var p := s.sys.process.value;
    Runs.DurableIsPresent(s.sys, e);
    TablesOfLevels(s.levels, s.sys, e);
    CurrentIsLive(s.sys);
  }

  lemma CurrentIsLive(sys: R.Sys)
    requires R.Inv(sys) && sys.process.Some?
    ensures sys.process.value.current == sys.manifest.live
  {
  }

  lemma LeftIsUnique(s: State)
    requires UpInv(s)
    ensures Unique(Left(s))
  {
    hide VersionOk, SnapshotsOk, JobInv, NumbersBelow, UniqueNumbers, NewerEntries, Sorted, BatchEntries, VersionEntries;
    var d := s.db.value;
    if s.inFlight.Some? {
      L.BatchSeqnos(s.inFlight.value, d.lastSeq + 1);
      L.UniqueUnion(All(d), BatchEntries(s.inFlight.value, d.lastSeq + 1), d.lastSeq);
    } else {
      assert Left(s) == All(d);
    }
  }

  lemma CrashKeeps(s: State, s': State)
    requires EngineInv(s) && CrashStep(s, s')
    ensures EngineInv(s')
  {
    SysKept(s.sys, R.Crash, s'.sys);
    SameAfterCrash(s, s');
    if s.db.Some? {
      LeftIsUnique(s);
      forall e
        ensures R.Durable(s'.sys, e) <==> e in s'.disk
      {
        LeftIsDurable(s, e);
        DurableAfterCrash(s.sys, s'.sys, e);
      }
    } else {
      forall e
        ensures R.Durable(s'.sys, e) <==> e in s'.disk
      {
        DurableAfterCrash(s.sys, s'.sys, e);
      }
    }
    hide R.Inv, RR.Ordered, MemInv, SnapshotsOk, JobInv, LevelsLink, Bounded, VersionOk, Left, R.Durable, MemLink;
  }

  lemma DurableAfterCrash(sys: R.Sys, sys': R.Sys, e: Entry)
    requires R.CrashStep(sys, sys')
    ensures R.Durable(sys', e) <==> R.Durable(sys, e)
  {
  }

  lemma SameAfterCrash(s: State, s': State)
    requires DiskInv(s) && CrashStep(s, s')
    ensures LevelsLink(s'.levels, s'.sys) && Bounded(s'.sys)
  {
    hide R.Inv, RR.Ordered, Left;
    ManifestBounded(s.sys);
    BoundedKept(s.sys, s'.sys);
    LinkKept(s.levels, s.sys, s'.sys);
  }

  lemma RecoveringKeeps(s: State, step: R.Step, s': State)
    requires EngineInv(s) && RecoveringStep(s, step, s')
    ensures EngineInv(s')
  {
    SysKept(s.sys, step, s'.sys);
    Runs.NextKeepsFiles(s.sys, step, s'.sys);
    RecoveringChanges(s.sys, step, s'.sys);
    forall e
      ensures R.Durable(s'.sys, e) <==> R.Durable(s.sys, e)
    {
      Runs.NextKeepsDurable(s.sys, step, s'.sys, e);
      NeitherAddsNorDrops(s.sys, step, s'.sys, e);
    }
    hide R.Inv, RR.Ordered, LevelsLink, Bounded, VersionOk, R.Durable, NoNewRecords, R.Next;
    ManifestBounded(s.sys);
    BoundedKept(s.sys, s'.sys);
    LinkKept(s.levels, s.sys, s'.sys);
  }

  lemma NeitherAddsNorDrops(sys: R.Sys, step: R.Step, sys': R.Sys, e: Entry)
    requires (step.RecoverTable? || step.RecoverLog?) && Runs.StepKeeps(sys, step, sys', e)
    ensures R.Durable(sys', e) <==> R.Durable(sys, e)
  {
    hide R.InTables, R.InNeededLogs;
  }

  lemma RecoveringChanges(sys: R.Sys, step: R.Step, sys': R.Sys)
    requires (step.RecoverTable? || step.RecoverLog?) && R.Next(sys, step, sys')
    ensures sys'.process.None? && sys'.manifest == sys.manifest && NoNewRecords(sys, sys')
  {
  }
}
