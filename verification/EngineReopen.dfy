/** Reopening after a crash gives a valid database that holds what was left. */
module EngineReopen {
  import opened InternalKeys
  import opened Version
  import opened LsmEdits
  import opened Lsm
  import opened Engine
  import opened EngineInvariant
  import R = Recovery
  import RR = RecoveryReplay
  import Runs = RecoveryRuns

  // ----- old and recovered files -----

  lemma OldNumbers(s: State, l: nat, g: File)
    requires DiskInv(s) && l < |s.levels| && g in s.levels[l]
    ensures g.number < s.sys.manifest.nextFile
  {
    hide RR.Ordered, Bounded, Hold;
    assert HasNumber(s.levels, g.number);
  }

  lemma OldEntries(s: State, l: nat, g: File, e: Entry)
    requires DiskInv(s) && l < |s.levels| && g in s.levels[l] && e in g.table
    ensures R.InTables(s.sys.tables, s.sys.manifest.live, e)
  {
    hide R.Inv, RR.Ordered, Bounded;
    assert Hold(s.sys.tables, s.levels[l]);
    assert HasNumber(s.levels, g.number);
  }

  lemma RecoveredNumbers(s: State, files: seq<File>, s': State, f: File)
    requires ReopenStep(s, files, s') && f in files
    ensures s.sys.manifest.nextFile < f.number < s'.sys.process.value.log < s'.sys.process.value.nextFile
  {
    hide R.InTables, R.InNeededLogs, R.AfterLogs, R.IsLastSeq, FilesOk, DistinctNumbers, AgeOrder, Installed, Hold;
    assert f.number in Numbers(files);
  }

  lemma RecoveredEntries(s: State, files: seq<File>, s': State, f: File, e: Entry)
    requires ReopenStep(s, files, s') && f in files && e in f.table
    ensures R.InNeededLogs(s.sys, e)
  {
    hide R.InNeededLogs, R.AfterLogs, R.IsLastSeq, FilesOk, DistinctNumbers, AgeOrder, Installed;
    assert f.number in Numbers(files);
    assert R.InTables(s.sys.tables, Numbers(files), e);
  }

  /** Recovered files hold only newer entries than the files that were live. */
  lemma RecoveredIsNewer(s: State, files: seq<File>, s': State, f: File, l: nat, g: File)
    requires DiskInv(s) && ReopenStep(s, files, s') && f in files && l < |s.levels| && g in s.levels[l]
    ensures Newer(f.table, g.table)
  {
    hide DiskInv, ReopenStep, R.InTables, R.InNeededLogs;
    forall a, b | a in f.table && b in g.table
      ensures a.key.seqno > b.key.seqno
    {
      RecoveredEntries(s, files, s', f, a);
      OldEntries(s, l, g, b);
      LiveBefore(s, b, a);
    }
  }

  lemma LiveBefore(s: State, b: Entry, a: Entry)
    requires DiskInv(s) && R.InTables(s.sys.tables, s.sys.manifest.live, b) && R.InNeededLogs(s.sys, a)
    ensures b.key.seqno < a.key.seqno
  {
    hide R.Inv, LevelsLink, Bounded;
    RR.LiveBeforeNeeded(s.sys);
  }

  // ----- the reopened version -----

  lemma ReopenLevels(s: State, files: seq<File>, s': State)
    requires ReopenStep(s, files, s')
    ensures OnlyLevelChanged(s.levels, s'.levels, 0) && Installed(s.levels[0], [], files, s'.levels[0])
    ensures FilesOk(files) && DistinctNumbers(files) && AgeOrder(files) && Hold(s.sys.tables, files)
    ensures forall g :: g in s'.levels[0] <==> g in s.levels[0] || g in files
  {
  }

  lemma RecoveredAges(files: seq<File>, f: File, g: File)
    requires AgeOrder(files) && f in files && g in files && g.number < f.number
    ensures Newer(f.table, g.table)
  {
  }

  lemma ReopenLevel0(s: State, files: seq<File>, s': State)
    requires DiskInv(s) && VersionOk(s.levels) && ReopenStep(s, files, s')
    ensures FilesOk(s'.levels[0]) && DistinctNumbers(s'.levels[0]) && Level0Recency(s'.levels[0])
  {
    hide DiskInv, ReopenStep, LevelRecency, AgeOrder, Hold, Newer, SortedDisjoint, FileOk;
    ReopenLevels(s, files, s');
    var base, after := s.levels[0], s'.levels[0];
    forall f, o | f in base && o in files
      ensures f.number != o.number
    {
      OldNumbers(s, 0, f);
      RecoveredNumbers(s, files, s', o);
    }
    MergedFilesDistinct(base, files, after);
    forall f, g | f in after && g in after && f.number > g.number
      ensures Newer(f.table, g.table)
    {
      if f in files && g in files {
        RecoveredAges(files, f, g);
      } else if f in files {
        RecoveredIsNewer(s, files, s', f, 0, g);
      } else if g in files {
        OldNumbers(s, 0, f);
        RecoveredNumbers(s, files, s', g);
      }
    }
  }

  lemma ReopenRecency(s: State, files: seq<File>, s': State)
    requires DiskInv(s) && VersionOk(s.levels) && ReopenStep(s, files, s')
    ensures LevelRecency(s'.levels)
  {
    hide DiskInv, ReopenStep, Level0Recency, AgeOrder, Hold, Newer, SortedDisjoint, FilesOk, DistinctNumbers, Installed;
    ReopenLevels(s, files, s');
    var v: Levels, w: Levels := s.levels, s'.levels;
    forall i, j, f, g | 0 <= i < j < |w| && f in w[i] && g in w[j]
      ensures Newer(f.table, g.table)
    {
      assert g in v[j];
      if i == 0 && f in files {
        RecoveredIsNewer(s, files, s', f, j, g);
      }
    }
  }

  lemma ReopenVersionOk(s: State, files: seq<File>, s': State)
    requires DiskInv(s) && VersionOk(s.levels) && ReopenStep(s, files, s')
    ensures VersionOk(s'.levels)
  {
    ReopenLevel0(s, files, s');
    ReopenRecency(s, files, s');
    ReopenLevels(s, files, s');
    hide DiskInv, ReopenStep, Level0Recency, LevelRecency, SortedDisjoint, FilesOk, DistinctNumbers, Installed;
  }

  lemma ReopenNumbers(s: State, files: seq<File>, s': State)
    requires DiskInv(s) && UniqueNumbers(s.levels) && ReopenStep(s, files, s')
    ensures UniqueNumbers(s'.levels) && NumbersBelow(s'.levels, s'.sys.process.value.nextFile)
  {
    hide DiskInv, ReopenStep, FilesOk, DistinctNumbers, AgeOrder, Hold, Installed;
    ReopenLevels(s, files, s');
    CountersUp(s, files, s');
    var v: Levels, w: Levels := s.levels, s'.levels;
    forall l, g | 0 <= l < |w| && g in w[l]
      ensures g.number < s'.sys.process.value.nextFile
    {
      if g in v[l] {
        OldNumbers(s, l, g);
      } else {
        RecoveredNumbers(s, files, s', g);
      }
    }
    forall i, j, f, g | 0 <= i < j < |w| && f in w[i] && g in w[j]
      ensures f.number != g.number
    {
      assert g in v[j];
      OldNumbers(s, j, g);
      if f !in v[i] {
        RecoveredNumbers(s, files, s', f);
      }
    }
  }

  lemma CountersUp(s: State, files: seq<File>, s': State)
    requires ReopenStep(s, files, s')
    ensures s'.sys.process.Some? && s.sys.manifest.nextFile < s'.sys.process.value.nextFile
  {
    hide R.InTables, R.InNeededLogs, R.AfterLogs, R.IsLastSeq, FilesOk, DistinctNumbers, AgeOrder, Installed, Hold;
  }

  lemma ReopenLink(s: State, files: seq<File>, s': State)
    requires DiskInv(s) && ReopenStep(s, files, s')
    ensures LevelsLink(s'.levels, s'.sys)
  {
    hide R.Inv, RR.Ordered, Bounded, FilesOk, DistinctNumbers, AgeOrder, R.InTables, R.InNeededLogs, R.AfterLogs;
    hide R.IsLastSeq, SortedBySmallest;
    var v: Levels, w: Levels := s.levels, s'.levels;
    forall n
      ensures n in s'.sys.manifest.live <==> HasNumber(w, n)
    {
      if n in s.sys.manifest.live {
        assert HasNumber(v, n);
        var l, g :| 0 <= l < |v| && g in v[l] && g.number == n;
        assert g in w[l];
      }
      if n in Numbers(files) {
        var f :| f in files && f.number == n;
        assert f in w[0];
      }
      if HasNumber(w, n) {
        var l, g :| 0 <= l < |w| && g in w[l] && g.number == n;
        assert g in v[l] ==> HasNumber(v, n);
      }
    }
    forall l | 0 <= l < |w|
      ensures Hold(s'.sys.tables, w[l])
    {
      assert Hold(s.sys.tables, v[l]);
    }
  }

  // ----- the reopened database -----

  lemma ReopenIsRecovery(s: State, files: seq<File>, s': State)
    requires ReopenStep(s, files, s')
    ensures R.ReopenStep(s.sys, Numbers(files), s'.sys) && s'.sys.process.Some?
    ensures var p := s'.sys.process.value;
            && s'.db == Some(Db([], None, s'.levels, [], p.lastSeq, p.nextFile, None))
            && s'.inFlight.None? && p.mem == {} && p.imm.None? && p.inFlight.None?
            && R.IsLastSeq(s.sys, p.lastSeq) && s'.sys.manifest.lastSeq == p.lastSeq
  {
    hide R.InTables, R.InNeededLogs, R.IsLastSeq, FilesOk, DistinctNumbers, AgeOrder, Installed, Hold;
  }

  /** The reopened database holds exactly what the process left. */
  lemma ReopenEntries(s: State, files: seq<File>, s': State)
    requires DiskInv(s) && DownInv(s) && ReopenStep(s, files, s')
    ensures s'.db.Some? && All(s'.db.value) == s.disk
    ensures SeqnosAtMost(s.disk, s'.db.value.lastSeq)
  {
    ReopenIsRecovery(s, files, s');
    ReopenLink(s, files, s');
    hide DiskInv, ReopenStep, R.ReopenStep, LevelsLink, VersionOk, UniqueNumbers, Unique, R.Durable, VersionEntries, R.IsLastSeq;
    SysInv(s);
    R.RecoveredTables(s.sys, Numbers(files), s'.sys);
    forall e
      ensures e in VersionEntries(s'.levels) <==> e in s.disk
      ensures e in s.disk ==> e.key.seqno <= s'.db.value.lastSeq
    {
      TablesOfLevels(s'.levels, s'.sys, e);
      Runs.ReopenRebuilds(s.sys, Numbers(files), s'.sys, e);
    }
    assert All(s'.db.value) == VersionEntries(s'.levels);
  }

  lemma SysInv(s: State)
    requires DiskInv(s)
    ensures R.Inv(s.sys) && RR.Ordered(s.sys) && Bounded(s.sys)
  {
  }

  lemma ReopenMem(s: State, files: seq<File>, s': State)
    requires DiskInv(s) && DownInv(s) && ReopenStep(s, files, s')
    ensures s'.db.Some? && MemInv(s'.db.value)
  {
    ReopenIsRecovery(s, files, s');
    ReopenEntries(s, files, s');
    hide DiskInv, ReopenStep, R.ReopenStep, VersionOk, UniqueNumbers, Unique, R.Durable, VersionEntries, R.IsLastSeq, All;
    SysInv(s);
    var d := s'.db.value;
    assert MemEntries(d) == {};
  }

  lemma ReopenRecords(sys: R.Sys, r: set<nat>, sys': R.Sys)
    requires R.Inv(sys) && R.ReopenStep(sys, r, sys')
    ensures NoNewRecords(sys, sys')
  {
    hide R.InTables, R.InNeededLogs, R.IsLastSeq;
  }

  lemma ReopenDisk(s: State, files: seq<File>, s': State)
    requires DiskInv(s) && ReopenStep(s, files, s')
    ensures DiskInv(s')
  {
    hide ReopenStep, R.ReopenStep, R.IsLastSeq, R.Inv, RR.Ordered, Bounded, LevelsLink, NoNewRecords;
    ReopenIsRecovery(s, files, s');
    ReopenLink(s, files, s');
    SysKept(s.sys, R.Reopen(Numbers(files)), s'.sys);
    ReopenRecords(s.sys, Numbers(files), s'.sys);
    LastBounded(s.sys, s'.sys.process.value.lastSeq);
    BoundedKept(s.sys, s'.sys);
  }

  lemma ReopenUp(s: State, files: seq<File>, s': State)
    requires DiskInv(s) && DownInv(s) && ReopenStep(s, files, s')
    ensures UpInv(s')
  {
    hide DiskInv, ReopenStep, R.ReopenStep, VersionOk, UniqueNumbers, NumbersBelow, MemInv, Unique, R.Durable, R.IsLastSeq;
    ReopenIsRecovery(s, files, s');
    ReopenVersionOk(s, files, s');
    ReopenNumbers(s, files, s');
    ReopenMem(s, files, s');
  }

  lemma ReopenKeeps(s: State, files: seq<File>, s': State)
    requires EngineInv(s) && ReopenStep(s, files, s')
    ensures EngineInv(s') && UpInv(s')
  {
    assert DownInv(s);
    hide DiskInv, DownInv, UpInv, ReopenStep;
    ReopenDisk(s, files, s');
    ReopenUp(s, files, s');
  }

  lemma LastBounded(sys: R.Sys, n: nat)
    requires Bounded(sys) && R.IsLastSeq(sys, n)
    ensures n < MAX_SEQUENCE
  {
  }

  /** The tables that replaying makes, as files: what the reopening step requires. */
  ghost predicate FilesOf(made: seq<RR.Made>, files: seq<File>) {
    && |files| == |made|
    && (forall i :: 0 <= i < |made| ==> files[i].number == made[i].number && Entries(files[i].table) == made[i].contents)
  }

  lemma OpenMakesFiles(s: R.Sys, made: seq<RR.Made>, files: seq<File>, lo: nat, hi: nat)
    requires RR.Numbered(made, lo, hi) && RR.MadeOrdered(made) && FilesOf(made, files)
    ensures DistinctNumbers(files) && AgeOrder(files) && Hold(RR.Written(s.tables, made), files)
    ensures Numbers(files) == RR.NumbersOf(made)
  {
    hide RR.Written;
    RR.WrittenAt(s.tables, made, lo, hi);
    forall f, g, e, x | f in files && g in files && f.number < g.number && e in f.table && x in g.table
      ensures e.key.seqno < x.key.seqno
    {
      var i :| 0 <= i < |files| && files[i] == f;
      var j :| 0 <= j < |files| && files[j] == g;
      assert i < j;
      assert e in made[i].contents && x in made[j].contents;
    }
    forall n
      ensures n in Numbers(files) <==> n in RR.NumbersOf(made)
    {
      if n in Numbers(files) {
        var f :| f in files && f.number == n;
        var i :| 0 <= i < |files| && files[i] == f;
        assert made[i].number == n;
      }
      if n in RR.NumbersOf(made) {
        var i :| 0 <= i < |made| && made[i].number == n;
        assert files[i] in files;
      }
    }
  }
}
