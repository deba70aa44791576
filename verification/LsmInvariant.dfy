/** Every reachable state keeps the invariant of `Lsm`. */
module LsmInvariant {
  import opened InternalKeys
  import opened Version
  import opened CompactionInputs
  import opened LsmEdits
  import opened Compaction
  import opened CleanCuts
  import opened Lsm

  lemma InitInv(db: Db)
    requires Init(db)
    ensures Inv(db)
  {
    hide VersionOk;
    EmptyVersionOk(db.v);
    NoEntries(db.v);
  }

  lemma EmptyVersionOk(v: Levels)
    requires |v| == NUM_LEVELS && forall l :: 0 <= l < |v| ==> v[l] == []
    ensures VersionOk(v)
  {
  }

  lemma {:induction false} NoEntries(v: Levels)
    requires forall l :: 0 <= l < |v| ==> v[l] == []
    ensures VersionEntries(v) == {}
  {
    if v != [] {
      NoEntries(v[1..]);
    }
  }

  // ----- write -----

  lemma {:induction false} BatchSeqnos(ops: seq<Op>, start: nat)
    ensures forall e :: e in BatchEntries(ops, start) ==> start <= e.key.seqno < start + |ops|
    ensures Unique(BatchEntries(ops, start))
  {
    if ops != [] {
      BatchSeqnos(ops[..|ops| - 1], start);
    }
  }

  lemma WriteKeepsInv(db: Db, ops: seq<Op>, db': Db)
    requires Inv(db) && WriteStep(db, ops, db')
    ensures Inv(db')
  {
    hide VersionOk, MemInv, JobOk, BatchEntries;
    WriteKeepsMem(db, ops, db');
  }

  lemma WriteKeepsMem(db: Db, ops: seq<Op>, db': Db)
    requires MemInv(db) && WriteStep(db, ops, db')
    ensures MemInv(db')
  {
    hide Sorted, NewerEntries, Unique, BatchEntries, VersionEntries;
    var B := BatchEntries(ops, db.lastSeq + 1);
    BatchSeqnos(ops, db.lastSeq + 1);
    assert ImmRun(db') == ImmRun(db);
    assert All(db') == All(db) + B;
    assert MemEntries(db') == MemEntries(db) + B;
    UniqueUnion(All(db), B, db.lastSeq);
    AddNewer(Entries(db.mem), B, Entries(ImmRun(db)), db.lastSeq);
    AddNewer(MemEntries(db), B, VersionEntries(db.v), db.lastSeq);
  }

  lemma UniqueUnion(E: set<Entry>, B: set<Entry>, n: nat)
    requires Unique(E) && Unique(B) && SeqnosAtMost(E, n)
    requires forall e :: e in B ==> n < e.key.seqno
    ensures Unique(E + B)
  {
  }

  lemma AddNewer(M: set<Entry>, B: set<Entry>, E: set<Entry>, n: nat)
    requires NewerEntries(M, E) && SeqnosAtMost(E, n)
    requires forall e :: e in B ==> n < e.key.seqno
    ensures NewerEntries(M + B, E)
  {
  }

  // ----- memtable switch and snapshots -----

  lemma SwitchKeepsInv(db: Db, db': Db)
    requires Inv(db) && SwitchStep(db, db')
    ensures Inv(db')
  {
    hide VersionOk, NumbersBelow, UniqueNumbers, Unique, SeqnosAtMost, JobOk, VersionEntries;
    assert MemEntries(db') == MemEntries(db);
  }

  lemma SnapshotKeepsInv(db: Db, db': Db)
    requires Inv(db) && db' == db.(snapshots := db.snapshots + [db.lastSeq])
    ensures Inv(db')
  {
    hide VersionOk, NumbersBelow, UniqueNumbers, Sorted, NewerEntries, Unique, SeqnosAtMost, JobOk, VersionEntries;
    assert MemEntries(db') == MemEntries(db);
  }

  lemma ReleaseKeepsInv(db: Db, i: nat, db': Db)
    requires Inv(db) && ReleaseStep(db, i, db')
    ensures Inv(db')
  {
    hide VersionOk, NumbersBelow, UniqueNumbers, Sorted, NewerEntries, Unique, SeqnosAtMost, JobOk, VersionEntries;
    assert MemEntries(db') == MemEntries(db);
  }

  // ----- flush -----

  lemma FlushedFileOk(t: seq<Entry>, f: File)
    requires t != [] && Sorted(t) && f == FlushedFile(t, f.number, f.size)
    requires forall e :: e in t ==> e.key.seqno <= MAX_SEQUENCE
    ensures FileOk(f)
  {
  }

  lemma FlushedIsNewest(db: Db, f: File)
    requires MemInv(db) && db.imm.Some? && f.table == db.imm.value
    ensures NewerThanAll(f, db.v)
  {
    forall l, g | 0 <= l < |db.v| && g in db.v[l]
      ensures Newer(f.table, g.table)
    {
      forall a, b | a in f.table && b in g.table && a.key.user == b.key.user
        ensures a.key.seqno > b.key.seqno
      {
        FileEntriesHas(db.v[l], g, b);
        VersionEntriesHas(db.v, l, b);
        assert a in MemEntries(db);
      }
    }
  }

  lemma ImmIsOk(db: Db, f: File)
    requires MemInv(db) && db.imm.Some? && db.imm.value != [] && f == FlushedFile(db.imm.value, f.number, f.size)
    ensures FileOk(f)
  {
    forall e | e in f.table
      ensures e.key.seqno <= MAX_SEQUENCE
    {
      assert e in All(db);
    }
    FlushedFileOk(db.imm.value, f);
  }

  lemma AddKeepsNumbers(v: Levels, w: Levels, level: nat, f: File, n: nat, m: nat)
    requires NumbersBelow(v, n) && UniqueNumbers(v) && n <= f.number < m
    requires OnlyLevelChanged(v, w, level) && Installed(v[level], [], [f], w[level])
    ensures NumbersBelow(w, m) && UniqueNumbers(w)
  {
    forall i, j, g, h | 0 <= i < j < |w| && g in w[i] && h in w[j]
      ensures g.number != h.number
    {
      assert g == f || g in v[i];
      assert h == f || h in v[j];
    }
  }

  lemma FlushKeepsFiles(db: Db, level: nat, f: File, db': Db)
    requires FilesInv(db) && MemInv(db) && FlushTo(db, level, f, db')
    ensures FilesInv(db')
  {
    ImmIsOk(db, f);
    FlushedIsNewest(db, f);
    AddKeepsNumbers(db.v, db'.v, level, f, db.nextFile, db'.nextFile);
    AddFlushedFile(db.v, db'.v, level, f);
  }

  lemma FlushKeepsMem(db: Db, level: nat, f: File, db': Db)
    requires MemInv(db) && FlushTo(db, level, f, db')
    ensures MemInv(db') && All(db') == All(db)
  {
    AddedFileEntries(db.v, db'.v, level, f);
    assert Entries(f.table) == Entries(ImmRun(db));
    assert MemEntries(db') == Entries(db.mem);
    assert All(db') == All(db);
  }

  lemma AddKeepsJob(v: Levels, w: Levels, input: Levels, L: nat, in0: seq<File>, in1: seq<File>, level: nat, f: File)
    requires JobOk(v, input, L, in0, in1) && NewerThanAll(f, v)
    requires OnlyLevelChanged(v, w, level) && Installed(v[level], [], [f], w[level])
    requires level == L + 1 ==> MissesAll(f, in0 + in1)
    ensures JobOk(w, input, L, in0, in1)
  {
    forall l: nat, u, c | Bystander(w, L, in0, in1, l, u) && c in in0 + in1
      ensures Newer(u.table, c.table) || (L + 2 <= l < |input| && u in input[l])
    {
      if u in v[l] {
        assert Bystander(v, L, in0, in1, l, u);
      } else {
        assert u == f;
        assert c in v[L] || c in v[L + 1];
      }
    }
  }

  lemma FlushKeepsJob(db: Db, level: nat, f: File, db': Db)
    requires MemInv(db) && JobInv(db) && FlushTo(db, level, f, db')
    ensures JobInv(db')
  {
    if db.job.Some? {
      var j := db.job.value;
      FlushedIsNewest(db, f);
      AddKeepsJob(db.v, db'.v, j.input, j.level, j.in0, j.in1, level, f);
    }
  }

  lemma FlushNothing(db: Db, db': Db)
    requires Inv(db) && db.imm == Some([]) && db' == db.(imm := None)
    ensures Inv(db') && All(db') == All(db)
  {
    hide VersionOk, NumbersBelow, UniqueNumbers, Unique, SeqnosAtMost, JobOk, VersionEntries, NewerEntries;
    assert ImmRun(db') == ImmRun(db);
  }

  lemma FlushKeepsInv(db: Db, level: nat, db': Db)
    requires Inv(db) && FlushStep(db, level, db')
    ensures Inv(db') && All(db') == All(db)
  {
    hide FilesInv, MemInv, JobInv;
    if db.imm.value == [] {
      FlushNothing(db, db');
    } else {
      var f :| FlushTo(db, level, f, db');
      FlushKeepsFiles(db, level, f, db');
      FlushKeepsMem(db, level, f, db');
      FlushKeepsJob(db, level, f, db');
    }
  }

  // ----- install -----

  lemma InstallKeepsNumbers(v: Levels, w: Levels, L: nat, in0: seq<File>, in1: seq<File>, outs: seq<File>, n: nat, m: nat)
    requires CompactionInstalled(v, w, L, in0, in1, outs)
    requires NumbersBelow(v, n) && UniqueNumbers(v) && n <= m
    requires forall o :: o in outs ==> o.number < m
    requires forall l: nat, u, o :: Bystander(v, L, in0, in1, l, u) && o in outs ==> u.number != o.number
    ensures NumbersBelow(w, m) && UniqueNumbers(w)
  {
    forall i, j, f, g | 0 <= i < j < |w| && f in w[i] && g in w[j]
      ensures f.number != g.number
    {
      if j == L + 1 && g in outs {
        assert Bystander(v, L, in0, in1, i, f);
      } else if i == L + 1 && f in outs {
        assert Bystander(v, L, in0, in1, j, g);
      } else {
        assert f in v[i] && g in v[j];
      }
    }
  }

  /** Fewer file entries: the facts about memory and numbers survive. */
  lemma ShrinkKeepsMem(db: Db, db': Db)
    requires MemInv(db) && VersionEntries(db'.v) <= VersionEntries(db.v)
    requires db'.mem == db.mem && db'.imm == db.imm && db'.lastSeq == db.lastSeq
    ensures MemInv(db')
  {
    assert MemEntries(db') == MemEntries(db);
    assert All(db') <= All(db);
  }

  lemma MoveKeepsInv(db: Db, L: nat, f: File, db': Db)
    requires Inv(db) && MoveStep(db, L, f, db')
    ensures Inv(db') && All(db') == All(db)
  {
    hide FilesInv, MemInv, All;
    MoveKeepsFilesInv(db, L, f, db');
    MoveKeepsMem(db, L, f, db');
  }

  lemma MoveKeepsFilesInv(db: Db, L: nat, f: File, db': Db)
    requires FilesInv(db) && MoveStep(db, L, f, db')
    ensures FilesInv(db')
  {
    MoveKeepsFiles(db.v, db'.v, L, f, db.nextFile);
  }

  lemma MoveKeepsMem(db: Db, L: nat, f: File, db': Db)
    requires MemInv(db) && MoveStep(db, L, f, db')
    ensures MemInv(db') && All(db') == All(db)
  {
    assert f in [f];
    MoveKeepsEntries(db.v, db'.v, L, f);
    ShrinkKeepsMem(db, db');
    assert MemEntries(db') == MemEntries(db);
  }

  lemma MoveKeepsFiles(v: Levels, w: Levels, L: nat, f: File, n: nat)
    requires VersionOk(v) && NumbersBelow(v, n) && UniqueNumbers(v)
    requires GoodInputs(v, L, [f], []) && CleanCut(v[L], [f]) && CompactionInstalled(v, w, L, [f], [], [f])
    ensures VersionOk(w) && NumbersBelow(w, n) && UniqueNumbers(w)
  {
    assert f in [f];
    assert f in v[L];
    MovedNumberIsFresh(v, L, f);
    InstallKeepsNumbers(v, w, L, [f], [], [f], n, n);
    GoodInputsGiveJob(v, L, [f], []);
    MovedOutputsOk(f);
    InstallKeepsVersion(v, w, v, L, [f], [], [f]);
  }

  lemma MovedNumberIsFresh(v: Levels, L: nat, f: File)
    requires VersionOk(v) && UniqueNumbers(v) && L + 1 < |v| && f in v[L]
    ensures forall l: nat, u :: Bystander(v, L, [f], [], l, u) ==> u.number != f.number
  {
    forall l: nat, u | Bystander(v, L, [f], [], l, u)
      ensures u.number != f.number
    {
      if l == L {
        DistinctWithin(v[L], u, f);
      }
    }
  }

  lemma MoveKeepsEntries(v: Levels, w: Levels, L: nat, f: File)
    requires L + 1 < |v| && f in v[L] && CompactionInstalled(v, w, L, [f], [], [f])
    ensures VersionEntries(w) == VersionEntries(v)
  {
    EntriesBefore(v, L, [f], []);
    EntriesAfter(v, w, L, [f], [], [f]);
    assert [f] + [] == [f];
  }

  lemma MovedOutputsOk(f: File)
    requires FileOk(f)
    ensures OutputsOk([f] + [], [f])
  {
    assert FileEntries([f] + []) == Entries(f.table);
  }

  lemma StartKeepsInv(db: Db, L: nat, in0: seq<File>, in1: seq<File>, db': Db)
    requires Inv(db) && StartStep(db, L, in0, in1, db')
    ensures Inv(db')
  {
    hide VersionOk, NumbersBelow, UniqueNumbers, Sorted, NewerEntries, Unique, SeqnosAtMost, JobOk, VersionEntries;
    hide JobInv, GoodInputs, CleanCut;
    StartGivesJob(db, L, in0, in1, db');
    assert MemEntries(db') == MemEntries(db);
  }

  lemma StartGivesJob(db: Db, L: nat, in0: seq<File>, in1: seq<File>, db': Db)
    requires VersionOk(db.v) && SnapshotsOk(db) && StartStep(db, L, in0, in1, db')
    ensures JobInv(db')
  {
    GoodInputsGiveJob(db.v, L, in0, in1);
  }

  lemma FinishKeepsFiles(db: Db, outs: seq<File>, db': Db)
    requires Inv(db) && FinishStep(db, outs, db')
    ensures FilesInv(db')
  {
    var j := db.job.value;
    InstallKeepsVersion(db.v, db'.v, j.input, j.level, j.in0, j.in1, outs);
    InstallKeepsNumbers(db.v, db'.v, j.level, j.in0, j.in1, outs, db.nextFile, db'.nextFile);
  }

  /** What the database holds before and after an install, split at the inputs. */
  lemma FinishEntries(db: Db, outs: seq<File>, db': Db)
    requires Inv(db) && FinishStep(db, outs, db')
    ensures
      var j := db.job.value;
      var I := FileEntries(j.in0 + j.in1);
      var R := MemEntries(db) + VersionEntries(Rest(db.v, j.level, j.in0, j.in1));
      All(db) == I + R && All(db') == Survivors(j.input, j.level, I, j.floor) + R
  {
    hide FilesInv, MemInv, SnapshotsOk, JobOk, OutputsOk, UnusedNumbers, CompactionInstalled, Survivors, Rest;
    var j := db.job.value;
    JobInputs(db.v, j.input, j.level, j.in0, j.in1);
    EntriesBefore(db.v, j.level, j.in0, j.in1);
    EntriesAfter(db.v, db'.v, j.level, j.in0, j.in1, outs);
    assert MemEntries(db') == MemEntries(db);
  }

  lemma JobInputs(v: Levels, input: Levels, L: nat, in0: seq<File>, in1: seq<File>)
    requires JobOk(v, input, L, in0, in1)
    ensures L + 1 < |v| && (forall f :: f in in0 ==> f in v[L]) && (forall f :: f in in1 ==> f in v[L + 1])
  {
  }

  lemma FinishKeepsInv(db: Db, outs: seq<File>, db': Db)
    requires Inv(db) && FinishStep(db, outs, db')
    ensures Inv(db')
  {
    hide FilesInv, MemInv, JobOk, OutputsOk, UnusedNumbers, CompactionInstalled, Rest;
    var j := db.job.value;
    FinishKeepsFiles(db, outs, db');
    JobInputs(db.v, j.input, j.level, j.in0, j.in1);
    EntriesBefore(db.v, j.level, j.in0, j.in1);
    EntriesAfter(db.v, db'.v, j.level, j.in0, j.in1, outs);
    ShrinkKeepsMem(db, db');
  }

  /** Every step keeps the invariant. */
  lemma NextKeepsInv(db: Db, step: Step, db': Db)
    requires Inv(db) && Next(db, step, db')
    ensures Inv(db')
  {
    match step
    case Write(ops) => WriteKeepsInv(db, ops, db');
    case SwitchMemtable => SwitchKeepsInv(db, db');
    case Flush(level) => FlushKeepsInv(db, level, db');
    case TakeSnapshot => SnapshotKeepsInv(db, db');
    case ReleaseSnapshot(i) => ReleaseKeepsInv(db, i, db');
    case TrivialMove(L, f) => MoveKeepsInv(db, L, f, db');
    case StartCompaction(L, in0, in1) => StartKeepsInv(db, L, in0, in1, db');
    case FinishCompaction(outs) => FinishKeepsInv(db, outs, db');
  }
}
