/** Replaying the logs: Recover, RecoverLogFile and DB::Open, and the age order of
    the tables they make. */
module RecoveryReplay {
  import opened InternalKeys
  import opened Recovery
  import opened RecoveryRuns

  // ----- entries are logged in sequence order -----

  ghost predicate LogOrdered(rs: seq<Rec>) {
    && (forall i, e :: 0 <= i < |rs| && e in rs[i].entries ==> e.key.seqno <= rs[i].last)
    && (forall i, j, e, f :: 0 <= i < j < |rs| && e in rs[i].entries && f in rs[j].entries
          ==> e.key.seqno < f.key.seqno)
  }

  ghost predicate AllBefore(a: iset<Entry>, b: iset<Entry>) {
    forall e, f :: e in a && f in b ==> e.key.seqno < f.key.seqno
  }

  ghost function LogEntries(rs: seq<Rec>): iset<Entry> {
    iset e | InLog(rs, e)
  }

  ghost function LiveEntries(s: Sys): iset<Entry> {
    iset e | InTables(s.tables, s.manifest.live, e)
  }

  ghost function NeededEntries(s: Sys): iset<Entry> {
    iset e | InNeededLogs(s, e)
  }

  ghost predicate NeededLog(s: Sys, n: nat) {
    n in s.logs && s.manifest.logNumber <= n
  }

  /** Live tables are older than every needed log, and needed logs are ordered. */
  ghost predicate Ordered(s: Sys) {
    && AllBefore(LiveEntries(s), NeededEntries(s))
    && (forall n :: NeededLog(s, n) ==> LogOrdered(s.logs[n]))
    && (forall n, m :: NeededLog(s, n) && NeededLog(s, m) && n < m
          ==> AllBefore(LogEntries(s.logs[n]), LogEntries(s.logs[m])))
  }

  /** Needed logs and live entries can only shrink, or logs gain empty members. */
  ghost predicate NoNewEntries(s: Sys, s': Sys) {
    && (forall n :: NeededLog(s', n) ==> s'.logs[n] == [] || (NeededLog(s, n) && s'.logs[n] == s.logs[n]))
    && (forall e :: InTables(s'.tables, s'.manifest.live, e) ==> InTables(s.tables, s.manifest.live, e))
  }

  lemma FewerStayOrdered(s: Sys, s': Sys)
    requires Ordered(s) && NoNewEntries(s, s')
    ensures Ordered(s')
  {
    hide InTables;
    forall e, f | e in LiveEntries(s') && f in NeededEntries(s')
      ensures e.key.seqno < f.key.seqno
    {
      var n :| n in s'.logs && s'.manifest.logNumber <= n && InLog(s'.logs[n], f);
      assert NeededLog(s', n);
      assert NeededLog(s, n) && InLog(s.logs[n], f);
      assert e in LiveEntries(s) && f in NeededEntries(s);
    }
  }

  lemma AppendedOrdered(rs: seq<Rec>, rec: Rec)
    requires LogOrdered(rs)
    requires forall e, f :: InLog(rs, e) && f in rec.entries ==> e.key.seqno < f.key.seqno
    requires forall e :: e in rec.entries ==> e.key.seqno <= rec.last
    ensures LogOrdered(rs + [rec])
  {
    var rs' := rs + [rec];
    forall i, j, e, f | 0 <= i < j < |rs'| && e in rs'[i].entries && f in rs'[j].entries
      ensures e.key.seqno < f.key.seqno
    {
      if j == |rs| {
        assert InLog(rs, e);
      }
    }
  }

  /** Everything on disk is below a record about to be appended. */
  lemma DurableBelow(s: Sys, e: Entry)
    requires Inv(s) && s.process.Some? && s.process.value.inFlight.None? && Durable(s, e)
    ensures e.key.seqno <= s.process.value.lastSeq
  {
    hide InLog, InOlderLog, InNeededLogs, InTables;
    NeededSplit(s, s.process.value, e);
  }

  lemma DurableBelowAll(s: Sys, rec: Rec, s': Sys)
    requires Inv(s) && AppendStep(s, rec, s')
    ensures forall e, f :: Durable(s, e) && f in rec.entries ==> e.key.seqno < f.key.seqno
  {
    hide Inv, Durable;
    forall e, f | Durable(s, e) && f in rec.entries
      ensures e.key.seqno < f.key.seqno
    {
      DurableBelow(s, e);
    }
  }

  lemma LogIsDurable(s: Sys, n: nat)
    requires NeededLog(s, n)
    ensures forall e :: InLog(s.logs[n], e) ==> Durable(s, e)
  {
  }

  lemma AppendKeepsOrder(s: Sys, rec: Rec, s': Sys)
    requires Inv(s) && Ordered(s) && AppendStep(s, rec, s')
    ensures Ordered(s')
  {
    hide Inv, InLog, InTables, Durable;
    var n0 := s.process.value.log;
    DurableBelowAll(s, rec, s');
    LogAtOrAfterNumber(s);
    LogIsDurable(s, n0);
    AppendedOrdered(s.logs[n0], rec);
    AppendedLog(s.logs[n0], rec);
    forall n, m | NeededLog(s', n) && NeededLog(s', m) && n < m
      ensures AllBefore(LogEntries(s'.logs[n]), LogEntries(s'.logs[m]))
    {
      AppendPair(s, rec, s', n, m);
    }
    AppendKeepsLiveFirst(s, rec, s');
  }

  lemma LogAtOrAfterNumber(s: Sys)
    requires Inv(s) && s.process.Some?
    ensures NeededLog(s, s.process.value.log)
    ensures forall n: nat :: NeededLog(s, n) ==> n <= s.process.value.log
  {
  }

  lemma AppendPair(s: Sys, rec: Rec, s': Sys, n: nat, m: nat)
    requires Inv(s) && Ordered(s) && AppendStep(s, rec, s')
    requires NeededLog(s', n) && NeededLog(s', m) && n < m
    ensures AllBefore(LogEntries(s'.logs[n]), LogEntries(s'.logs[m]))
  {
    hide Inv, InLog, InTables, Durable, LogOrdered;
    var n0 := s.process.value.log;
    LogAtOrAfterNumber(s);
    assert NeededLog(s, n) && NeededLog(s, m);
    assert AllBefore(LogEntries(s.logs[n]), LogEntries(s.logs[m]));
    if m == n0 {
      AppendedLog(s.logs[n0], rec);
      LogIsDurable(s, n);
      DurableBelowAll(s, rec, s');
    }
  }

  lemma AppendKeepsLiveFirst(s: Sys, rec: Rec, s': Sys)
    requires Inv(s) && Ordered(s) && AppendStep(s, rec, s')
    ensures AllBefore(LiveEntries(s'), NeededEntries(s'))
  {
    hide Inv, InLog, InTables, InNeededLogs, LogOrdered;
    DurableBelowAll(s, rec, s');
    forall e, f | e in LiveEntries(s') && f in NeededEntries(s')
      ensures e.key.seqno < f.key.seqno
    {
      AppendKeeps(s, rec, s', f);
      assert Durable(s', f) && Durable(s, e);
      if !InNeededLogs(s, f) {
        AppendedNeeded(s, rec, s', f);
      }
    }
  }

  lemma AppendedNeeded(s: Sys, rec: Rec, s': Sys, f: Entry)
    requires Inv(s) && AppendStep(s, rec, s') && InNeededLogs(s', f) && !InNeededLogs(s, f)
    ensures f in rec.entries
  {
    hide InLog, InTables, InNeededLogs, InOlderLog;
    AppendKeepsInv(s, rec, s');
    NeededSplit(s, s.process.value, f);
    NeededSplit(s', s'.process.value, f);
  }

  lemma FlushKeepsOrder(s: Sys, n: nat, nf: nat, ls: nat, s': Sys)
    requires Inv(s) && Ordered(s) && InstallFlushStep(s, n, nf, ls, s')
    ensures Ordered(s')
  {
    hide InLog, InTables, InOlderLog, InNeededLogs, LogOrdered;
    var p := s.process.value;
    FlushedTables(s, n, nf, ls, s');
    InstallFlushKeepsInv(s, n, nf, ls, s');
    forall e, f | e in LiveEntries(s') && f in NeededEntries(s')
      ensures e.key.seqno < f.key.seqno
    {
      NeededSplit(s, p, f);
      NeededSplit(s', s'.process.value, f);
      NothingOlder(s', p.log);
      assert InLog(s.logs[p.log], f) && f in NeededEntries(s);
      if InImm(p, e) {
        OlderBefore(s, p, e, f);
      } else {
        assert e in LiveEntries(s);
      }
    }
    forall n | NeededLog(s', n)
      ensures n == p.log
    {
      assert n in s.logs;
    }
    assert NeededLog(s, p.log);
  }

  lemma OlderBefore(s: Sys, p: Process, e: Entry, f: Entry)
    requires Ordered(s) && LogsOk(s, p) && InOlderLog(s, p.log, e) && InLog(s.logs[p.log], f)
    ensures e.key.seqno < f.key.seqno
  {
    hide InLog, InTables, LogOrdered, InNeededLogs;
    var n :| n in s.logs && s.manifest.logNumber <= n < p.log && InLog(s.logs[n], e);
    assert NeededLog(s, n) && NeededLog(s, p.log);
    assert e in LogEntries(s.logs[n]) && f in LogEntries(s.logs[p.log]);
  }

  lemma ReopenKeepsOrder(s: Sys, r: set<nat>, s': Sys)
    requires Inv(s) && ReopenStep(s, r, s')
    ensures Ordered(s')
  {
    hide InTables;
    ReopenKeepsInv(s, r, s');
    forall n | NeededLog(s', n)
      ensures s'.logs[n] == []
    {
      assert n == s'.process.value.log;
    }
    EmptyLogs(s');
  }

  lemma EmptyLogs(s: Sys)
    requires forall n :: NeededLog(s, n) ==> s.logs[n] == []
    ensures forall e :: !InNeededLogs(s, e)
  {
    assert forall n :: n in s.logs && s.manifest.logNumber <= n ==> NeededLog(s, n);
  }

  lemma QuietKeepsOrder(s: Sys, step: Step, s': Sys)
    requires Inv(s) && Ordered(s) && Next(s, step, s')
    requires !step.Append? && !step.InstallFlush? && !step.InstallCompaction? && !step.Reopen?
    ensures Ordered(s')
  {
    hide InTables, InLog, InNeededLogs, Ordered, InOlderLog, SeqnosOk;
    SameTables(s.tables, s'.tables, s.manifest.live);
    FewerStayOrdered(s, s');
  }

  lemma CompactionKeepsOrder(s: Sys, ins: set<nat>, outs: set<nat>, nf: nat, ls: nat, s': Sys)
    requires Inv(s) && Ordered(s) && InstallCompactionStep(s, ins, outs, nf, ls, s')
    ensures Ordered(s')
  {
    hide Inv, InTables, InLog, InNeededLogs, Ordered;
    CompactedTables(s, ins, outs, nf, ls, s');
    FewerStayOrdered(s, s');
  }

  /** Every step keeps sequence numbers in log order, with live tables older still. */
  lemma NextKeepsOrder(s: Sys, step: Step, s': Sys)
    requires Inv(s) && Ordered(s) && Next(s, step, s')
    ensures Ordered(s')
  {
    hide Inv, Ordered, InstallFlushStep, InstallCompactionStep, ReopenStep, AppendStep;
    match step
    case Append(rec) => AppendKeepsOrder(s, rec, s');
    case InstallFlush(n, nf, ls) => FlushKeepsOrder(s, n, nf, ls, s');
    case InstallCompaction(ins, outs, nf, ls) => CompactionKeepsOrder(s, ins, outs, nf, ls, s');
    case Reopen(r) => ReopenKeepsOrder(s, r, s');
    case _ => QuietKeepsOrder(s, step, s');
  }

  lemma {:induction false} RunOrdered(states: seq<Sys>, steps: seq<Step>, k: nat)
    requires Run(states, steps) && k <= |steps|
    ensures Ordered(states[k])
  {
    hide Inv, Ordered, Next;
    if k == 0 {
      InitOrdered(states[0]);
    } else {
      RunInv(states, steps, k - 1);
      RunOrdered(states, steps, k - 1);
      assert Next(states[k - 1], steps[k - 1], states[k - 1 + 1]);
      NextKeepsOrder(states[k - 1], steps[k - 1], states[k]);
    }
  }

  lemma InitOrdered(s: Sys)
    requires Init(s)
    ensures Ordered(s)
  {
  }

  // ----- replaying the logs -----

  /** A table made from replayed records, added at level 0. */
  datatype Made = Made(number: nat, contents: set<Entry>)

  ghost predicate InMade(made: seq<Made>, e: Entry) {
    exists i :: 0 <= i < |made| && e in made[i].contents
  }

  /** File numbers increase and lie from lo up to hi. */
  ghost predicate Numbered(made: seq<Made>, lo: nat, hi: nat) {
    && (forall i :: 0 <= i < |made| ==> lo <= made[i].number < hi)
    && (forall i, j :: 0 <= i < j < |made| ==> made[i].number < made[j].number)
  }

  /** A table with a higher number holds only newer entries. */
  ghost predicate MadeOrdered(made: seq<Made>) {
    forall i, j, e, f :: 0 <= i < j < |made| && e in made[i].contents && f in made[j].contents
      ==> e.key.seqno < f.key.seqno
  }

  lemma InMadeAppend(made: seq<Made>, m: Made)
    ensures forall e :: InMade(made + [m], e) <==> InMade(made, e) || e in m.contents
  {
    forall e
      ensures InMade(made + [m], e) <==> InMade(made, e) || e in m.contents
    {
      if InMade(made, e) {
        var i :| 0 <= i < |made| && e in made[i].contents;
        assert (made + [m])[i] == made[i];
      }
      assert (made + [m])[|made|] == m;
    }
  }

  lemma MadeOrderedAppend(made: seq<Made>, m: Made)
    requires MadeOrdered(made)
    requires forall e, f :: InMade(made, e) && f in m.contents ==> e.key.seqno < f.key.seqno
    ensures MadeOrdered(made + [m])
  {
    var made' := made + [m];
    forall i, j, e, f | 0 <= i < j < |made'| && e in made'[i].contents && f in made'[j].contents
      ensures e.key.seqno < f.key.seqno
    {
      if j == |made| {
        assert InMade(made, e);
      }
    }
  }

  /** The records replayed so far are in the tables made and the memtable. */
  ghost predicate Replayed(base: seq<Made>, records: seq<Rec>, made: seq<Made>, mem: set<Entry>) {
    && (forall e :: InMade(made, e) || e in mem <==> InMade(base, e) || InLog(records, e))
    && MadeOrdered(made)
    && (forall e, f :: InMade(made, e) && f in mem ==> e.key.seqno < f.key.seqno)
  }

  /** maxSeq is the greatest of start and the records' last sequence numbers. */
  ghost predicate MaxOver(start: nat, records: seq<Rec>, maxSeq: nat) {
    && start <= maxSeq
    && (forall i :: 0 <= i < |records| ==> records[i].last <= maxSeq)
    && (maxSeq == start || exists i :: 0 <= i < |records| && records[i].last == maxSeq)
  }

  ghost predicate BaseBefore(base: seq<Made>, records: seq<Rec>) {
    forall e, f :: InMade(base, e) && InLog(records, f) ==> e.key.seqno < f.key.seqno
  }

  /** One more record goes into the memtable. */
  lemma ReplayRecord(base: seq<Made>, records: seq<Rec>, i: nat, made: seq<Made>, mem: set<Entry>)
    requires i < |records| && LogOrdered(records) && BaseBefore(base, records)
    requires Replayed(base, records[..i], made, mem)
    ensures Replayed(base, records[..i + 1], made, mem + records[i].entries)
  {
    hide InMade;
    assert records[..i + 1] == records[..i] + [records[i]];
    AppendedLog(records[..i], records[i]);
    forall e, f | InMade(made, e) && f in records[i].entries
      ensures e.key.seqno < f.key.seqno
    {
      assert InLog(records, f);
      if !InMade(base, e) {
        assert InLog(records[..i], e);
      }
    }
  }

  lemma MaxOverStep(start: nat, records: seq<Rec>, i: nat, maxSeq: nat)
    requires i < |records| && MaxOver(start, records[..i], maxSeq)
    ensures MaxOver(start, records[..i + 1], if records[i].last > maxSeq then records[i].last else maxSeq)
  {
    assert records[..i + 1][i] == records[i];
    assert forall k :: 0 <= k < i ==> records[..i + 1][k] == records[..i][k];
  }

  lemma ReplayStart(base: seq<Made>, records: seq<Rec>, maxSeq: nat)
    requires MadeOrdered(base)
    ensures Replayed(base, records[..0], base, {}) && MaxOver(maxSeq, records[..0], maxSeq)
  {
  }

  lemma ReplayEnd(base: seq<Made>, records: seq<Rec>, made: seq<Made>)
    requires Replayed(base, records, made, {})
    ensures MadeOrdered(made) && forall e :: InMade(made, e) <==> InMade(base, e) || InLog(records, e)
  {
  }

  lemma ReplayFlush(base: seq<Made>, records: seq<Rec>, made: seq<Made>, mem: set<Entry>, number: nat)
    requires Replayed(base, records, made, mem)
    ensures Replayed(base, records, made + [Made(number, mem)], {})
  {
    hide InMade, InLog;
    InMadeAppend(made, Made(number, mem));
    MadeOrderedAppend(made, Made(number, mem));
  }

  /** WriteLevel0Table: takes a file number; an empty memtable leaves no file. */
  method WriteLevel0Table(
    mem: set<Entry>, made: seq<Made>, nextFile: nat, ghost base: seq<Made>, ghost records: seq<Rec>, ghost lo: nat)
    returns (made': seq<Made>, nextFile': nat)
    requires lo <= nextFile && Numbered(made, lo, nextFile) && Replayed(base, records, made, mem)
    ensures nextFile' == nextFile + 1 && Numbered(made', lo, nextFile') && Replayed(base, records, made', {})
    ensures made' == if mem == {} then made else made + [Made(nextFile, mem)]
  {
    hide Replayed;
    nextFile' := nextFile + 1;
    made' := made;
    if mem != {} {
      ReplayFlush(base, records, made, mem, nextFile);
      made' := made + [Made(nextFile, mem)];
    }
  }

  function Contents(mem: Option<set<Entry>>): set<Entry> {
    if mem.Some? then mem.value else {}
  }

  /** RecoverLogFile: replays records into memtables, writing one out whenever it
      grows past the write buffer (full[i] after record i) and at the end. */
  method RecoverLogFile(records: seq<Rec>, full: seq<bool>, base: seq<Made>, start: nat, maxSeq: nat, ghost lo: nat)
    returns (made: seq<Made>, nextFile: nat, maxSeq': nat)
    requires |full| == |records| && lo <= start && Numbered(base, lo, start)
    requires LogOrdered(records) && MadeOrdered(base) && BaseBefore(base, records)
    ensures start <= nextFile && Numbered(made, lo, nextFile) && MadeOrdered(made)
    ensures forall e :: InMade(made, e) <==> InMade(base, e) || InLog(records, e)
    ensures MaxOver(maxSeq, records, maxSeq')
  {
    hide InMade, InLog, LogOrdered, MadeOrdered, BaseBefore, MaxOver, Replayed, Numbered;
    made, nextFile, maxSeq' := base, start, maxSeq;
    var mem: Option<set<Entry>> := None;
    ReplayStart(base, records, maxSeq);
    var i := 0;
    while i < |records|
      invariant 0 <= i <= |records| && start <= nextFile && Numbered(made, lo, nextFile)
      invariant Replayed(base, records[..i], made, Contents(mem))
      invariant MaxOver(maxSeq, records[..i], maxSeq')
    {
      ReplayRecord(base, records, i, made, Contents(mem));
      MaxOverStep(maxSeq, records, i, maxSeq');
      mem := Some(Contents(mem) + records[i].entries);
      if records[i].last > maxSeq' {
        maxSeq' := records[i].last;
      }
      if full[i] {
        made, nextFile := WriteLevel0Table(mem.value, made, nextFile, base, records[..i + 1], lo);
        mem := None;
      }
      i := i + 1;
    }
    assert records[..i] == records;
    if mem.Some? {
      made, nextFile := WriteLevel0Table(mem.value, made, nextFile, base, records, lo);
    }
    ReplayEnd(base, records, made);
  }

  // ----- Recover and DB::Open -----

  /** e is in one of the first k logs of the list. */
  ghost predicate InListed(s: Sys, list: seq<nat>, k: nat, e: Entry) {
    exists i :: 0 <= i < k <= |list| && list[i] in s.logs && InLog(s.logs[list[i]], e)
  }

  /** The needed logs in the order of their numbers, as Recover sorts them. */
  ghost predicate ListsNeeded(s: Sys, list: seq<nat>) {
    && (forall i :: 0 <= i < |list| ==> NeededLog(s, list[i]))
    && (forall n :: NeededLog(s, n) ==> n in list)
    && (forall i, j :: 0 <= i < j < |list| ==> list[i] < list[j])
  }

  lemma ListedAll(s: Sys, list: seq<nat>)
    requires ListsNeeded(s, list)
    ensures forall e :: InListed(s, list, |list|, e) <==> InNeededLogs(s, e)
  {
    hide InLog;
    forall e
      ensures InListed(s, list, |list|, e) <==> InNeededLogs(s, e)
    {
      if InNeededLogs(s, e) {
        var n :| n in s.logs && s.manifest.logNumber <= n && InLog(s.logs[n], e);
        assert NeededLog(s, n);
        var i :| 0 <= i < |list| && list[i] == n;
      }
      if InListed(s, list, |list|, e) {
        var i :| 0 <= i < |list| && list[i] in s.logs && InLog(s.logs[list[i]], e);
        assert NeededLog(s, list[i]);
      }
    }
  }

  lemma ListedStep(s: Sys, list: seq<nat>, k: nat)
    requires k < |list| && list[k] in s.logs
    ensures forall e :: InListed(s, list, k + 1, e) <==> InListed(s, list, k, e) || InLog(s.logs[list[k]], e)
  {
    hide InLog;
  }

  lemma ListedBefore(s: Sys, list: seq<nat>, k: nat, made: seq<Made>)
    requires Ordered(s) && ListsNeeded(s, list) && k < |list|
    requires forall e :: InMade(made, e) <==> InListed(s, list, k, e)
    ensures NeededLog(s, list[k]) && LogOrdered(s.logs[list[k]]) && BaseBefore(made, s.logs[list[k]])
  {
    hide InLog, InMade, LogOrdered, LiveEntries, NeededEntries;
    forall e, f | InMade(made, e) && InLog(s.logs[list[k]], f)
      ensures e.key.seqno < f.key.seqno
    {
      assert InListed(s, list, k, e);
      var i :| 0 <= i < k && list[i] in s.logs && InLog(s.logs[list[i]], e);
      assert NeededLog(s, list[i]) && NeededLog(s, list[k]) && list[i] < list[k];
      assert e in LogEntries(s.logs[list[i]]) && f in LogEntries(s.logs[list[k]]);
    }
  }

  function NumbersOf(made: seq<Made>): (r: set<nat>)
    ensures forall n :: n in r <==> exists i :: 0 <= i < |made| && made[i].number == n
  {
    set i | 0 <= i < |made| :: made[i].number
  }

  /** The tables after the new files are written. */
  function Written(tables: map<nat, set<Entry>>, made: seq<Made>): map<nat, set<Entry>> {
    if made == [] then tables
    else Written(tables, made[..|made| - 1])[made[|made| - 1].number := made[|made| - 1].contents]
  }

  lemma {:induction false} WrittenAt(tables: map<nat, set<Entry>>, made: seq<Made>, lo: nat, hi: nat)
    requires Numbered(made, lo, hi)
    ensures forall i :: 0 <= i < |made| ==>
              made[i].number in Written(tables, made) && Written(tables, made)[made[i].number] == made[i].contents
    ensures forall n :: n < lo ==> (n in Written(tables, made) <==> n in tables)
    ensures forall n :: n < lo && n in tables ==> Written(tables, made)[n] == tables[n]
  {
    if made != [] {
      WrittenAt(tables, made[..|made| - 1], lo, hi);
    }
  }

  lemma WrittenHolds(tables: map<nat, set<Entry>>, made: seq<Made>, lo: nat, hi: nat)
    requires Numbered(made, lo, hi)
    ensures NumbersOf(made) <= Written(tables, made).Keys
    ensures forall e :: InTables(Written(tables, made), NumbersOf(made), e) <==> InMade(made, e)
  {
    hide Written;
    WrittenAt(tables, made, lo, hi);
    forall e
      ensures InTables(Written(tables, made), NumbersOf(made), e) <==> InMade(made, e)
    {
      if InMade(made, e) {
        var i :| 0 <= i < |made| && e in made[i].contents;
        assert made[i].number in NumbersOf(made);
      }
    }
  }

  /** The greatest sequence number replayed bounds every entry listed so far. */
  ghost predicate SeqnosBelow(s: Sys, list: seq<nat>, k: nat, maxSeq: nat) {
    forall e :: InListed(s, list, k, e) ==> e.key.seqno <= maxSeq
  }

  lemma MaxBoundsLog(records: seq<Rec>, start: nat, maxSeq: nat)
    requires LogOrdered(records) && MaxOver(start, records, maxSeq)
    ensures start <= maxSeq && forall e :: InLog(records, e) ==> e.key.seqno <= maxSeq
  {
  }

  /** Recover: replays the needed logs in order, taking file numbers from the
      manifest's counter and skipping past the number of each log. */
  method Recover(s: Sys, list: seq<nat>, full: seq<seq<bool>>)
    returns (made: seq<Made>, nextFile: nat, lastSeq: nat)
    requires Ordered(s) && ListsNeeded(s, list)
    requires |full| == |list| && forall i :: 0 <= i < |list| ==> |full[i]| == |s.logs[list[i]]|
    ensures Numbered(made, s.manifest.nextFile + 1, nextFile) && MadeOrdered(made)
    ensures forall e :: InMade(made, e) <==> InNeededLogs(s, e)
    ensures s.manifest.nextFile < nextFile && AfterLogs(s, nextFile)
    ensures s.manifest.lastSeq <= lastSeq && forall e :: InMade(made, e) ==> e.key.seqno <= lastSeq
    ensures IsLastSeq(s, lastSeq)
  {
    hide InLog, InMade, LogOrdered, MadeOrdered, Ordered, BaseBefore, MaxOver, InNeededLogs, InListed, Numbered;
    hide ListedLast, NeededLast;
    var lo := s.manifest.nextFile + 1;
    var maxSeq: nat := 0;
    made, nextFile := [], lo;
    NothingReplayed(s, list, lo);
    var k := 0;
    while k < |list|
      invariant 0 <= k <= |list| && lo <= nextFile && Numbered(made, lo, nextFile) && MadeOrdered(made)
      invariant forall e :: InMade(made, e) <==> InListed(s, list, k, e)
      invariant forall i :: 0 <= i < k ==> list[i] < nextFile
      invariant SeqnosBelow(s, list, k, maxSeq) && (maxSeq == 0 || ListedLast(s, list, k, maxSeq))
    {
      ListedBefore(s, list, k, made);
      ListedStep(s, list, k);
      var records := s.logs[list[k]];
      var before := maxSeq;
      made, nextFile, maxSeq := RecoverLogFile(records, full[k], made, nextFile, maxSeq, lo);
      MaxBoundsLog(records, before, maxSeq);
      LastListed(s, list, k, before, maxSeq);
      if nextFile <= list[k] {
        NumberedUpTo(made, lo, nextFile, list[k] + 1);
        nextFile := list[k] + 1;
      }
      k := k + 1;
    }
    ListedAll(s, list);
    AllMarked(s, list, nextFile);
    if maxSeq > 0 {
      ListedIsNeeded(s, list, maxSeq);
    }
    lastSeq := if s.manifest.lastSeq < maxSeq then maxSeq else s.manifest.lastSeq;
  }

  /** n is the last sequence number of a record in one of the first k listed logs. */
  ghost predicate ListedLast(s: Sys, list: seq<nat>, k: nat, n: nat) {
    exists i, r :: 0 <= i < k <= |list| && list[i] in s.logs && 0 <= r < |s.logs[list[i]]| && s.logs[list[i]][r].last == n
  }

  lemma LastListed(s: Sys, list: seq<nat>, k: nat, before: nat, maxSeq: nat)
    requires k < |list| && list[k] in s.logs && MaxOver(before, s.logs[list[k]], maxSeq)
    requires before == 0 || ListedLast(s, list, k, before)
    ensures maxSeq == 0 || ListedLast(s, list, k + 1, maxSeq)
  {
    var records := s.logs[list[k]];
    if maxSeq != before {
      var r :| 0 <= r < |records| && records[r].last == maxSeq;
      assert s.logs[list[k]][r].last == maxSeq;
    } else if before != 0 {
      var i, r :| 0 <= i < k <= |list| && list[i] in s.logs && 0 <= r < |s.logs[list[i]]| && s.logs[list[i]][r].last == before;
    }
  }

  lemma ListedIsNeeded(s: Sys, list: seq<nat>, n: nat)
    requires ListsNeeded(s, list) && ListedLast(s, list, |list|, n)
    ensures NeededLast(s, n)
  {
    var i, r :| 0 <= i < |list| && list[i] in s.logs && 0 <= r < |s.logs[list[i]]| && s.logs[list[i]][r].last == n;
    assert NeededLog(s, list[i]);
  }

  lemma AllMarked(s: Sys, list: seq<nat>, number: nat)
    requires ListsNeeded(s, list) && forall i :: 0 <= i < |list| ==> list[i] < number
    ensures AfterLogs(s, number)
  {
    forall n | n in s.logs && s.manifest.logNumber <= n
      ensures n < number
    {
      assert NeededLog(s, n);
    }
  }

  lemma NothingReplayed(s: Sys, list: seq<nat>, lo: nat)
    ensures Numbered([], lo, lo) && MadeOrdered([]) && SeqnosBelow(s, list, 0, 0)
    ensures forall e :: InMade([], e) <==> InListed(s, list, 0, e)
  {
  }

  lemma NumberedUpTo(made: seq<Made>, lo: nat, hi: nat, hi': nat)
    requires Numbered(made, lo, hi) && hi <= hi'
    ensures Numbered(made, lo, hi')
  {
  }

  lemma SameTablesOrder(s: Sys, made: seq<Made>, hi: nat)
    requires Inv(s) && Numbered(made, s.manifest.nextFile + 1, hi)
    ensures forall e :: InTables(Written(s.tables, made), s.manifest.live, e) <==> InTables(s.tables, s.manifest.live, e)
  {
    hide InTables, Written;
    WrittenAt(s.tables, made, s.manifest.nextFile + 1, hi);
    SameTables(s.tables, Written(s.tables, made), s.manifest.live);
  }

  /** DB::Open on an existing database is the reopening step: it succeeds from every
      state a crash can leave, the tables it adds hold exactly the needed logs, a
      higher-numbered one only newer entries, and all are newer than the old tables. */
  method Open(s: Sys, list: seq<nat>, full: seq<seq<bool>>) returns (made: seq<Made>, mid: Sys, s': Sys)
    requires Inv(s) && Ordered(s) && s.process.None? && ListsNeeded(s, list)
    requires |full| == |list| && forall i :: 0 <= i < |list| ==> |full[i]| == |s.logs[list[i]]|
    ensures mid == s.(tables := Written(s.tables, made))
    ensures ReopenStep(mid, NumbersOf(made), s')
    ensures MadeOrdered(made)
    ensures forall e, f :: InTables(s.tables, s.manifest.live, e) && InMade(made, f) ==> e.key.seqno < f.key.seqno
    ensures forall e :: Present(s', s'.process.value, e) <==> Durable(s, e)
  {
    hide InLog, InMade, LogOrdered, MadeOrdered, InNeededLogs, InTables, Written, NumbersOf, LogsOk;
    var log, lastSeq;
    made, log, lastSeq := Recover(s, list, full);
    mid := s.(tables := Written(s.tables, made));
    var live := s.manifest.live + NumbersOf(made);
    s' := mid.(
      logs := s.logs[log := []],
      manifest := Manifest(live, log, log + 1, lastSeq),
      process := Some(Process({}, None, log, live, {}, {}, log + 1, lastSeq, None, 0, None)));
    OpenIsReopen(s, made, log, lastSeq, mid, s');
    LiveBeforeNeeded(s);
  }

  lemma LiveBeforeNeeded(s: Sys)
    requires Ordered(s)
    ensures forall e, f :: InTables(s.tables, s.manifest.live, e) && InNeededLogs(s, f) ==> e.key.seqno < f.key.seqno
  {
    hide InTables, InNeededLogs, LogOrdered;
    forall e, f | InTables(s.tables, s.manifest.live, e) && InNeededLogs(s, f)
      ensures e.key.seqno < f.key.seqno
    {
      assert e in LiveEntries(s) && f in NeededEntries(s);
    }
  }

  lemma OpenIsReopen(s: Sys, made: seq<Made>, log: nat, lastSeq: nat, mid: Sys, s': Sys)
    requires Inv(s) && s.process.None?
    requires Numbered(made, s.manifest.nextFile + 1, log) && s.manifest.nextFile < log && AfterLogs(s, log)
    requires forall e :: InMade(made, e) <==> InNeededLogs(s, e)
    requires s.manifest.lastSeq <= lastSeq && IsLastSeq(s, lastSeq)
    requires forall e :: InMade(made, e) ==> e.key.seqno <= lastSeq
    requires mid == s.(tables := Written(s.tables, made))
    requires var live := s.manifest.live + NumbersOf(made);
             s' == mid.(
               logs := s.logs[log := []],
               manifest := Manifest(live, log, log + 1, lastSeq),
               process := Some(Process({}, None, log, live, {}, {}, log + 1, lastSeq, None, 0, None)))
    ensures ReopenStep(mid, NumbersOf(made), s')
    ensures forall e :: Present(s', s'.process.value, e) <==> Durable(s, e)
  {
    SameLast(s, mid, lastSeq);
    hide InLog, InMade, InTables, Written, InNeededLogs, NeededLast;
    var lo := s.manifest.nextFile + 1;
    WrittenHolds(s.tables, made, lo, log);
    NeededSame(s, mid);
    SameTablesOrder(s, made, log);
    UnionTables(mid.tables, s.manifest.live, NumbersOf(made));
  }

  lemma SameLast(s: Sys, s': Sys, n: nat)
    requires s'.logs == s.logs && s'.manifest == s.manifest && IsLastSeq(s, n)
    ensures IsLastSeq(s', n)
  {
  }

  lemma NeededSame(s: Sys, s': Sys)
    requires s'.logs == s.logs && s'.manifest == s.manifest
    ensures forall e :: InNeededLogs(s', e) <==> InNeededLogs(s, e)
  {
  }
}
