/** LogAndApply one edit at a time, and VersionSet::Recover replaying them all. */
module ManifestReplay {
  import opened InternalKeys
  import opened Version
  import opened LsmEdits
  import opened Manifest
  import Coding

  ghost function FilesOf(files: seq<File>): iset<File> {
    iset f | f in files
  }

  /** The edit gives a number one meaning and reuses none of the level's numbers. */
  ghost predicate Fits(files: seq<File>, e: Edit, l: nat) {
    NumbersFix([], e.added, l) && forall f :: f in files ==> !AddsNumber(e.added, l, f.number)
  }

  ghost predicate SortedLevels(v: Levels) {
    |v| == NUM_LEVELS && forall l :: 0 <= l < NUM_LEVELS ==> SortedBySmallest(v[l])
  }

  /** w is the version that the edit makes of v. */
  ghost predicate Makes(v: Levels, e: Edit, w: Levels)
    requires |v| == NUM_LEVELS
  {
    |w| == NUM_LEVELS && forall l :: 0 <= l < NUM_LEVELS ==> Lists(w[l], LevelAfter(FilesOf(v[l]), e, l))
  }

  /** One level: a fresh builder's state saved over a base that the edit fits. */
  lemma FreshBuilderSaves(base: seq<File>, e: Edit, l: nat, added: seq<File>, deleted: set<nat>, w: seq<File>)
    requires SortedBySmallest(base) && SortedBySmallest(added) && Fits(base, e, l)
    requires forall f :: f in added <==> AddsIn(e.added, l, f)
    requires forall n :: n in deleted <==> Deletes(e, l, n) && !AddsNumber(e.added, l, n)
    requires Merged(base, added, deleted, w)
    ensures Lists(w, LevelAfter(FilesOf(base), e, l))
  {
    hide SortedBySmallest, Merged, NumbersFix, AddsNumber;
    MergedMembers(base, added, deleted, w);
    AddedNumbers(e, l);
    SavedStrictIff(base, added, deleted, w);
  }

  lemma AddedNumbers(e: Edit, l: nat)
    ensures forall f :: AddsIn(e.added, l, f) ==> AddsNumber(e.added, l, f.number)
  {
    forall f | AddsIn(e.added, l, f)
      ensures AddsNumber(e.added, l, f.number)
    {
      var i :| 0 <= i < |e.added| && e.added[i] == At(l, f);
    }
  }

  /** LogAndApply's new version: a fresh builder on the current one. */
  method LogAndApply(v: Levels, e: Edit) returns (w: Levels)
    requires SortedLevels(v) && EditOk(e)
    ensures |w| == NUM_LEVELS
    ensures forall l :: 0 <= l < NUM_LEVELS && Fits(v[l], e, l) ==> Lists(w[l], LevelAfter(FilesOf(v[l]), e, l))
  {
    hide Merged, AddsNumber, AddsIn, LevelAfter, Lists;
    forall l | 0 <= l < NUM_LEVELS
      ensures Ascending(v[l])
    {
      StrictIsAscending(v[l]);
    }
    var builder := new Builder(v);
    builder.Apply(e);
    w := builder.SaveTo();
    forall l | 0 <= l < NUM_LEVELS && Fits(v[l], e, l)
      ensures Lists(w[l], LevelAfter(FilesOf(v[l]), e, l))
    {
      FreshBuilderSaves(v[l], e, l, builder.added[l], builder.deleted[l], w[l]);
    }
  }

  /** The edits give each file number one meaning throughout. */
  ghost predicate NumbersFixAll(edits: seq<Edit>, l: nat) {
    forall i, j, f, g ::
      (0 <= i < |edits| && 0 <= j < |edits| && Adds(edits[i], l, f) && Adds(edits[j], l, g) && f.number == g.number)
        ==> f == g
  }

  ghost predicate AddedBy(edits: seq<Edit>, l: nat, f: File) {
    exists i :: 0 <= i < |edits| && Adds(edits[i], l, f)
  }

  /** What one builder holds of a level after the edits, on an empty base. */
  ghost predicate BuilderHolds(edits: seq<Edit>, l: nat, added: seq<File>, deleted: set<nat>) {
    && (forall f :: f in added <==> AddedBy(edits, l, f))
    && (forall f :: f in added && f.number !in deleted <==> f in Replay(iset{}, edits, l))
  }

  lemma BuilderStep(
    edits: seq<Edit>, i: nat, l: nat, added: seq<File>, deleted: set<nat>, added': seq<File>, deleted': set<nat>)
    requires i < |edits| && NumbersFixAll(edits, l) && BuilderHolds(edits[..i], l, added, deleted)
    requires NumbersFix(added, edits[i].added, l) ==>
               forall f :: f in added' <==> f in added || AddsIn(edits[i].added, l, f)
    requires forall n :: n in deleted' <==>
               (n in deleted || Deletes(edits[i], l, n)) && !AddsNumber(edits[i].added, l, n)
    ensures BuilderHolds(edits[..i + 1], l, added', deleted')
  {
    hide AddsNumber;
    FixedSoFar(edits, i, l, added);
    AddedByStep(edits, i, l);
    AddedNumbers(edits[i], l);
    assert edits[..i + 1][..i] == edits[..i];
    forall f
      ensures f in added' && f.number !in deleted' <==> f in Replay(iset{}, edits[..i + 1], l)
    {
      if f in added' && AddsNumber(edits[i].added, l, f.number) {
        SameNumberSameFile(edits, i, l, f);
      }
    }
  }

  lemma FixedSoFar(edits: seq<Edit>, i: nat, l: nat, added: seq<File>)
    requires i < |edits| && NumbersFixAll(edits, l)
    requires forall f :: f in added <==> AddedBy(edits[..i], l, f)
    ensures NumbersFix(added, edits[i].added, l)
  {
    assert forall f :: AddsIn(edits[i].added, l, f) ==> Adds(edits[i], l, f);
  }

  lemma AddedByStep(edits: seq<Edit>, i: nat, l: nat)
    requires i < |edits|
    ensures forall f :: AddedBy(edits[..i + 1], l, f) <==> AddedBy(edits[..i], l, f) || Adds(edits[i], l, f)
  {
    forall f
      ensures AddedBy(edits[..i + 1], l, f) <==> AddedBy(edits[..i], l, f) || Adds(edits[i], l, f)
    {
      assert edits[..i + 1][i] == edits[i];
      assert forall j :: 0 <= j < i ==> edits[..i + 1][j] == edits[..i][j];
    }
  }

  lemma SameNumberSameFile(edits: seq<Edit>, i: nat, l: nat, f: File)
    requires i < |edits| && NumbersFixAll(edits, l) && AddedBy(edits[..i + 1], l, f)
    requires AddsNumber(edits[i].added, l, f.number)
    ensures Adds(edits[i], l, f)
  {
    var j :| 0 <= j < |edits[i].added| && edits[i].added[j].level == l && edits[i].added[j].item.number == f.number;
    var g := edits[i].added[j].item;
    assert edits[i].added[j] == At(l, g);
    assert Adds(edits[i], l, g);
    var k :| 0 <= k < i + 1 && Adds(edits[..i + 1][k], l, f);
    assert Adds(edits[k], l, f);
  }

  /** One builder's state saved over nothing. */
  lemma OneBuilderSaves(edits: seq<Edit>, l: nat, added: seq<File>, deleted: set<nat>, w: seq<File>)
    requires SortedBySmallest(added) && BuilderHolds(edits, l, added, deleted) && Merged([], added, deleted, w)
    ensures Lists(w, Replay(iset{}, edits, l))
  {
    hide SortedBySmallest, Merged, Replay;
    MergedMembers([], added, deleted, w);
    EmptySorted();
    SavedStrictIff([], added, deleted, w);
  }

  lemma EmptySorted()
    ensures SortedBySmallest([])
  {
  }

  // ----- the counters -----

  datatype Field = LogNumber | PrevLog | NextFile | LastSeq

  function Get(e: Edit, field: Field): Option<nat> {
    match field
    case LogNumber => e.logNumber
    case PrevLog => e.prevLog
    case NextFile => e.nextFile
    case LastSeq => e.lastSeq
  }

  /** r is what the last edit that sets the field sets it to. */
  ghost predicate IsLast(edits: seq<Edit>, field: Field, r: Option<nat>) {
    if r.None? then forall k :: 0 <= k < |edits| ==> Get(edits[k], field).None?
    else exists k :: SetsLast(edits, field, k) && Get(edits[k], field) == r
  }

  ghost predicate SetsLast(edits: seq<Edit>, field: Field, k: int) {
    && 0 <= k < |edits| && Get(edits[k], field).Some?
    && (forall j :: k < j < |edits| ==> Get(edits[j], field).None?)
  }

  lemma IsLastStep(edits: seq<Edit>, i: nat, field: Field, r: Option<nat>)
    requires i < |edits| && IsLast(edits[..i], field, r)
    ensures IsLast(edits[..i + 1], field, if Get(edits[i], field).Some? then Get(edits[i], field) else r)
  {
    hide Get;
    assert forall j :: 0 <= j < i ==> edits[..i + 1][j] == edits[..i][j];
    assert edits[..i + 1][i] == edits[i];
    if Get(edits[i], field).Some? {
      assert SetsLast(edits[..i + 1], field, i);
    } else if r.Some? {
      var k :| SetsLast(edits[..i], field, k) && Get(edits[..i][k], field) == r;
      assert SetsLast(edits[..i + 1], field, k);
    }
  }

  // ----- VersionSet::Recover -----

  datatype Error = WrongComparator | NoNextFile | NoLogNumber | NoLastSequence

  datatype Recovered =
    | Failed(error: Error)
    | Recovered(levels: Levels, logNumber: nat, prevLog: nat, manifestNumber: nat, nextFile: nat, lastSeq: nat)

  predicate Mismatch(e: Edit, name: Coding.Bytes) {
    e.comparator.Some? && e.comparator.value != name
  }

  method Recover(edits: seq<Edit>, name: Coding.Bytes) returns (r: Recovered)
    requires forall e :: e in edits ==> EditOk(e)
    ensures r == Failed(WrongComparator) <==> exists i :: 0 <= i < |edits| && Mismatch(edits[i], name)
    ensures r == Failed(NoNextFile) ==> IsLast(edits, NextFile, None)
    ensures r == Failed(NoLogNumber) ==> IsLast(edits, LogNumber, None)
    ensures r == Failed(NoLastSequence) ==> IsLast(edits, LastSeq, None)
    ensures r.Recovered? ==>
              && IsLast(edits, LogNumber, Some(r.logNumber)) && IsLast(edits, LastSeq, Some(r.lastSeq))
              && IsLast(edits, NextFile, Some(r.manifestNumber)) && r.nextFile == r.manifestNumber + 1
              && (IsLast(edits, PrevLog, Some(r.prevLog)) || (IsLast(edits, PrevLog, None) && r.prevLog == 0))
              && |r.levels| == NUM_LEVELS
    ensures r.Recovered? ==>
              forall l :: 0 <= l < NUM_LEVELS && NumbersFixAll(edits, l) ==>
                Lists(r.levels[l], Replay(iset{}, edits, l))
  {
    hide IsLast, BuilderHolds, NumbersFixAll, Replay, AddsNumber, AddsIn, NumbersFix, Merged, Lists, SortedBySmallest;
    var builder := new Builder(seq(NUM_LEVELS, l => []));
    var logNumber, prevLog, nextFile, lastSeq: Option<nat> := None, None, None, None;
    NothingYet(edits);
    var i := 0;
    while i < |edits|
      invariant 0 <= i <= |edits| && builder.Valid() && fresh(builder)
      invariant builder.base == seq(NUM_LEVELS, l => [])
      invariant forall j :: 0 <= j < i ==> !Mismatch(edits[j], name)
      invariant forall l :: 0 <= l < NUM_LEVELS && NumbersFixAll(edits, l) ==>
                  BuilderHolds(edits[..i], l, builder.added[l], builder.deleted[l])
      invariant IsLast(edits[..i], LogNumber, logNumber) && IsLast(edits[..i], PrevLog, prevLog)
      invariant IsLast(edits[..i], NextFile, nextFile) && IsLast(edits[..i], LastSeq, lastSeq)
    {
      var e := edits[i];
      if Mismatch(e, name) {
        return Failed(WrongComparator);
      }
      assert EditOk(e);
      ghost var added, deleted := builder.added, builder.deleted;
      builder.Apply(e);
      forall l | 0 <= l < NUM_LEVELS && NumbersFixAll(edits, l)
        ensures BuilderHolds(edits[..i + 1], l, builder.added[l], builder.deleted[l])
      {
        BuilderStep(edits, i, l, added[l], deleted[l], builder.added[l], builder.deleted[l]);
      }
      IsLastStep(edits, i, LogNumber, logNumber);
      IsLastStep(edits, i, PrevLog, prevLog);
      IsLastStep(edits, i, NextFile, nextFile);
      IsLastStep(edits, i, LastSeq, lastSeq);
      logNumber := if e.logNumber.Some? then e.logNumber else logNumber;
      prevLog := if e.prevLog.Some? then e.prevLog else prevLog;
      nextFile := if e.nextFile.Some? then e.nextFile else nextFile;
      lastSeq := if e.lastSeq.Some? then e.lastSeq else lastSeq;
      i := i + 1;
    }
    assert edits[..i] == edits;
    if nextFile.None? {
      return Failed(NoNextFile);
    } else if logNumber.None? {
      return Failed(NoLogNumber);
    } else if lastSeq.None? {
      return Failed(NoLastSequence);
    }
    var levels := builder.SaveTo();
    forall l | 0 <= l < NUM_LEVELS && NumbersFixAll(edits, l)
      ensures Lists(levels[l], Replay(iset{}, edits, l))
    {
      OneBuilderSaves(edits, l, builder.added[l], builder.deleted[l], levels[l]);
    }
    var prev := if prevLog.Some? then prevLog.value else 0;
    r := Recovered(levels, logNumber.value, prev, nextFile.value, nextFile.value + 1, lastSeq.value);
  }

  lemma NothingYet(edits: seq<Edit>)
    ensures forall field :: IsLast(edits[..0], field, None)
    ensures forall l: nat :: BuilderHolds(edits[..0], l, [], {})
  {
  }

  // ----- both ways agree -----

  /** WriteSnapshot: one edit that adds every file of the current version. */
  method WriteSnapshot(v: Levels, name: Coding.Bytes) returns (e: Edit)
    requires |v| == NUM_LEVELS
    ensures EditOk(e) && e.deleted == {} && !Mismatch(e, name)
    ensures forall l, f :: 0 <= l < NUM_LEVELS ==> (Adds(e, l, f) <==> f in v[l])
  {
    var added: seq<At<File>> := [];
    var l := 0;
    while l < NUM_LEVELS
      invariant 0 <= l <= NUM_LEVELS
      invariant forall a :: a in added <==> a.level < l && a.item in v[a.level]
    {
      var i := 0;
      while i < |v[l]|
        invariant 0 <= i <= |v[l]|
        invariant forall a :: a in added <==> (a.level < l && a.item in v[a.level]) || (a.level == l && a.item in v[l][..i])
      {
        added := added + [At(l, v[l][i])];
        i := i + 1;
      }
      assert v[l][..i] == v[l];
      l := l + 1;
    }
    e := Edit(Some(name), None, None, None, None, {}, added);
  }

  ghost predicate IsSnapshot(e: Edit, v: Levels)
    requires |v| == NUM_LEVELS
  {
    e.deleted == {} && forall l, f :: 0 <= l < NUM_LEVELS ==> (Adds(e, l, f) <==> f in v[l])
  }

  /** A history: each version is what the edit makes of the one before. */
  ghost predicate History(vs: seq<Levels>, edits: seq<Edit>) {
    && |vs| == |edits| + 1
    && (forall k :: 0 <= k < |vs| ==> |vs[k]| == NUM_LEVELS)
    && SortedLevels(vs[0])
    && (forall k :: 0 <= k < |edits| ==> Makes(vs[k], edits[k], vs[k + 1]))
  }

  lemma {:induction false} ReplayFollowsHistory(snap: Edit, vs: seq<Levels>, edits: seq<Edit>, l: nat)
    requires History(vs, edits) && IsSnapshot(snap, vs[0]) && l < NUM_LEVELS
    ensures Lists(vs[|edits|][l], Replay(iset{}, [snap] + edits, l))
  {
    var all := [snap] + edits;
    var n := |edits|;
    if n == 0 {
      assert all[..0] == [] && all[0] == snap;
      assert Replay(iset{}, all[..0], l) == iset{};
    } else {
      ReplayFollowsHistory(snap, vs[..n], edits[..n - 1], l);
      assert all[..n] == [snap] + edits[..n - 1] && all[n] == edits[n - 1];
      assert Makes(vs[n - 1], edits[n - 1], vs[n - 1 + 1]);
      assert FilesOf(vs[n - 1][l]) == Replay(iset{}, all[..n], l);
    }
  }

  /** One builder over a snapshot record and every later edit recovers, level by
      level and file by file, the version that the separate builders left. */
  lemma ReplayEqualsSteps(snap: Edit, vs: seq<Levels>, edits: seq<Edit>, w: Levels)
    requires History(vs, edits) && IsSnapshot(snap, vs[0]) && |w| == NUM_LEVELS
    requires forall l :: 0 <= l < NUM_LEVELS ==> Lists(w[l], Replay(iset{}, [snap] + edits, l))
    ensures w == vs[|edits|]
  {
    hide History, IsSnapshot, Replay;
    assert |vs[|edits|]| == NUM_LEVELS by {
      HistoryLength(vs, edits);
    }
    forall l | 0 <= l < NUM_LEVELS
      ensures w[l] == vs[|edits|][l]
    {
      ReplayFollowsHistory(snap, vs, edits, l);
      ListingUnique(w[l], vs[|edits|][l]);
    }
  }

  lemma HistoryLength(vs: seq<Levels>, edits: seq<Edit>)
    requires History(vs, edits)
    ensures |vs| == |edits| + 1 && |vs[|edits|]| == NUM_LEVELS
  {
  }

  /** What an edit makes is what the engine's steps call installing it. */
  lemma MakesIsInstalled(base: seq<File>, e: Edit, l: nat, del: seq<File>, add: seq<File>, after: seq<File>)
    requires Lists(after, LevelAfter(FilesOf(base), e, l))
    requires forall f :: f in base ==> (f in del <==> Deletes(e, l, f.number))
    requires forall f :: f in add <==> Adds(e, l, f)
    ensures Installed(base, del, add, after)
  {
  }
}
