/** What goes wrong without a clean cut, and where exactly the line runs. Inputs are
    chosen by user-key range and never extended to a neighbour that continues the
    user key they end on. */
module CleanCutLimits {
  import opened InternalKeys
  import opened Version
  import opened CompactionInputs
  import opened LsmEdits
  import opened Compaction
  import opened CleanCuts
  import opened Lsm
  import opened LsmInvariant

  /** Moving a file down a level keeps the version searchable exactly when the cut
      is clean. */
  lemma MoveKeepsVersionIff(v: Levels, w: Levels, L: nat, f: File, n: nat)
    requires VersionOk(v) && NumbersBelow(v, n) && UniqueNumbers(v)
    requires GoodInputs(v, L, [f], []) && CompactionInstalled(v, w, L, [f], [], [f])
    ensures VersionOk(w) <==> CleanCut(v[L], [f])
  {
    hide VersionOk, GoodInputs, NumbersBelow, UniqueNumbers;
    if CleanCut(v[L], [f]) {
      MoveKeepsFiles(v, w, L, f, n);
    }
    if VersionOk(w) {
      MovedIsOlder(v, w, L, f);
    }
  }

  lemma MovedIsOlder(v: Levels, w: Levels, L: nat, f: File)
    requires VersionOk(w) && CompactionInstalled(v, w, L, [f], [], [f])
    ensures CleanCut(v[L], [f])
  {
    hide FilesOk, DistinctNumbers, SortedDisjoint, Newer, SortedBySmallest, Level0Recency;
    assert f in [f];
    forall c, u | c in [f] && u in v[L] && u !in [f]
      ensures Newer(u.table, c.table)
    {
      assert u in w[L] && f in w[L + 1];
    }
  }

  // ----- the exact condition for a compaction -----

  /** For the user keys of the outputs, what stays behind at level L is newer. */
  ghost predicate LeftBehindIsNewer(v: Levels, L: nat, in0: seq<File>, outs: seq<File>)
    requires L < |v|
  {
    forall o, u {:trigger Newer(u.table, o.table)} :: o in outs && u in v[L] && u !in in0 ==> Newer(u.table, o.table)
  }

  /** No output meets a file that stays at level L + 1. */
  ghost predicate OutputsMissRest(v: Levels, L: nat, in1: seq<File>, outs: seq<File>)
    requires L + 1 < |v|
  {
    forall o, g :: o in outs && g in v[L + 1] && g !in in1 ==> Apart(g, o)
  }

  ghost predicate InputsOf(v: Levels, L: nat, in0: seq<File>, in1: seq<File>) {
    && L + 1 < |v|
    && (forall f :: f in in0 ==> f in v[L])
    && (forall f :: f in in1 ==> f in v[L + 1])
  }

  ghost predicate FreshNumbers(v: Levels, L: nat, outs: seq<File>)
    requires L + 1 < |v|
  {
    forall f, o :: f in v[L + 1] && o in outs ==> f.number != o.number
  }

  /** Whatever the inputs, installing outputs made of their entries keeps the version
      searchable exactly when the outputs miss the files that stay at their level and
      those that stay a level above are newer. */
  lemma InstallKeepsVersionIff(v: Levels, w: Levels, L: nat, in0: seq<File>, in1: seq<File>, outs: seq<File>)
    requires VersionOk(v) && InputsOf(v, L, in0, in1) && OutputsOk(in0 + in1, outs)
    requires CompactionInstalled(v, w, L, in0, in1, outs) && FreshNumbers(v, L, outs)
    ensures VersionOk(w) <==> LeftBehindIsNewer(v, L, in0, outs) && OutputsMissRest(v, L, in1, outs)
  {
    hide OutputsOk, LeftBehindIsNewer, OutputsMissRest, FreshNumbers, CompactionInstalled, VersionOk;
    if VersionOk(w) {
      InstalledIsNewer(v, w, L, in0, in1, outs);
      InstalledMisses(v, w, L, in0, in1, outs);
    }
    if LeftBehindIsNewer(v, L, in0, outs) && OutputsMissRest(v, L, in1, outs) {
      InstalledLevels(v, w, L, in0, in1, outs);
      InstalledRecency(v, w, L, in0, in1, outs);
      VersionFromParts(v, w, L, in0, in1, outs);
    }
  }

  lemma InstalledIsNewer(v: Levels, w: Levels, L: nat, in0: seq<File>, in1: seq<File>, outs: seq<File>)
    requires VersionOk(w) && CompactionInstalled(v, w, L, in0, in1, outs)
    ensures LeftBehindIsNewer(v, L, in0, outs)
  {
    hide FilesOk, DistinctNumbers, SortedDisjoint, Newer, SortedBySmallest, Level0Recency;
    forall o, u | o in outs && u in v[L] && u !in in0
      ensures Newer(u.table, o.table)
    {
      assert u in w[L] && o in w[L + 1];
    }
  }

  lemma InstalledMisses(v: Levels, w: Levels, L: nat, in0: seq<File>, in1: seq<File>, outs: seq<File>)
    requires VersionOk(w) && CompactionInstalled(v, w, L, in0, in1, outs) && L + 1 < |v| && FreshNumbers(v, L, outs)
    ensures OutputsMissRest(v, L, in1, outs)
  {
    hide FilesOk, DistinctNumbers, LevelRecency, SortedBySmallest, Level0Recency;
    SortedDisjointIsPairwiseApart(w[L + 1]);
    hide SortedDisjoint;
    forall o, g | o in outs && g in v[L + 1] && g !in in1
      ensures Apart(g, o)
    {
      assert g in w[L + 1] && o in w[L + 1] && g != o;
    }
  }

  lemma InstalledLevels(v: Levels, w: Levels, L: nat, in0: seq<File>, in1: seq<File>, outs: seq<File>)
    requires VersionOk(v) && InputsOf(v, L, in0, in1) && OutputsOk(in0 + in1, outs)
    requires CompactionInstalled(v, w, L, in0, in1, outs) && FreshNumbers(v, L, outs)
    requires OutputsMissRest(v, L, in1, outs)
    ensures FilesOk(w[L + 1]) && DistinctNumbers(w[L + 1]) && SortedDisjoint(w[L + 1])
  {
    hide LevelRecency, Level0Recency;
    MergedFilesDistinct(v[L + 1], outs, w[L + 1]);
    SortedDisjointIsPairwiseApart(v[L + 1]);
    SortedDisjointIsPairwiseApart(outs);
    hide SortedDisjoint, DistinctNumbers;
    ApartAndSortedIsSortedDisjoint(w[L + 1]);
  }

  lemma InstalledRecency(v: Levels, w: Levels, L: nat, in0: seq<File>, in1: seq<File>, outs: seq<File>)
    requires VersionOk(v) && InputsOf(v, L, in0, in1) && OutputsOk(in0 + in1, outs)
    requires CompactionInstalled(v, w, L, in0, in1, outs)
    requires LeftBehindIsNewer(v, L, in0, outs)
    ensures LevelRecency(w)
  {
    hide Newer, FilesOk, SortedDisjoint, SortedBySmallest, DistinctNumbers, FromInputs, Level0Recency;
    forall i, j, g, h | 0 <= i < j < |w| && g in w[i] && h in w[j]
      ensures Newer(g.table, h.table)
    {
      if i == L + 1 && g in outs {
        assert h in v[j];
        OutputRecency(h, g, in0 + in1);
        assert forall c :: c in in0 + in1 ==> Newer(c.table, h.table);
      } else if j == L + 1 && h in outs && i < L {
        assert g in v[i];
        OutputRecency(g, h, in0 + in1);
        assert forall c :: c in in0 + in1 ==> Newer(g.table, c.table);
      } else if j == L + 1 && h in outs {
        assert g in v[L] && g !in in0;
      } else {
        assert g in v[i] && h in v[j];
      }
    }
  }

  lemma VersionFromParts(v: Levels, w: Levels, L: nat, in0: seq<File>, in1: seq<File>, outs: seq<File>)
    requires VersionOk(v) && InputsOf(v, L, in0, in1) && CompactionInstalled(v, w, L, in0, in1, outs)
    requires FilesOk(w[L + 1]) && DistinctNumbers(w[L + 1]) && SortedDisjoint(w[L + 1]) && LevelRecency(w)
    ensures VersionOk(w)
  {
    InstallKeepsLevelL(v, w, L, in0);
    hide FilesOk, DistinctNumbers, SortedDisjoint, LevelRecency, Level0Recency, Installed;
    assert L > 0 ==> w[0] == v[0];
  }

  /** For inputs the engine chooses, the outputs always miss the rest of their level,
      so only level L decides. Whether the cut of level L + 1 is clean matters only
      for deletions that are dropped. */
  lemma CompactionKeepsVersionIff(v: Levels, w: Levels, L: nat, in0: seq<File>, in1: seq<File>, outs: seq<File>)
    requires VersionOk(v) && GoodInputs(v, L, in0, in1) && OutputsOk(in0 + in1, outs)
    requires CompactionInstalled(v, w, L, in0, in1, outs) && FreshNumbers(v, L, outs)
    ensures VersionOk(w) <==> LeftBehindIsNewer(v, L, in0, outs)
  {
    GoodInputsMiss(v, L, in0, in1, outs);
    hide VersionOk, GoodInputs, OutputsOk, CompactionInstalled, LeftBehindIsNewer, OutputsMissRest, FreshNumbers;
    InstallKeepsVersionIff(v, w, L, in0, in1, outs);
  }

  lemma GoodInputsMiss(v: Levels, L: nat, in0: seq<File>, in1: seq<File>, outs: seq<File>)
    requires VersionOk(v) && GoodInputs(v, L, in0, in1) && OutputsOk(in0 + in1, outs)
    ensures InputsOf(v, L, in0, in1) && OutputsMissRest(v, L, in1, outs)
  {
    hide VersionOk, FromInputs, SortedDisjoint, DistinctNumbers, IsHull, MissesAll;
    var r :| IsHull(in0, r) && in1 == Overlapping(v[L + 1], r);
    InputsOk(v, L, in0, in1);
    forall o, g | o in outs && g in v[L + 1] && g !in in1
      ensures Apart(g, o)
    {
      UnchosenMissesInputs(v, L, in0, in1, r, g);
      OutputWithinInputs(o, in0 + in1, g);
    }
  }

  // ----- a user key split across two files -----

  function Single(number: nat, k: UserKey, seqno: nat, kind: Kind, value: Value): File {
    var key := IKey(k, seqno, kind);
    File(number, 1, key, key, [Entry(key, value)])
  }

  const NEW: File := Single(8, 1.0, 9, Put, "new")
  const OLD: File := Single(9, 1.0, 5, Put, "old")

  /** Both entries of one user key at level 1, the newer one in the first file. */
  function SplitVersion(): Levels {
    [[], [NEW, OLD], [], [], [], [], []]
  }

  /** After the first file alone has moved to level 2. */
  function SplitMoved(): Levels {
    [[], [OLD], [NEW], [], [], [], []]
  }

  lemma SplitVersionOk()
    ensures VersionOk(SplitVersion())
  {
    hide Newer;
    var v := SplitVersion();
    assert FileOk(NEW) && FileOk(OLD);
    assert forall l :: 0 <= l < 7 && l != 1 ==> v[l] == [];
  }

  /** The move is one the engine makes: the file is chosen alone, and nothing at the
      next level meets it. The level-by-level lookup then stops at the older value. */
  lemma SplitMoveHidesNewest()
    ensures var v, w := SplitVersion(), SplitMoved();
            && VersionOk(v) && GoodInputs(v, 1, [NEW], []) && SplitsUserKey(v[1], [NEW])
            && CompactionInstalled(v, w, 1, [NEW], [], [NEW]) && !VersionOk(w)
            && Read(VersionEntries(w), 1.0, 9) == Some("new")
            && SearchRun(w[1][0].table, 1.0, 9) == Some(OLD.table[0])
  {
    var v, w := SplitVersion(), SplitMoved();
    SplitVersionOk();
    SplitChoice();
    SplitNotClean();
    SplitReads();
  }

  lemma SplitChoice()
    ensures GoodInputs(SplitVersion(), 1, [NEW], []) && SplitsUserKey(SplitVersion()[1], [NEW])
    ensures CompactionInstalled(SplitVersion(), SplitMoved(), 1, [NEW], [], [NEW])
  {
    var v := SplitVersion();
    var r := Range(Some(1.0), Some(1.0));
    assert NEW in [NEW] && IsHull([NEW], r) && Overlapping(v[2], r) == [];
    assert OLD in v[1];
  }

  lemma SplitNotClean()
    ensures !VersionOk(SplitMoved())
  {
    var w := SplitMoved();
    assert NEW in w[2] && OLD in w[1];
    assert NEW.table[0] in NEW.table && OLD.table[0] in OLD.table;
    assert !Newer(OLD.table, NEW.table);
  }

  lemma SplitReads()
    ensures Read(VersionEntries(SplitMoved()), 1.0, 9) == Some("new")
    ensures SearchRun(OLD.table, 1.0, 9) == Some(OLD.table[0])
  {
    var w := SplitMoved();
    var a, b := NEW.table[0], OLD.table[0];
    var E := VersionEntries(w);
    assert E == {a, b} by {
      SplitEntries();
    }
    assert Newest(E, 1.0, 9, a);
    ReadOfNewest(E, 1.0, 9, a);
  }

  lemma SplitEntries()
    ensures VersionEntries(SplitMoved()) == {NEW.table[0], OLD.table[0]}
  {
    var w := SplitMoved();
    forall e | e in VersionEntries(w)
      ensures e in {NEW.table[0], OLD.table[0]}
    {
      var l := VersionEntriesFrom(w, e);
      var f := FileEntriesFrom(w[l], e);
      assert f == NEW || f == OLD;
    }
    FileEntriesHas(w[1], OLD, OLD.table[0]);
    FileEntriesHas(w[2], NEW, NEW.table[0]);
    VersionEntriesHas(w, 1, OLD.table[0]);
    VersionEntriesHas(w, 2, NEW.table[0]);
  }

  // ----- a deletion dropped while its key lives on next door -----

  const UPPER: File := Single(8, 0.5, 9, Put, "x")

  const MARKED: File := File(
    9, 1, IKey(0.5, 2, Put), IKey(1.0, 5, Deletion),
    [Entry(IKey(0.5, 2, Put), "y"), Entry(IKey(1.0, 5, Deletion), "")])

  const BURIED: File := Single(10, 1.0, 3, Put, "old")

  /** Level 2 splits user key 1.0 between its deletion and an older value. */
  function MarkedVersion(): Levels {
    [[], [UPPER], [MARKED, BURIED], [], [], [], []]
  }

  lemma MarkedVersionOk()
    ensures VersionOk(MarkedVersion())
  {
    hide Newer, FileOk;
    var v := MarkedVersion();
    MarkedFiles();
    MarkedRecency();
    assert forall l :: 0 <= l < 7 && l != 1 && l != 2 ==> v[l] == [];
  }

  lemma MarkedFiles()
    ensures FileOk(UPPER) && FileOk(MARKED) && FileOk(BURIED)
    ensures Newer(UPPER.table, MARKED.table) && Newer(UPPER.table, BURIED.table)
  {
  }

  lemma MarkedRecency()
    ensures LevelRecency(MarkedVersion())
  {
    hide Newer, FileOk;
    MarkedFiles();
    var v := MarkedVersion();
    forall i, j, f: File, g: File | 0 <= i < j < |v| && f in v[i] && g in v[j]
      ensures Newer(f.table, g.table)
    {
      assert i == 1 && j == 2 && f == UPPER;
    }
  }

  lemma MarkedChoice()
    ensures GoodInputs(MarkedVersion(), 1, [UPPER], [MARKED])
    ensures SplitsUserKey(MarkedVersion()[2], [MARKED])
  {
    var v := MarkedVersion();
    var r := Range(Some(0.5), Some(0.5));
    assert UPPER in [UPPER] && IsHull([UPPER], r);
    assert v[2][..1] == [MARKED] && v[2][..0] == [];
    assert Overlapping(v[2][..1], r) == [MARKED];
    assert Overlapping(v[2], r) == [MARKED];
    assert MARKED in [MARKED] && BURIED in v[2];
  }

  /** Merging the two inputs the engine picks drops the deletion, and the deleted
      value in the neighbouring file can be read again. */
  lemma DroppedDeletionResurfaces()
    ensures var v := MarkedVersion();
            var I, R := FileEntries([UPPER] + [MARKED]), FileEntries([BURIED]);
            && VersionOk(v) && GoodInputs(v, 1, [UPPER], [MARKED]) && SplitsUserKey(v[2], [MARKED])
            && Read(I + R, 1.0, 9) == None
            && Read(Survivors(v, 1, I, 9) + R, 1.0, 9) == Some("old")
  {
    MarkedVersionOk();
    MarkedChoice();
    MarkedReads();
  }

  lemma MarkedReads()
    ensures var v := MarkedVersion();
            var I, R := FileEntries([UPPER] + [MARKED]), FileEntries([BURIED]);
            Read(I + R, 1.0, 9) == None && Read(Survivors(v, 1, I, 9) + R, 1.0, 9) == Some("old")
  {
    var v := MarkedVersion();
    var a, b, t, c := UPPER.table[0], MARKED.table[0], MARKED.table[1], BURIED.table[0];
    var I, R := FileEntries([UPPER] + [MARKED]), FileEntries([BURIED]);
    MarkedInputs();
    assert Newest(I + R, 1.0, 9, t);
    assert BaseLevelFor(v, 1, 1.0);
    assert DroppedMarker(v, 1, I, R, 9, t);
    ReadAfterDroppedMarker(v, 1, I, R, 9, 9, t);
    assert Newest(R, 1.0, 9, c);
    ReadOfNewest(R, 1.0, 9, c);
  }

  lemma MarkedInputs()
    ensures FileEntries([UPPER] + [MARKED]) == {UPPER.table[0], MARKED.table[0], MARKED.table[1]}
    ensures FileEntries([BURIED]) == {BURIED.table[0]}
  {
    assert ([UPPER] + [MARKED])[1..] == [MARKED];
    assert Entries(MARKED.table) == {MARKED.table[0], MARKED.table[1]};
    assert Entries(UPPER.table) == {UPPER.table[0]};
    assert Entries(BURIED.table) == {BURIED.table[0]};
    assert FileEntries([MARKED]) == Entries(MARKED.table);
    assert FileEntries([BURIED]) == Entries(BURIED.table);
  }
}
