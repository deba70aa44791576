/** A memtable flushed while a compaction is running (CompactMemTable called from the
    compaction loop): exactly when the install still leaves a disjoint level. The
    level picked for the flushed file is checked against individual files only. */
module NestedFlush {
  import opened InternalKeys
  import opened Version
  import opened CompactionInputs
  import opened LsmEdits
  import opened Compaction
  import opened CleanCuts
  import opened CleanCutLimits
  import opened CompactionOutputs

  // ----- one file against one run of entries -----

  predicate LeftOf(e: Entry, f: File) {
    Before(e.key, f.smallest)
  }

  predicate RightOf(e: Entry, f: File) {
    Before(f.largest, e.key)
  }

  /** Every entry lies on one side of f or the other. */
  ghost predicate Avoids(t: seq<Entry>, f: File) {
    forall e :: e in t ==> LeftOf(e, f) || RightOf(e, f)
  }

  /** Entries on both sides of f. */
  ghost predicate Straddles(t: seq<Entry>, f: File) {
    exists a, b :: a in t && b in t && LeftOf(a, f) && RightOf(b, f)
  }

  ghost predicate AllLeft(t: seq<Entry>, f: File) {
    forall e :: e in t ==> LeftOf(e, f)
  }

  ghost predicate AllRight(t: seq<Entry>, f: File) {
    forall e :: e in t ==> RightOf(e, f)
  }

  lemma NotBothSides(e: Entry, f: File)
    requires FileOk(f)
    ensures !(LeftOf(e, f) && RightOf(e, f))
  {
    FileSpans(f);
    BeforeIsStrictTotalOrder(e.key, f.smallest, f.largest);
    BeforeIsStrictTotalOrder(f.smallest, f.largest, e.key);
    BeforeIsStrictTotalOrder(f.largest, e.key, f.smallest);
  }

  lemma StraddlesIff(t: seq<Entry>, f: File)
    requires FileOk(f) && Avoids(t, f)
    ensures Straddles(t, f) <==> !AllLeft(t, f) && !AllRight(t, f)
  {
    hide LeftOf, RightOf, FileOk;
    if Straddles(t, f) {
      var a, b :| a in t && b in t && LeftOf(a, f) && RightOf(b, f);
      NotBothSides(a, f);
      NotBothSides(b, f);
    }
    if !AllLeft(t, f) && !AllRight(t, f) {
      var b :| b in t && !LeftOf(b, f);
      var a :| a in t && !RightOf(a, f);
      assert LeftOf(a, f) && RightOf(b, f);
    }
  }

  /** The bounds of a file fall on the same side exactly when all its entries do. */
  lemma ApartIffNotStraddled(f: File, o: File)
    requires FileOk(f) && FileOk(o) && Avoids(o.table, f)
    ensures Apart(f, o) <==> !Straddles(o.table, f)
  {
    var first, last := o.table[0], o.table[|o.table| - 1];
    assert first in o.table && last in o.table;
    StraddlesIff(o.table, f);
    NotBothSides(first, f);
    NotBothSides(last, f);
    if Apart(f, o) {
      ApartIsOneSided(f, o);
    } else {
      assert !RightOf(first, f) && !LeftOf(last, f);
    }
  }

  lemma ApartIsOneSided(f: File, o: File)
    requires FileOk(o) && Apart(f, o)
    ensures AllLeft(o.table, f) || AllRight(o.table, f)
  {
    forall e | e in o.table
      ensures Before(f.largest, o.smallest) ==> RightOf(e, f)
      ensures Before(o.largest, f.smallest) ==> LeftOf(e, f)
    {
      EntryWithinFile(o, e);
      BeforeIsStrictTotalOrder(f.largest, o.smallest, e.key);
      BeforeIsStrictTotalOrder(e.key, o.largest, f.smallest);
      BeforeIsStrictTotalOrder(o.smallest, e.key, o.smallest);
      BeforeIsStrictTotalOrder(o.largest, e.key, o.largest);
    }
  }

  // ----- the condition on the inputs -----

  /** Whatever the merge keeps and wherever it cuts, f stays apart from the outputs. */
  ghost predicate ApartFromAll(f: File, ins: seq<File>) {
    forall o :: FileOk(o) && FromInputs(o, ins) ==> Apart(f, o)
  }

  /** An output of two entries, one before f and one after it. */
  lemma BetweenTwo(f: File, ins: seq<File>, c: File, d: File) returns (o: File)
    requires FileOk(f) && FilesOk(ins) && c in ins && d in ins
    requires Before(c.largest, f.smallest) && Before(f.largest, d.smallest)
    ensures FileOk(o) && FromInputs(o, ins) && !Apart(f, o)
  {
    assert FileOk(c) && FileOk(d);
    var a, b := c.table[|c.table| - 1], d.table[0];
    FileSpans(f);
    BeforeIsStrictTotalOrder(a.key, f.smallest, f.largest);
    BeforeIsStrictTotalOrder(a.key, f.largest, b.key);
    BeforeIsStrictTotalOrder(a.key, f.smallest, b.key);
    BeforeIsStrictTotalOrder(f.largest, a.key, f.smallest);
    BeforeIsStrictTotalOrder(b.key, f.smallest, f.largest);
    assert Before(a.key, b.key);
    o := File(0, 0, a.key, b.key, [a, b]);
    FileEntriesHas(ins, c, a);
    FileEntriesHas(ins, d, b);
    TwoEntries(a, b);
  }

  lemma TwoEntries(a: Entry, b: Entry)
    requires Before(a.key, b.key)
    ensures Sorted([a, b]) && forall e :: e in [a, b] <==> e == a || e == b
  {
  }

  /** A flushed file that misses every input misses every possible output if and only
      if it lies before all inputs or after all of them. */
  lemma MissesAllIff(f: File, ins: seq<File>)
    requires FileOk(f) && FilesOk(ins) && forall c :: c in ins ==> Apart(f, c)
    ensures MissesAll(f, ins) <==> ApartFromAll(f, ins)
  {
    if MissesAll(f, ins) {
      forall o | FileOk(o) && FromInputs(o, ins)
        ensures Apart(f, o)
      {
        OutputWithinInputs(o, ins, f);
      }
    } else {
      var d :| d in ins && !Before(d.largest, f.smallest);
      var c :| c in ins && !Before(f.largest, c.smallest);
      var o := BetweenTwo(f, ins, c, d);
    }
  }

  // ----- the condition on what the merge keeps -----

  /** However the kept entries are cut, f stays apart from every file. */
  ghost predicate ApartHoweverCut(f: File, kept: seq<Entry>) {
    forall runs, outs, o :: Cutting(kept, runs) && Built(runs, outs) && o in outs ==> Apart(f, o)
  }

  /** f misses the outputs of every cutting if and only if it lies before all kept
      entries or after all of them. */
  lemma EveryCuttingIff(f: File, kept: seq<Entry>)
    requires FileOk(f) && Sorted(kept) && Avoids(kept, f)
    requires forall e :: e in kept ==> e.key.seqno <= MAX_SEQUENCE
    ensures ApartHoweverCut(f, kept) <==> AllLeft(kept, f) || AllRight(kept, f)
  {
    hide LeftOf, RightOf, Sorted, Flatten, Apart, FileOk;
    if AllLeft(kept, f) || AllRight(kept, f) {
      forall runs, outs, o | Cutting(kept, runs) && Built(runs, outs) && o in outs
        ensures Apart(f, o)
      {
        OneSidedCut(f, kept, runs, outs, o);
      }
    } else {
      StraddlesIff(kept, f);
      var runs, outs := OneOutput(kept);
      CutApart(f, kept, runs, outs, outs[0]);
    }
  }

  /** For one cutting: an output misses f if and only if its entries are on one side. */
  lemma CutApart(f: File, kept: seq<Entry>, runs: seq<seq<Entry>>, outs: seq<File>, o: File)
    requires FileOk(f) && Sorted(kept) && Avoids(kept, f)
    requires forall e :: e in kept ==> e.key.seqno <= MAX_SEQUENCE
    requires Cutting(kept, runs) && Built(runs, outs) && o in outs
    ensures FileOk(o) && (forall e :: e in o.table ==> e in kept)
    ensures Apart(f, o) <==> !Straddles(o.table, f)
  {
    hide LeftOf, RightOf, Sorted, Flatten, Apart, FileOk, Straddles;
    BuiltFilesOk(runs, outs);
    var i :| 0 <= i < |outs| && outs[i] == o;
    forall e | e in o.table
      ensures e in kept
    {
      FlattenMember(runs, i, e);
    }
    ApartIffNotStraddled(f, o);
  }

  lemma OneSidedCut(f: File, kept: seq<Entry>, runs: seq<seq<Entry>>, outs: seq<File>, o: File)
    requires FileOk(f) && Sorted(kept) && (AllLeft(kept, f) || AllRight(kept, f))
    requires forall e :: e in kept ==> e.key.seqno <= MAX_SEQUENCE
    requires Cutting(kept, runs) && Built(runs, outs) && o in outs
    ensures Apart(f, o)
  {
    hide LeftOf, RightOf, Sorted, Flatten, Apart, FileOk, Built;
    CutApart(f, kept, runs, outs, o);
    StraddlesIff(o.table, f);
  }

  /** The cutting into a single output. */
  lemma OneOutput(kept: seq<Entry>) returns (runs: seq<seq<Entry>>, outs: seq<File>)
    requires kept != []
    ensures Cutting(kept, runs) && Built(runs, outs) && |outs| == 1 && outs[0].table == kept
  {
    hide Flatten;
    runs := [kept];
    FlattenOne(kept);
    outs := [File(0, 0, kept[0].key, kept[|kept| - 1].key, kept)];
  }

  // ----- the install -----

  /** f came to level l of v after version v0. */
  ghost predicate Came(v0: Levels, v: Levels, l: nat, f: File) {
    l < |v0| && l < |v| && f in v[l] && f !in v0[l]
  }

  /** v is v0 with flushed files added: those at level L are newer than the files of
      both levels, those at level L + 1 miss every one of them. */
  ghost predicate OnlyFlushed(v0: Levels, v: Levels, L: nat) {
    && |v| == |v0| && L + 1 < |v0|
    && (forall l, g :: 0 <= l < |v0| && g in v0[l] ==> g in v[l])
    && (forall u, c :: Came(v0, v, L, u) && (c in v0[L] || c in v0[L + 1]) ==> Newer(u.table, c.table))
    && (forall f, c :: Came(v0, v, L + 1, f) && (c in v0[L] || c in v0[L + 1]) ==> Apart(f, c))
  }

  ghost predicate SomeStraddle(v0: Levels, v: Levels, L: nat, outs: seq<File>) {
    exists o, f :: o in outs && Came(v0, v, L + 1, f) && Straddles(o.table, f)
  }

  lemma InputsApart(v0: Levels, v: Levels, L: nat, in0: seq<File>, in1: seq<File>, outs: seq<File>, f: File, o: File)
    requires VersionOk(v) && OnlyFlushed(v0, v, L) && InputsOf(v0, L, in0, in1) && OutputsOk(in0 + in1, outs)
    requires Came(v0, v, L + 1, f) && o in outs
    ensures FileOk(f) && FileOk(o) && Avoids(o.table, f)
  {
    hide Before, SortedDisjoint, DistinctNumbers, LevelRecency, Level0Recency, Newer;
    assert FileOk(f) && FileOk(o);
    forall e | e in o.table
      ensures LeftOf(e, f) || RightOf(e, f)
    {
      var c := FileEntriesFrom(in0 + in1, e);
      var l := if c in in0 then L else L + 1;
      assert c in v0[l] && c in v[l];
      assert FileOk(c) && Apart(f, c);
      InputSide(f, c, e);
    }
  }

  lemma InputSide(f: File, c: File, e: Entry)
    requires FileOk(c) && Apart(f, c) && e in c.table
    ensures LeftOf(e, f) || RightOf(e, f)
  {
    EntryWithinFile(c, e);
    BeforeIsStrictTotalOrder(f.largest, c.smallest, e.key);
    BeforeIsStrictTotalOrder(e.key, c.largest, f.smallest);
    BeforeIsStrictTotalOrder(c.smallest, e.key, c.smallest);
    BeforeIsStrictTotalOrder(c.largest, e.key, c.largest);
  }

  /** With memtables flushed between the choice of inputs and the install, the install
      keeps the version searchable if and only if no output has entries on both sides
      of a file flushed to its level. */
  lemma NestedInstallIff(
    v0: Levels, v: Levels, w: Levels, L: nat, in0: seq<File>, in1: seq<File>, outs: seq<File>)
    requires VersionOk(v0) && GoodInputs(v0, L, in0, in1) && CleanCut(v0[L], in0)
    requires VersionOk(v) && OnlyFlushed(v0, v, L)
    requires OutputsOk(in0 + in1, outs) && CompactionInstalled(v, w, L, in0, in1, outs) && FreshNumbers(v, L, outs)
    ensures VersionOk(w) <==> !SomeStraddle(v0, v, L, outs)
  {
    GoodInputsMiss(v0, L, in0, in1, outs);
    StillInputs(v0, v, L, in0, in1);
    hide VersionOk, GoodInputs, CleanCut, OnlyFlushed, OutputsOk, CompactionInstalled, FreshNumbers, InputsOf;
    hide OutputsMissRest, LeftBehindIsNewer, SomeStraddle;
    LeftBehindAfterFlush(v0, v, L, in0, in1, outs);
    RestAfterFlush(v0, v, L, in0, in1, outs);
    InstallKeepsVersionIff(v, w, L, in0, in1, outs);
  }

  lemma StillInputs(v0: Levels, v: Levels, L: nat, in0: seq<File>, in1: seq<File>)
    requires InputsOf(v0, L, in0, in1) && OnlyFlushed(v0, v, L)
    ensures InputsOf(v, L, in0, in1)
  {
  }

  lemma LeftBehindAfterFlush(v0: Levels, v: Levels, L: nat, in0: seq<File>, in1: seq<File>, outs: seq<File>)
    requires VersionOk(v0) && OnlyFlushed(v0, v, L) && CleanCut(v0[L], in0)
    requires InputsOf(v0, L, in0, in1) && OutputsOk(in0 + in1, outs)
    ensures LeftBehindIsNewer(v, L, in0, outs)
  {
    hide Newer, FilesOk, SortedDisjoint, DistinctNumbers, Level0Recency, FromInputs, Apart;
    forall o, u | o in outs && u in v[L] && u !in in0
      ensures Newer(u.table, o.table)
    {
      forall c | c in in0 + in1
        ensures Newer(u.table, c.table)
      {
        var l := if c in in0 then L else L + 1;
        assert c in v0[l];
        if u in v0[L] {
          assert l == L + 1 ==> Newer(u.table, c.table);
        }
      }
      OutputRecency(u, o, in0 + in1);
    }
  }

  lemma RestAfterFlush(v0: Levels, v: Levels, L: nat, in0: seq<File>, in1: seq<File>, outs: seq<File>)
    requires VersionOk(v) && OnlyFlushed(v0, v, L) && InputsOf(v0, L, in0, in1) && OutputsOk(in0 + in1, outs)
    requires OutputsMissRest(v0, L, in1, outs)
    ensures OutputsMissRest(v, L, in1, outs) <==> !SomeStraddle(v0, v, L, outs)
  {
    hide VersionOk, Apart, Straddles, OutputsOk, Newer;
    forall o, g | o in outs && Came(v0, v, L + 1, g)
      ensures g !in in1 && (Apart(g, o) <==> !Straddles(o.table, g))
    {
      InputsApart(v0, v, L, in0, in1, outs, g, o);
      ApartIffNotStraddled(g, o);
    }
    if !SomeStraddle(v0, v, L, outs) {
      forall o, g | o in outs && g in v[L + 1] && g !in in1
        ensures Apart(g, o)
      {
        assert g in v0[L + 1] || Came(v0, v, L + 1, g);
      }
    } else {
      var o, f :| o in outs && Came(v0, v, L + 1, f) && Straddles(o.table, f);
      assert f in v[L + 1] && f !in in1 && !Apart(f, o);
    }
  }

  /** What a flush at the level the engine picks adds. */
  lemma FlushOnlyAdds(v0: Levels, v: Levels, L: nat, level: nat, f: File)
    requires L + 1 < |v0| && OnlyLevelChanged(v0, v, level) && Installed(v0[level], [], [f], v[level])
    requires NewerThanAll(f, v0) && (level > 0 ==> ClearDownTo(v0, level, f))
    ensures OnlyFlushed(v0, v, L)
  {
    hide Newer, Before, SortedBySmallest;
    forall u, c | Came(v0, v, L, u) && (c in v0[L] || c in v0[L + 1])
      ensures Newer(u.table, c.table)
    {
      assert u == f;
    }
    forall u, c | Came(v0, v, L + 1, u) && (c in v0[L] || c in v0[L + 1])
      ensures Apart(u, c)
    {
      assert u == f && level == L + 1;
      UserApart(f, c);
    }
  }

  lemma UserApart(f: File, c: File)
    requires f.largest.user < c.smallest.user || c.largest.user < f.smallest.user
    ensures Apart(f, c)
  {
  }

  // ----- a witness -----

  const LEFT: File := Single(8, 1.0, 5, Put, "l")
  const RIGHT: File := Single(9, 3.0, 6, Put, "r")
  const FLUSHED: File := Single(10, 2.0, 9, Put, "m")

  /** The two inputs merged into one output. */
  const MERGED: File := File(11, 2, LEFT.smallest, RIGHT.largest, [LEFT.table[0], RIGHT.table[0]])

  function ApartVersion(): Levels {
    [[], [LEFT, RIGHT], [], [], [], [], []]
  }

  /** The flushed file misses every file down to level 2, so it may be placed there;
      yet it lies inside the range of the output that the compaction of level 1 will
      add to level 2, so the level is no longer disjoint whichever way it is listed. */
  lemma NestedFlushOverlaps(after: seq<File>)
    requires Installed([FLUSHED], [], [MERGED], after)
    ensures ClearDownTo(ApartVersion(), 2, FLUSHED) && GoodInputs(ApartVersion(), 1, [LEFT, RIGHT], [])
    ensures FileOk(MERGED) && FromInputs(MERGED, [LEFT, RIGHT])
    ensures !MissesAll(FLUSHED, [LEFT, RIGHT]) && !SortedDisjoint(after)
  {
    NestedChoice();
    NestedOutput();
    assert FLUSHED in [FLUSHED] && MERGED in [MERGED];
    assert FLUSHED in after && MERGED in after && FLUSHED != MERGED;
    assert !Apart(FLUSHED, MERGED);
    if SortedDisjoint(after) {
      SortedDisjointIsPairwiseApart(after);
    }
    assert LEFT in [LEFT, RIGHT] && RIGHT in [LEFT, RIGHT];
  }

  lemma NestedChoice()
    ensures ClearDownTo(ApartVersion(), 2, FLUSHED) && GoodInputs(ApartVersion(), 1, [LEFT, RIGHT], [])
  {
    var v := ApartVersion();
    var r := Range(Some(1.0), Some(3.0));
    assert LEFT in [LEFT, RIGHT] && RIGHT in [LEFT, RIGHT];
    assert IsHull([LEFT, RIGHT], r) && Overlapping(v[2], r) == [];
  }

  lemma NestedOutput()
    ensures FileOk(MERGED) && FromInputs(MERGED, [LEFT, RIGHT])
  {
    FileEntriesHas([LEFT, RIGHT], LEFT, LEFT.table[0]);
    FileEntriesHas([LEFT, RIGHT], RIGHT, RIGHT.table[0]);
  }
}
