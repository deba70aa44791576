/** Editing a version: what keeps its levels searchable. */
module LsmEdits {
  import opened InternalKeys
  import opened Version

  /** VersionSet::Builder::BySmallestKey. */
  predicate BySmallest(f: File, g: File) {
    Before(f.smallest, g.smallest) || (f.smallest == g.smallest && f.number < g.number)
  }

  ghost predicate SortedBySmallest(files: seq<File>) {
    forall i, j :: 0 <= i < j < |files| ==> BySmallest(files[i], files[j])
  }

  /** The files of a level after an edit, in the order Builder::SaveTo leaves them. */
  ghost predicate Installed(base: seq<File>, del: seq<File>, add: seq<File>, after: seq<File>) {
    && (forall g :: g in after <==> (g in base && g !in del) || g in add)
    && SortedBySmallest(after)
  }

  /** The two files do not meet in internal-key order. */
  predicate Apart(f: File, g: File) {
    Before(f.largest, g.smallest) || Before(g.largest, f.smallest)
  }

  ghost predicate PairwiseApart(files: seq<File>) {
    forall f, g :: f in files && g in files && f != g ==> Apart(f, g)
  }

  lemma ApartAndSortedIsSortedDisjoint(files: seq<File>)
    requires FilesOk(files) && PairwiseApart(files) && SortedBySmallest(files)
    ensures SortedDisjoint(files)
  {
    forall i, j | 0 <= i < j < |files|
      ensures Before(files[i].largest, files[j].smallest)
    {
      var f, g := files[i], files[j];
      assert f in files && g in files && BySmallest(f, g);
      FileSpans(f);
      FileSpans(g);
    }
  }

  lemma FileSpans(f: File)
    requires FileOk(f)
    ensures f.smallest == f.largest || Before(f.smallest, f.largest)
  {
    assert |f.table| == 1 || Before(f.table[0].key, f.table[|f.table| - 1].key);
  }

  lemma SortedDisjointIsPairwiseApart(files: seq<File>)
    requires SortedDisjoint(files)
    ensures PairwiseApart(files)
  {
    forall f, g | f in files && g in files && f != g
      ensures Apart(f, g)
    {
      var i :| 0 <= i < |files| && files[i] == f;
      var j :| 0 <= j < |files| && files[j] == g;
    }
  }

  // ----- the effect of an edit on the set of entries -----

  lemma InstalledEntries(base: seq<File>, del: seq<File>, add: seq<File>, after: seq<File>)
    requires Installed(base, del, add, after)
    ensures FileEntries(after) <= FileEntries(base) + FileEntries(add)
    ensures FileEntries(base) <= FileEntries(after) + FileEntries(del)
    ensures FileEntries(add) <= FileEntries(after)
  {
    forall e | e in FileEntries(after)
      ensures e in FileEntries(base) + FileEntries(add)
    {
      var f := FileEntriesFrom(after, e);
      if f in add {
        FileEntriesHas(add, f, e);
      } else {
        FileEntriesHas(base, f, e);
      }
    }
    forall e | e in FileEntries(base)
      ensures e in FileEntries(after) + FileEntries(del)
    {
      var f := FileEntriesFrom(base, e);
      if f in del {
        FileEntriesHas(del, f, e);
      } else {
        FileEntriesHas(after, f, e);
      }
    }
    forall e | e in FileEntries(add)
      ensures e in FileEntries(after)
    {
      var f := FileEntriesFrom(add, e);
      FileEntriesHas(after, f, e);
    }
  }

  /** Levels other than `level` are untouched. */
  ghost predicate OnlyLevelChanged(v: Levels, w: Levels, level: nat) {
    && |w| == |v|
    && level < |v|
    && forall l :: 0 <= l < |v| && l != level ==> w[l] == v[l]
  }

  lemma AddedFileEntries(v: Levels, w: Levels, level: nat, f: File)
    requires OnlyLevelChanged(v, w, level) && Installed(v[level], [], [f], w[level])
    ensures VersionEntries(w) == VersionEntries(v) + Entries(f.table)
  {
    InstalledEntries(v[level], [], [f], w[level]);
    assert FileEntries([f]) == Entries(f.table);
    forall e | e in VersionEntries(w)
      ensures e in VersionEntries(v) + Entries(f.table)
    {
      var l := VersionEntriesFrom(w, e);
      if e !in Entries(f.table) {
        VersionEntriesHas(v, l, e);
      }
    }
    forall e | e in VersionEntries(v)
      ensures e in VersionEntries(w)
    {
      var l := VersionEntriesFrom(v, e);
      VersionEntriesHas(w, l, e);
    }
    forall e | e in Entries(f.table)
      ensures e in VersionEntries(w)
    {
      VersionEntriesHas(w, level, e);
    }
  }

  // ----- adding a flushed memtable -----

  /** Shares no user key with, and does not meet, any file of the levels 0..level. */
  ghost predicate ClearDownTo(v: Levels, level: nat, f: File) {
    forall l, g :: 0 <= l <= level && l < |v| && g in v[l] ==>
      f.largest.user < g.smallest.user || g.largest.user < f.smallest.user
  }

  ghost predicate NumbersBelow(v: Levels, n: nat) {
    forall l, g :: 0 <= l < |v| && g in v[l] ==> g.number < n
  }

  lemma NoSharedKey(f: File, g: File)
    requires FileOk(f) && FileOk(g)
    requires f.largest.user < g.smallest.user || g.largest.user < f.smallest.user
    ensures Newer(f.table, g.table) && Newer(g.table, f.table)
  {
    forall a, b | a in f.table && b in g.table
      ensures a.key.user != b.key.user
    {
      EntryWithinFile(f, a);
      EntryWithinFile(g, b);
    }
  }

  ghost predicate NewerThanAll(f: File, v: Levels) {
    forall l, g {:trigger v[l], Newer(f.table, g.table)} :: 0 <= l < |v| && g in v[l] ==> Newer(f.table, g.table)
  }

  /** A flushed memtable may go to level 0, or deeper if it meets nothing on the way. */
  lemma AddFlushedFile(v: Levels, w: Levels, level: nat, f: File)
    requires VersionOk(v) && FileOk(f) && NumbersBelow(v, f.number) && NewerThanAll(f, v)
    requires OnlyLevelChanged(v, w, level) && Installed(v[level], [], [f], w[level])
    requires level > 0 ==> ClearDownTo(v, level, f)
    ensures VersionOk(w)
  {
    AddFlushedLevel(v, w, level, f);
    AddFlushedRecency(v, w, level, f);
    assert level > 0 ==> w[0] == v[0];
  }

  lemma AddFlushedLevel(v: Levels, w: Levels, level: nat, f: File)
    requires VersionOk(v) && FileOk(f) && NumbersBelow(v, f.number) && NewerThanAll(f, v)
    requires OnlyLevelChanged(v, w, level) && Installed(v[level], [], [f], w[level])
    requires level > 0 ==> ClearDownTo(v, level, f)
    ensures FilesOk(w[level]) && DistinctNumbers(w[level])
    ensures level > 0 ==> SortedDisjoint(w[level])
    ensures level == 0 ==> Level0Recency(w[0])
  {
    InstalledDistinct(v[level], f, w[level]);
    if level > 0 {
      assert forall g :: g in v[level] ==> Apart(f, g);
      AddedApart(v[level], f, w[level]);
    }
  }

  lemma AddedApart(base: seq<File>, f: File, after: seq<File>)
    requires FilesOk(base) && FileOk(f) && SortedDisjoint(base) && Installed(base, [], [f], after)
    requires forall g :: g in base ==> Apart(f, g)
    ensures SortedDisjoint(after)
  {
    SortedDisjointIsPairwiseApart(base);
    ApartAndSortedIsSortedDisjoint(after);
  }

  lemma InstalledDistinct(base: seq<File>, f: File, after: seq<File>)
    requires DistinctNumbers(base) && Installed(base, [], [f], after)
    requires forall g :: g in base ==> g.number < f.number
    ensures DistinctNumbers(after)
  {
    forall i, j | 0 <= i < j < |after|
      ensures after[i].number != after[j].number
    {
      assert BySmallest(after[i], after[j]);
      assert after[i] in after && after[j] in after;
      if after[i] in base && after[j] in base {
        var a :| 0 <= a < |base| && base[a] == after[i];
        var b :| 0 <= b < |base| && base[b] == after[j];
      }
    }
  }

  lemma AddFlushedRecency(v: Levels, w: Levels, level: nat, f: File)
    requires VersionOk(v) && FileOk(f) && NewerThanAll(f, v)
    requires OnlyLevelChanged(v, w, level) && Installed(v[level], [], [f], w[level])
    requires level > 0 ==> ClearDownTo(v, level, f)
    ensures LevelRecency(w)
  {
    forall i, j, g, h | 0 <= i < j < |w| && g in w[i] && h in w[j]
      ensures Newer(g.table, h.table)
    {
      if i == level && g == f {
        assert h in v[j];
      } else if j == level && h == f {
        assert g in v[i];
        assert FileOk(g);
        NoSharedKey(f, g);
      } else {
        assert g in v[i] && h in v[j];
      }
    }
  }

  // ----- replacing the inputs of a compaction by its outputs -----

  /** A file of level l that the compaction does not read. */
  ghost predicate Bystander(v: Levels, L: nat, in0: seq<File>, in1: seq<File>, l: nat, u: File) {
    && l < |v|
    && u in v[l]
    && (l == L ==> u !in in0)
    && (l == L + 1 ==> u !in in1)
  }

  /** Lies wholly before or wholly after every input. */
  ghost predicate MissesAll(g: File, ins: seq<File>) {
    || (forall c :: c in ins ==> Before(g.largest, c.smallest))
    || (forall c :: c in ins ==> Before(c.largest, g.smallest))
  }

  /** Next to its inputs, a bystander holds older entries for an input's user key
      only if it was already below the output level in version `input`. */
  ghost predicate OnlyDeeperIsOlder(v: Levels, input: Levels, L: nat, in0: seq<File>, in1: seq<File>) {
    forall l: nat, u, c {:trigger Bystander(v, L, in0, in1, l, u), Newer(u.table, c.table)} :: Bystander(v, L, in0, in1, l, u) && c in in0 + in1 ==>
      Newer(u.table, c.table) || (L + 2 <= l < |input| && u in input[l])
  }

  /** What a running compaction of level L relies on until it is installed. */
  ghost predicate JobOk(v: Levels, input: Levels, L: nat, in0: seq<File>, in1: seq<File>) {
    && L + 1 < |v|
    && (forall f :: f in in0 ==> f in v[L])
    && (forall f :: f in in1 ==> f in v[L + 1])
    && OnlyDeeperIsOlder(v, input, L, in0, in1)
    && (forall g :: g in v[L + 1] && g !in in1 ==> MissesAll(g, in0 + in1))
  }

  ghost predicate FromInputs(o: File, ins: seq<File>) {
    forall e :: e in o.table ==> e in FileEntries(ins)
  }

  ghost predicate OutputsOk(ins: seq<File>, outs: seq<File>) {
    && FilesOk(outs)
    && SortedDisjoint(outs)
    && DistinctNumbers(outs)
    && forall o :: o in outs ==> FromInputs(o, ins)
  }

  ghost predicate CompactionInstalled(v: Levels, w: Levels, L: nat, in0: seq<File>, in1: seq<File>, outs: seq<File>) {
    && |w| == |v|
    && L + 1 < |v|
    && Installed(v[L], in0, [], w[L])
    && Installed(v[L + 1], in1, outs, w[L + 1])
    && forall l :: 0 <= l < |v| && l != L && l != L + 1 ==> w[l] == v[l]
  }

  lemma InstallKeepsLevelL(v: Levels, w: Levels, L: nat, in0: seq<File>)
    requires VersionOk(v) && |w| == |v| && L < |v| && Installed(v[L], in0, [], w[L])
    ensures FilesOk(w[L]) && DistinctNumbers(w[L])
    ensures L > 0 ==> SortedDisjoint(w[L])
    ensures L == 0 ==> Level0Recency(w[0])
  {
    FewerFilesDistinct(v[L], w[L]);
    if L > 0 {
      SortedDisjointIsPairwiseApart(v[L]);
      ApartAndSortedIsSortedDisjoint(w[L]);
    }
  }

  lemma FewerFilesDistinct(base: seq<File>, after: seq<File>)
    requires DistinctNumbers(base) && SortedBySmallest(after)
    requires forall f :: f in after ==> f in base
    ensures DistinctNumbers(after)
  {
    forall i, j | 0 <= i < j < |after|
      ensures after[i].number != after[j].number
    {
      assert BySmallest(after[i], after[j]);
      assert after[i] in after && after[j] in after;
      var a :| 0 <= a < |base| && base[a] == after[i];
      var b :| 0 <= b < |base| && base[b] == after[j];
    }
  }

  lemma MergedFilesDistinct(base: seq<File>, outs: seq<File>, after: seq<File>)
    requires DistinctNumbers(base) && DistinctNumbers(outs) && SortedBySmallest(after)
    requires forall f :: f in after ==> f in base || f in outs
    requires forall f, o :: f in base && o in outs ==> f.number != o.number
    ensures DistinctNumbers(after)
  {
    forall i, j | 0 <= i < j < |after|
      ensures after[i].number != after[j].number
    {
      assert BySmallest(after[i], after[j]);
      assert after[i] in after && after[j] in after;
      DistinctWithin(base, after[i], after[j]);
      DistinctWithin(outs, after[i], after[j]);
    }
  }

  lemma DistinctWithin(files: seq<File>, f: File, g: File)
    requires DistinctNumbers(files)
    ensures f in files && g in files && f.number == g.number ==> f == g
  {
  }

  lemma OutputWithinInputs(o: File, ins: seq<File>, g: File)
    requires FilesOk(ins) && FileOk(o) && FromInputs(o, ins) && MissesAll(g, ins)
    ensures Apart(g, o)
  {
    var first, last := o.table[0], o.table[|o.table| - 1];
    assert first in o.table && last in o.table;
    var c := FileEntriesFrom(ins, first);
    var d := FileEntriesFrom(ins, last);
    assert FileOk(c) && FileOk(d);
    EntryWithinFile(c, first);
    EntryWithinFile(d, last);
  }

  lemma InstallKeepsLevelBelow(v: Levels, w: Levels, input: Levels, L: nat, in0: seq<File>, in1: seq<File>, outs: seq<File>)
    requires VersionOk(v) && JobOk(v, input, L, in0, in1)
    requires OutputsOk(in0 + in1, outs) && CompactionInstalled(v, w, L, in0, in1, outs)
    requires forall f, o :: f in v[L + 1] && o in outs ==> f.number != o.number
    ensures FilesOk(w[L + 1]) && DistinctNumbers(w[L + 1]) && SortedDisjoint(w[L + 1])
  {
    MergedFilesDistinct(v[L + 1], outs, w[L + 1]);
    InputsOk(v, L, in0, in1);
    SortedDisjointIsPairwiseApart(v[L + 1]);
    SortedDisjointIsPairwiseApart(outs);
    forall f, g | f in w[L + 1] && g in w[L + 1] && f != g
      ensures Apart(f, g)
    {
      if f in outs && g !in outs {
        OutputWithinInputs(f, in0 + in1, g);
      } else if g in outs && f !in outs {
        OutputWithinInputs(g, in0 + in1, f);
      }
    }
    ApartAndSortedIsSortedDisjoint(w[L + 1]);
  }

  lemma InputsOk(v: Levels, L: nat, in0: seq<File>, in1: seq<File>)
    requires VersionOk(v) && L + 1 < |v|
    requires (forall f :: f in in0 ==> f in v[L]) && (forall f :: f in in1 ==> f in v[L + 1])
    ensures FilesOk(in0 + in1)
  {
  }

  lemma OutputRecency(u: File, o: File, ins: seq<File>)
    requires FromInputs(o, ins)
    ensures (forall c :: c in ins ==> Newer(u.table, c.table)) ==> Newer(u.table, o.table)
    ensures (forall c :: c in ins ==> Newer(c.table, u.table)) ==> Newer(o.table, u.table)
  {
    forall e | e in o.table
      ensures exists c :: c in ins && e in c.table
    {
      var c := FileEntriesFrom(ins, e);
    }
  }

  lemma InstallKeepsRecency(v: Levels, w: Levels, input: Levels, L: nat, in0: seq<File>, in1: seq<File>, outs: seq<File>)
    requires VersionOk(v) && JobOk(v, input, L, in0, in1)
    requires OutputsOk(in0 + in1, outs) && CompactionInstalled(v, w, L, in0, in1, outs)
    ensures LevelRecency(w)
  {
    hide Newer, FilesOk, SortedDisjoint, SortedBySmallest, DistinctNumbers, FromInputs, Level0Recency, MissesAll;
    forall i, j, g, h | 0 <= i < j < |w| && g in w[i] && h in w[j]
      ensures Newer(g.table, h.table)
    {
      if i == L + 1 && g in outs {
        assert h in v[j];
        forall c | c in in0 + in1
          ensures Newer(c.table, h.table)
        {
          if c in in0 {
            assert Newer(c.table, h.table);
          }
        }
        OutputRecency(h, g, in0 + in1);
      } else if j == L + 1 && h in outs {
        assert Bystander(v, L, in0, in1, i, g);
        OutputRecency(g, h, in0 + in1);
      } else {
        assert g in v[i] && h in v[j];
      }
    }
  }

  /** Installing a compaction keeps the version searchable. */
  lemma InstallKeepsVersion(v: Levels, w: Levels, input: Levels, L: nat, in0: seq<File>, in1: seq<File>, outs: seq<File>)
    requires VersionOk(v) && JobOk(v, input, L, in0, in1)
    requires OutputsOk(in0 + in1, outs) && CompactionInstalled(v, w, L, in0, in1, outs)
    requires forall f, o :: f in v[L + 1] && o in outs ==> f.number != o.number
    ensures VersionOk(w)
  {
    InstallKeepsLevelL(v, w, L, in0);
    InstallKeepsLevelBelow(v, w, input, L, in0, in1, outs);
    InstallKeepsRecency(v, w, input, L, in0, in1, outs);
    assert L > 0 ==> w[0] == v[0];
  }
}
