/** When a choice of compaction inputs is safe to merge or move. */
module CleanCuts {
  import opened InternalKeys
  import opened Version
  import opened CompactionInputs
  import opened LsmEdits
  import opened Compaction

  /** For the user keys of the chosen files, the other files of the level hold
      only newer entries. The code relies on this without checking it. */
  ghost predicate CleanCut(files: seq<File>, chosen: seq<File>) {
    forall c, u {:trigger Newer(u.table, c.table)} ::
      c in chosen && u in files && u !in chosen ==> Newer(u.table, c.table)
  }

  /** A chosen file ends on the user key that an unchosen file continues. */
  ghost predicate SplitsUserKey(files: seq<File>, chosen: seq<File>) {
    exists c, u :: c in chosen && u in files && u !in chosen && Before(c.largest, u.smallest) && c.largest.user == u.smallest.user
  }

  /** Whether a cut is clean can be read off the file boundaries. */
  lemma CleanCutIffNoSplit(files: seq<File>, chosen: seq<File>)
    requires FilesOk(files) && SortedDisjoint(files) && Unique(FileEntries(files))
    requires forall c :: c in chosen ==> c in files
    ensures CleanCut(files, chosen) <==> !SplitsUserKey(files, chosen)
  {
    if SplitsUserKey(files, chosen) {
      var c, u :| c in chosen && u in files && u !in chosen && Before(c.largest, u.smallest) && c.largest.user == u.smallest.user;
      SplitIsNotNewer(c, u);
    } else {
      forall c, u | c in chosen && u in files && u !in chosen
        ensures Newer(u.table, c.table)
      {
        NoSplitIsNewer(files, c, u);
      }
    }
  }

  lemma SplitIsNotNewer(c: File, u: File)
    requires FileOk(c) && FileOk(u)
    requires Before(c.largest, u.smallest) && c.largest.user == u.smallest.user
    ensures !Newer(u.table, c.table)
  {
    var e, x := c.table[|c.table| - 1], u.table[0];
    assert e in c.table && x in u.table && x.key.seqno <= e.key.seqno;
  }

  lemma NoSplitIsNewer(files: seq<File>, c: File, u: File)
    requires FilesOk(files) && SortedDisjoint(files) && Unique(FileEntries(files))
    requires c in files && u in files && c != u
    requires !(Before(c.largest, u.smallest) && c.largest.user == u.smallest.user)
    ensures Newer(u.table, c.table)
  {
    SortedDisjointIsPairwiseApart(files);
    assert Apart(c, u);
    forall x, e | x in u.table && e in c.table && x.key.user == e.key.user
      ensures x.key.seqno > e.key.seqno
    {
      EntryWithinFile(u, x);
      EntryWithinFile(c, e);
      FileEntriesHas(files, u, x);
      FileEntriesHas(files, c, e);
      assert Before(x.key, e.key);
    }
  }

  lemma ClosedChoiceIsCleanCut(files: seq<File>, chosen: seq<File>)
    requires FilesOk(files) && ClosedChoice(files, chosen)
    requires forall c :: c in chosen ==> c in files
    ensures CleanCut(files, chosen)
  {
    forall c, u | c in chosen && u in files && u !in chosen
      ensures Newer(u.table, c.table)
    {
      NoSharedKey(u, c);
    }
  }

  /** An unchosen file of the output level lies on one side of all the inputs. */
  lemma UnchosenMissesInputs(v: Levels, L: nat, in0: seq<File>, in1: seq<File>, r: Range, g: File)
    requires VersionOk(v) && L + 1 < |v|
    requires forall f :: f in in0 ==> f in v[L]
    requires IsHull(in0, r) && in1 == Overlapping(v[L + 1], r)
    requires g in v[L + 1] && g !in in1
    ensures MissesAll(g, in0 + in1)
  {
    SortedDisjointIsPairwiseApart(v[L + 1]);
    assert FileOk(g);
    OkFileIsOrdered(g);
    if g.largest.user < r.lo.value {
      forall c | c in in0 + in1
        ensures Before(g.largest, c.smallest)
      {
        if c in in1 && c !in in0 {
          assert Meets(c, r) && Apart(g, c);
        } else {
          assert Inside(c, r);
        }
      }
    } else {
      forall c | c in in0 + in1
        ensures Before(c.largest, g.smallest)
      {
        if c in in1 && c !in in0 {
          assert Meets(c, r) && Apart(g, c);
        } else {
          assert Inside(c, r);
        }
      }
    }
  }

  /** Clean cuts are what a compaction needs to start. */
  lemma GoodInputsGiveJob(v: Levels, L: nat, in0: seq<File>, in1: seq<File>)
    requires VersionOk(v) && GoodInputs(v, L, in0, in1)
    requires CleanCut(v[L], in0) && CleanCut(v[L + 1], in1)
    ensures JobOk(v, v, L, in0, in1)
  {
    var r :| IsHull(in0, r) && in1 == Overlapping(v[L + 1], r);
    forall g | g in v[L + 1] && g !in in1
      ensures MissesAll(g, in0 + in1)
    {
      UnchosenMissesInputs(v, L, in0, in1, r, g);
    }
    forall l: nat, u, c | Bystander(v, L, in0, in1, l, u) && c in in0 + in1
      ensures Newer(u.table, c.table) || (L + 2 <= l < |v| && u in v[l])
    {
      BystanderIsNewer(v, L, in0, in1, r, l, u, c);
    }
  }

  lemma BystanderIsNewer(v: Levels, L: nat, in0: seq<File>, in1: seq<File>, r: Range, l: nat, u: File, c: File)
    requires VersionOk(v) && L + 1 < |v|
    requires (forall f :: f in in0 ==> f in v[L]) && in1 == Overlapping(v[L + 1], r)
    requires IsHull(in0, r)
    requires CleanCut(v[L], in0) && CleanCut(v[L + 1], in1)
    requires Bystander(v, L, in0, in1, l, u) && c in in0 + in1
    ensures Newer(u.table, c.table) || L + 2 <= l
  {
    if c in in0 {
      if l == L + 1 {
        OutsideHullIsNewer(v[L + 1], in0, r, u, c);
      }
    } else {
      assert c in v[L + 1];
    }
  }

  lemma OutsideHullIsNewer(files: seq<File>, in0: seq<File>, r: Range, u: File, c: File)
    requires IsHull(in0, r) && c in in0 && FileOk(c)
    requires FilesOk(files) && u in files && u !in Overlapping(files, r)
    ensures Newer(u.table, c.table)
  {
    assert Inside(c, r) && !Meets(u, r);
    NoSharedKey(u, c);
  }

  // ----- the set of entries before and after -----

  ghost function Without(files: seq<File>, del: seq<File>): (r: seq<File>)
    ensures forall f :: f in r <==> f in files && f !in del
  {
    if files == [] then []
    else if files[0] in del then Without(files[1..], del)
    else [files[0]] + Without(files[1..], del)
  }

  /** The version without the inputs of a compaction. */
  ghost function Rest(v: Levels, L: nat, in0: seq<File>, in1: seq<File>): Levels
    requires L + 1 < |v|
  {
    v[L := Without(v[L], in0)][L + 1 := Without(v[L + 1], in1)]
  }

  lemma RestEntry(v: Levels, L: nat, in0: seq<File>, in1: seq<File>, x: Entry) returns (l: nat, u: File)
    requires L + 1 < |v| && x in VersionEntries(Rest(v, L, in0, in1))
    ensures Bystander(v, L, in0, in1, l, u) && x in u.table
  {
    var rest := Rest(v, L, in0, in1);
    l := VersionEntriesFrom(rest, x);
    u := FileEntriesFrom(rest[l], x);
  }

  lemma BystanderEntry(v: Levels, L: nat, in0: seq<File>, in1: seq<File>, l: nat, u: File, x: Entry)
    requires L + 1 < |v| && Bystander(v, L, in0, in1, l, u) && x in u.table
    ensures x in VersionEntries(Rest(v, L, in0, in1))
  {
    var rest := Rest(v, L, in0, in1);
    FileEntriesHas(rest[l], u, x);
    VersionEntriesHas(rest, l, x);
  }

  lemma EntriesBefore(v: Levels, L: nat, in0: seq<File>, in1: seq<File>)
    requires L + 1 < |v|
    requires (forall f :: f in in0 ==> f in v[L]) && (forall f :: f in in1 ==> f in v[L + 1])
    ensures VersionEntries(v) == FileEntries(in0 + in1) + VersionEntries(Rest(v, L, in0, in1))
  {
    var I, R := FileEntries(in0 + in1), VersionEntries(Rest(v, L, in0, in1));
    forall x | x in VersionEntries(v)
      ensures x in I + R
    {
      var l := VersionEntriesFrom(v, x);
      var u := FileEntriesFrom(v[l], x);
      if Bystander(v, L, in0, in1, l, u) {
        BystanderEntry(v, L, in0, in1, l, u, x);
      } else {
        FileEntriesHas(in0 + in1, u, x);
      }
    }
    forall x | x in R
      ensures x in VersionEntries(v)
    {
      var l, u := RestEntry(v, L, in0, in1, x);
      FileEntriesHas(v[l], u, x);
      VersionEntriesHas(v, l, x);
    }
    forall x | x in I
      ensures x in VersionEntries(v)
    {
      var u := FileEntriesFrom(in0 + in1, x);
      var l := if u in in0 then L else L + 1;
      FileEntriesHas(v[l], u, x);
      VersionEntriesHas(v, l, x);
    }
  }

  lemma EntriesAfter(v: Levels, w: Levels, L: nat, in0: seq<File>, in1: seq<File>, outs: seq<File>)
    requires CompactionInstalled(v, w, L, in0, in1, outs)
    ensures VersionEntries(w) == FileEntries(outs) + VersionEntries(Rest(v, L, in0, in1))
  {
    var O, R := FileEntries(outs), VersionEntries(Rest(v, L, in0, in1));
    forall x | x in VersionEntries(w)
      ensures x in O + R
    {
      var l := VersionEntriesFrom(w, x);
      var u := FileEntriesFrom(w[l], x);
      if l == L + 1 && u in outs {
        FileEntriesHas(outs, u, x);
      } else {
        BystanderEntry(v, L, in0, in1, l, u, x);
      }
    }
    forall x | x in R
      ensures x in VersionEntries(w)
    {
      var l, u := RestEntry(v, L, in0, in1, x);
      FileEntriesHas(w[l], u, x);
      VersionEntriesHas(w, l, x);
    }
    forall x | x in O
      ensures x in VersionEntries(w)
    {
      var u := FileEntriesFrom(outs, x);
      FileEntriesHas(w[L + 1], u, x);
      VersionEntriesHas(w, L + 1, x);
    }
  }

  /** M holds only newer entries than the inputs for their user keys. */
  ghost predicate NewerEntries(M: set<Entry>, I: set<Entry>) {
    forall m, e :: m in M && e in I && m.key.user == e.key.user ==> m.key.seqno > e.key.seqno
  }

  /** With the promises of a running compaction, dropping markers is safe. */
  lemma JobHasNoResurrection(v: Levels, input: Levels, L: nat, in0: seq<File>, in1: seq<File>, M: set<Entry>, floor: nat)
    requires VersionOk(v) && JobOk(v, input, L, in0, in1)
    requires NewerEntries(M, FileEntries(in0 + in1))
    ensures NoResurrection(input, L, FileEntries(in0 + in1), M + VersionEntries(Rest(v, L, in0, in1)), floor)
  {
    var I := FileEntries(in0 + in1);
    var R := M + VersionEntries(Rest(v, L, in0, in1));
    forall t | DroppedMarker(input, L, I, R, floor, t)
      ensures Read(R, t.key.user, floor) == None
    {
      forall x | x in R
        ensures !Candidate(x, t.key.user, floor)
      {
        if Candidate(x, t.key.user, floor) {
          assert x in I + R && x.key.seqno <= t.key.seqno;
          assert x !in M;
          NotOlderOutside(v, input, L, in0, in1, t, x);
        }
      }
      ReadOfAbsent(R, t.key.user, floor);
    }
  }

  lemma NotOlderOutside(v: Levels, input: Levels, L: nat, in0: seq<File>, in1: seq<File>, t: Entry, x: Entry)
    requires VersionOk(v) && JobOk(v, input, L, in0, in1)
    requires t in FileEntries(in0 + in1) && x in VersionEntries(Rest(v, L, in0, in1))
    requires x.key.user == t.key.user && BaseLevelFor(input, L, t.key.user)
    ensures x.key.seqno > t.key.seqno
  {
    var c := FileEntriesFrom(in0 + in1, t);
    var l, u := RestEntry(v, L, in0, in1, x);
    if !Newer(u.table, c.table) {
      EntryWithinFile(u, x);
      assert false;
    }
  }
}
