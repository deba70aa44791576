/** From the compaction loop to the files it installs. */
module CompactionOutputs {
  import opened InternalKeys
  import opened Version
  import opened LsmEdits
  import Compaction

  /** The kept entries cut into non-empty runs, one for each output file. */
  ghost predicate Cutting(kept: seq<Entry>, runs: seq<seq<Entry>>) {
    Compaction.Flatten(runs) == kept && forall i :: 0 <= i < |runs| ==> runs[i] != []
  }

  /** FinishCompactionOutputFile: each run as a table with its first and last key. */
  ghost predicate Built(runs: seq<seq<Entry>>, outs: seq<File>) {
    && |outs| == |runs|
    && (forall i :: 0 <= i < |runs| ==>
          runs[i] != [] && outs[i] == File(outs[i].number, outs[i].size, runs[i][0].key, runs[i][|runs[i]| - 1].key, runs[i]))
  }

  ghost predicate AllBefore(a: seq<Entry>, b: seq<Entry>) {
    forall x, y :: x in a && y in b ==> Before(x.key, y.key)
  }

  lemma SortedParts(a: seq<Entry>, b: seq<Entry>)
    requires Sorted(a + b)
    ensures Sorted(a) && Sorted(b) && AllBefore(a, b)
  {
    hide Before;
    var c := a + b;
    assert forall i :: 0 <= i < |a| ==> c[i] == a[i];
    assert forall i :: 0 <= i < |b| ==> c[|a| + i] == b[i];
  }

  lemma {:induction false} FlattenMember(runs: seq<seq<Entry>>, i: nat, e: Entry)
    requires i < |runs| && e in runs[i]
    ensures e in Compaction.Flatten(runs)
  {
    var n := |runs| - 1;
    if i < n {
      FlattenMember(runs[..n], i, e);
    }
  }

  lemma {:induction false} FlattenFrom(runs: seq<seq<Entry>>, e: Entry) returns (i: nat)
    requires e in Compaction.Flatten(runs)
    ensures i < |runs| && e in runs[i]
  {
    var n := |runs| - 1;
    if e in runs[n] {
      i := n;
    } else {
      i := FlattenFrom(runs[..n], e);
    }
  }

  /** Runs cut from a sorted sequence are sorted and follow one another. */
  lemma {:induction false} RunsSorted(runs: seq<seq<Entry>>)
    requires Sorted(Compaction.Flatten(runs))
    ensures forall i :: 0 <= i < |runs| ==> Sorted(runs[i])
    ensures forall i, j :: 0 <= i < j < |runs| ==> AllBefore(runs[i], runs[j])
  {
    if runs != [] {
      var n := |runs| - 1;
      SortedParts(Compaction.Flatten(runs[..n]), runs[n]);
      RunsSorted(runs[..n]);
      forall i | 0 <= i < n
        ensures AllBefore(runs[i], runs[n])
      {
        EarlierRun(runs, i);
      }
    }
  }

  lemma EarlierRun(runs: seq<seq<Entry>>, i: nat)
    requires i < |runs| - 1 && AllBefore(Compaction.Flatten(runs[..|runs| - 1]), runs[|runs| - 1])
    ensures AllBefore(runs[i], runs[|runs| - 1])
  {
    hide Before, Compaction.Flatten;
    var n := |runs| - 1;
    forall x | x in runs[i]
      ensures x in Compaction.Flatten(runs[..n])
    {
      FlattenMember(runs[..n], i, x);
    }
  }

  lemma BuiltFilesOk(runs: seq<seq<Entry>>, outs: seq<File>)
    requires Built(runs, outs) && Sorted(Compaction.Flatten(runs))
    requires forall e :: e in Compaction.Flatten(runs) ==> e.key.seqno <= MAX_SEQUENCE
    ensures FilesOk(outs) && SortedDisjoint(outs)
  {
    hide Compaction.Flatten, Sorted, Before;
    RunsSorted(runs);
    forall f | f in outs
      ensures FileOk(f)
    {
      var i :| 0 <= i < |outs| && outs[i] == f;
      assert forall e :: e in f.table ==> e in runs[i];
      forall e | e in f.table
        ensures e.key.seqno <= MAX_SEQUENCE
      {
        FlattenMember(runs, i, e);
      }
    }
    forall i, j | 0 <= i < j < |outs|
      ensures Before(outs[i].largest, outs[j].smallest)
    {
      assert AllBefore(runs[i], runs[j]);
      assert runs[i][|runs[i]| - 1] in runs[i] && runs[j][0] in runs[j];
    }
  }

  lemma BuiltEntries(runs: seq<seq<Entry>>, outs: seq<File>)
    requires Built(runs, outs)
    ensures FileEntries(outs) == Entries(Compaction.Flatten(runs))
  {
    hide Compaction.Flatten, FileEntries;
    var kept := Compaction.Flatten(runs);
    forall e | e in FileEntries(outs)
      ensures e in kept
    {
      var f := FileEntriesFrom(outs, e);
      var i :| 0 <= i < |outs| && outs[i] == f;
      FlattenMember(runs, i, e);
    }
    forall e | e in kept
      ensures e in FileEntries(outs)
    {
      var i := FlattenFrom(runs, e);
      FileEntriesHas(outs, outs[i], e);
    }
  }

  ghost predicate SeqnosFit(files: seq<File>) {
    forall e :: e in FileEntries(files) ==> e.key.seqno <= MAX_SEQUENCE
  }

  lemma InputsFit(ins: seq<File>)
    requires FilesOk(ins)
    ensures SeqnosFit(ins)
  {
    hide FileEntries;
    forall e | e in FileEntries(ins)
      ensures e.key.seqno <= MAX_SEQUENCE
    {
      var f := FileEntriesFrom(ins, e);
    }
  }

  /** The output files of the compaction loop are what an install needs: well formed,
      sorted and disjoint, made of the inputs' entries, and holding exactly the
      survivors of the dropping rules. */
  lemma LoopOutputsInstall(
    v: Levels, L: nat, ins: seq<File>, input: seq<Entry>, floor: nat, runs: seq<seq<Entry>>, outs: seq<File>)
    requires Sorted(input) && Unique(Entries(input)) && FilesOk(ins) && Entries(input) == FileEntries(ins)
    requires Cutting(Compaction.Kept(v, L, input, floor, |input|), runs)
    requires Built(runs, outs) && DistinctNumbers(outs)
    ensures OutputsOk(ins, outs)
    ensures FileEntries(outs) == Compaction.Survivors(v, L, FileEntries(ins), floor)
  {
    hide Compaction.Kept, Compaction.Flatten, FileEntries, Sorted, Unique, Compaction.Survives, FilesOk, SortedDisjoint;
    var kept := Compaction.Kept(v, L, input, floor, |input|);
    Compaction.KeptAreSurvivors(v, L, input, floor, |input|);
    assert input[..|input|] == input;
    InputsFit(ins);
    KeptFromInputs(v, L, ins, input, floor, kept);
    BuiltFilesOk(runs, outs);
    BuiltEntries(runs, outs);
    forall o, e | o in outs && e in o.table
      ensures e in FileEntries(ins)
    {
      FileEntriesHas(outs, o, e);
    }
  }

  lemma KeptFromInputs(v: Levels, L: nat, ins: seq<File>, input: seq<Entry>, floor: nat, kept: seq<Entry>)
    requires Entries(input) == FileEntries(ins) && SeqnosFit(ins)
    requires forall e :: e in kept <==> e in input && Compaction.Survives(v, L, Entries(input), floor, e)
    ensures Entries(kept) == Compaction.Survivors(v, L, FileEntries(ins), floor)
    ensures forall e :: e in kept ==> e in FileEntries(ins) && e.key.seqno <= MAX_SEQUENCE
  {
    hide Compaction.Survives, FileEntries;
    forall e | e in kept
      ensures e in FileEntries(ins)
    {
      assert e in Entries(input);
    }
    forall e | e in Compaction.Survivors(v, L, FileEntries(ins), floor)
      ensures e in kept
    {
      assert e in Entries(input);
    }
  }

  /** FinishCompactionOutputFile for every run, numbered as the files were opened. */
  method MakeFiles(runs: seq<seq<Entry>>, number: nat -> nat, size: nat -> nat) returns (outs: seq<File>)
    requires forall i :: 0 <= i < |runs| ==> runs[i] != []
    requires forall i, j :: i != j ==> number(i) != number(j)
    ensures Built(runs, outs) && DistinctNumbers(outs)
    ensures forall i :: 0 <= i < |outs| ==> outs[i].number == number(i)
  {
    outs := [];
    while |outs| < |runs|
      invariant |outs| <= |runs| && forall i :: 0 <= i < |outs| ==>
                  outs[i] == File(number(i), size(i), runs[i][0].key, runs[i][|runs[i]| - 1].key, runs[i])
    {
      var n := |outs|;
      outs := outs + [File(number(n), size(n), runs[n][0].key, runs[n][|runs[n]| - 1].key, runs[n])];
    }
  }

  /** A compaction from its merged input to its output files, for any cut points and
      any distinct file numbers: the outputs are what the install step requires. */
  method Compact(
    c: Compaction.Compaction, ins: seq<File>, input: seq<Entry>, floor: nat, stopBefore: nat -> bool,
    bigEnough: nat -> bool, number: nat -> nat, size: nat -> nat)
    returns (outs: seq<File>)
    requires c.Valid() && c.asked == None && floor < MAX_SEQUENCE
    requires Sorted(input) && Unique(Entries(input)) && FilesOk(ins) && Entries(input) == FileEntries(ins)
    requires forall i, j :: i != j ==> number(i) != number(j)
    modifies c, c.levelPtrs
    ensures OutputsOk(ins, outs)
    ensures FileEntries(outs) == Compaction.Survivors(c.inputVersion, c.level, FileEntries(ins), floor)
  {
    hide Compaction.Kept, Compaction.Flatten, FileEntries, Sorted, Unique, FilesOk, SortedDisjoint, OutputsOk;
    var runs := Compaction.DoCompactionWork(c, input, floor, stopBefore, bigEnough);
    assert forall i :: 0 <= i < |runs| ==> runs[i] in runs;
    outs := MakeFiles(runs, number, size);
    LoopOutputsInstall(c.inputVersion, c.level, ins, input, floor, runs, outs);
  }
}
