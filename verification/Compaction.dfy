/** The compaction loop: which entries it drops, and when that changes a read. */
module Compaction {
  import opened InternalKeys
  import opened Version

  // ----- which entries are dropped -----

  /** No file below the output level of a level-L compaction covers k. */
  ghost predicate BaseLevelFor(v: Levels, L: nat, k: UserKey) {
    forall l, f :: L + 2 <= l < |v| && f in v[l] ==> !(f.smallest.user <= k <= f.largest.user)
  }

  /** Rule (A): a newer entry for the same key is itself old enough for every reader. */
  ghost predicate Hidden(I: set<Entry>, e: Entry, floor: nat) {
    exists x :: x in I && x.key.user == e.key.user && e.key.seqno < x.key.seqno <= floor
  }

  /** A deletion marker that every reader sees and that covers nothing deeper. */
  ghost predicate Obsolete(v: Levels, L: nat, e: Entry, floor: nat) {
    e.key.kind == Deletion && e.key.seqno <= floor && BaseLevelFor(v, L, e.key.user)
  }

  ghost predicate Survives(v: Levels, L: nat, I: set<Entry>, floor: nat, e: Entry) {
    e in I && !Hidden(I, e, floor) && !Obsolete(v, L, e, floor)
  }

  /** What a level-L compaction with inputs I and snapshot floor `floor` keeps. */
  ghost function Survivors(v: Levels, L: nat, I: set<Entry>, floor: nat): set<Entry> {
    set e | e in I && Survives(v, L, I, floor, e)
  }

  // ----- when dropping changes a read -----

  /** The deletion t is dropped although it is what a reader at the floor sees. */
  ghost predicate DroppedMarker(v: Levels, L: nat, I: set<Entry>, R: set<Entry>, floor: nat, t: Entry) {
    t in I && Newest(I + R, t.key.user, floor, t) && Obsolete(v, L, t, floor)
  }

  /** Nothing outside the inputs becomes visible when its deletion marker goes. */
  ghost predicate NoResurrection(v: Levels, L: nat, I: set<Entry>, R: set<Entry>, floor: nat) {
    forall t :: DroppedMarker(v, L, I, R, floor, t) ==> Read(R, t.key.user, floor) == None
  }

  lemma SameCandidatesSameRead(E: set<Entry>, s: nat, F: set<Entry>, t: nat, k: UserKey)
    requires Unique(E) && Unique(F)
    requires forall x :: x in E && Candidate(x, k, s) <==> x in F && Candidate(x, k, t)
    ensures Read(E, k, s) == Read(F, k, t)
  {
    NewestExists(E, k, s);
    if Absent(E, k, s) {
      ReadOfAbsent(E, k, s);
      ReadOfAbsent(F, k, t);
    } else {
      var e :| Newest(E, k, s, e);
      assert Newest(F, k, t, e);
      ReadOfNewest(E, k, s, e);
      ReadOfNewest(F, k, t, e);
    }
  }

  /** After a visible marker t is dropped, its key reads as the rest of the
      database reads it at the floor. */
  lemma ReadAfterDroppedMarker(v: Levels, L: nat, I: set<Entry>, R: set<Entry>, floor: nat, snap: nat, t: Entry)
    requires Unique(I + R) && floor <= snap
    requires DroppedMarker(v, L, I, R, floor, t) && Newest(I + R, t.key.user, snap, t)
    ensures Read(I + R, t.key.user, snap) == None
    ensures Read(Survivors(v, L, I, floor) + R, t.key.user, snap) == Read(R, t.key.user, floor)
  {
    ReadOfNewest(I + R, t.key.user, snap, t);
    var O := Survivors(v, L, I, floor);
    var k := t.key.user;
    forall x
      ensures x in O + R && Candidate(x, k, snap) <==> x in R && Candidate(x, k, floor)
    {
      if x in O + R && Candidate(x, k, snap) {
        assert x in I + R;
        assert x.key.seqno <= t.key.seqno;
        if x in O {
          assert false;
        }
      }
    }
    SameCandidatesSameRead(O + R, snap, R, floor, k);
  }

  lemma KeptVisibleEntry(v: Levels, L: nat, I: set<Entry>, R: set<Entry>, floor: nat, k: UserKey, snap: nat, n: Entry)
    requires Unique(I + R) && floor <= snap
    requires Newest(I + R, k, snap, n)
    ensures
      || Read(Survivors(v, L, I, floor) + R, k, snap) == Read(I + R, k, snap)
      || DroppedMarker(v, L, I, R, floor, n)
  {
    var O := Survivors(v, L, I, floor);
    ReadOfNewest(I + R, k, snap, n);
    if n in O + R {
      assert Newest(O + R, k, snap, n);
      ReadOfNewest(O + R, k, snap, n);
    } else {
      assert n in I && !Survives(v, L, I, floor, n);
      if Hidden(I, n, floor) {
        assert false;
      }
      assert Newest(I + R, k, floor, n);
    }
  }

  /** Compaction preserves every read at or above the floor if and only if no
      dropped deletion marker covers a live value outside the inputs. */
  lemma CompactionPreservesReadsIff(v: Levels, L: nat, I: set<Entry>, R: set<Entry>, floor: nat)
    requires Unique(I + R)
    ensures NoResurrection(v, L, I, R, floor) <==>
      forall k, snap: nat :: floor <= snap ==> Read(Survivors(v, L, I, floor) + R, k, snap) == Read(I + R, k, snap)
  {
    var O := Survivors(v, L, I, floor);
    if NoResurrection(v, L, I, R, floor) {
      forall k, snap: nat | floor <= snap
        ensures Read(O + R, k, snap) == Read(I + R, k, snap)
      {
        PreservedAt(v, L, I, R, floor, k, snap);
      }
    }
    if forall k, snap: nat :: floor <= snap ==> Read(O + R, k, snap) == Read(I + R, k, snap) {
      forall t | DroppedMarker(v, L, I, R, floor, t)
        ensures Read(R, t.key.user, floor) == None
      {
        ReadAfterDroppedMarker(v, L, I, R, floor, floor, t);
        assert Read(O + R, t.key.user, floor) == Read(I + R, t.key.user, floor);
      }
    }
  }

  lemma PreservedAt(v: Levels, L: nat, I: set<Entry>, R: set<Entry>, floor: nat, k: UserKey, snap: nat)
    requires Unique(I + R) && floor <= snap
    requires NoResurrection(v, L, I, R, floor)
    ensures Read(Survivors(v, L, I, floor) + R, k, snap) == Read(I + R, k, snap)
  {
    NewestExists(I + R, k, snap);
    if Absent(I + R, k, snap) {
      ReadOfAbsent(I + R, k, snap);
      ReadOfAbsent(Survivors(v, L, I, floor) + R, k, snap);
    } else {
      var n :| Newest(I + R, k, snap, n);
      KeptVisibleEntry(v, L, I, R, floor, k, snap, n);
      if DroppedMarker(v, L, I, R, floor, n) {
        ReadAfterDroppedMarker(v, L, I, R, floor, snap, n);
      }
    }
  }

  // ----- the merge loop -----

  /** The decision the loop takes at position i of the merged input. */
  ghost predicate Drops(v: Levels, L: nat, input: seq<Entry>, floor: nat, i: nat)
    requires i < |input|
  {
    || (i > 0 && input[i - 1].key.user == input[i].key.user && input[i - 1].key.seqno <= floor)
    || Obsolete(v, L, input[i], floor)
  }

  /** The entries written out for the first n inputs. */
  ghost function Kept(v: Levels, L: nat, input: seq<Entry>, floor: nat, n: nat): seq<Entry>
    requires n <= |input|
  {
    if n == 0 then []
    else if Drops(v, L, input, floor, n - 1) then Kept(v, L, input, floor, n - 1)
    else Kept(v, L, input, floor, n - 1) + [input[n - 1]]
  }

  function Flatten(outputs: seq<seq<Entry>>): seq<Entry> {
    if outputs == [] then [] else Flatten(outputs[..|outputs| - 1]) + outputs[|outputs| - 1]
  }

  /** Looking only at the previous entry finds every entry hidden by rule (A). */
  lemma DropsIsNotSurvives(v: Levels, L: nat, input: seq<Entry>, floor: nat, i: nat)
    requires Sorted(input) && Unique(Entries(input)) && i < |input|
    ensures Drops(v, L, input, floor, i) <==> !Survives(v, L, Entries(input), floor, input[i])
  {
    var I := Entries(input);
    var e := input[i];
    if i > 0 && input[i - 1].key.user == e.key.user && input[i - 1].key.seqno <= floor {
      assert Before(input[i - 1].key, e.key);
      assert input[i - 1] in I && e in I;
      assert input[i - 1].key.seqno > e.key.seqno;
    }
    if Hidden(I, e, floor) {
      var x :| x in I && x.key.user == e.key.user && e.key.seqno < x.key.seqno <= floor;
      var j :| 0 <= j < |input| && input[j] == x;
      assert j < i;
      if j < i - 1 {
        assert Before(input[j].key, input[i - 1].key) && Before(input[i - 1].key, e.key);
      }
    }
  }

  /** The loop writes exactly the survivors, in order. */
  lemma {:induction false} KeptAreSurvivors(v: Levels, L: nat, input: seq<Entry>, floor: nat, n: nat)
    requires Sorted(input) && Unique(Entries(input)) && n <= |input|
    ensures Sorted(Kept(v, L, input, floor, n))
    ensures forall e :: e in Kept(v, L, input, floor, n) <==>
      e in input[..n] && Survives(v, L, Entries(input), floor, e)
  {
    hide Drops, Survives, Unique, Before;
    if n > 0 {
      KeptAreSurvivors(v, L, input, floor, n - 1);
      DropsIsNotSurvives(v, L, input, floor, n - 1);
      assert input[..n] == input[..n - 1] + [input[n - 1]];
      var prev := Kept(v, L, input, floor, n - 1);
      forall e | e in prev
        ensures Before(e.key, input[n - 1].key)
      {
        assert e in input[..n - 1];
      }
    }
  }

  /** The class of the same name: the per-level pointers only move forward. */
  class Compaction {
    const level: nat
    const inputVersion: Levels
    const levelPtrs: array<nat>
    ghost var asked: Option<UserKey>

    ghost predicate Valid()
      reads this, levelPtrs
    {
      && |inputVersion| == NUM_LEVELS == levelPtrs.Length
      && (forall l :: 1 <= l < NUM_LEVELS ==> FilesOk(inputVersion[l]) && SortedDisjoint(inputVersion[l]))
      && (forall l :: 0 <= l < NUM_LEVELS ==> levelPtrs[l] <= |inputVersion[l]|)
      && (forall l, i :: 0 <= l < NUM_LEVELS && 0 <= i < levelPtrs[l] ==>
        asked.Some? && inputVersion[l][i].largest.user < asked.value)
    }

    constructor (level: nat, v: Levels)
      requires |v| == NUM_LEVELS
      requires forall l :: 1 <= l < NUM_LEVELS ==> FilesOk(v[l]) && SortedDisjoint(v[l])
      ensures Valid() && fresh(levelPtrs)
      ensures this.level == level && inputVersion == v && asked == None
    {
      this.level := level;
      this.inputVersion := v;
      this.levelPtrs := new nat[NUM_LEVELS](i => 0);
      this.asked := None;
    }

    /** On a non-decreasing sequence of keys the advancing pointers answer like
        a fresh scan of every deeper level. */
    method IsBaseLevelForKey(k: UserKey) returns (b: bool)
      requires Valid()
      requires asked.Some? ==> asked.value <= k
      modifies this, levelPtrs
      ensures Valid() && asked == Some(k)
      ensures b <==> BaseLevelFor(inputVersion, level, k)
    {
      asked := Some(k);
      var lvl := level + 2;
      while lvl < NUM_LEVELS
        invariant level + 2 <= lvl
        invariant Valid() && asked == Some(k)
        invariant forall l, f :: level + 2 <= l < lvl && l < NUM_LEVELS && f in inputVersion[l] ==>
          !(f.smallest.user <= k <= f.largest.user)
      {
        var covered := Covered(lvl, k);
        if covered {
          return false;
        }
        lvl := lvl + 1;
      }
      b := true;
    }

    method Covered(lvl: nat, k: UserKey) returns (b: bool)
      requires Valid() && asked == Some(k) && 1 <= lvl < NUM_LEVELS
      modifies levelPtrs
      ensures Valid()
      ensures b <==> exists f :: f in inputVersion[lvl] && f.smallest.user <= k <= f.largest.user
    {
      var files := inputVersion[lvl];
      while levelPtrs[lvl] < |files|
        invariant Valid()
        decreases |files| - levelPtrs[lvl]
      {
        var p := levelPtrs[lvl];
        if k <= files[p].largest.user {
          b := k >= files[p].smallest.user;
          CoveredOnlyAt(files, p, k);
          return;
        }
        levelPtrs[lvl] := p + 1;
      }
      b := false;
    }
  }

  lemma CoveredOnlyAt(files: seq<File>, p: nat, k: UserKey)
    requires FilesOk(files) && SortedDisjoint(files) && p < |files|
    requires forall i :: 0 <= i < p ==> files[i].largest.user < k
    requires k <= files[p].largest.user
    ensures (exists f :: f in files && f.smallest.user <= k <= f.largest.user) <==> files[p].smallest.user <= k
  {
    SmallestIncreasing(files);
    forall f | f in files && f.smallest.user <= k <= f.largest.user
      ensures files[p].smallest.user <= k
    {
      var i :| 0 <= i < |files| && files[i] == f;
      assert p < i ==> Before(files[p].smallest, files[i].smallest);
    }
    if files[p].smallest.user <= k {
      assert files[p] in files;
    }
  }

  lemma FlattenAppend(outputs: seq<seq<Entry>>, o: seq<Entry>)
    ensures Flatten(outputs + [o]) == Flatten(outputs) + o
  {
    assert (outputs + [o])[..|outputs|] == outputs;
  }

  /** The drop decision at position i, from the loop's two memory variables. */
  method ShouldDrop(c: Compaction, input: seq<Entry>, floor: nat, i: nat, lastSequenceForKey: nat) returns (drop: bool)
    requires c.Valid() && Sorted(input) && i < |input|
    requires c.asked.Some? ==> i > 0 && c.asked.value <= input[i - 1].key.user
    requires lastSequenceForKey <= floor <==>
      i > 0 && input[i - 1].key.user == input[i].key.user && input[i - 1].key.seqno <= floor
    modifies c, c.levelPtrs
    ensures c.Valid() && (c.asked.Some? ==> c.asked.value <= input[i].key.user)
    ensures drop <==> Drops(c.inputVersion, c.level, input, floor, i)
  {
    var e := input[i];
    assert i > 0 ==> Before(input[i - 1].key, e.key);
    drop := false;
    if lastSequenceForKey <= floor {
      drop := true;
    } else if e.key.kind == Deletion && e.key.seqno <= floor {
      drop := c.IsBaseLevelForKey(e.key.user);
    }
  }

  // ----- where the output files are cut -----

  /** The positions of the entries kept among the first n. */
  ghost function KeptAt(v: Levels, L: nat, input: seq<Entry>, floor: nat, n: nat): (ks: seq<nat>)
    requires n <= |input|
    ensures forall j :: 0 <= j < |ks| ==> ks[j] < n
  {
    if n == 0 then []
    else if Drops(v, L, input, floor, n - 1) then KeptAt(v, L, input, floor, n - 1)
    else KeptAt(v, L, input, floor, n - 1) + [n - 1]
  }

  /** The file holding entry i is closed by the time entry j is reached. */
  ghost predicate CutBetween(stopBefore: nat -> bool, bigEnough: nat -> bool, i: nat, j: nat) {
    bigEnough(i) || exists k: nat :: i < k <= j && stopBefore(k)
  }

  /** The entries at ks, with a new file wherever the one before is closed, and
      nowhere else. */
  ghost function Runs(input: seq<Entry>, ks: seq<nat>, stopBefore: nat -> bool, bigEnough: nat -> bool): (runs: seq<seq<Entry>>)
    requires forall j :: 0 <= j < |ks| ==> ks[j] < |input|
    ensures runs == [] <==> ks == []
  {
    if ks == [] then []
    else
      var n := |ks| - 1;
      var before := Runs(input, ks[..n], stopBefore, bigEnough);
      var e := input[ks[n]];
      if n == 0 || CutBetween(stopBefore, bigEnough, ks[n - 1], ks[n]) then before + [[e]]
      else Lengthened(before, e)
  }

  /** The files closed so far and the one being written, if it has entries. */
  ghost function WithOpen(outputs: seq<seq<Entry>>, builder: seq<Entry>): seq<seq<Entry>> {
    if builder == [] then outputs else outputs + [builder]
  }

  /** The state of the loop after n entries: a file is open unless the one holding the
      last entry kept has been closed since. */
  ghost predicate Written(
    input: seq<Entry>, ks: seq<nat>, n: nat, stopBefore: nat -> bool, bigEnough: nat -> bool,
    outputs: seq<seq<Entry>>, builder: seq<Entry>)
    requires forall j :: 0 <= j < |ks| ==> ks[j] < |input|
  {
    && WithOpen(outputs, builder) == Runs(input, ks, stopBefore, bigEnough)
    && (builder == [] <==> ks == [] || CutBetween(stopBefore, bigEnough, ks[|ks| - 1], n))
  }

  /** Before entry n: the test for closing the file. */
  lemma StopOrGoOn(
    input: seq<Entry>, ks: seq<nat>, n: nat, stopBefore: nat -> bool, bigEnough: nat -> bool,
    outputs: seq<seq<Entry>>, builder: seq<Entry>)
    requires forall j :: 0 <= j < |ks| ==> ks[j] < |input|
    requires forall j :: 0 <= j < |ks| ==> ks[j] < n
    requires n > 0 ==> Written(input, ks, n - 1, stopBefore, bigEnough, outputs, builder)
    requires n == 0 ==> outputs == [] && builder == []
    ensures if stopBefore(n) then Written(input, ks, n, stopBefore, bigEnough, WithOpen(outputs, builder), [])
            else Written(input, ks, n, stopBefore, bigEnough, outputs, builder)
  {
    hide Runs;
    if n == 0 {
      assert Runs(input, [], stopBefore, bigEnough) == [];
    }
    if ks != [] {
      LaterCut(stopBefore, bigEnough, ks[|ks| - 1], n);
    }
  }

  lemma LaterCut(stopBefore: nat -> bool, bigEnough: nat -> bool, i: nat, n: nat)
    requires i < n
    ensures CutBetween(stopBefore, bigEnough, i, n) <==> CutBetween(stopBefore, bigEnough, i, n - 1) || stopBefore(n)
  {
    if CutBetween(stopBefore, bigEnough, i, n) && !bigEnough(i) {
      var k: nat :| i < k <= n && stopBefore(k);
      assert k == n || k <= n - 1;
    }
  }

  /** Entry n is written, and its file closed if it is now big enough. */
  lemma WriteOne(
    input: seq<Entry>, ks: seq<nat>, n: nat, stopBefore: nat -> bool, bigEnough: nat -> bool,
    outputs: seq<seq<Entry>>, builder: seq<Entry>)
    requires n < |input| && forall j :: 0 <= j < |ks| ==> ks[j] < |input|
    requires Written(input, ks, n, stopBefore, bigEnough, outputs, builder)
    ensures if bigEnough(n) then Written(input, ks + [n], n, stopBefore, bigEnough, outputs + [builder + [input[n]]], [])
            else Written(input, ks + [n], n, stopBefore, bigEnough, outputs, builder + [input[n]])
  {
    hide Runs, CutBetween, Lengthened;
    var e := input[n];
    RunsGrow(input, ks, n, stopBefore, bigEnough);
    CutHere(stopBefore, bigEnough, n);
    if builder == [] {
      assert builder + [e] == [e];
    } else {
      LengthenedOpen(outputs, builder, e);
    }
  }

  lemma RunsGrow(input: seq<Entry>, ks: seq<nat>, n: nat, stopBefore: nat -> bool, bigEnough: nat -> bool)
    requires n < |input| && forall j :: 0 <= j < |ks| ==> ks[j] < |input|
    ensures var runs := Runs(input, ks, stopBefore, bigEnough);
            Runs(input, ks + [n], stopBefore, bigEnough) ==
              if ks == [] || CutBetween(stopBefore, bigEnough, ks[|ks| - 1], n) then runs + [[input[n]]]
              else Lengthened(runs, input[n])
  {
    hide CutBetween, Lengthened;
    assert (ks + [n])[..|ks|] == ks;
  }

  lemma CutHere(stopBefore: nat -> bool, bigEnough: nat -> bool, n: nat)
    ensures CutBetween(stopBefore, bigEnough, n, n) <==> bigEnough(n)
  {
  }

  lemma LengthenedOpen(outputs: seq<seq<Entry>>, builder: seq<Entry>, e: Entry)
    ensures Lengthened(outputs + [builder], e) == outputs + [builder + [e]]
  {
  }

  /** DoCompactionWork. `input` is the merged input of the compaction; the output
      file is closed before entry i if stopBefore(i) holds (overlap with
      grandparents) and after it if bigEnough(i) holds (file size). */
  method DoCompactionWork(c: Compaction, input: seq<Entry>, floor: nat, stopBefore: nat -> bool, bigEnough: nat -> bool)
    returns (outputs: seq<seq<Entry>>)
    requires c.Valid() && c.asked == None
    requires Sorted(input) && floor < MAX_SEQUENCE
    modifies c, c.levelPtrs
    ensures Flatten(outputs) == Kept(c.inputVersion, c.level, input, floor, |input|)
    ensures forall o :: o in outputs ==> o != []
    ensures outputs == Runs(input, KeptAt(c.inputVersion, c.level, input, floor, |input|), stopBefore, bigEnough)
  {
    hide Drops, FilesOk, SortedDisjoint, BaseLevelFor, Runs, Written, Kept, KeptAt, WithOpen, Flatten;
    outputs := [];
    var builder: seq<Entry> := [];
    var currentUserKey: Option<UserKey> := None;
    var lastSequenceForKey := MAX_SEQUENCE;
    for i := 0 to |input|
      invariant c.Valid() && (c.asked.Some? ==> i > 0 && c.asked.value <= input[i - 1].key.user)
      invariant i == 0 ==> currentUserKey == None
      invariant i > 0 ==> currentUserKey == Some(input[i - 1].key.user) && lastSequenceForKey == input[i - 1].key.seqno
      invariant if i == 0 then outputs == [] && builder == [] else
        Written(input, KeptAt(c.inputVersion, c.level, input, floor, i), i - 1, stopBefore, bigEnough, outputs, builder)
    {
      var e := input[i];
      ghost var ks := KeptAt(c.inputVersion, c.level, input, floor, i);
      StopOrGoOn(input, ks, i, stopBefore, bigEnough, outputs, builder);
      KeptAtStep(c.inputVersion, c.level, input, floor, i);
      if stopBefore(i) {
        outputs, builder := CloseFile(outputs, builder);
      }
      if currentUserKey == None || currentUserKey.value != e.key.user {
        currentUserKey := Some(e.key.user);
        lastSequenceForKey := MAX_SEQUENCE;
      }
      var drop := ShouldDrop(c, input, floor, i, lastSequenceForKey);
      lastSequenceForKey := e.key.seqno;
      if !drop {
        WriteOne(input, ks, i, stopBefore, bigEnough, outputs, builder);
        builder := builder + [e];
        if bigEnough(i) {
          outputs, builder := CloseFile(outputs, builder);
        }
      }
    }
    AllWritten(input, KeptAt(c.inputVersion, c.level, input, floor, |input|), stopBefore, bigEnough, outputs, builder);
    outputs, builder := CloseFile(outputs, builder);
    RunsFlatten(input, KeptAt(c.inputVersion, c.level, input, floor, |input|), stopBefore, bigEnough);
    KeptIsAt(c.inputVersion, c.level, input, floor, |input|);
  }

  /** FinishCompactionOutputFile, if a file is open. */
  method CloseFile(outputs: seq<seq<Entry>>, builder: seq<Entry>) returns (closed: seq<seq<Entry>>, empty: seq<Entry>)
    ensures empty == [] && closed == WithOpen(outputs, builder)
    ensures builder != [] ==> closed == outputs + [builder]
  {
    closed, empty := outputs, [];
    if builder != [] {
      closed := outputs + [builder];
    }
  }

  lemma KeptAtStep(v: Levels, L: nat, input: seq<Entry>, floor: nat, i: nat)
    requires i < |input|
    ensures KeptAt(v, L, input, floor, i + 1) ==
      if Drops(v, L, input, floor, i) then KeptAt(v, L, input, floor, i) else KeptAt(v, L, input, floor, i) + [i]
  {
    hide Drops;
  }

  /** The entries at some positions. */
  ghost function Pick(input: seq<Entry>, ks: seq<nat>): seq<Entry>
    requires forall j :: 0 <= j < |ks| ==> ks[j] < |input|
  {
    seq(|ks|, j requires 0 <= j < |ks| => input[ks[j]])
  }

  lemma {:induction false} KeptIsAt(v: Levels, L: nat, input: seq<Entry>, floor: nat, n: nat)
    requires n <= |input|
    ensures Kept(v, L, input, floor, n) == Pick(input, KeptAt(v, L, input, floor, n))
  {
    hide Drops;
    if n > 0 {
      KeptIsAt(v, L, input, floor, n - 1);
    }
  }

  /** The last file with one more entry. */
  ghost function Lengthened(runs: seq<seq<Entry>>, e: Entry): seq<seq<Entry>>
    requires runs != []
  {
    runs[..|runs| - 1] + [runs[|runs| - 1] + [e]]
  }

  lemma LengthenedFlatten(runs: seq<seq<Entry>>, e: Entry)
    requires runs != []
    ensures Flatten(Lengthened(runs, e)) == Flatten(runs) + [e]
  {
    hide Flatten;
    var m := |runs| - 1;
    assert runs == runs[..m] + [runs[m]];
    FlattenAppend(runs[..m], runs[m]);
    FlattenAppend(runs[..m], runs[m] + [e]);
  }

  lemma LengthenedNotEmpty(runs: seq<seq<Entry>>, e: Entry)
    requires runs != [] && forall o :: o in runs ==> o != []
    ensures forall o :: o in Lengthened(runs, e) ==> o != []
  {
    var m := |runs| - 1;
    forall o | o in Lengthened(runs, e)
      ensures o != []
    {
      assert o in runs[..m] || o == runs[m] + [e];
      assert o in runs[..m] ==> o in runs;
    }
  }

  lemma PickLast(input: seq<Entry>, ks: seq<nat>)
    requires ks != [] && forall j :: 0 <= j < |ks| ==> ks[j] < |input|
    ensures Pick(input, ks) == Pick(input, ks[..|ks| - 1]) + [input[ks[|ks| - 1]]]
  {
  }

  /** Cutting into files loses, adds and reorders nothing, and leaves no file empty. */
  lemma {:induction false} RunsFlatten(input: seq<Entry>, ks: seq<nat>, stopBefore: nat -> bool, bigEnough: nat -> bool)
    requires forall j :: 0 <= j < |ks| ==> ks[j] < |input|
    ensures Flatten(Runs(input, ks, stopBefore, bigEnough)) == Pick(input, ks)
    ensures forall o :: o in Runs(input, ks, stopBefore, bigEnough) ==> o != []
  {
    hide CutBetween, Flatten, Lengthened, Pick;
    if ks == [] {
      FlattenNone();
      assert Pick(input, ks) == [] by { PickNone(input); }
    } else {
      var n := |ks| - 1;
      var before, e := Runs(input, ks[..n], stopBefore, bigEnough), input[ks[n]];
      RunsFlatten(input, ks[..n], stopBefore, bigEnough);
      PickLast(input, ks);
      FlattenAppend(before, [e]);
      if n > 0 {
        LengthenedFlatten(before, e);
        LengthenedNotEmpty(before, e);
      }
    }
  }

  lemma PickNone(input: seq<Entry>)
    ensures Pick(input, []) == []
  {
  }

  lemma FlattenOne(run: seq<Entry>)
    ensures Flatten([run]) == run
  {
    FlattenNone();
    FlattenAppend([], run);
    hide Flatten;
    assert [] + [run] == [run] && [] + run == run;
  }

  lemma FlattenNone()
    ensures Flatten([]) == []
  {
  }

  lemma AllWritten(
    input: seq<Entry>, ks: seq<nat>, stopBefore: nat -> bool, bigEnough: nat -> bool,
    outputs: seq<seq<Entry>>, builder: seq<Entry>)
    requires forall j :: 0 <= j < |ks| ==> ks[j] < |input|
    requires if input == [] then outputs == [] && builder == []
             else Written(input, ks, |input| - 1, stopBefore, bigEnough, outputs, builder)
    ensures WithOpen(outputs, builder) == Runs(input, ks, stopBefore, bigEnough)
  {
  }
}
