/** Version edits: the builder that applies them, and replaying a manifest. */
module Manifest {
  import opened InternalKeys
  import opened Version
  import opened LsmEdits
  import Coding

  datatype At<T> = At(level: nat, item: T)

  /** VersionEdit, apart from the compaction pointers. */
  datatype Edit = Edit(
    comparator: Option<Coding.Bytes>,
    logNumber: Option<nat>,
    prevLog: Option<nat>,
    nextFile: Option<nat>,
    lastSeq: Option<nat>,
    deleted: set<At<nat>>,
    added: seq<At<File>>)

  ghost predicate EditOk(e: Edit) {
    && (forall d :: d in e.deleted ==> d.level < NUM_LEVELS)
    && (forall a :: a in e.added ==> a.level < NUM_LEVELS)
  }

  // ----- what edits mean -----

  ghost predicate Deletes(e: Edit, l: nat, n: nat) {
    At(l, n) in e.deleted
  }

  ghost predicate Adds(e: Edit, l: nat, f: File) {
    At(l, f) in e.added
  }

  /** The files of level l after the edit: deletions first, then additions. */
  ghost predicate FileAfter(s: iset<File>, e: Edit, l: nat, f: File) {
    (f in s && !Deletes(e, l, f.number)) || Adds(e, l, f)
  }

  ghost function LevelAfter(s: iset<File>, e: Edit, l: nat): iset<File> {
    iset f | FileAfter(s, e, l, f)
  }

  ghost function Replay(s: iset<File>, edits: seq<Edit>, l: nat): iset<File> {
    if edits == [] then s else LevelAfter(Replay(s, edits[..|edits| - 1], l), edits[|edits| - 1], l)
  }

  /** Edit k adds f, and no later edit deletes its number without adding it again. */
  ghost predicate LastWord(edits: seq<Edit>, l: nat, f: File, k: int) {
    && 0 <= k < |edits| && Adds(edits[k], l, f)
    && (forall j :: k < j < |edits| ==> !Deletes(edits[j], l, f.number))
  }

  /** Replay from nothing holds exactly the files whose last mention is an addition. */
  lemma {:induction false} LastWordWins(edits: seq<Edit>, l: nat, f: File)
    ensures f in Replay(iset{}, edits, l) <==> exists k :: LastWord(edits, l, f, k)
  {
    hide Adds, Deletes;
    if edits != [] {
      var n := |edits| - 1;
      LastWordWins(edits[..n], l, f);
      if f in Replay(iset{}, edits[..n], l) && !Deletes(edits[n], l, f.number) {
        var k :| LastWord(edits[..n], l, f, k);
        assert forall j :: 0 <= j < n ==> edits[..n][j] == edits[j];
        assert LastWord(edits, l, f, k);
      }
      if Adds(edits[n], l, f) {
        assert LastWord(edits, l, f, n);
      }
      if k :| LastWord(edits, l, f, k) {
        if k < n {
          assert LastWord(edits[..n], l, f, k);
        }
      }
    }
  }

  // ----- a level as the builder keeps it: sorted by smallest key, then number -----

  ghost predicate Ascending(files: seq<File>) {
    forall i, j :: 0 <= i < j < |files| ==> !BySmallest(files[j], files[i])
  }

  ghost predicate Lists(files: seq<File>, s: iset<File>) {
    SortedBySmallest(files) && forall f :: f in files <==> f in s
  }

  lemma BySmallestOrder(a: File, b: File, c: File)
    ensures !BySmallest(a, a)
    ensures BySmallest(a, b) && BySmallest(b, c) ==> BySmallest(a, c)
    ensures BySmallest(a, b) && !BySmallest(c, b) ==> BySmallest(a, c)
    ensures !BySmallest(b, a) && BySmallest(b, c) ==> BySmallest(a, c)
    ensures BySmallest(a, b) || BySmallest(b, a) || (a.smallest == b.smallest && a.number == b.number)
  {
    BeforeIsStrictTotalOrder(a.smallest, b.smallest, c.smallest);
    BeforeIsStrictTotalOrder(b.smallest, a.smallest, c.smallest);
    BeforeIsStrictTotalOrder(a.smallest, c.smallest, b.smallest);
  }

  /** A set of files has one sorted listing. */
  lemma {:induction false} ListingUnique(s: seq<File>, t: seq<File>)
    requires SortedBySmallest(s) && SortedBySmallest(t) && forall f :: f in s <==> f in t
    ensures s == t
  {
    assert t == [] || t[0] in t;
    if s != [] {
      assert s[0] in s;
      var i :| 0 <= i < |t| && t[i] == s[0];
      var j :| 0 <= j < |s| && s[j] == t[0];
      BySmallestOrder(s[0], t[0], s[0]);
      assert s[0] == t[0];
      TailMembers(s, t);
      ListingUnique(s[1..], t[1..]);
    }
  }

  lemma TailMembers(s: seq<File>, t: seq<File>)
    requires |s| > 0 && |t| > 0 && s[0] == t[0]
    requires SortedBySmallest(s) && SortedBySmallest(t) && forall f :: f in s <==> f in t
    ensures forall f :: f in s[1..] <==> f in t[1..]
  {
    forall f
      ensures f in s[1..] <==> f in t[1..]
    {
      HeadNotInTail(s, f);
      HeadNotInTail(t, f);
    }
  }

  lemma HeadNotInTail(s: seq<File>, f: File)
    requires |s| > 0 && SortedBySmallest(s)
    ensures f in s[1..] <==> f in s && f != s[0]
  {
    BySmallestOrder(s[0], s[0], s[0]);
    if f in s[1..] {
      var i :| 0 <= i < |s[1..]| && s[1..][i] == f;
      assert s[i + 1] == f && BySmallest(s[0], s[i + 1]);
    }
    if f in s && f != s[0] {
      var i :| 0 <= i < |s| && s[i] == f;
      assert s[1..][i - 1] == f;
    }
  }

  /** std::set::insert under BySmallestKey: an equal key is left alone. */
  method Insert(files: seq<File>, f: File) returns (r: seq<File>)
    requires SortedBySmallest(files)
    ensures SortedBySmallest(r)
    ensures forall g :: g in r <==>
              g in files || (g == f && forall h :: h in files ==> h.smallest != f.smallest || h.number != f.number)
  {
    var i := 0;
    while i < |files| && BySmallest(files[i], f)
      invariant 0 <= i <= |files|
      invariant forall j :: 0 <= j < i ==> BySmallest(files[j], f)
    {
      i := i + 1;
    }
    if i < |files| && !BySmallest(f, files[i]) {
      BySmallestOrder(files[i], f, f);
      assert files[i] in files;
      r := files;
    } else {
      r := files[..i] + [f] + files[i..];
      InsertedSorted(files, i, f);
    }
  }

  lemma InsertedSorted(files: seq<File>, i: nat, f: File)
    requires SortedBySmallest(files) && i <= |files|
    requires forall j :: 0 <= j < i ==> BySmallest(files[j], f)
    requires i < |files| ==> BySmallest(f, files[i])
    ensures SortedBySmallest(files[..i] + [f] + files[i..])
    ensures forall g :: g in files[..i] + [f] + files[i..] <==> g in files || g == f
    ensures forall h :: h in files ==> h.smallest != f.smallest || h.number != f.number
  {
    assert files == files[..i] + files[i..];
    forall j | i <= j < |files|
      ensures BySmallest(f, files[j])
    {
      if j > i {
        BySmallestOrder(f, files[i], files[j]);
      }
    }
  }

  // ----- SaveTo -----

  function Filter(files: seq<File>, deleted: set<nat>): (r: seq<File>)
    ensures forall f :: f in r <==> f in files && f.number !in deleted
  {
    if files == [] then []
    else
      var rest := Filter(files[..|files| - 1], deleted);
      var f := files[|files| - 1];
      assert files == files[..|files| - 1] + [f];
      if f.number in deleted then rest else rest + [f]
  }

  lemma FilterStep(files: seq<File>, deleted: set<nat>, i: nat)
    requires i < |files|
    ensures Filter(files[..i + 1], deleted)
         == Filter(files[..i], deleted) + (if files[i].number in deleted then [] else [files[i]])
  {
    assert files[..i + 1][..i] == files[..i];
  }

  /** What is left of base and added comes after everything saved so far. */
  ghost predicate NotAfter(r: seq<File>, files: seq<File>) {
    forall f, g :: f in r && g in files ==> !BySmallest(g, f)
  }

  /** MaybeAddFile. */
  method MaybeAddFile(r: seq<File>, f: File, deleted: set<nat>) returns (r': seq<File>)
    requires Ascending(r) && forall g :: g in r ==> !BySmallest(f, g)
    ensures r' == r + (if f.number in deleted then [] else [f]) && Ascending(r')
  {
    r' := if f.number in deleted then r else r + [f];
  }

  ghost predicate Saved(base: seq<File>, i: nat, added: seq<File>, j: nat, deleted: set<nat>, r: seq<File>) {
    && i <= |base| && j <= |added|
    && Ascending(r) && NotAfter(r, base[i..]) && NotAfter(r, added[j..])
    && multiset(r) == multiset(Filter(base[..i], deleted)) + multiset(Filter(added[..j], deleted))
  }

  lemma Pushed(r: seq<File>, f: File, xs: seq<File>, ys: seq<File>)
    requires Ascending(r) && NotAfter(r, [f]) && NotAfter(r, xs) && NotAfter(r, ys)
    requires NotAfter([f], xs) && NotAfter([f], ys)
    ensures Ascending(r + [f]) && NotAfter(r + [f], xs) && NotAfter(r + [f], ys)
  {
    hide BySmallest;
    assert f in [f];
  }

  lemma Shorter(r: seq<File>, files: seq<File>, i: nat)
    requires i < |files| && NotAfter(r, files[i..])
    ensures NotAfter(r, files[i + 1..]) && NotAfter(r, [files[i]])
  {
    hide BySmallest;
    assert files[i] in files[i..];
    forall g | g in files[i + 1..]
      ensures g in files[i..]
    {
      var k :| i + 1 <= k < |files| && files[k] == g;
    }
  }

  lemma AscendingTail(files: seq<File>, i: nat)
    requires i < |files| && Ascending(files)
    ensures NotAfter([files[i]], files[i + 1..])
  {
    hide BySmallest;
  }

  lemma StrictIsAscending(files: seq<File>)
    requires SortedBySmallest(files)
    ensures Ascending(files)
  {
    forall i, j | 0 <= i < j < |files|
      ensures !BySmallest(files[j], files[i])
    {
      BySmallestOrder(files[i], files[j], files[i]);
    }
  }

  lemma NextFromBase(base: seq<File>, i: nat, added: seq<File>, j: nat, deleted: set<nat>, r: seq<File>)
    requires Saved(base, i, added, j, deleted, r) && Ascending(base) && i < |base|
    requires NotAfter([base[i]], added[j..])
    ensures Saved(base, i + 1, added, j, deleted, r + (if base[i].number in deleted then [] else [base[i]]))
  {
    hide NotAfter, Ascending, Filter;
    FilterStep(base, deleted, i);
    Shorter(r, base, i);
    AscendingTail(base, i);
    Pushed(r, base[i], base[i + 1..], added[j..]);
    assert r + [] == r;
  }

  lemma NextFromAdded(base: seq<File>, i: nat, added: seq<File>, j: nat, deleted: set<nat>, r: seq<File>)
    requires Saved(base, i, added, j, deleted, r) && SortedBySmallest(added) && j < |added|
    requires NotAfter([added[j]], base[i..])
    ensures Saved(base, i, added, j + 1, deleted, r + (if added[j].number in deleted then [] else [added[j]]))
  {
    hide NotAfter, Ascending, Filter, SortedBySmallest;
    FilterStep(added, deleted, j);
    StrictIsAscending(added);
    Shorter(r, added, j);
    AscendingTail(added, j);
    Pushed(r, added[j], base[i..], added[j + 1..]);
    assert r + [] == r;
  }

  /** One level of SaveTo: a merge of the base files with the added ones, without
      those deleted. */
  method SaveLevel(base: seq<File>, added: seq<File>, deleted: set<nat>) returns (r: seq<File>)
    requires Ascending(base) && SortedBySmallest(added)
    ensures Ascending(r)
    ensures multiset(r) == multiset(Filter(base, deleted)) + multiset(Filter(added, deleted))
  {
    hide BySmallest, Filter, Saved;
    r := [];
    var i, j := 0, 0;
    SaveStart(base, added, deleted);
    while j < |added|
      invariant 0 <= j <= |added| && 0 <= i <= |base| && Saved(base, i, added, j, deleted, r)
    {
      while i < |base| && !BySmallest(added[j], base[i])
        invariant 0 <= i <= |base| && Saved(base, i, added, j, deleted, r)
      {
        BaseComesFirst(base, i, added, j);
        NextFromBase(base, i, added, j, deleted, r);
        SavedBefore(base, i, added, j, deleted, r);
        r := MaybeAddFile(r, base[i], deleted);
        i := i + 1;
      }
      AddedComesFirst(base, i, added, j);
      NextFromAdded(base, i, added, j, deleted, r);
      SavedBefore(base, i, added, j, deleted, r);
      r := MaybeAddFile(r, added[j], deleted);
      j := j + 1;
    }
    while i < |base|
      invariant j == |added| && 0 <= i <= |base| && Saved(base, i, added, j, deleted, r)
    {
      assert added[j..] == [];
      NextFromBase(base, i, added, j, deleted, r);
      SavedBefore(base, i, added, j, deleted, r);
      r := MaybeAddFile(r, base[i], deleted);
      i := i + 1;
    }
    SaveEnd(base, added, deleted, r);
  }

  lemma SaveStart(base: seq<File>, added: seq<File>, deleted: set<nat>)
    ensures Saved(base, 0, added, 0, deleted, [])
  {
  }

  lemma SaveEnd(base: seq<File>, added: seq<File>, deleted: set<nat>, r: seq<File>)
    requires Saved(base, |base|, added, |added|, deleted, r)
    ensures Ascending(r) && multiset(r) == multiset(Filter(base, deleted)) + multiset(Filter(added, deleted))
  {
    assert base[..|base|] == base && added[..|added|] == added;
  }

  lemma SavedBefore(base: seq<File>, i: nat, added: seq<File>, j: nat, deleted: set<nat>, r: seq<File>)
    requires Saved(base, i, added, j, deleted, r)
    ensures Ascending(r)
    ensures i < |base| ==> forall g :: g in r ==> !BySmallest(base[i], g)
    ensures j < |added| ==> forall g :: g in r ==> !BySmallest(added[j], g)
  {
    hide BySmallest, Filter;
    assert i < |base| ==> base[i] in base[i..];
    assert j < |added| ==> added[j] in added[j..];
  }

  lemma BaseComesFirst(base: seq<File>, i: nat, added: seq<File>, j: nat)
    requires SortedBySmallest(added) && i < |base| && j < |added| && !BySmallest(added[j], base[i])
    ensures NotAfter([base[i]], added[j..])
  {
    forall g | g in added[j..]
      ensures !BySmallest(g, base[i])
    {
      BySmallestOrder(added[j], g, base[i]);
    }
  }

  lemma AddedComesFirst(base: seq<File>, i: nat, added: seq<File>, j: nat)
    requires Ascending(base) && i <= |base| && j < |added| && (i < |base| ==> BySmallest(added[j], base[i]))
    ensures NotAfter([added[j]], base[i..])
  {
    forall g | g in base[i..]
      ensures !BySmallest(g, added[j])
    {
      BySmallestOrder(added[j], base[i], g);
      BySmallestOrder(added[j], g, added[j]);
    }
  }

  // ----- when SaveTo lists a file twice -----

  predicate SameKey(f: File, g: File) {
    f.smallest == g.smallest && f.number == g.number
  }

  /** A surviving base file has the same smallest key and number as a surviving
      added one. */
  ghost predicate Clash(base: seq<File>, added: seq<File>, deleted: set<nat>) {
    exists b, a :: b in base && a in added && b.number !in deleted && a.number !in deleted && SameKey(b, a)
  }

  lemma {:induction false} StrictCount(s: seq<File>, f: File)
    requires SortedBySmallest(s)
    ensures multiset(s)[f] <= 1
  {
    if s != [] {
      var n := |s| - 1;
      assert s == s[..n] + [s[n]];
      StrictCount(s[..n], f);
      BySmallestOrder(f, s[n], f);
    }
  }

  lemma {:induction false} FilterCount(files: seq<File>, deleted: set<nat>, f: File)
    ensures multiset(Filter(files, deleted))[f] == if f.number in deleted then 0 else multiset(files)[f]
  {
    if files != [] {
      var n := |files| - 1;
      assert files == files[..n] + [files[n]];
      FilterCount(files[..n], deleted, f);
    }
  }

  lemma TwiceCounts(r: seq<File>, i: nat, j: nat)
    requires i < j < |r| && r[i] == r[j]
    ensures multiset(r)[r[i]] >= 2
  {
    assert r == r[..j] + r[j..];
    assert r[i] in r[..j] && r[j] in r[j..];
  }

  ghost predicate Merged(base: seq<File>, added: seq<File>, deleted: set<nat>, r: seq<File>) {
    Ascending(r) && multiset(r) == multiset(Filter(base, deleted)) + multiset(Filter(added, deleted))
  }

  lemma MergedMembers(base: seq<File>, added: seq<File>, deleted: set<nat>, r: seq<File>)
    requires Merged(base, added, deleted, r)
    ensures forall f :: f in r <==> (f in base || f in added) && f.number !in deleted
  {
    hide Ascending;
    forall f
      ensures f in r <==> (f in base || f in added) && f.number !in deleted
    {
      assert f in r <==> f in multiset(r);
    }
  }

  lemma StrictDistinct(s: seq<File>, f: File, g: File)
    requires SortedBySmallest(s) && f in s && g in s && SameKey(f, g)
    ensures f == g
  {
    var i :| 0 <= i < |s| && s[i] == f;
    var j :| 0 <= j < |s| && s[j] == g;
    BySmallestOrder(f, g, f);
    BySmallestOrder(f, f, f);
  }

  lemma NoClashIsStrict(base: seq<File>, added: seq<File>, deleted: set<nat>, r: seq<File>)
    requires SortedBySmallest(base) && SortedBySmallest(added) && Merged(base, added, deleted, r)
    requires !Clash(base, added, deleted)
    ensures SortedBySmallest(r)
  {
    hide Filter, Merged;
    MergedMembers(base, added, deleted, r);
    forall i, j | 0 <= i < j < |r|
      ensures BySmallest(r[i], r[j])
    {
      MergedPair(base, added, deleted, r, i, j);
    }
  }

  lemma MergedPair(base: seq<File>, added: seq<File>, deleted: set<nat>, r: seq<File>, i: nat, j: nat)
    requires SortedBySmallest(base) && SortedBySmallest(added) && Merged(base, added, deleted, r)
    requires !Clash(base, added, deleted) && i < j < |r|
    ensures BySmallest(r[i], r[j])
  {
    hide SortedBySmallest, Filter;
    var f, g := r[i], r[j];
    BySmallestOrder(f, g, f);
    if SameKey(f, g) {
      MergedMembers(base, added, deleted, r);
      assert f in r && g in r;
      assert !(f in base && g in added) && !(g in base && f in added);
      if f in base {
        StrictDistinct(base, f, g);
      } else {
        StrictDistinct(added, f, g);
      }
      CountMerged(base, added, deleted, r, f);
      TwiceCounts(r, i, j);
      assert false;
    }
  }

  lemma CountMerged(base: seq<File>, added: seq<File>, deleted: set<nat>, r: seq<File>, f: File)
    requires SortedBySmallest(base) && SortedBySmallest(added) && Merged(base, added, deleted, r)
    requires !Clash(base, added, deleted)
    ensures multiset(r)[f] <= 1
  {
    hide Ascending, SortedBySmallest, Filter;
    FilterCount(base, deleted, f);
    FilterCount(added, deleted, f);
    StrictCount(base, f);
    StrictCount(added, f);
    assert SameKey(f, f);
  }

  /** SaveTo's level is strictly ordered exactly when no surviving file is both in
      the base and added: adding again a file the base still holds lists it twice. */
  lemma SavedStrictIff(base: seq<File>, added: seq<File>, deleted: set<nat>, r: seq<File>)
    requires SortedBySmallest(base) && SortedBySmallest(added) && Merged(base, added, deleted, r)
    ensures SortedBySmallest(r) <==> !Clash(base, added, deleted)
  {
    hide SortedBySmallest, Filter, Merged;
    if !Clash(base, added, deleted) {
      NoClashIsStrict(base, added, deleted, r);
    } else if SortedBySmallest(r) {
      var b, a :| b in base && a in added && b.number !in deleted && a.number !in deleted && SameKey(b, a);
      MergedMembers(base, added, deleted, r);
      StrictDistinct(r, b, a);
      CountTwice(base, added, deleted, r, a);
      StrictCount(r, a);
      assert false;
    }
  }

  lemma CountTwice(base: seq<File>, added: seq<File>, deleted: set<nat>, r: seq<File>, f: File)
    requires Merged(base, added, deleted, r) && f in base && f in added && f.number !in deleted
    ensures multiset(r)[f] >= 2
  {
    hide Ascending;
    FilterCount(base, deleted, f);
    FilterCount(added, deleted, f);
    assert f in multiset(base) && f in multiset(added);
  }

  // ----- Builder -----

  ghost predicate AddsIn(adds: seq<At<File>>, l: nat, f: File) {
    At(l, f) in adds
  }

  ghost predicate AddsNumber(adds: seq<At<File>>, l: nat, n: nat) {
    exists i :: 0 <= i < |adds| && adds[i].level == l && adds[i].item.number == n
  }

  /** A file number fixes the file. */
  ghost predicate NumbersFix(files: seq<File>, adds: seq<At<File>>, l: nat) {
    && (forall f, g :: f in files && AddsIn(adds, l, g) && f.number == g.number ==> f == g)
    && (forall f, g :: AddsIn(adds, l, f) && AddsIn(adds, l, g) && f.number == g.number ==> f == g)
  }

  class Builder {
    const base: Levels
    var deleted: seq<set<nat>>
    var added: seq<seq<File>>

    ghost predicate Valid()
      reads this
    {
      && |base| == |deleted| == |added| == NUM_LEVELS
      && (forall l :: 0 <= l < NUM_LEVELS ==> Ascending(base[l]))
      && (forall l :: 0 <= l < NUM_LEVELS ==> SortedBySmallest(added[l]))
    }

    constructor (base: Levels)
      requires |base| == NUM_LEVELS && forall l :: 0 <= l < NUM_LEVELS ==> Ascending(base[l])
      ensures Valid() && this.base == base
      ensures deleted == seq(NUM_LEVELS, l => {}) && added == seq(NUM_LEVELS, l => [])
    {
      this.base := base;
      deleted := seq(NUM_LEVELS, l => {});
      added := seq(NUM_LEVELS, l => []);
    }

    method DeleteFiles(e: Edit)
      requires Valid() && EditOk(e)
      modifies this`deleted
      ensures Valid()
      ensures forall l, n :: 0 <= l < NUM_LEVELS ==>
                (n in deleted[l] <==> n in old(deleted)[l] || At(l, n) in e.deleted)
    {
      var todo := e.deleted;
      while todo != {}
        invariant Valid() && todo <= e.deleted
        invariant forall l, n :: 0 <= l < NUM_LEVELS ==>
                    (n in deleted[l] <==> n in old(deleted)[l] || At(l, n) in e.deleted - todo)
      {
        var d :| d in todo;
        deleted := deleted[d.level := deleted[d.level] + {d.item}];
        todo := todo - {d};
      }
    }

    method AddFiles(e: Edit)
      requires Valid() && EditOk(e)
      modifies this
      ensures Valid()
      ensures forall l, n :: 0 <= l < NUM_LEVELS ==>
                (n in deleted[l] <==> n in old(deleted)[l] && !AddsNumber(e.added, l, n))
      ensures forall l :: 0 <= l < NUM_LEVELS && NumbersFix(old(added)[l], e.added, l) ==>
                forall f :: f in added[l] <==> f in old(added)[l] || AddsIn(e.added, l, f)
    {
      hide NumbersFix, SortedBySmallest, Ascending;
      var i := 0;
      while i < |e.added|
        invariant 0 <= i <= |e.added| && Valid()
        invariant forall l, n :: 0 <= l < NUM_LEVELS ==>
                    (n in deleted[l] <==> n in old(deleted)[l] && !AddsNumber(e.added[..i], l, n))
        invariant forall l :: 0 <= l < NUM_LEVELS && NumbersFix(old(added)[l], e.added, l) ==>
                    forall f :: f in added[l] <==> f in old(added)[l] || AddsIn(e.added[..i], l, f)
      {
        var a := e.added[i];
        var before := added[a.level];
        assert a in e.added;
        AddStep(e.added, i);
        var files := Insert(before, a.item);
        if NumbersFix(old(added)[a.level], e.added, a.level) {
          Inserted(old(added)[a.level], e.added, i, before, files);
        }
        deleted := deleted[a.level := deleted[a.level] - {a.item.number}];
        added := added[a.level := files];
        i := i + 1;
      }
      assert e.added[..i] == e.added;
    }

    /** Apply: deletions, then additions, which undo deletions of the same number. */
    method Apply(e: Edit)
      requires Valid() && EditOk(e)
      modifies this
      ensures Valid()
      ensures forall l, n :: 0 <= l < NUM_LEVELS ==>
                (n in deleted[l] <==> (n in old(deleted)[l] || Deletes(e, l, n)) && !AddsNumber(e.added, l, n))
      ensures forall l :: 0 <= l < NUM_LEVELS && NumbersFix(old(added)[l], e.added, l) ==>
                forall f :: f in added[l] <==> f in old(added)[l] || AddsIn(e.added, l, f)
    {
      hide SortedBySmallest, Ascending, NumbersFix, AddsNumber, AddsIn;
      DeleteFiles(e);
      AddFiles(e);
    }

    method SaveTo() returns (v: Levels)
      requires Valid()
      ensures |v| == NUM_LEVELS
      ensures forall l :: 0 <= l < NUM_LEVELS ==> Merged(base[l], added[l], deleted[l], v[l])
    {
      hide Filter, Ascending, SortedBySmallest;
      v := [];
      while |v| < NUM_LEVELS
        invariant |v| <= NUM_LEVELS
        invariant forall l :: 0 <= l < |v| ==> Merged(base[l], added[l], deleted[l], v[l])
      {
        var l := |v|;
        var files := SaveLevel(base[l], added[l], deleted[l]);
        v := v + [files];
      }
    }
  }

  lemma AddStep(adds: seq<At<File>>, i: nat)
    requires i < |adds|
    ensures forall l, f :: AddsIn(adds[..i + 1], l, f) <==> AddsIn(adds[..i], l, f) || adds[i] == At(l, f)
    ensures forall l, n :: AddsNumber(adds[..i + 1], l, n) <==>
              AddsNumber(adds[..i], l, n) || (adds[i].level == l && adds[i].item.number == n)
  {
    assert adds[..i + 1] == adds[..i] + [adds[i]];
    forall l, n
      ensures AddsNumber(adds[..i + 1], l, n) <==>
              AddsNumber(adds[..i], l, n) || (adds[i].level == l && adds[i].item.number == n)
    {
      assert adds[..i + 1][i] == adds[i];
      assert forall j :: 0 <= j < i ==> adds[..i + 1][j] == adds[..i][j];
    }
  }

  /** Where numbers fix files, a file already in the set is the one being added. */
  lemma Inserted(files0: seq<File>, adds: seq<At<File>>, i: nat, before: seq<File>, after: seq<File>)
    requires i < |adds| && NumbersFix(files0, adds, adds[i].level)
    requires forall f :: f in before <==> f in files0 || AddsIn(adds[..i], adds[i].level, f)
    requires forall g :: g in after <==>
               g in before || (g == adds[i].item && forall h :: h in before ==> h.smallest != g.smallest || h.number != g.number)
    ensures forall f :: f in after <==> f in before || f == adds[i].item
  {
    var g := adds[i].item;
    assert AddsIn(adds, adds[i].level, g);
    forall h | h in before && h.smallest == g.smallest && h.number == g.number
      ensures h == g
    {
      assert h in files0 || AddsIn(adds, adds[i].level, h);
    }
  }
}
