/** How the input files of a compaction are chosen. */
module CompactionInputs {
  import opened InternalKeys
  import opened Version

  /** kTargetFileSize and kExpandedCompactionByteSizeLimit. */
  const TARGET_FILE_SIZE: nat := 2 * 1048576
  const EXPANDED_COMPACTION_LIMIT: nat := 25 * TARGET_FILE_SIZE

  /** A range of user keys; an absent end is open. */
  datatype Range = Range(lo: Option<UserKey>, hi: Option<UserKey>)

  /** r lies within s. */
  predicate Within(r: Range, s: Range) {
    && (s.lo.Some? ==> r.lo.Some? && s.lo.value <= r.lo.value)
    && (s.hi.Some? ==> r.hi.Some? && r.hi.value <= s.hi.value)
  }

  predicate Meets(f: File, r: Range) {
    Overlaps(f, r.lo, r.hi)
  }

  /** The whole file lies within the range. */
  predicate Inside(f: File, r: Range) {
    && (r.lo.Some? ==> r.lo.value <= f.smallest.user)
    && (r.hi.Some? ==> f.largest.user <= r.hi.value)
  }

  /** A range no file sticks out of. */
  ghost predicate Closed(files: seq<File>, r: Range) {
    forall f :: f in files && Meets(f, r) ==> Inside(f, r)
  }

  /** r is contained in every closed range that contains `asked`. */
  ghost predicate Least(files: seq<File>, asked: Range, r: Range) {
    forall s :: Closed(files, s) && Within(asked, s) ==> Within(r, s)
  }

  /** The files meeting r, in order. */
  function Overlapping(files: seq<File>, r: Range): (out: seq<File>)
    ensures forall f :: f in out <==> f in files && Meets(f, r)
    ensures |out| <= |files|
  {
    if files == [] then []
    else
      var last := files[|files| - 1];
      var rest := Overlapping(files[..|files| - 1], r);
      if Meets(last, r) then rest + [last] else rest
  }

  lemma OverlappingStep(files: seq<File>, i: nat, r: Range)
    requires i < |files|
    ensures Overlapping(files[..i + 1], r) ==
      Overlapping(files[..i], r) + (if Meets(files[i], r) then [files[i]] else [])
  {
    assert files[..i + 1][..i] == files[..i];
  }

  // ----- termination of the level-0 restarts -----

  function SticksOut(f: File, r: Range): nat {
    (if r.lo.Some? && f.smallest.user < r.lo.value then 1 else 0) +
    (if r.hi.Some? && f.largest.user > r.hi.value then 1 else 0)
  }

  /** How many file ends lie outside r: each restart lowers it. */
  function Outside(files: seq<File>, r: Range): nat {
    if files == [] then 0 else SticksOut(files[0], r) + Outside(files[1..], r)
  }

  lemma {:induction false} WideningLowersOutside(files: seq<File>, r: Range, s: Range, f: File)
    requires Within(r, s) && r.lo.Some? == s.lo.Some? && r.hi.Some? == s.hi.Some?
    ensures Outside(files, s) <= Outside(files, r)
    ensures f in files && SticksOut(f, s) < SticksOut(f, r) ==> Outside(files, s) < Outside(files, r)
  {
    if files != [] {
      WideningLowersOutside(files[1..], r, s, f);
    }
  }

  // ----- Version::GetOverlappingInputs -----

  /** The range after a file meeting it has been added: widened at one end, the
      lower one first, if the file sticks out there. */
  function Grown(f: File, r: Range): Range {
    if r.lo.Some? && f.smallest.user < r.lo.value then r.(lo := Some(f.smallest.user))
    else if r.hi.Some? && f.largest.user > r.hi.value then r.(hi := Some(f.largest.user))
    else r
  }

  /** The range that a search of the level ends with. */
  ghost predicate Reached(level: nat, files: seq<File>, asked: Range, r: Range) {
    if level > 0 then r == asked else Within(asked, r) && Closed(files, r) && Least(files, asked, r)
  }

  lemma ReachedOnce(level: nat, files: seq<File>, asked: Range, r: Range, s: Range)
    requires Reached(level, files, asked, r) && Reached(level, files, asked, s)
    ensures r == s
  {
    if level == 0 {
      assert Within(r, s) && Within(s, r);
    }
  }

  ghost predicate Progress(level: nat, files: seq<File>, asked: Range, range: Range) {
    && (level > 0 ==> range == asked)
    && Within(asked, range) && Least(files, asked, range)
    && range.lo.Some? == asked.lo.Some? && range.hi.Some? == asked.hi.Some?
  }

  /** At level 0 the search restarts whenever an added file widens the range, and
      ends with the files meeting the least closed range around the one asked for. */
  method GetOverlappingInputs(level: nat, files: seq<File>, asked: Range) returns (inputs: seq<File>, ghost r: Range)
    ensures inputs == Overlapping(files, r) && Reached(level, files, asked, r)
  {
    hide Progress, Inside, Overlapping, Outside;
    var range := asked;
    inputs := [];
    NothingWidened(level, files, asked);
    var i := 0;
    while i < |files|
      invariant i <= |files|
      invariant Progress(level, files, asked, range)
      invariant inputs == Overlapping(files[..i], range)
      invariant level == 0 ==> ClosedUpTo(files, i, range)
      decreases Outside(files, range), |files| - i
    {
      var f := files[i];
      OverlappingStep(files, i, range);
      i := i + 1;
      if AfterFile(range.lo, f) {
      } else if BeforeFile(range.hi, f) {
      } else {
        inputs := inputs + [f];
        if level == 0 && Grown(f, range) != range {
          WidenToFile(files, asked, range, f);
          range := Grown(f, range);
          inputs, i := [], 0;
          NothingTaken(files, range);
        } else if level == 0 {
          NotGrownIsInside(f, range);
        }
      }
    }
    assert files[..|files|] == files;
    r := range;
    ProgressMeans(level, files, asked, range);
  }

  /** The first i files that meet r lie inside it. */
  ghost predicate ClosedUpTo(files: seq<File>, i: nat, r: Range) {
    forall j :: 0 <= j < i && j < |files| && Meets(files[j], r) ==> Inside(files[j], r)
  }

  lemma NothingWidened(level: nat, files: seq<File>, asked: Range)
    ensures Progress(level, files, asked, asked) && Overlapping(files[..0], asked) == []
  {
  }

  lemma NothingTaken(files: seq<File>, r: Range)
    ensures Overlapping(files[..0], r) == []
  {
  }

  lemma NotGrownIsInside(f: File, r: Range)
    requires Grown(f, r) == r
    ensures Inside(f, r)
  {
  }

  lemma ProgressMeans(level: nat, files: seq<File>, asked: Range, r: Range)
    requires Progress(level, files, asked, r)
    ensures level > 0 ==> r == asked
    ensures Within(asked, r) && Least(files, asked, r)
    ensures ClosedUpTo(files, |files|, r) ==> Closed(files, r)
  {
    hide Least, Inside;
  }

  lemma WidenToFile(files: seq<File>, asked: Range, r: Range, f: File)
    requires f in files && Meets(f, r) && Progress(0, files, asked, r)
    requires Grown(f, r) != r
    ensures Progress(0, files, asked, Grown(f, r))
    ensures Outside(files, Grown(f, r)) < Outside(files, r)
  {
    var s := Grown(f, r);
    WideningLowersOutside(files, r, s, f);
    forall t | Closed(files, t) && Within(asked, t)
      ensures Within(s, t)
    {
      assert Within(r, t);
      assert Meets(f, t);
      assert Inside(f, t);
    }
  }

  // ----- VersionSet::GetRange -----

  method GetRange(inputs: seq<File>) returns (smallest: IKey, largest: IKey)
    requires inputs != []
    ensures exists f :: f in inputs && f.smallest == smallest
    ensures exists f :: f in inputs && f.largest == largest
    ensures forall f :: f in inputs ==> !Before(f.smallest, smallest) && !Before(largest, f.largest)
  {
    smallest, largest := inputs[0].smallest, inputs[0].largest;
    for i := 1 to |inputs|
      invariant exists f :: f in inputs && f.smallest == smallest
      invariant exists f :: f in inputs && f.largest == largest
      invariant forall j :: 0 <= j < i ==> !Before(inputs[j].smallest, smallest) && !Before(largest, inputs[j].largest)
    {
      if Before(inputs[i].smallest, smallest) {
        smallest := inputs[i].smallest;
      }
      if Before(largest, inputs[i].largest) {
        largest := inputs[i].largest;
      }
    }
  }

  function TotalFileSize(files: seq<File>): nat {
    if files == [] then 0 else files[0].size + TotalFileSize(files[1..])
  }

  // ----- VersionSet::SetupOtherInputs -----

  /** `r` is the user-key hull of the files. */
  ghost predicate IsHull(files: seq<File>, r: Range) {
    && r.lo.Some? && r.hi.Some?
    && (forall f :: f in files ==> Inside(f, r))
    && (exists f :: f in files && f.smallest.user == r.lo.value)
    && (exists f :: f in files && f.largest.user == r.hi.value)
  }

  /** No file outside `chosen` meets the user-key range of a chosen one. */
  ghost predicate ClosedChoice(files: seq<File>, chosen: seq<File>) {
    forall f, g :: f in files && f !in chosen && g in chosen ==>
      f.largest.user < g.smallest.user || g.largest.user < f.smallest.user
  }

  /** The inputs of a compaction of level L into level L+1. */
  ghost predicate GoodInputs(v: Levels, L: nat, in0: seq<File>, in1: seq<File>) {
    && L + 1 < |v|
    && in0 != []
    && (forall f :: f in in0 ==> f in v[L])
    && (exists r :: IsHull(in0, r) && in1 == Overlapping(v[L + 1], r))
    && (L == 0 ==> ClosedChoice(v[0], in0))
  }

  lemma {:induction false} WiderSameLength(files: seq<File>, r: Range, s: Range)
    requires Within(r, s)
    ensures |Overlapping(files, r)| <= |Overlapping(files, s)|
    ensures |Overlapping(files, r)| == |Overlapping(files, s)| ==> Overlapping(files, r) == Overlapping(files, s)
  {
    if files != [] {
      WiderSameLength(files[..|files| - 1], r, s);
    }
  }

  lemma HullWithin(in0: seq<File>, r: Range, in1: seq<File>, s: Range)
    requires IsHull(in0, r) && IsHull(in1, s)
    requires forall f :: f in in0 ==> f in in1
    ensures Within(r, s)
  {
  }

  lemma ClosedRangeGivesClosedChoice(files: seq<File>, r: Range)
    requires FilesOk(files) && Closed(files, r)
    ensures ClosedChoice(files, Overlapping(files, r))
  {
  }

  lemma OkFileIsOrdered(f: File)
    requires FileOk(f)
    ensures f.smallest.user <= f.largest.user
  {
    EntryWithinFile(f, f.table[0]);
  }

  method Hull(inputs: seq<File>) returns (r: Range)
    requires inputs != []
    ensures IsHull(inputs, r)
  {
    var smallest, largest := GetRange(inputs);
    r := Range(Some(smallest.user), Some(largest.user));
  }

  /** The range searched for more inputs of the level: around both sets of inputs. */
  ghost predicate ExpansionRange(v: Levels, L: nat, chosen: seq<File>, in1: seq<File>, r: Range)
    requires L < |v|
  {
    exists all :: IsHull(chosen + in1, all) && Reached(L, v[L], all, r)
  }

  lemma ExpansionOnce(v: Levels, L: nat, chosen: seq<File>, in1: seq<File>, all: Range, r: Range)
    requires L < |v| && IsHull(chosen + in1, all) && Reached(L, v[L], all, r)
    ensures forall s :: ExpansionRange(v, L, chosen, in1, s) ==> s == r
  {
    hide IsHull, Reached;
    forall s | ExpansionRange(v, L, chosen, in1, s)
      ensures s == r
    {
      var a :| IsHull(chosen + in1, a) && Reached(L, v[L], a, s);
      HullIsUnique(chosen + in1, all);
      ReachedOnce(L, v[L], all, r, s);
    }
  }

  /** The expansion `grown` has more files, all of it is small enough to compact, and
      its range takes in as many files of the next level as before. */
  ghost predicate Accepts(v: Levels, L: nat, chosen: seq<File>, in1: seq<File>, grown: seq<File>)
    requires L + 1 < |v|
  {
    && in1 != [] && |grown| > |chosen|
    && TotalFileSize(in1) + TotalFileSize(grown) < EXPANDED_COMPACTION_LIMIT
    && forall h :: IsHull(grown, h) ==> |Overlapping(v[L + 1], h)| == |in1|
  }

  /** Choose the level+1 inputs, then grow the level inputs exactly if that is worth
      it and does not change them: accepting an expansion leaves the level+1 inputs
      as they were. */
  method SetupOtherInputs(v: Levels, L: nat, chosen: seq<File>) returns (in0: seq<File>, in1: seq<File>)
    requires L + 1 < |v|
    requires FilesOk(v[L]) && FilesOk(v[L + 1])
    requires chosen != [] && forall f :: f in chosen ==> f in v[L]
    requires L == 0 ==> ClosedChoice(v[0], chosen)
    ensures GoodInputs(v, L, in0, in1)
    ensures forall f :: f in chosen ==> f in in0
    ensures forall r :: IsHull(chosen, r) ==> in1 == Overlapping(v[L + 1], r)
    ensures in1 == [] ==> in0 == chosen
    ensures forall r :: in1 != [] && ExpansionRange(v, L, chosen, in1, r) ==>
      in0 == if Accepts(v, L, chosen, in1, Overlapping(v[L], r)) then Overlapping(v[L], r) else chosen
  {
    hide ExpansionRange, IsHull, ClosedChoice, GoodInputs, Accepts, Overlapping, FilesOk, Reached;
    var hull := Hull(chosen);
    ghost var r;
    in1, r := GetOverlappingInputs(L + 1, v[L + 1], hull);
    assert r == hull by { ReachedDeeper(L + 1, v[L + 1], hull, r); }
    HullIsUnique(chosen, hull);
    in0 := chosen;
    GoodChosen(v, L, chosen, in1, hull);
    if in1 != [] {
      in0 := Expand(v, L, chosen, in1, hull);
    }
  }

  /** The second half of SetupOtherInputs. */
  method Expand(v: Levels, L: nat, chosen: seq<File>, in1: seq<File>, ghost hull: Range) returns (in0: seq<File>)
    requires L + 1 < |v| && FilesOk(v[L])
    requires IsHull(chosen, hull) && in1 == Overlapping(v[L + 1], hull) && in1 != []
    requires GoodInputs(v, L, chosen, in1)
    ensures GoodInputs(v, L, in0, in1) && forall f :: f in chosen ==> f in in0
    ensures forall r :: ExpansionRange(v, L, chosen, in1, r) ==>
      in0 == if Accepts(v, L, chosen, in1, Overlapping(v[L], r)) then Overlapping(v[L], r) else chosen
  {
    hide ExpansionRange, IsHull, ClosedChoice, GoodInputs, Overlapping, FilesOk, Reached, TotalFileSize;
    ChosenOk(v, L, chosen, in1);
    var all := Hull(chosen + in1);
    var expanded0, r := GetOverlappingInputs(L, v[L], all);
    ExpansionOnce(v, L, chosen, in1, all, r);
    in0 := chosen;
    if |expanded0| > |chosen| && TotalFileSize(in1) + TotalFileSize(expanded0) < EXPANDED_COMPACTION_LIMIT {
      var newHull := Hull(expanded0);
      ghost var s;
      var expanded1;
      expanded1, s := GetOverlappingInputs(L + 1, v[L + 1], newHull);
      assert s == newHull by { ReachedDeeper(L + 1, v[L + 1], newHull, s); }
      HullIsUnique(expanded0, newHull);
      if |expanded1| == |in1| {
        GoodExpansion(v, L, chosen, in1, hull, all, r, newHull);
        in0 := expanded0;
      }
    }
  }

  lemma ReachedDeeper(level: nat, files: seq<File>, asked: Range, r: Range)
    requires Reached(level, files, asked, r) && level > 0
    ensures r == asked
  {
  }

  lemma ChosenOk(v: Levels, L: nat, chosen: seq<File>, in1: seq<File>)
    requires GoodInputs(v, L, chosen, in1)
    ensures chosen != [] && forall f :: f in chosen ==> f in v[L]
  {
  }

  lemma GoodChosen(v: Levels, L: nat, chosen: seq<File>, in1: seq<File>, hull: Range)
    requires L + 1 < |v| && chosen != [] && (forall f :: f in chosen ==> f in v[L])
    requires IsHull(chosen, hull) && in1 == Overlapping(v[L + 1], hull) && (L == 0 ==> ClosedChoice(v[0], chosen))
    ensures GoodInputs(v, L, chosen, in1)
  {
  }

  /** An expansion that takes in as many files of the next level takes in the same. */
  lemma GoodExpansion(v: Levels, L: nat, chosen: seq<File>, in1: seq<File>, hull: Range, all: Range, r: Range, newHull: Range)
    requires L + 1 < |v| && FilesOk(v[L]) && (forall f :: f in chosen ==> f in v[L])
    requires IsHull(chosen, hull) && in1 == Overlapping(v[L + 1], hull)
    requires IsHull(chosen + in1, all) && Reached(L, v[L], all, r)
    requires Overlapping(v[L], r) != [] && IsHull(Overlapping(v[L], r), newHull)
    requires |Overlapping(v[L + 1], newHull)| == |in1|
    ensures GoodInputs(v, L, Overlapping(v[L], r), in1) && forall f :: f in chosen ==> f in Overlapping(v[L], r)
  {
    hide IsHull, ClosedChoice, FilesOk, Reached;
    var grown := Overlapping(v[L], r);
    ReachedWithin(L, v[L], all, r);
    ChosenInExpansion(v[L], chosen, in1, all, r);
    HullWithin(chosen, hull, grown, newHull);
    WiderSameLength(v[L + 1], hull, newHull);
    if L == 0 {
      ClosedRangeGivesClosedChoice(v[0], r);
    }
    GoodChosen(v, L, grown, in1, newHull);
  }

  lemma ReachedWithin(level: nat, files: seq<File>, asked: Range, r: Range)
    requires Reached(level, files, asked, r)
    ensures Within(asked, r) && (level == 0 ==> Closed(files, r))
  {
  }

  lemma HullIsUnique(files: seq<File>, r: Range)
    requires IsHull(files, r)
    ensures forall s :: IsHull(files, s) ==> s == r
  {
  }

  lemma ChosenInExpansion(files: seq<File>, chosen: seq<File>, in1: seq<File>, all: Range, r: Range)
    requires FilesOk(files) && forall f :: f in chosen ==> f in files
    requires IsHull(chosen + in1, all) && Within(all, r)
    ensures forall f :: f in chosen ==> f in Overlapping(files, r)
  {
    forall f | f in chosen
      ensures f in Overlapping(files, r)
    {
      assert f in chosen + in1;
      OkFileIsOrdered(f);
      assert Inside(f, all);
    }
  }
}
