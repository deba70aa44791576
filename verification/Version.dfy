/** Table files, the levels of a version, and the lookups over them. */
module Version {
  import opened InternalKeys

  /** config::kNumLevels. */
  const NUM_LEVELS: nat := 7

  /** FileMetaData together with the immutable contents of the table. */
  datatype File = File(number: nat, size: nat, smallest: IKey, largest: IKey, table: seq<Entry>)

  type Levels = seq<seq<File>>

  ghost predicate FileOk(f: File) {
    && |f.table| > 0
    && Sorted(f.table)
    && f.smallest == f.table[0].key
    && f.largest == f.table[|f.table| - 1].key
    && forall e :: e in f.table ==> e.key.seqno <= MAX_SEQUENCE
  }

  ghost predicate FilesOk(files: seq<File>) {
    forall f :: f in files ==> FileOk(f)
  }

  /** A level below 0: sorted, and no two files meet in internal-key order. */
  ghost predicate SortedDisjoint(files: seq<File>) {
    forall i, j :: 0 <= i < j < |files| ==> Before(files[i].largest, files[j].smallest)
  }

  /** Wherever both hold a user key, `s` holds strictly newer entries than `t`. */
  ghost predicate Newer(s: seq<Entry>, t: seq<Entry>) {
    forall a, b :: a in s && b in t && a.key.user == b.key.user ==> a.key.seqno > b.key.seqno
  }

  ghost predicate Level0Recency(files: seq<File>) {
    forall f, g {:trigger Newer(f.table, g.table)} :: f in files && g in files && f.number > g.number ==> Newer(f.table, g.table)
  }

  ghost predicate LevelRecency(v: Levels) {
    forall i, j, f, g {:trigger v[i], v[j], Newer(f.table, g.table)} ::
      0 <= i < j < |v| && f in v[i] && g in v[j] ==> Newer(f.table, g.table)
  }

  ghost predicate DistinctNumbers(files: seq<File>) {
    forall i, j :: 0 <= i < j < |files| ==> files[i].number != files[j].number
  }

  ghost predicate VersionOk(v: Levels) {
    && |v| == NUM_LEVELS
    && (forall i :: 0 <= i < |v| ==> FilesOk(v[i]) && DistinctNumbers(v[i]))
    && (forall i :: 1 <= i < |v| ==> SortedDisjoint(v[i]))
    && Level0Recency(v[0])
    && LevelRecency(v)
  }

  /** All entries held by a list of files. */
  function FileEntries(files: seq<File>): set<Entry> {
    if files == [] then {} else Entries(files[0].table) + FileEntries(files[1..])
  }

  /** All entries held by the levels of a version. */
  function VersionEntries(v: Levels): set<Entry> {
    if v == [] then {} else FileEntries(v[0]) + VersionEntries(v[1..])
  }

  lemma {:induction false} FileEntriesHas(files: seq<File>, f: File, e: Entry)
    requires f in files && e in f.table
    ensures e in FileEntries(files)
  {
    if f != files[0] {
      FileEntriesHas(files[1..], f, e);
    }
  }

  lemma {:induction false} FileEntriesFrom(files: seq<File>, e: Entry) returns (f: File)
    requires e in FileEntries(files)
    ensures f in files && e in f.table
  {
    if e in files[0].table {
      f := files[0];
    } else {
      f := FileEntriesFrom(files[1..], e);
    }
  }

  lemma {:induction false} VersionEntriesHas(v: Levels, l: nat, e: Entry)
    requires l < |v| && e in FileEntries(v[l])
    ensures e in VersionEntries(v)
  {
    if l > 0 {
      VersionEntriesHas(v[1..], l - 1, e);
    }
  }

  lemma {:induction false} VersionEntriesFrom(v: Levels, e: Entry) returns (l: nat)
    requires e in VersionEntries(v)
    ensures l < |v| && e in FileEntries(v[l])
  {
    if e in FileEntries(v[0]) {
      l := 0;
    } else {
      l := VersionEntriesFrom(v[1..], e);
      l := l + 1;
    }
  }

  /** Every entry of a file lies between its recorded end points. */
  lemma EntryWithinFile(f: File, e: Entry)
    requires FileOk(f) && e in f.table
    ensures !Before(e.key, f.smallest) && !Before(f.largest, e.key)
    ensures f.smallest.user <= e.key.user <= f.largest.user
  {
    var i :| 0 <= i < |f.table| && f.table[i] == e;
    assert i == 0 || Before(f.table[0].key, e.key);
    assert i == |f.table| - 1 || Before(e.key, f.table[|f.table| - 1].key);
  }

  // ----- FindFile -----

  /** The first file whose largest key is at or after `key`. */
  method FindFile(files: seq<File>, key: IKey) returns (r: nat)
    requires FilesOk(files) && SortedDisjoint(files)
    ensures r <= |files|
    ensures forall i :: 0 <= i < r ==> Before(files[i].largest, key)
    ensures forall i :: r <= i < |files| ==> !Before(files[i].largest, key)
  {
    var left, right := 0, |files|;
    while left < right
      invariant 0 <= left <= right <= |files|
      invariant forall i :: 0 <= i < left ==> Before(files[i].largest, key)
      invariant forall i :: right <= i < |files| ==> !Before(files[i].largest, key)
    {
      var mid := (left + right) / 2;
      LargestIncreasing(files);
      if Before(files[mid].largest, key) {
        left := mid + 1;
      } else {
        right := mid;
      }
    }
    r := right;
  }

  lemma LargestIncreasing(files: seq<File>)
    requires FilesOk(files) && SortedDisjoint(files)
    ensures forall i, j :: 0 <= i < j < |files| ==> Before(files[i].largest, files[j].largest)
  {
    forall i, j | 0 <= i < j < |files|
      ensures Before(files[i].largest, files[j].largest)
    {
      assert files[j] in files;
      var t := files[j].table;
      assert |t| == 1 || Before(t[0].key, t[|t| - 1].key);
    }
  }

  // ----- SomeFileOverlapsRange -----

  /** AfterFile: an open lower end is never after a file. */
  predicate AfterFile(user: Option<UserKey>, f: File) {
    user.Some? && user.value > f.largest.user
  }

  /** BeforeFile: an open upper end is never before a file. */
  predicate BeforeFile(user: Option<UserKey>, f: File) {
    user.Some? && user.value < f.smallest.user
  }

  /** The file's user-key range meets [lo, hi]. */
  predicate Overlaps(f: File, lo: Option<UserKey>, hi: Option<UserKey>) {
    !AfterFile(lo, f) && !BeforeFile(hi, f)
  }

  ghost predicate SomeOverlap(files: seq<File>, lo: Option<UserKey>, hi: Option<UserKey>) {
    exists i :: 0 <= i < |files| && Overlaps(files[i], lo, hi)
  }

  /** The binary search over a disjoint level answers exactly like the scan. */
  method SomeFileOverlapsRange(disjoint: bool, files: seq<File>, lo: Option<UserKey>, hi: Option<UserKey>)
    returns (b: bool)
    requires FilesOk(files)
    requires disjoint ==> SortedDisjoint(files)
    ensures b <==> SomeOverlap(files, lo, hi)
  {
    if !disjoint {
      for i := 0 to |files|
        invariant forall j :: 0 <= j < i ==> !Overlaps(files[j], lo, hi)
      {
        if AfterFile(lo, files[i]) || BeforeFile(hi, files[i]) {
        } else {
          return true;
        }
      }
      return false;
    }
    var index := 0;
    if lo.Some? {
      index := FindFile(files, SeekKey(lo.value, MAX_SEQUENCE));
      SeekKeyIsAfterFile(files, lo.value);
    }
    assert forall i :: 0 <= i < index ==> AfterFile(lo, files[i]);
    assert forall i :: index <= i < |files| ==> !AfterFile(lo, files[i]);
    if index >= |files| {
      return false;
    }
    SmallestIncreasing(files);
    b := !BeforeFile(hi, files[index]);
    assert b ==> Overlaps(files[index], lo, hi);
  }

  lemma SeekKeyIsAfterFile(files: seq<File>, k: UserKey)
    requires FilesOk(files)
    ensures forall i :: 0 <= i < |files| ==>
      (Before(files[i].largest, SeekKey(k, MAX_SEQUENCE)) <==> AfterFile(Some(k), files[i]))
  {
    forall i | 0 <= i < |files|
      ensures Before(files[i].largest, SeekKey(k, MAX_SEQUENCE)) <==> AfterFile(Some(k), files[i])
    {
      var f := files[i];
      assert f in files;
      assert f.table[|f.table| - 1] in f.table;
    }
  }

  lemma SmallestIncreasing(files: seq<File>)
    requires FilesOk(files) && SortedDisjoint(files)
    ensures forall i, j :: 0 <= i < j < |files| ==> Before(files[i].smallest, files[j].smallest)
  {
    forall i, j | 0 <= i < j < |files|
      ensures Before(files[i].smallest, files[j].smallest)
    {
      assert files[i] in files;
      var t := files[i].table;
      assert |t| == 1 || Before(t[0].key, t[|t| - 1].key);
    }
  }

  // ----- Version::Get -----

  /** A search result agrees with the set of entries it searched. */
  ghost predicate Answers(E: set<Entry>, k: UserKey, snap: nat, hit: Option<Entry>) {
    match hit
    case Some(e) => Newest(E, k, snap, e)
    case None => Absent(E, k, snap)
  }

  ghost predicate DescendingNumbers(files: seq<File>) {
    forall i, j :: 0 <= i < j < |files| ==> files[i].number > files[j].number
  }

  /** The files whose user-key range holds k. */
  function Holding(files: seq<File>, k: UserKey): (r: seq<File>)
    ensures forall f :: f in r <==> f in files && f.smallest.user <= k <= f.largest.user
    ensures |r| <= |files|
  {
    if files == [] then []
    else if k >= files[0].smallest.user && k <= files[0].largest.user then [files[0]] + Holding(files[1..], k)
    else Holding(files[1..], k)
  }

  lemma {:induction false} HoldingDistinct(files: seq<File>, k: UserKey)
    requires DistinctNumbers(files)
    ensures DistinctNumbers(Holding(files, k))
  {
    if files != [] {
      var rest := files[1..];
      assert DistinctNumbers(rest);
      HoldingDistinct(rest, k);
      forall f | f in Holding(rest, k)
        ensures f.number != files[0].number
      {
        var i :| 0 <= i < |rest| && rest[i] == f;
        assert files[i + 1] == f;
      }
    }
  }

  /** std::sort with NewestFirst. */
  method SortNewestFirst(files: seq<File>) returns (r: seq<File>)
    requires DistinctNumbers(files)
    ensures DescendingNumbers(r)
    ensures forall f :: f in r <==> f in files
  {
    r := [];
    for i := 0 to |files|
      invariant DescendingNumbers(r)
      invariant forall f :: f in r <==> f in files[..i]
    {
      assert forall f :: f in r ==> f.number != files[i].number;
      assert files[..i + 1] == files[..i] + [files[i]];
      r := InsertNewestFirst(r, files[i]);
    }
    assert files[..|files|] == files;
  }

  method InsertNewestFirst(files: seq<File>, f: File) returns (r: seq<File>)
    requires DescendingNumbers(files)
    requires forall g :: g in files ==> g.number != f.number
    ensures DescendingNumbers(r)
    ensures forall g :: g in r <==> g in files || g == f
  {
    var p := 0;
    while p < |files| && files[p].number > f.number
      invariant p <= |files|
      invariant forall a :: 0 <= a < p ==> files[a].number > f.number
    {
      p := p + 1;
    }
    assert forall a :: p <= a < |files| ==> files[a] in files;
    assert forall a :: p <= a < |files| ==> files[a].number < f.number;
    r := files[..p] + [f] + files[p..];
  }

  /** Level 0: files may overlap, so every file holding k is searched, newest first. */
  method SearchLevel0(files: seq<File>, k: UserKey, snap: nat) returns (hit: Option<Entry>)
    requires FilesOk(files) && DistinctNumbers(files) && Level0Recency(files)
    ensures Answers(FileEntries(files), k, snap, hit)
  {
    HoldingDistinct(files, k);
    var tmp := SortNewestFirst(Holding(files, k));
    for i := 0 to |tmp|
      invariant forall j :: 0 <= j < i ==> Absent(Entries(tmp[j].table), k, snap)
    {
      assert tmp[i] in files;
      SearchRunFindsNewest(tmp[i].table, k, snap);
      hit := SearchRun(tmp[i].table, k, snap);
      if hit.Some? {
        NewestOfLevel0(files, tmp, i, k, snap, hit.value);
        return;
      }
    }
    AbsentFromLevel0(files, tmp, k, snap);
    hit := None;
  }

  lemma NewestOfLevel0(files: seq<File>, tmp: seq<File>, i: nat, k: UserKey, snap: nat, e: Entry)
    requires FilesOk(files) && Level0Recency(files)
    requires DescendingNumbers(tmp) && forall f :: f in tmp <==> f in files && f.smallest.user <= k <= f.largest.user
    requires i < |tmp|
    requires forall j :: 0 <= j < i ==> Absent(Entries(tmp[j].table), k, snap)
    requires Newest(Entries(tmp[i].table), k, snap, e)
    ensures Newest(FileEntries(files), k, snap, e)
  {
    assert tmp[i] in tmp;
    FileEntriesHas(files, tmp[i], e);
    forall x | x in FileEntries(files) && Candidate(x, k, snap)
      ensures x.key.seqno <= e.key.seqno
    {
      var f := FileEntriesFrom(files, x);
      assert FileOk(f);
      EntryWithinFile(f, x);
      assert f in tmp;
      var j :| 0 <= j < |tmp| && tmp[j] == f;
      OlderInLaterFile(tmp, i, j, k, snap, e, x);
    }
  }

  lemma OlderInLaterFile(tmp: seq<File>, i: nat, j: nat, k: UserKey, snap: nat, e: Entry, x: Entry)
    requires Level0Recency(tmp) && DescendingNumbers(tmp)
    requires i < |tmp| && j < |tmp|
    requires j < i ==> Absent(Entries(tmp[j].table), k, snap)
    requires Newest(Entries(tmp[i].table), k, snap, e)
    requires x in tmp[j].table && Candidate(x, k, snap)
    ensures x.key.seqno <= e.key.seqno
  {
    assert x in Entries(tmp[j].table);
    if i < j {
      assert tmp[i] in tmp && tmp[j] in tmp;
      assert Newer(tmp[i].table, tmp[j].table);
    }
  }

  lemma AbsentFromLevel0(files: seq<File>, tmp: seq<File>, k: UserKey, snap: nat)
    requires FilesOk(files)
    requires forall f :: f in tmp <==> f in files && f.smallest.user <= k <= f.largest.user
    requires forall j :: 0 <= j < |tmp| ==> Absent(Entries(tmp[j].table), k, snap)
    ensures Absent(FileEntries(files), k, snap)
  {
    forall x | x in FileEntries(files)
      ensures !Candidate(x, k, snap)
    {
      var f := FileEntriesFrom(files, x);
      EntryWithinFile(f, x);
      if f in tmp {
        assert x in Entries(f.table);
      }
    }
  }

  /** Deeper levels: one binary-searched file decides. */
  method SearchDeeperLevel(files: seq<File>, k: UserKey, snap: nat) returns (hit: Option<Entry>)
    requires FilesOk(files) && SortedDisjoint(files)
    ensures Answers(FileEntries(files), k, snap, hit)
  {
    var index := FindFile(files, SeekKey(k, snap));
    forall x | x in FileEntries(files) && Candidate(x, k, snap)
      ensures index < |files| && DominatedBy(files[index], k, snap, x)
    {
      DominatedByFoundFile(files, index, k, snap, x);
    }
    if index >= |files| {
      hit := None;
    } else if k < files[index].smallest.user {
      forall x | x in FileEntries(files)
        ensures !Candidate(x, k, snap)
      {
        if Candidate(x, k, snap) {
          assert DominatedBy(files[index], k, snap, x);
          NotDominatedBelow(files[index], k, snap, x);
        }
      }
      hit := None;
    } else {
      assert files[index] in files;
      hit := SearchRun(files[index].table, k, snap);
      AnswerOfFoundFile(files, index, k, snap);
    }
  }

  /** The file holds a visible entry for k at least as new as x. */
  ghost predicate DominatedBy(f: File, k: UserKey, snap: nat, x: Entry) {
    exists y :: y in f.table && Candidate(y, k, snap) && y.key.seqno >= x.key.seqno
  }

  lemma NotDominatedBelow(f: File, k: UserKey, snap: nat, x: Entry)
    requires FileOk(f) && k < f.smallest.user
    ensures !DominatedBy(f, k, snap, x)
  {
    forall y | y in f.table
      ensures y.key.user != k
    {
      EntryWithinFile(f, y);
    }
  }

  lemma DominatedByFoundFile(files: seq<File>, index: nat, k: UserKey, snap: nat, x: Entry)
    requires FilesOk(files) && SortedDisjoint(files)
    requires index <= |files|
    requires forall i :: 0 <= i < index ==> Before(files[i].largest, SeekKey(k, snap))
    requires forall i :: index <= i < |files| ==> !Before(files[i].largest, SeekKey(k, snap))
    requires x in FileEntries(files) && Candidate(x, k, snap)
    ensures index < |files| && DominatedBy(files[index], k, snap, x)
  {
    hide FileOk, FileEntries, Before, SeekKey, Candidate;
    var f := FileEntriesFrom(files, x);
    var j :| 0 <= j < |files| && files[j] == f;
    assert FileOk(f);
    FileReachesSeek(f, k, snap, x);
    if index < j {
      assert FileOk(files[index]) && Before(files[index].largest, files[j].smallest);
      LastEntryDominates(files[index], f, k, snap, x);
    } else {
      DominatesItself(f, k, snap, x);
    }
  }

  /** A file that holds a visible entry for k does not end before the seek key. */
  lemma FileReachesSeek(f: File, k: UserKey, snap: nat, x: Entry)
    requires FileOk(f) && x in f.table && Candidate(x, k, snap)
    ensures !Before(f.largest, SeekKey(k, snap))
  {
    EntryWithinFile(f, x);
  }

  lemma DominatesItself(f: File, k: UserKey, snap: nat, x: Entry)
    requires x in f.table && Candidate(x, k, snap)
    ensures DominatedBy(f, k, snap, x)
  {
  }

  lemma LastEntryDominates(g: File, f: File, k: UserKey, snap: nat, x: Entry)
    requires FileOk(g) && FileOk(f) && Before(g.largest, f.smallest)
    requires !Before(g.largest, SeekKey(k, snap))
    requires x in f.table && Candidate(x, k, snap)
    ensures DominatedBy(g, k, snap, x)
  {
    EntryWithinFile(f, x);
    var y := g.table[|g.table| - 1];
    assert y in g.table && Candidate(y, k, snap);
  }

  lemma AnswerOfFoundFile(files: seq<File>, index: nat, k: UserKey, snap: nat)
    requires index < |files| && FileOk(files[index])
    requires forall x :: x in FileEntries(files) && Candidate(x, k, snap) ==> DominatedBy(files[index], k, snap, x)
    ensures Answers(FileEntries(files), k, snap, SearchRun(files[index].table, k, snap))
  {
    var f := files[index];
    SearchRunFindsNewest(f.table, k, snap);
    var hit := SearchRun(f.table, k, snap);
    if hit.Some? {
      FileEntriesHas(files, f, hit.value);
    }
    forall x | x in FileEntries(files) && Candidate(x, k, snap)
      ensures hit.Some? && x.key.seqno <= hit.value.key.seqno
    {
      var y :| y in f.table && Candidate(y, k, snap) && y.key.seqno >= x.key.seqno;
      assert y in Entries(f.table);
    }
  }

  /** Level by level, stopping at the first hit, finds the newest visible entry
      of the whole version. */
  method Get(v: Levels, k: UserKey, snap: nat) returns (hit: Option<Entry>)
    requires VersionOk(v)
    ensures Answers(VersionEntries(v), k, snap, hit)
  {
    for level := 0 to NUM_LEVELS
      invariant forall l :: 0 <= l < level ==> Absent(FileEntries(v[l]), k, snap)
    {
      if level == 0 {
        hit := SearchLevel0(v[level], k, snap);
      } else {
        hit := SearchDeeperLevel(v[level], k, snap);
      }
      if hit.Some? {
        FirstHitIsNewest(v, level, k, snap, hit.value);
        return;
      }
    }
    AbsentFromVersion(v, k, snap);
    hit := None;
  }

  lemma FirstHitIsNewest(v: Levels, level: nat, k: UserKey, snap: nat, e: Entry)
    requires level < |v| && LevelRecency(v)
    requires forall l :: 0 <= l < level ==> Absent(FileEntries(v[l]), k, snap)
    requires Newest(FileEntries(v[level]), k, snap, e)
    ensures Newest(VersionEntries(v), k, snap, e)
  {
    var f := FileEntriesFrom(v[level], e);
    VersionEntriesHas(v, level, e);
    forall x | x in VersionEntries(v) && Candidate(x, k, snap)
      ensures x.key.seqno <= e.key.seqno
    {
      var l := VersionEntriesFrom(v, x);
      var g := FileEntriesFrom(v[l], x);
      assert level <= l;
      if level < l {
        assert Newer(f.table, g.table);
      }
    }
  }

  lemma AbsentFromVersion(v: Levels, k: UserKey, snap: nat)
    requires forall l :: 0 <= l < |v| ==> Absent(FileEntries(v[l]), k, snap)
    ensures Absent(VersionEntries(v), k, snap)
  {
    forall x | x in VersionEntries(v)
      ensures !Candidate(x, k, snap)
    {
      var l := VersionEntriesFrom(v, x);
      assert Absent(FileEntries(v[l]), k, snap);
    }
  }
}
