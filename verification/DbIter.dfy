/** DBIter: a bidirectional cursor over the keys visible at one sequence number,
    run on top of a cursor over all internal entries. */
module DbIter {
  import opened InternalKeys
  import opened Ranges

  /** An internal iterator: an index into one sorted run; |es| means invalid. */
  class Cursor {
    const es: seq<Entry>
    var index: nat

    predicate Valid()
      reads this
    {
      index < |es|
    }

    constructor (es: seq<Entry>)
      ensures this.es == es && index == |es|
    {
      this.es := es;
      this.index := |es|;
    }

    method Next()
      requires Valid()
      modifies this
      ensures index == old(index) + 1
    {
      index := index + 1;
    }

    method Prev()
      requires Valid()
      modifies this
      ensures index == if old(index) == 0 then |es| else old(index) - 1
    {
      index := if index == 0 then |es| else index - 1;
    }

    method Seek(target: IKey)
      modifies this
      ensures index == LowerBound(es, target)
    {
      index := LowerBound(es, target);
    }

    method SeekToFirst()
      modifies this
      ensures index == 0
    {
      index := 0;
    }

    method SeekToLast()
      modifies this
      ensures index == if es == [] then 0 else |es| - 1
    {
      index := if es == [] then 0 else |es| - 1;
    }
  }

  // ----- which entries show -----

  predicate Seen(es: seq<Entry>, s: nat, i: nat)
    requires i < |es|
  {
    es[i].key.seqno <= s
  }

  /** Entry i is a value, and the newest entry for its user key at s. */
  ghost predicate Shows(es: seq<Entry>, s: nat, i: nat) {
    && i < |es|
    && Seen(es, s, i)
    && es[i].key.kind == Put
    && forall j :: 0 <= j < i && Seen(es, s, j) ==> es[j].key.user != es[i].key.user
  }

  /** No entry in [a, b) shows. */
  ghost predicate NoneShows(es: seq<Entry>, s: nat, a: int, b: int) {
    forall i: nat :: a <= i < b && i < |es| ==> !Shows(es, s, i)
  }

  /** No entry in [a, b) is seen at s. */
  ghost predicate NoneSeen(es: seq<Entry>, s: nat, a: int, b: int) {
    forall i: nat :: a <= i < b && i < |es| ==> !Seen(es, s, i)
  }

  ghost predicate ByUser(es: seq<Entry>) {
    forall i, j :: 0 <= i < j < |es| ==> es[i].key.user <= es[j].key.user
  }

  /** A showing entry is what the specification reads for its key. */
  lemma ShowsIsRead(es: seq<Entry>, s: nat, i: nat)
    requires Sorted(es) && Unique(Entries(es)) && Shows(es, s, i)
    ensures Read(Entries(es), es[i].key.user, s) == Some(es[i].value)
  {
    var E, e := Entries(es), es[i];
    forall x | x in E && Candidate(x, e.key.user, s)
      ensures x.key.seqno <= e.key.seqno
    {
      var j :| 0 <= j < |es| && es[j] == x;
      assert Seen(es, s, j);
      assert i <= j;
      assert i == j || Before(es[i].key, es[j].key);
    }
    assert Newest(E, e.key.user, s, e);
    ReadOfNewest(E, e.key.user, s, e);
  }

  /** Every key the specification reads has a showing entry. */
  lemma ReadIsShown(es: seq<Entry>, s: nat, k: UserKey) returns (i: nat)
    requires Sorted(es) && Unique(Entries(es)) && Read(Entries(es), k, s).Some?
    ensures Shows(es, s, i) && es[i].key.user == k
  {
    var E := Entries(es);
    NewestExists(E, k, s);
    if Absent(E, k, s) {
      ReadOfAbsent(E, k, s);
      assert false;
    }
    var e :| Newest(E, k, s, e);
    ReadOfNewest(E, k, s, e);
    i :| 0 <= i < |es| && es[i] == e;
    forall j | 0 <= j < i && Seen(es, s, j)
      ensures es[j].key.user != k
    {
      assert es[j] in E && Before(es[j].key, es[i].key);
      if es[j].key.user == k {
        assert Candidate(es[j], k, s);
      }
    }
  }

  // ----- the ordered map a reader at s iterates over -----

  predicate AtLeast(lo: Low<UserKey>, k: UserKey) {
    match lo
    case Start => true
    case After(l) => l < k
    case From(l) => l <= k
  }

  predicate Below(k: UserKey, hi: Option<UserKey>) {
    hi.Some? ==> k < hi.value
  }

  /** The range holds no key visible at s. */
  ghost predicate NoKeyIn(es: seq<Entry>, s: nat, lo: Low<UserKey>, hi: Option<UserKey>) {
    forall k :: AtLeast(lo, k) && Below(k, hi) ==> Read(Entries(es), k, s) == None
  }

  ghost predicate NoneShowsIn(es: seq<Entry>, s: nat, lo: Low<UserKey>, hi: Option<UserKey>) {
    forall i :: 0 <= i < |es| && Shows(es, s, i) ==> !(AtLeast(lo, es[i].key.user) && Below(es[i].key.user, hi))
  }

  lemma NoneShowsMeansNoKey(es: seq<Entry>, s: nat, lo: Low<UserKey>, hi: Option<UserKey>)
    requires Sorted(es) && Unique(Entries(es)) && NoneShowsIn(es, s, lo, hi)
    ensures NoKeyIn(es, s, lo, hi)
  {
    forall k | AtLeast(lo, k) && Below(k, hi)
      ensures Read(Entries(es), k, s) == None
    {
      if Read(Entries(es), k, s).Some? {
        var i := ReadIsShown(es, s, k);
      }
    }
  }

  class DBIter {
    const iter: Cursor
    const sequence: nat
    var savedKey: Option<UserKey>   // == current key when direction == Reverse; None once cleared
    var savedValue: Value           // == current value when direction == Reverse
    var direction: Direction
    var valid: bool
    ghost var at: nat               // the showing entry the cursor is on

    /** The entries between the inner position and `at` are all invisible. */
    ghost predicate ReversePosition()
      reads this, iter
    {
      && (iter.index >= |iter.es| ==> NoneSeen(iter.es, sequence, 0, at))
      && (iter.index < |iter.es| ==>
            && iter.index < at < |iter.es|
            && iter.es[iter.index].key.user < iter.es[at].key.user
            && NoneSeen(iter.es, sequence, iter.index + 1, at))
    }

    ghost predicate Base()
      reads this, iter
    {
      Sorted(iter.es) && Unique(Entries(iter.es)) && iter.index <= |iter.es|
    }

    ghost predicate Valid()
      reads this, iter
    {
      && Base()
      && (valid ==> Shows(iter.es, sequence, at))
      && (valid && direction == Forward ==> iter.index == at)
      && (valid && direction == Reverse ==>
            && savedKey == Some(iter.es[at].key.user)
            && savedValue == iter.es[at].value
            && ReversePosition())
    }

    constructor (iter: Cursor, sequence: nat)
      requires Sorted(iter.es) && Unique(Entries(iter.es)) && iter.index <= |iter.es|
      ensures Valid() && !valid && this.iter == iter && this.sequence == sequence
    {
      this.iter := iter;
      this.sequence := sequence;
      this.savedKey := None;
      this.savedValue := "";
      this.direction := Forward;
      this.valid := false;
      this.at := 0;
    }

    function Key(): UserKey
      requires Valid() && valid
      reads this, iter
    {
      if direction == Forward then iter.es[iter.index].key.user else savedKey.value
    }

    function Value(): Value
      requires Valid() && valid
      reads this, iter
    {
      if direction == Forward then iter.es[iter.index].value else savedValue
    }

    // ----- moving forward -----

    /** Scan forward from the inner position to the first showing entry that is
        not at or below `skip`. */
    method FindNextUserEntry(skip: Option<UserKey>)
      requires Base() && iter.index < |iter.es| && direction == Forward
      requires Passed(iter.es, sequence, iter.index, skip) && SkipBehind(iter.es, sequence, iter.index, skip)
      modifies this, iter
      ensures Valid() && direction == Forward
      ensures valid ==> old(iter.index) <= at && (skip.Some? ==> skip.value < iter.es[at].key.user)
      ensures OnlySkipped(iter.es, sequence, old(iter.index), if valid then at else |iter.es|, skip)
    {
      hide Sorted, Unique, Shows, Scanning, Passed, SkipBehind, OnlySkipped, ReversePosition;
      var hidden := skip;
      ghost var start := iter.index;
      ghost var es := iter.es;
      valid := false;
      savedKey := None;
      ScanStart(es, sequence, start, skip);
      while iter.index < |iter.es|
        invariant start <= iter.index <= |es| && !valid && direction == Forward
        invariant Scanning(es, sequence, start, iter.index, skip, hidden)
      {
        var e := iter.es[iter.index];
        if e.key.seqno <= sequence && e.key.kind == Deletion {
          ScanDeletion(es, sequence, start, iter.index, skip, hidden);
          hidden := Some(e.key.user);
        } else if e.key.seqno <= sequence && !(hidden.Some? && e.key.user <= hidden.value) {
          ScanFound(es, sequence, start, iter.index, skip, hidden);
          valid := true;
          at := iter.index;
          return;
        } else {
          ScanPast(es, sequence, start, iter.index, skip, hidden);
        }
        iter.Next();
      }
      ScanEnd(es, sequence, start, iter.index, skip, hidden);
    }

    // ----- moving backward -----

    /** Scan backward from the inner position p to the last showing entry at or
        before it, remembering its key and value. */
    method FindPrevUserEntry()
      requires Base() && direction == Reverse
      modifies this, iter
      ensures Valid()
      ensures valid ==> direction == Reverse && at <= old(iter.index) < |iter.es|
      ensures valid ==> NoneShows(iter.es, sequence, at + 1, old(iter.index) + 1)
      ensures !valid ==> NoneShows(iter.es, sequence, 0, if old(iter.index) < |iter.es| then old(iter.index) + 1 else 0)
    {
      hide Sorted, Unique, Shows, NoneShows, NoneSeen;
      var kind := Deletion;
      ghost var es := iter.es;
      ghost var p: int := if iter.index < |es| then iter.index else -1;
      ghost var c := p;
      BackStart(es, sequence, p);
      while iter.Valid()
        invariant -1 <= c <= p < |es| && iter.index == if c < 0 then |es| else c
        invariant Backing(es, sequence, p, c, kind, at, savedKey, savedValue)
        invariant direction == Reverse
        decreases c
      {
        var e := iter.es[iter.index];
        if e.key.seqno <= sequence {
          if kind != Deletion && e.key.user < savedKey.value {
            break;
          }
          BackSeen(es, sequence, p, c, kind, at, savedKey, savedValue);
          kind := e.key.kind;
          if kind == Deletion {
            savedKey, savedValue := None, "";
          } else {
            savedKey, savedValue := Some(e.key.user), e.value;
            at := iter.index;
          }
        } else {
          BackUnseen(es, sequence, p, c, kind, at, savedKey, savedValue);
        }
        iter.Prev();
        c := c - 1;
      }
      BackEnd(es, sequence, p, c, kind, at, savedKey, savedValue);
      if kind == Deletion {
        valid := false;
        savedKey, savedValue := None, "";
        direction := Forward;
      } else {
        valid := true;
      }
    }

    // ----- the Iterator interface -----

    /** The cursor is on the first visible key of the range, or the range has none. */
    ghost predicate OnFirst(lo: Low<UserKey>)
      requires Valid()
      reads this, iter
    {
      && (valid ==>
            && AtLeast(lo, Key())
            && Read(Entries(iter.es), Key(), sequence) == Some(Value())
            && NoKeyIn(iter.es, sequence, lo, Some(Key())))
      && (!valid ==> NoKeyIn(iter.es, sequence, lo, None))
    }

    /** The cursor is on the last visible key below hi, or there is none. */
    ghost predicate OnLast(hi: Option<UserKey>)
      requires Valid()
      reads this, iter
    {
      && (valid ==>
            && Below(Key(), hi)
            && Read(Entries(iter.es), Key(), sequence) == Some(Value())
            && NoKeyIn(iter.es, sequence, After(Key()), hi))
      && (!valid ==> NoKeyIn(iter.es, sequence, Start, hi))
    }

    lemma OnFirstFromScan(lo: Low<UserKey>, start: nat, skip: Option<UserKey>)
      requires Valid() && direction == Forward && start <= |iter.es|
      requires valid ==> start <= at && AtLeast(lo, iter.es[at].key.user)
      requires OnlySkipped(iter.es, sequence, start, if valid then at else |iter.es|, skip)
      requires skip.Some? ==> lo == After(skip.value)
      requires forall i :: 0 <= i < start && Shows(iter.es, sequence, i) ==> !AtLeast(lo, iter.es[i].key.user)
      ensures OnFirst(lo)
    {
      hide Sorted, Unique, Shows, OnlySkipped, NoneShowsIn, NoKeyIn, ReversePosition;
      if valid {
        ShowsInRange(iter.es, sequence, at);
        SkippedBefore(iter.es, sequence, lo, start, at, skip);
        NoneShowsMeansNoKey(iter.es, sequence, lo, Some(Key()));
        ShowsIsRead(iter.es, sequence, at);
      } else {
        SkippedToEnd(iter.es, sequence, lo, start, skip);
        NoneShowsMeansNoKey(iter.es, sequence, lo, None);
      }
    }

    method SeekToFirst()
      requires Valid()
      modifies this, iter
      ensures Valid() && OnFirst(Start)
    {
      direction := Forward;
      savedValue := "";
      iter.SeekToFirst();
      if iter.Valid() {
        FindNextUserEntry(None);
      } else {
        valid := false;
      }
      OnFirstFromScan(Start, 0, None);
    }

    method Seek(target: UserKey)
      requires Valid()
      modifies this, iter
      ensures Valid() && OnFirst(From(target))
    {
      direction := Forward;
      savedValue := "";
      savedKey := None;
      iter.Seek(SeekKey(target, sequence));
      ghost var start := iter.index;
      SeekPasses(iter.es, sequence, target, start);
      if iter.Valid() {
        FindNextUserEntry(None);
      } else {
        valid := false;
      }
      OnFirstFromScan(From(target), start, None);
    }

    method Next()
      requires Valid() && valid
      modifies this, iter
      ensures Valid() && OnFirst(After(old(Key())))
    {
      hide Sorted, Unique, Shows, NoneSeen, Passed, SkipBehind, OnlySkipped, NoKeyIn, NoneShowsIn;
      ghost var k0 := Key();
      ShowsInRange(iter.es, sequence, at);
      NextPasses(iter.es, sequence, at, iter.index, direction);
      if direction == Reverse {
        direction := Forward;
        if !iter.Valid() {
          iter.SeekToFirst();
        } else {
          iter.Next();
        }
        if !iter.Valid() {
          // Not reachable: the entries of the current key lie ahead.
          assert false;
        }
      } else {
        savedKey := Some(iter.es[iter.index].key.user);
      }
      ghost var start := iter.index;
      FindNextUserEntry(savedKey);
      OnFirstFromScan(After(k0), start, Some(k0));
    }

    lemma OnLastFromScan(hi: Option<UserKey>, p: int)
      requires Valid() && -1 <= p < |iter.es|
      requires valid ==> at <= p && Below(iter.es[at].key.user, hi) && NoneShows(iter.es, sequence, at + 1, p + 1)
      requires !valid ==> NoneShows(iter.es, sequence, 0, p + 1)
      requires forall i :: p < i < |iter.es| && Shows(iter.es, sequence, i) ==> !Below(iter.es[i].key.user, hi)
      ensures OnLast(hi)
    {
      hide Sorted, Unique, Shows, NoneShows, NoneShowsIn, NoKeyIn, ReversePosition;
      if valid {
        NoneAfter(iter.es, sequence, at, p, hi);
        NoneShowsMeansNoKey(iter.es, sequence, After(Key()), hi);
        ShowsIsRead(iter.es, sequence, at);
      } else {
        NoneAtAll(iter.es, sequence, p, hi);
        NoneShowsMeansNoKey(iter.es, sequence, Start, hi);
      }
    }

    method SeekToLast()
      requires Valid()
      modifies this, iter
      ensures Valid() && OnLast(None)
    {
      direction := Reverse;
      savedValue := "";
      iter.SeekToLast();
      FindPrevUserEntry();
      OnLastFromScan(None, |iter.es| - 1);
    }

    /** Switching to reverse: step back until the key changes. */
    method LeaveCurrentKey()
      requires Base() && iter.index < |iter.es|
      modifies this`savedKey, iter
      ensures Base() && savedKey == Some(iter.es[old(iter.index)].key.user)
      ensures iter.index < |iter.es| ==> iter.index < old(iter.index) && iter.es[iter.index].key.user < savedKey.value
      ensures forall i :: (iter.index < |iter.es| ==> iter.index < i) && 0 <= i <= old(iter.index) ==>
        savedKey.value <= iter.es[i].key.user
    {
      hide Sorted, Unique;
      savedKey := Some(iter.es[iter.index].key.user);
      while true
        invariant Base() && iter.index <= old(iter.index)
        invariant savedKey == Some(iter.es[old(iter.index)].key.user)
        invariant forall i :: iter.index <= i <= old(iter.index) ==> savedKey.value <= iter.es[i].key.user
        decreases iter.index
      {
        iter.Prev();
        if !iter.Valid() {
          return;
        }
        if iter.es[iter.index].key.user < savedKey.value {
          return;
        }
      }
    }

    method Prev()
      requires Valid() && valid
      modifies this, iter
      ensures Valid() && OnLast(Some(old(Key())))
    {
      hide Unique, NoKeyIn, Read;
      ghost var k0, at0 := Key(), at;
      PrevPasses(iter.es, sequence, at, k0);
      if direction == Forward {
        LeaveCurrentKey();
        if !iter.Valid() {
          valid := false;
          savedKey, savedValue := None, "";
          assert NoneShows(iter.es, sequence, 0, 0);
          OnLastFromScan(Some(k0), -1);
          return;
        }
        direction := Reverse;
      }
      ghost var p: int := if iter.index < |iter.es| then iter.index else -1;
      assert forall i :: p < i < at0 && Seen(iter.es, sequence, i) ==> k0 <= iter.es[i].key.user;
      FindPrevUserEntry();
      OnLastFromScan(Some(k0), p);
    }
  }

  // ----- the backward scan -----

  /** The backward scan from p has reached c (exclusive of c); `kind` is the kind of
      the last seen entry, and `at` that entry if it is a value. */
  ghost predicate Backing(es: seq<Entry>, s: nat, p: int, c: int, kind: Kind, at: nat, key: Option<UserKey>, value: Value) {
    && c <= p < |es|
    && (kind == Deletion ==> NoneShows(es, s, c + 1, p + 1))
    && (kind == Put ==>
          && c < at <= p
          && Seen(es, s, at) && es[at].key.kind == Put
          && key == Some(es[at].key.user) && value == es[at].value
          && NoneSeen(es, s, c + 1, at)
          && NoneShows(es, s, at + 1, p + 1))
  }

  lemma BackStart(es: seq<Entry>, s: nat, p: int)
    requires -1 <= p < |es|
    ensures NoneShows(es, s, p + 1, p + 1)
  {
  }

  lemma BackUnseen(es: seq<Entry>, s: nat, p: int, c: int, kind: Kind, at: nat, key: Option<UserKey>, value: Value)
    requires Backing(es, s, p, c, kind, at, key, value) && 0 <= c && !Seen(es, s, c)
    ensures Backing(es, s, p, c - 1, kind, at, key, value)
  {
  }

  lemma BackSeen(es: seq<Entry>, s: nat, p: int, c: int, kind: Kind, at: nat, key: Option<UserKey>, value: Value)
    requires Sorted(es) && Backing(es, s, p, c, kind, at, key, value) && 0 <= c && Seen(es, s, c)
    requires kind == Put ==> es[c].key.user >= key.value
    ensures es[c].key.kind == Deletion ==> Backing(es, s, p, c - 1, Deletion, at, None, "")
    ensures es[c].key.kind == Put ==> Backing(es, s, p, c - 1, Put, c, Some(es[c].key.user), es[c].value)
  {
    if kind == Put {
      UsersAscend(es);
      assert es[c].key.user == es[at].key.user;
      assert !Shows(es, s, at);
    }
    assert NoneShows(es, s, c + 1, p + 1);
  }

  lemma BackEnd(es: seq<Entry>, s: nat, p: int, c: int, kind: Kind, at: nat, key: Option<UserKey>, value: Value)
    requires Sorted(es) && Backing(es, s, p, c, kind, at, key, value) && -1 <= c
    requires c >= 0 ==> Seen(es, s, c) && kind == Put && es[c].key.user < key.value
    ensures kind == Put ==> Shows(es, s, at) && NoneSeen(es, s, c + 1, at)
    ensures kind == Deletion ==> NoneShows(es, s, 0, p + 1)
  {
    UsersAscend(es);
  }

  // ----- the forward scan -----

  /** Everything seen before index i is behind `skip` or belongs to a smaller key. */
  ghost predicate Passed(es: seq<Entry>, s: nat, i: nat, skip: Option<UserKey>) {
    forall j :: 0 <= j < i && j < |es| && Seen(es, s, j) ==>
      || (skip.Some? && es[j].key.user <= skip.value)
      || (i < |es| && es[j].key.user < es[i].key.user)
  }

  /** Everything seen from index i on is at or after the key to skip. */
  ghost predicate SkipBehind(es: seq<Entry>, s: nat, i: nat, skip: Option<UserKey>) {
    forall j :: i <= j < |es| && Seen(es, s, j) && skip.Some? ==> skip.value <= es[j].key.user
  }

  /** What shows in [a, b) is at or behind the key to skip. */
  ghost predicate OnlySkipped(es: seq<Entry>, s: nat, a: nat, b: nat, skip: Option<UserKey>) {
    forall i :: a <= i < b && i < |es| && Shows(es, s, i) ==> skip.Some? && es[i].key.user <= skip.value
  }

  /** Some entry for k before index i is seen at s. */
  ghost predicate HiddenBy(es: seq<Entry>, s: nat, i: nat, k: UserKey) {
    exists d :: 0 <= d < i && d < |es| && Seen(es, s, d) && es[d].key.user == k
  }

  /** The forward scan from `start` has reached i; `hidden` is the key it is skipping. */
  ghost predicate Scanning(es: seq<Entry>, s: nat, start: nat, i: nat, skip: Option<UserKey>, hidden: Option<UserKey>) {
    && start <= i <= |es|
    && SkipBehind(es, s, i, skip)
    && (i < |es| ==> Passed(es, s, i, hidden))
    && (hidden == skip || (hidden.Some? && HiddenBy(es, s, i, hidden.value) && (skip.Some? ==> skip.value <= hidden.value)))
    && OnlySkipped(es, s, start, i, skip)
  }

  lemma ShowsInRange(es: seq<Entry>, s: nat, i: nat)
    requires Shows(es, s, i)
    ensures i < |es|
  {
  }

  /** From either direction, Next starts its scan just behind the current key. */
  lemma NextPasses(es: seq<Entry>, s: nat, at: nat, index: nat, d: Direction)
    requires Sorted(es) && at < |es| && index <= |es|
    requires d == Forward ==> index == at
    requires d == Reverse && index == |es| ==> NoneSeen(es, s, 0, at)
    requires d == Reverse && index < |es| ==>
      index < at && es[index].key.user < es[at].key.user && NoneSeen(es, s, index + 1, at)
    ensures
      var start := if d == Forward then index else if index == |es| then 0 else index + 1;
      var k := Some(es[at].key.user);
      && start <= at
      && Passed(es, s, start, k) && SkipBehind(es, s, start, k)
      && forall i :: 0 <= i < start ==> es[i].key.user <= es[at].key.user
  {
    UsersAscend(es);
  }

  lemma PrevPasses(es: seq<Entry>, s: nat, at: nat, k: UserKey)
    requires Sorted(es) && at < |es| && es[at].key.user == k
    ensures forall i :: at <= i < |es| ==> k <= es[i].key.user
  {
    UsersAscend(es);
  }

  /** What a seek to the target at snapshot s leaves behind. */
  lemma SeekPasses(es: seq<Entry>, s: nat, target: UserKey, start: nat)
    requires Sorted(es) && start == LowerBound(es, SeekKey(target, s))
    ensures start < |es| ==> Passed(es, s, start, None)
    ensures forall i :: 0 <= i < start && Shows(es, s, i) ==> es[i].key.user < target
    ensures forall i :: start <= i < |es| ==> target <= es[i].key.user
  {
    forall i | 0 <= i < start && Seen(es, s, i)
      ensures es[i].key.user < target
    {
      assert Before(es[i].key, SeekKey(target, s));
    }
    forall i | start <= i < |es|
      ensures target <= es[i].key.user
    {
      assert i == start || Before(es[start].key, es[i].key);
    }
  }

  /** A forward scan that stopped at `at` left nothing that shows between lo and it. */
  lemma SkippedBefore(es: seq<Entry>, s: nat, lo: Low<UserKey>, start: nat, at: nat, skip: Option<UserKey>)
    requires Sorted(es) && start <= at < |es| && OnlySkipped(es, s, start, at, skip)
    requires skip.Some? ==> lo == After(skip.value)
    requires forall i :: 0 <= i < start && Shows(es, s, i) ==> !AtLeast(lo, es[i].key.user)
    ensures NoneShowsIn(es, s, lo, Some(es[at].key.user))
  {
    UsersAscend(es);
    hide Sorted, Shows;
  }

  lemma SkippedToEnd(es: seq<Entry>, s: nat, lo: Low<UserKey>, start: nat, skip: Option<UserKey>)
    requires start <= |es| && OnlySkipped(es, s, start, |es|, skip)
    requires skip.Some? ==> lo == After(skip.value)
    requires forall i :: 0 <= i < start && Shows(es, s, i) ==> !AtLeast(lo, es[i].key.user)
    ensures NoneShowsIn(es, s, lo, None)
  {
    hide Shows;
  }

  /** A backward scan from p that stopped at `at` left nothing that shows above it. */
  lemma NoneAfter(es: seq<Entry>, s: nat, at: nat, p: int, hi: Option<UserKey>)
    requires Sorted(es) && at <= p < |es| && NoneShows(es, s, at + 1, p + 1)
    requires forall i :: p < i < |es| && Shows(es, s, i) ==> !Below(es[i].key.user, hi)
    ensures NoneShowsIn(es, s, After(es[at].key.user), hi)
  {
    UsersAscend(es);
    hide Sorted, Shows;
  }

  lemma NoneAtAll(es: seq<Entry>, s: nat, p: int, hi: Option<UserKey>)
    requires -1 <= p < |es| && NoneShows(es, s, 0, p + 1)
    requires forall i :: p < i < |es| && Shows(es, s, i) ==> !Below(es[i].key.user, hi)
    ensures NoneShowsIn(es, s, Start, hi)
  {
    hide Shows;
  }

  lemma UsersAscend(es: seq<Entry>)
    requires Sorted(es)
    ensures ByUser(es)
  {
  }

  lemma ScanStart(es: seq<Entry>, s: nat, start: nat, skip: Option<UserKey>)
    requires start < |es| && Passed(es, s, start, skip) && SkipBehind(es, s, start, skip)
    ensures Scanning(es, s, start, start, skip, skip)
  {
  }

  lemma ScanDeletion(es: seq<Entry>, s: nat, start: nat, i: nat, skip: Option<UserKey>, hidden: Option<UserKey>)
    requires Sorted(es) && Scanning(es, s, start, i, skip, hidden) && i < |es|
    requires Seen(es, s, i) && es[i].key.kind == Deletion
    ensures Scanning(es, s, start, i + 1, skip, Some(es[i].key.user))
  {
    UsersAscend(es);
    hide Sorted;
    assert HiddenBy(es, s, i + 1, es[i].key.user);
    assert Passed(es, s, i + 1, Some(es[i].key.user));
  }

  lemma ScanPast(es: seq<Entry>, s: nat, start: nat, i: nat, skip: Option<UserKey>, hidden: Option<UserKey>)
    requires Sorted(es) && Scanning(es, s, start, i, skip, hidden) && i < |es|
    requires !Seen(es, s, i) || (hidden.Some? && es[i].key.user <= hidden.value)
    ensures Scanning(es, s, start, i + 1, skip, hidden)
  {
    UsersAscend(es);
    hide Sorted;
    assert OnlySkipped(es, s, start, i + 1, skip);
  }

  lemma ScanFound(es: seq<Entry>, s: nat, start: nat, i: nat, skip: Option<UserKey>, hidden: Option<UserKey>)
    requires Scanning(es, s, start, i, skip, hidden) && i < |es|
    requires Seen(es, s, i) && es[i].key.kind == Put && !(hidden.Some? && es[i].key.user <= hidden.value)
    ensures Shows(es, s, i) && (skip.Some? ==> skip.value < es[i].key.user)
    ensures OnlySkipped(es, s, start, i, skip)
  {
  }

  lemma ScanEnd(es: seq<Entry>, s: nat, start: nat, i: nat, skip: Option<UserKey>, hidden: Option<UserKey>)
    requires Scanning(es, s, start, i, skip, hidden)
    ensures OnlySkipped(es, s, start, i, skip)
  {
  }
}
