/** Bytewise and internal-key comparison, and the shortened keys used in indexes. */
module Comparator {
  import opened Coding
  import InternalKeys

  /** Slice::compare(a, b) < 0: the first differing byte decides, then the length. */
  predicate Less(a: Bytes, b: Bytes) {
    if b == [] then false
    else if a == [] then true
    else a[0] < b[0] || (a[0] == b[0] && Less(a[1..], b[1..]))
  }

  lemma {:induction false} LessIrreflexive(a: Bytes)
    ensures !Less(a, a)
  {
    if a != [] {
      LessIrreflexive(a[1..]);
    }
  }

  lemma {:induction false} LessTransitive(a: Bytes, b: Bytes, c: Bytes)
    requires Less(a, b) && Less(b, c)
    ensures Less(a, c)
  {
    if a != [] && a[0] == b[0] == c[0] {
      LessTransitive(a[1..], b[1..], c[1..]);
    }
  }

  lemma {:induction false} LessTotal(a: Bytes, b: Bytes)
    ensures Less(a, b) || Less(b, a) || a == b
  {
    if a != [] && b != [] && a[0] == b[0] {
      LessTotal(a[1..], b[1..]);
      if a[1..] == b[1..] {
        assert a == [a[0]] + a[1..] && b == [b[0]] + b[1..];
      }
    }
  }

  /** Equal up to d, and then the byte at d decides. */
  lemma {:induction false} LessAt(a: Bytes, b: Bytes, d: nat)
    requires d < |a| && d < |b| && a[..d] == b[..d]
    ensures a[d] < b[d] ==> Less(a, b)
    ensures a[d] > b[d] ==> !Less(a, b)
  {
    if d > 0 {
      assert a[0] == a[..d][0] == b[..d][0] == b[0];
      assert a[1..][..d - 1] == a[..d][1..] == b[..d][1..] == b[1..][..d - 1];
      LessAt(a[1..], b[1..], d - 1);
    }
  }

  /** Byte d is the first that differs, and its successor is still below the limit's. */
  predicate RoomAt(start: Bytes, limit: Bytes, d: nat) {
    && d < |start| && d < |limit| && start[..d] == limit[..d]
    && start[d] != limit[d] && start[d] < 0xff && start[d] + 1 < limit[d]
  }

  /** The prefix up to byte d, with that byte raised by one. */
  function RaisedAt(key: Bytes, d: nat): (r: Bytes)
    requires d < |key| && key[d] < 0xff
    ensures |r| == d + 1
  {
    key[..d] + [key[d] + 1]
  }

  lemma SamePrefix(a: Bytes, b: Bytes, n: nat)
    requires n <= |a| && n <= |b| && a[..n] == b[..n]
    ensures forall k :: 0 <= k < n ==> a[k] == b[k]
  {
    assert forall k :: 0 <= k < n ==> a[k] == a[..n][k] && b[k] == b[..n][k];
  }

  lemma RoomOnce(start: Bytes, limit: Bytes, d: nat, e: nat)
    requires d < |start| && d < |limit| && start[..d] == limit[..d] && start[d] != limit[d] && RoomAt(start, limit, e)
    ensures d == e
  {
    SamePrefix(start, limit, d);
    SamePrefix(start, limit, e);
  }

  /** BytewiseComparator::FindShortestSeparator: a string from start up to limit, cut
      after the first differing byte wherever that byte can be raised. */
  method FindShortestSeparator(start: Bytes, limit: Bytes) returns (r: Bytes)
    ensures r == start || (Less(start, r) && Less(r, limit))
    ensures |r| <= |start|
    ensures forall d: nat :: RoomAt(start, limit, d) ==> r == RaisedAt(start, d)
    ensures r == start || exists d: nat :: RoomAt(start, limit, d)
  {
    var minLength := if |start| < |limit| then |start| else |limit|;
    var d := 0;
    while d < minLength && start[d] == limit[d]
      invariant 0 <= d <= minLength && start[..d] == limit[..d]
    {
      d := d + 1;
    }
    r := start;
    if d < minLength {
      forall e: nat | RoomAt(start, limit, e)
        ensures d == e
      {
        RoomOnce(start, limit, d, e);
      }
      var diff := start[d];
      if diff < 0xff && diff + 1 < limit[d] {
        r := start[..d] + [diff + 1];
        assert r[..d] == start[..d] && r[d] == diff + 1;
        LessAt(start, r, d);
        LessAt(r, limit, d);
        assert RoomAt(start, limit, d);
      }
    } else {
      NoRoom(start, limit, d);
    }
  }

  lemma NoRoom(start: Bytes, limit: Bytes, d: nat)
    requires d <= |start| && d <= |limit| && start[..d] == limit[..d] && (d == |start| || d == |limit|)
    ensures forall e: nat :: !RoomAt(start, limit, e)
  {
    SamePrefix(start, limit, d);
  }

  /** Byte i is the first that is not 0xff. */
  predicate FirstBelowFF(key: Bytes, i: nat) {
    i < |key| && key[i] != 0xff && forall j :: 0 <= j < i ==> key[j] == 0xff
  }

  /** BytewiseComparator::FindShortSuccessor: a string not before key, cut after its
      first byte that can be raised. */
  method FindShortSuccessor(key: Bytes) returns (r: Bytes)
    ensures r == key || Less(key, r)
    ensures |r| <= |key|
    ensures r == key ==> forall i :: 0 <= i < |key| ==> key[i] == 0xff
    ensures forall i: nat :: FirstBelowFF(key, i) ==> r == RaisedAt(key, i)
    ensures r == key || exists i: nat :: FirstBelowFF(key, i)
  {
    var i := 0;
    while i < |key|
      invariant 0 <= i <= |key|
      invariant forall j :: 0 <= j < i ==> key[j] == 0xff
    {
      if key[i] != 0xff {
        r := key[..i] + [key[i] + 1];
        assert r[..i] == key[..i] && r[i] == key[i] + 1;
        LessAt(key, r, i);
        assert FirstBelowFF(key, i) && forall e: nat :: FirstBelowFF(key, e) ==> e == i;
        LessIrreflexive(key);
        return;
      }
      i := i + 1;
    }
    r := key;
  }

  // ----- internal keys -----

  /** A user key and the 64-bit word holding sequence number and type. */
  datatype Key = Key(user: Bytes, tag: nat)

  /** PackSequenceAndType(kMaxSequenceNumber, kValueTypeForSeek). */
  const SEEK_TAG: nat := InternalKeys.MAX_SEQUENCE * 256 + 1

  /** AppendInternalKey. */
  function Encode(k: Key): (b: Bytes)
    requires k.tag < TWO64
    ensures |b| == |k.user| + 8
  {
    k.user + PutFixed64(k.tag)
  }

  /** ExtractUserKey, and the trailing word. */
  function Decode(b: Bytes): Key
    requires |b| >= 8
  {
    Key(b[..|b| - 8], GetFixed64(b[|b| - 8..]))
  }

  lemma KeyRoundTrip(k: Key)
    requires k.tag < TWO64
    ensures Decode(Encode(k)) == k
  {
    hide PutFixed64, GetFixed64;
    assert Encode(k)[|k.user|..] == PutFixed64(k.tag) + [];
    Fixed64RoundTrip(k.tag, []);
  }

  /** InternalKeyComparator::Compare(a, b) < 0. */
  predicate Before(a: Key, b: Key) {
    Less(a.user, b.user) || (a.user == b.user && a.tag > b.tag)
  }

  lemma BeforeTransitive(a: Key, b: Key, c: Key)
    requires Before(a, b) && Before(b, c)
    ensures Before(a, c)
  {
    if Less(a.user, b.user) && Less(b.user, c.user) {
      LessTransitive(a.user, b.user, c.user);
    }
  }

  lemma BeforeTotal(a: Key, b: Key)
    ensures Before(a, b) || Before(b, a) || a == b
    ensures !(Before(a, b) && Before(b, a)) && !Before(a, a)
  {
    LessTotal(a.user, b.user);
    LessIrreflexive(a.user);
    if Less(a.user, b.user) && Less(b.user, a.user) {
      LessTransitive(a.user, b.user, a.user);
    }
  }

  /** A key that may stand in the index between start and limit: not before start,
      before limit, and not cutting through the user key of limit. */
  ghost predicate Separates(start: Key, r: Key, limit: Key) {
    && !Before(r, start) && Before(r, limit)
    && (r == start || (Less(start.user, r.user) && Less(r.user, limit.user)))
  }

  /** InternalKeyComparator::FindShortestSeparator. */
  method FindShortestInternalSeparator(start: Key, limit: Key) returns (r: Key)
    requires Before(start, limit)
    ensures Separates(start, r, limit) && (r.tag == start.tag || r.tag == SEEK_TAG) && |r.user| <= |start.user|
    ensures forall d: nat :: RoomAt(start.user, limit.user, d) && d + 1 < |start.user| ==>
      r == Key(RaisedAt(start.user, d), SEEK_TAG)
    ensures r == start || exists d: nat :: RoomAt(start.user, limit.user, d) && d + 1 < |start.user|
  {
    hide Less, RoomAt;
    BeforeTotal(start, limit);
    r := start;
    var tmp := FindShortestSeparator(start.user, limit.user);
    if |tmp| < |start.user| && Less(start.user, tmp) {
      r := Key(tmp, SEEK_TAG);
      assert Before(start, r);
      BeforeTotal(start, r);
    }
  }

  /** InternalKeyComparator::FindShortSuccessor. */
  method FindShortInternalSuccessor(key: Key) returns (r: Key)
    ensures !Before(r, key)
    ensures (r == key || Less(key.user, r.user)) && (r.tag == key.tag || r.tag == SEEK_TAG) && |r.user| <= |key.user|
    ensures forall i: nat :: FirstBelowFF(key.user, i) && i + 1 < |key.user| ==> r == Key(RaisedAt(key.user, i), SEEK_TAG)
    ensures r == key || exists i: nat :: FirstBelowFF(key.user, i) && i + 1 < |key.user|
  {
    hide Less;
    BeforeTotal(key, key);
    r := key;
    var tmp := FindShortSuccessor(key.user);
    if |tmp| < |key.user| && Less(key.user, tmp) {
      r := Key(tmp, SEEK_TAG);
      assert Before(key, r);
      BeforeTotal(key, r);
    }
  }
}
