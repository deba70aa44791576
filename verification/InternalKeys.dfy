/** Internal keys, entries, and what a read at a snapshot means.

An internal key is a user key with a sequence number and a kind. The engine
sorts entries by increasing user key and, within a user key, by decreasing
sequence number. A read at snapshot s sees, for each user key, the entry with
the greatest sequence number not above s.
*/
module InternalKeys {

  /** User keys under the user-supplied comparator. The engine only compares
      user keys, and every countable total order embeds into the reals, so a
      statement about all real keys is a statement about every comparator. */
  type UserKey = real

  type Value = string

  datatype Kind = Deletion | Put

  datatype IKey = IKey(user: UserKey, seqno: nat, kind: Kind)

  datatype Entry = Entry(key: IKey, value: Value)

  datatype Option<+T> = None | Some(value: T)

  /** kMaxSequenceNumber: sequence numbers occupy 56 bits. */
  const MAX_SEQUENCE: nat := 0xFF_FFFF_FFFF_FFFF

  /** The 64-bit trailer that the comparator compares. */
  function Tag(k: IKey): nat {
    k.seqno * 256 + (if k.kind == Put then 1 else 0)
  }

  /** InternalKeyComparator::Compare(a, b) < 0. */
  predicate Before(a: IKey, b: IKey) {
    a.user < b.user || (a.user == b.user && Tag(a) > Tag(b))
  }

  /** LookupKey: the first internal key a reader of `user` at `snapshot` may see. */
  function SeekKey(user: UserKey, snapshot: nat): IKey {
    IKey(user, snapshot, Put)
  }

  lemma BeforeIsStrictTotalOrder(a: IKey, b: IKey, c: IKey)
    ensures !Before(a, a)
    ensures Before(a, b) && Before(b, c) ==> Before(a, c)
    ensures Before(a, b) || Before(b, a) || a == b
  {
  }

  ghost predicate Sorted(t: seq<Entry>) {
    forall i, j :: 0 <= i < j < |t| ==> Before(t[i].key, t[j].key)
  }

  function Entries(t: seq<Entry>): set<Entry> {
    set e | e in t
  }

  // ----- what a read means -----

  /** `e` is an entry for `k` that a reader at `snap` is allowed to see. */
  ghost predicate Candidate(e: Entry, k: UserKey, snap: nat) {
    e.key.user == k && e.key.seqno <= snap
  }

  ghost predicate Newest(E: set<Entry>, k: UserKey, snap: nat, e: Entry) {
    && e in E
    && Candidate(e, k, snap)
    && forall x :: x in E && Candidate(x, k, snap) ==> x.key.seqno <= e.key.seqno
  }

  ghost predicate Absent(E: set<Entry>, k: UserKey, snap: nat) {
    forall x :: x in E ==> !Candidate(x, k, snap)
  }

  /** At most one entry per user key and sequence number. */
  ghost predicate Unique(E: set<Entry>) {
    forall x, y :: x in E && y in E && x.key.user == y.key.user && x.key.seqno == y.key.seqno ==> x == y
  }

  function Payload(e: Entry): Option<Value> {
    if e.key.kind == Put then Some(e.value) else None
  }

  /** The specification of every read path of the engine. */
  ghost function Read(E: set<Entry>, k: UserKey, snap: nat): Option<Value> {
    if exists e :: Newest(E, k, snap, e) then
      var e :| Newest(E, k, snap, e);
      Payload(e)
    else
      None
  }

  lemma {:induction false} NewestExists(E: set<Entry>, k: UserKey, snap: nat)
    ensures Absent(E, k, snap) || exists e :: Newest(E, k, snap, e)
    decreases |E|
  {
    if !Absent(E, k, snap) {
      var x :| x in E && Candidate(x, k, snap);
      var rest := E - {x};
      NewestExists(rest, k, snap);
      if Absent(rest, k, snap) {
        assert Newest(E, k, snap, x);
      } else {
        var e :| Newest(rest, k, snap, e);
        if e.key.seqno < x.key.seqno {
          assert Newest(E, k, snap, x);
        } else {
          assert Newest(E, k, snap, e);
        }
      }
    }
  }

  lemma ReadOfNewest(E: set<Entry>, k: UserKey, snap: nat, e: Entry)
    requires Unique(E) && Newest(E, k, snap, e)
    ensures Read(E, k, snap) == Payload(e)
  {
    assert forall x :: Newest(E, k, snap, x) ==> x == e;
  }

  lemma ReadOfAbsent(E: set<Entry>, k: UserKey, snap: nat)
    requires Absent(E, k, snap)
    ensures Read(E, k, snap) == None
  {
  }

  // ----- searching one sorted run of entries -----

  /** The first index whose key is not before `target`, or |t|. This is what a
      seek in a memtable or in a table returns. */
  function LowerBound(t: seq<Entry>, target: IKey): (r: nat)
    ensures r <= |t|
    ensures forall i :: 0 <= i < r ==> Before(t[i].key, target)
    ensures r < |t| ==> !Before(t[r].key, target)
  {
    if t == [] then 0
    else if Before(t[0].key, target) then
      var r := LowerBound(t[1..], target);
      assert forall i :: 0 < i < 1 + r ==> t[i] == t[1..][i - 1];
      1 + r
    else 0
  }

  /** MemTable::Get and Table::InternalGet with SaveValue: seek, then check that
      the entry found is for the same user key. */
  function SearchRun(t: seq<Entry>, k: UserKey, snap: nat): Option<Entry> {
    var i := LowerBound(t, SeekKey(k, snap));
    if i < |t| && t[i].key.user == k then Some(t[i]) else None
  }

  lemma SearchRunFindsNewest(t: seq<Entry>, k: UserKey, snap: nat)
    requires Sorted(t)
    ensures SearchRun(t, k, snap).Some? ==> Newest(Entries(t), k, snap, SearchRun(t, k, snap).value)
    ensures SearchRun(t, k, snap).None? ==> Absent(Entries(t), k, snap)
  {
    var target := SeekKey(k, snap);
    var i := LowerBound(t, target);
    forall x | x in Entries(t) && Candidate(x, k, snap)
      ensures i < |t| && t[i].key.user == k && x.key.seqno <= t[i].key.seqno
    {
      var j :| 0 <= j < |t| && t[j] == x;
      assert !Before(x.key, target);
      assert i <= j;
      assert i == j || Before(t[i].key, t[j].key);
    }
  }
}
