/** WriteBatch: operations encoded one after another behind a 12-byte header. */
module WriteBatch {
  import opened Coding

  datatype Op = PutOp(key: Bytes, value: Bytes) | DeleteOp(key: Bytes)

  const HEADER: nat := 12

  const TYPE_DELETION: Byte := 0
  const TYPE_VALUE: Byte := 1

  /** Lengths are written as 32-bit varints. */
  predicate Fits(op: Op) {
    |op.key| < TWO32 && (op.PutOp? ==> |op.value| < TWO32)
  }

  function EncodeOp(op: Op): (b: Bytes)
    ensures |b| >= 1
  {
    match op
    case PutOp(k, v) => [TYPE_VALUE] + PutSlice(k) + PutSlice(v)
    case DeleteOp(k) => [TYPE_DELETION] + PutSlice(k)
  }

  function EncodeOps(ops: seq<Op>): Bytes {
    if ops == [] then [] else EncodeOps(ops[..|ops| - 1]) + EncodeOp(ops[|ops| - 1])
  }

  datatype Error = TooSmall | BadPut | BadDelete | UnknownTag | WrongCount

  datatype Outcome = Success | Failure(error: Error)

  /** The operations before the first malformed one, and whether there was one. */
  datatype Decoded = Decoded(ops: seq<Op>, outcome: Outcome)

  datatype Taken = Stop(error: Error) | Took(op: Op, rest: Bytes)

  /** One turn of Iterate's loop. */
  function TakeOp(b: Bytes): (t: Taken)
    requires b != []
    ensures t.Took? ==> |t.rest| < |b|
  {
    GetVarintRest(b[1..]);
    if b[0] == TYPE_VALUE then
      match GetSlice(b[1..])
      case Malformed => Stop(BadPut)
      case Got(k, rest) =>
        GetVarintRest(rest);
        match GetSlice(rest)
        case Malformed => Stop(BadPut)
        case Got(v, rest') => Took(PutOp(k, v), rest')
    else if b[0] == TYPE_DELETION then
      match GetSlice(b[1..])
      case Malformed => Stop(BadDelete)
      case Got(k, rest) => Took(DeleteOp(k), rest)
    else Stop(UnknownTag)
  }

  function DecodeOps(b: Bytes): Decoded
    decreases |b|
  {
    if b == [] then Decoded([], Success)
    else
      match TakeOp(b)
      case Stop(e) => Decoded([], Failure(e))
      case Took(op, rest) => Prepend([op], DecodeOps(rest))
  }

  lemma TakeOpRoundTrip(op: Op, rest: Bytes)
    requires Fits(op)
    ensures TakeOp(EncodeOp(op) + rest) == Took(op, rest)
  {
    hide GetSlice, PutSlice;
    var b := EncodeOp(op) + rest;
    match op
    case PutOp(k, v) =>
      assert b[1..] == PutSlice(k) + (PutSlice(v) + rest);
      SliceRoundTrip(k, PutSlice(v) + rest);
      SliceRoundTrip(v, rest);
    case DeleteOp(k) =>
      assert b[1..] == PutSlice(k) + rest;
      SliceRoundTrip(k, rest);
  }

  ghost predicate AllFit(ops: seq<Op>) {
    forall i :: 0 <= i < |ops| ==> Fits(ops[i])
  }

  /** The head of the encoded operations. */
  lemma {:induction false} EncodeHead(ops: seq<Op>)
    requires ops != []
    ensures EncodeOps(ops) == EncodeOp(ops[0]) + EncodeOps(ops[1..])
  {
    hide EncodeOp;
    if |ops| > 1 {
      var n := |ops| - 1;
      EncodeHead(ops[..n]);
      assert ops[..n][1..] == ops[1..][..n - 1];
    }
  }

  lemma {:induction false} BatchRoundTrip(ops: seq<Op>)
    requires AllFit(ops)
    ensures DecodeOps(EncodeOps(ops)) == Decoded(ops, Success)
  {
    hide TakeOp, EncodeOp;
    if ops != [] {
      EncodeHead(ops);
      TakeOpRoundTrip(ops[0], EncodeOps(ops[1..]));
      BatchRoundTrip(ops[1..]);
      assert ops == [ops[0]] + ops[1..];
    }
  }

  lemma {:induction false} EncodeConcat(a: seq<Op>, b: seq<Op>)
    ensures EncodeOps(a + b) == EncodeOps(a) + EncodeOps(b)
  {
    hide EncodeOp;
    if b == [] {
      assert a + b == a;
    } else {
      var n := |b| - 1;
      assert (a + b)[..|a + b| - 1] == a + b[..n];
      EncodeConcat(a, b[..n]);
    }
  }

  /** An operation with the sequence number the inserter gives it. */
  datatype Added = Added(seqno: nat, op: Op)

  /** The bytes of a batch with this sequence number and these operations. */
  ghost predicate Encodes(rep: Bytes, seqno: nat, ops: seq<Op>) {
    && seqno < TWO64 && |ops| < TWO32 && AllFit(ops)
    && rep == PutFixed64(seqno) + PutFixed32(|ops|) + EncodeOps(ops)
  }

  /** WriteBatchInternal::Count. */
  function Count(rep: Bytes): nat
    requires |rep| >= HEADER
  {
    GetFixed32(rep[8..])
  }

  /** WriteBatchInternal::Sequence. */
  function Sequence(rep: Bytes): nat
    requires |rep| >= HEADER
  {
    GetFixed64(rep)
  }

  lemma HeaderReads(rep: Bytes, seqno: nat, ops: seq<Op>)
    requires Encodes(rep, seqno, ops)
    ensures |rep| >= HEADER && Count(rep) == |ops| && Sequence(rep) == seqno && rep[HEADER..] == EncodeOps(ops)
  {
    hide GetFixed32, GetFixed64, EncodeOps, PutFixed32, PutFixed64;
    var tail := PutFixed32(|ops|) + EncodeOps(ops);
    assert rep == PutFixed64(seqno) + tail;
    Fixed64RoundTrip(seqno, tail);
    assert rep[8..] == tail;
    Fixed32RoundTrip(|ops|, EncodeOps(ops));
  }

  /** SetCount. */
  function WithCount(rep: Bytes, n: nat): Bytes
    requires |rep| >= HEADER && n < TWO32
  {
    rep[..8] + PutFixed32(n) + rep[HEADER..]
  }

  lemma WithCountIs(rep: Bytes, seqno: nat, ops: seq<Op>, n: nat)
    requires Encodes(rep, seqno, ops) && n < TWO32
    ensures |rep| >= HEADER && WithCount(rep, n) == PutFixed64(seqno) + PutFixed32(n) + EncodeOps(ops)
  {
    hide PutFixed32, PutFixed64, EncodeOps, GetFixed32, GetFixed64;
    HeaderReads(rep, seqno, ops);
    assert rep[..8] == PutFixed64(seqno);
  }

  /** More operations behind a batch whose count has been raised. */
  lemma Extended(rep: Bytes, seqno: nat, ops: seq<Op>, more: seq<Op>, rep': Bytes)
    requires Encodes(rep, seqno, ops) && AllFit(more) && |ops| + |more| < TWO32
    requires |rep| >= HEADER && rep' == WithCount(rep, |ops| + |more|) + EncodeOps(more)
    ensures Encodes(rep', seqno, ops + more)
  {
    hide PutFixed32, PutFixed64, EncodeOps, WithCount, Fits;
    WithCountIs(rep, seqno, ops, |ops| + |more|);
    EncodeConcat(ops, more);
  }

  lemma EncodeOne(op: Op)
    ensures EncodeOps([op]) == EncodeOp(op)
  {
    assert [op][..0] == [];
  }

  class Batch {
    var rep: Bytes
    ghost var seqno: nat
    ghost var ops: seq<Op>

    ghost predicate Valid()
      reads this
    {
      Encodes(rep, seqno, ops)
    }

    constructor ()
      ensures Valid() && seqno == 0 && ops == []
    {
      rep := seq(HEADER, i => 0);
      seqno, ops := 0, [];
    }

    method SetSequence(n: nat)
      requires Valid() && n < TWO64
      modifies this
      ensures Valid() && seqno == n && ops == old(ops)
    {
      hide EncodeOps;
      rep := PutFixed64(n) + rep[8..];
      seqno := n;
    }

    method Put(key: Bytes, value: Bytes)
      requires Valid() && |ops| + 1 < TWO32 && |key| < TWO32 && |value| < TWO32
      modifies this
      ensures Valid() && seqno == old(seqno) && ops == old(ops) + [PutOp(key, value)]
    {
      hide WithCount, PutSlice, Encodes, EncodeOps, GetFixed32;
      HeaderReads(rep, seqno, ops);
      EncodeOne(PutOp(key, value));
      rep := WithCount(rep, Count(rep) + 1);
      rep := rep + ([TYPE_VALUE] + PutSlice(key) + PutSlice(value));
      Extended(old(rep), seqno, ops, [PutOp(key, value)], rep);
      ops := ops + [PutOp(key, value)];
    }

    method Delete(key: Bytes)
      requires Valid() && |ops| + 1 < TWO32 && |key| < TWO32
      modifies this
      ensures Valid() && seqno == old(seqno) && ops == old(ops) + [DeleteOp(key)]
    {
      hide WithCount, PutSlice, Encodes, EncodeOps, GetFixed32;
      HeaderReads(rep, seqno, ops);
      EncodeOne(DeleteOp(key));
      rep := WithCount(rep, Count(rep) + 1);
      rep := rep + ([TYPE_DELETION] + PutSlice(key));
      Extended(old(rep), seqno, ops, [DeleteOp(key)], rep);
      ops := ops + [DeleteOp(key)];
    }

    /** Append: the operations of src after this batch's own. */
    method Append(src: Batch)
      requires src != this && Valid() && src.Valid() && |ops| + |src.ops| < TWO32
      modifies this
      ensures Valid() && seqno == old(seqno) && ops == old(ops) + src.ops
    {
      hide WithCount, EncodeOps, GetFixed32, PutFixed32, PutFixed64;
      HeaderReads(rep, seqno, ops);
      HeaderReads(src.rep, src.seqno, src.ops);
      rep := WithCount(rep, Count(rep) + Count(src.rep));
      rep := rep + src.rep[HEADER..];
      Extended(old(rep), seqno, ops, src.ops, rep);
      ops := ops + src.ops;
    }

    /** InsertInto a built batch: exactly its operations, in order, with consecutive
        sequence numbers, and the count is right. */
    method InsertInto() returns (delivered: seq<Added>, outcome: Outcome)
      requires Valid()
      ensures outcome == Success && delivered == Numbered(seqno, ops)
    {
      HeaderReads(rep, seqno, ops);
      BatchRoundTrip(ops);
      delivered, outcome := Iterate(rep);
    }
  }

  /** Iterate, with the handler that InsertInto passes: each operation goes to the
      memtable with the next sequence number. Operations before a malformed one are
      delivered. */
  method Iterate(rep: Bytes) returns (delivered: seq<Added>, outcome: Outcome)
    ensures |rep| < HEADER ==> outcome == Failure(TooSmall) && delivered == []
    ensures |rep| >= HEADER ==>
              var d := DecodeOps(rep[HEADER..]);
              && delivered == Numbered(Sequence(rep), d.ops)
              && outcome == (if d.outcome == Success && |d.ops| != Count(rep) then Failure(WrongCount) else d.outcome)
  {
    hide DecodeOps, TakeOp, GetFixed32, GetFixed64;
    delivered := [];
    if |rep| < HEADER {
      return [], Failure(TooSmall);
    }
    ghost var ops: seq<Op> := [];
    var input, seqno := rep[HEADER..], Sequence(rep);
    while input != []
      invariant seqno == Sequence(rep) + |ops| && delivered == Numbered(Sequence(rep), ops)
      invariant DecodeOps(rep[HEADER..]) == Prepend(ops, DecodeOps(input))
      decreases |input|
    {
      DecodeUnfold(input);
      match TakeOp(input)
      case Stop(e) =>
        return delivered, Failure(e);
      case Took(op, rest) =>
        PrependStep(ops, op, DecodeOps(rest));
        NumberedStep(Sequence(rep), ops, op);
        delivered := delivered + [Added(seqno, op)];
        ops := ops + [op];
        seqno := seqno + 1;
        input := rest;
    }
    DecodeUnfold(input);
    outcome := if |delivered| != Count(rep) then Failure(WrongCount) else Success;
  }

  lemma DecodeUnfold(b: Bytes)
    ensures b == [] ==> DecodeOps(b) == Decoded([], Success)
    ensures b != [] ==> match TakeOp(b)
                        case Stop(e) => DecodeOps(b) == Decoded([], Failure(e))
                        case Took(op, rest) => DecodeOps(b) == Prepend([op], DecodeOps(rest))
  {
  }

  function Numbered(start: nat, ops: seq<Op>): (r: seq<Added>)
    ensures |r| == |ops|
    ensures forall i :: 0 <= i < |ops| ==> r[i] == Added(start + i, ops[i])
  {
    seq(|ops|, i requires 0 <= i < |ops| => Added(start + i, ops[i]))
  }

  lemma NumberedStep(start: nat, ops: seq<Op>, op: Op)
    ensures Numbered(start, ops + [op]) == Numbered(start, ops) + [Added(start + |ops|, op)]
  {
  }

  function Prepend(ops: seq<Op>, d: Decoded): Decoded {
    Decoded(ops + d.ops, d.outcome)
  }

  lemma PrependStep(ops: seq<Op>, op: Op, d: Decoded)
    ensures Prepend(ops, Prepend([op], d)) == Prepend(ops + [op], d)
  {
    assert ops + ([op] + d.ops) == ops + [op] + d.ops;
  }
}
