/** Write batches as bytes: a sequence number, a count, and the operations one after another. */
module WriteBatches {
  import opened Keys
  import opened Wire
  import opened Coding

  const HEADER := 12

  datatype BatchOp = PutOp(key: Bytes, value: Bytes) | DeleteOp(key: Bytes)

  const DELETION: Byte := 0
  const VALUE: Byte := 1

  predicate OpOk(op: BatchOp) {
    |op.key| < TWO32 && (op.PutOp? ==> |op.value| < TWO32)
  }

  function OpBytes(op: BatchOp): Bytes {
    match op
    case PutOp(key, value) => [VALUE] + (Prefixed(key) + Prefixed(value))
    case DeleteOp(key) => [DELETION] + Prefixed(key)
  }

  function OpsBytes(ops: seq<BatchOp>): Bytes {
    if ops == [] then [] else OpsBytes(ops[..|ops| - 1]) + OpBytes(ops[|ops| - 1])
  }

  /** The representation of a batch. */
  function Rep(sn: nat, ops: seq<BatchOp>): Bytes {
    Fixed64(sn) + Fixed32(|ops|) + OpsBytes(ops)
  }

  /** What the loop of Iterate hands to its handler, and whether it reached the end. */
  function Handled(input: Bytes): (seq<BatchOp>, bool)
    decreases |input|
  {
    if input == [] then ([], true)
    else
      match ReadOp(input)
      case None => ([], false)
      case Some((op, rest)) =>
        if |rest| < |input| then
          var (more, ok) := Handled(rest);
          ([op] + more, ok)
        else ([], false)
  }

  function ReadOp(input: Bytes): Read<BatchOp>
    requires input != []
  {
    if input[0] == VALUE then
      match GetPrefixed(input[1..])
      case None => None
      case Some((key, rest)) =>
        match GetPrefixed(rest)
        case None => None
        case Some((value, rest)) => Some((PutOp(key, value), rest))
    else if input[0] == DELETION then
      match GetPrefixed(input[1..])
      case None => None
      case Some((key, rest)) => Some((DeleteOp(key), rest))
    else None
  }

  lemma ReadOpShortens(input: Bytes)
    requires input != []
    ensures ReadOp(input).Some? ==> |ReadOp(input).value.1| < |input|
  {
    hide Get32;
    PtrShortens(input[1..], 0, 0, 32);
    if GetPrefixed(input[1..]).Some? {
      PtrShortens(GetPrefixed(input[1..]).value.1, 0, 0, 32);
    }
    Get32Is(input[1..]);
    if GetPrefixed(input[1..]).Some? {
      Get32Is(GetPrefixed(input[1..]).value.1);
    }
  }

  lemma Get32Is(data: Bytes)
    ensures Get32(data) == VarintPtr(data, 0, 0, 32)
  {
  }

  class WriteBatch {
    var rep: Bytes
    ghost var sn: nat
    ghost var ops: seq<BatchOp>

    ghost predicate Valid()
      reads this
    {
      rep == Rep(sn, ops) && sn < TWO64 && |ops| < TWO32
    }

    /** A cleared batch. */
    constructor ()
      ensures Valid() && ops == [] && sn == 0
    {
      rep := seq(HEADER, _ => 0);
      sn, ops := 0, [];
    }

    method Count() returns (n: nat)
      requires Valid()
      ensures n == |ops|
    {
      HeaderParts(sn, ops);
      n := Number32(rep[8..12]);
    }

    method SetCount(n: nat)
      requires |rep| >= HEADER
      modifies this`rep
      ensures rep == old(rep)[..8] + Fixed32(n) + old(rep)[12..]
    {
      rep := rep[..8] + Fixed32(n) + rep[12..];
    }

    method SetSequence(s: nat)
      requires Valid() && s < TWO64
      modifies this
      ensures Valid() && sn == s && ops == old(ops)
    {
      HeaderParts(sn, ops);
      rep := Fixed64(s) + rep[8..];
      sn := s;
      assert rep == Rep(s, ops);
    }

    method Sequence() returns (s: nat)
      requires Valid()
      ensures s == sn
    {
      HeaderParts(sn, ops);
      s := Number64(rep[..8]);
    }

    method Put(key: Bytes, value: Bytes)
      requires Valid() && |ops| + 1 < TWO32 && |key| < TWO32 && |value| < TWO32
      modifies this
      ensures Valid() && sn == old(sn) && ops == old(ops) + [PutOp(key, value)]
    {
      hide Fixed32, Fixed64, Prefixed, OpsBytes, OpBytes, Number32, Number64;
      HeaderParts(sn, ops);
      var count := Count();
      SetCount(count + 1);
      ghost var head := rep;
      rep := rep + [VALUE];
      rep := rep + Prefixed(key);
      rep := rep + Prefixed(value);
      PutBytes(head, key, value);
      OneMoreOp(sn, ops, PutOp(key, value), rep);
      ops := ops + [PutOp(key, value)];
    }

    method Delete(key: Bytes)
      requires Valid() && |ops| + 1 < TWO32 && |key| < TWO32
      modifies this
      ensures Valid() && sn == old(sn) && ops == old(ops) + [DeleteOp(key)]
    {
      hide Fixed32, Fixed64, Prefixed, OpsBytes, OpBytes, Number32, Number64;
      HeaderParts(sn, ops);
      var count := Count();
      SetCount(count + 1);
      ghost var head := rep;
      rep := rep + [DELETION];
      rep := rep + Prefixed(key);
      DeleteBytes(head, key);
      OneMoreOp(sn, ops, DeleteOp(key), rep);
      ops := ops + [DeleteOp(key)];
    }

    /** Append: the other batch's operations after this one's; its sequence number is not used. */
    method Append(source: WriteBatch)
      requires Valid() && source.Valid() && source != this && |ops| + |source.ops| < TWO32
      modifies this
      ensures Valid() && sn == old(sn) && ops == old(ops) + source.ops
    {
      hide Fixed32, Fixed64, OpsBytes;
      HeaderParts(sn, ops);
      HeaderParts(source.sn, source.ops);
      var mine := Count();
      var theirs := source.Count();
      SetCount(mine + theirs);
      rep := rep + source.rep[HEADER..];
      OpsTogether(ops, source.ops);
      assert rep == Fixed64(sn) + Fixed32(|ops| + |source.ops|) + (OpsBytes(ops) + OpsBytes(source.ops));
      ops := ops + source.ops;
    }
  }

  /** Iterate: the operations handed to the handler, and whether the batch was well formed. */
  method Iterate(rep: Bytes) returns (ok: bool, handled: seq<BatchOp>)
    ensures |rep| < HEADER ==> !ok && handled == []
    ensures |rep| >= HEADER ==> handled == Handled(rep[HEADER..]).0
    ensures |rep| >= HEADER ==> (ok <==> Handled(rep[HEADER..]).1 && |handled| == Number32(rep[8..12]))
  {
    hide ReadOp, Number32;
    ok, handled := false, [];
    if |rep| < HEADER {
      return;
    }
    var input := rep[HEADER..];
    ghost var all := Handled(input);
    assert [] + all.0 == all.0;
    while input != []
      invariant all == (handled + Handled(input).0, Handled(input).1)
      decreases |input|
    {
      ReadOpShortens(input);
      var r := ReadOp(input);
      if r.None? {
        assert handled + [] == handled;
        return;
      }
      var (op, rest) := r.value;
      assert handled + ([op] + Handled(rest).0) == handled + [op] + Handled(rest).0;
      handled := handled + [op];
      input := rest;
    }
    assert handled + [] == handled;
    ok := |handled| == Number32(rep[8..12]);
  }

  lemma HeaderParts(sn: nat, ops: seq<BatchOp>)
    requires sn < TWO64 && |ops| < TWO32
    ensures var r := Rep(sn, ops);
      |r| >= HEADER && r[..8] == Fixed64(sn) && r[8..12] == Fixed32(|ops|) && r[HEADER..] == OpsBytes(ops)
      && Number64(r[..8]) == sn && Number32(r[8..12]) == |ops| && r[8..] == Fixed32(|ops|) + OpsBytes(ops)
  {
    hide Fixed32, Fixed64, Number32, Number64;
    Fixed32RoundTrip(|ops|);
    Fixed64RoundTrip(sn);
    hide OpsBytes;
    ThreeParts(Fixed64(sn), Fixed32(|ops|), OpsBytes(ops));
  }

  lemma ThreeParts(a: Bytes, b: Bytes, c: Bytes)
    ensures var r := a + b + c;
      r[..|a|] == a && r[|a|..|a| + |b|] == b && r[|a| + |b|..] == c && r[|a|..] == b + c
  {
  }

  lemma PutBytes(head: Bytes, key: Bytes, value: Bytes)
    ensures head + [VALUE] + Prefixed(key) + Prefixed(value) == head + OpBytes(PutOp(key, value))
  {
  }

  lemma DeleteBytes(head: Bytes, key: Bytes)
    ensures head + [DELETION] + Prefixed(key) == head + OpBytes(DeleteOp(key))
  {
  }

  lemma OneMoreOp(sn: nat, ops: seq<BatchOp>, op: BatchOp, rep: Bytes)
    requires rep == Fixed64(sn) + Fixed32(|ops| + 1) + OpsBytes(ops) + OpBytes(op)
    ensures rep == Rep(sn, ops + [op])
  {
  }

  lemma {:induction false} OpsTogether(a: seq<BatchOp>, b: seq<BatchOp>)
    ensures OpsBytes(a + b) == OpsBytes(a) + OpsBytes(b)
  {
    hide OpBytes;
    if b == [] {
      assert a + b == a;
    } else {
      var n := |b| - 1;
      OpsTogether(a, b[..n]);
      assert (a + b)[..|a + b| - 1] == a + b[..n];
    }
  }

  lemma OpBack(op: BatchOp, rest: Bytes)
    requires OpOk(op)
    ensures ReadOp(OpBytes(op) + rest) == Some((op, rest))
  {
    hide Prefixed, GetPrefixed;
    var b := OpBytes(op) + rest;
    match op
    case PutOp(key, value) =>
      assert b[1..] == Prefixed(key) + (Prefixed(value) + rest);
      PrefixedBack(key, Prefixed(value) + rest);
      PrefixedBack(value, rest);
    case DeleteOp(key) =>
      assert b[1..] == Prefixed(key) + rest;
      PrefixedBack(key, rest);
  }

  ghost predicate OpsOk(ops: seq<BatchOp>) {
    forall i :: 0 <= i < |ops| ==> OpOk(ops[i])
  }

  /** Iterating over the bytes of some operations hands out just these, in order. */
  lemma {:induction false} HandledBack(ops: seq<BatchOp>, rest: Bytes)
    requires OpsOk(ops)
    ensures Handled(OpsBytes(ops) + rest) == (ops + Handled(rest).0, Handled(rest).1)
  {
    hide OpBytes, ReadOp, OpOk;
    if ops == [] {
      assert [] + rest == rest && [] + Handled(rest).0 == Handled(rest).0;
    } else {
      var n := |ops| - 1;
      var last, more := ops[n], OpBytes(ops[n]) + rest;
      HandledBack(ops[..n], more);
      assert OpsBytes(ops) + rest == OpsBytes(ops[..n]) + more;
      OpBack(last, rest);
      NotEmpty(last);
      ReadOpShortens(more);
      assert Handled(more) == ([last] + Handled(rest).0, Handled(rest).1);
      assert ops[..n] + ([last] + Handled(rest).0) == ops + Handled(rest).0;
    }
  }

  lemma NotEmpty(op: BatchOp)
    ensures OpBytes(op) != []
  {
  }

  /** Iterating over a batch's representation succeeds and hands out its operations, each once and in order. */
  lemma BatchBack(sn: nat, ops: seq<BatchOp>)
    requires OpsOk(ops) && sn < TWO64 && |ops| < TWO32
    ensures var r := Rep(sn, ops); |r| >= HEADER && Handled(r[HEADER..]) == (ops, true) && |ops| == Number32(r[8..12])
  {
    hide OpsBytes, Number32, Fixed32, Fixed64;
    HeaderParts(sn, ops);
    HandledBack(ops, []);
    assert OpsBytes(ops) + [] == OpsBytes(ops) && ops + [] == ops;
  }
}
