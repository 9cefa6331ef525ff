/** Data blocks: keys with shared prefixes, restart points, and the iterator over the built bytes. */
module Blocks {
  import opened Keys
  import opened Wire
  import opened Coding

  datatype Pair = Pair(key: Bytes, value: Bytes)

  /** A strict order of keys, and the entries in it. */
  ghost predicate Transitive(less: (Bytes, Bytes) -> bool) {
    forall a, b, c :: less(a, b) && less(b, c) ==> less(a, c)
  }

  ghost predicate InOrder(es: seq<Pair>, less: (Bytes, Bytes) -> bool) {
    forall i, j :: 0 <= i < j < |es| ==> less(es[i].key, es[j].key)
  }

  /** `p` is the first entry not before `target`. */
  ghost predicate IsFirstAtOrAfter(es: seq<Pair>, less: (Bytes, Bytes) -> bool, target: Bytes, p: nat) {
    && p <= |es|
    && (forall i :: 0 <= i < p ==> less(es[i].key, target))
    && (forall i :: p <= i < |es| ==> !less(es[i].key, target))
  }

  // ----- restart points -----

  /** The entries, of the first `n`, at which prefix compression starts anew: none is `interval` or more after the one
      before it. */
  function Starts(n: nat, interval: nat): (s: seq<nat>)
    ensures s != [] && s[0] == 0 && (n > 0 ==> Last(s) < n) && (n == 0 ==> Last(s) == 0)
  {
    if n == 0 then [0]
    else
      var s := Starts(n - 1, interval);
      if n - 1 - Last(s) < interval then s else s + [n - 1]
  }

  function Last<T>(s: seq<T>): T
    requires s != []
  {
    s[|s| - 1]
  }

  predicate IsStart(i: nat, interval: nat) {
    Last(Starts(i + 1, interval)) == i
  }

  lemma {:induction false} StartsExtend(m: nat, n: nat, interval: nat)
    requires m <= n
    ensures Starts(m, interval) <= Starts(n, interval)
  {
    if m < n {
      StartsExtend(m, n - 1, interval);
    }
  }

  lemma {:induction false} StartsIncrease(n: nat, interval: nat, i: nat, j: nat)
    requires i < j < |Starts(n, interval)| && interval >= 1
    ensures Starts(n, interval)[i] < Starts(n, interval)[j]
  {
    if n > 0 {
      var s := Starts(n - 1, interval);
      if j < |s| {
        StartsIncrease(n - 1, interval, i, j);
      } else if i < |s| - 1 {
        StartsIncrease(n - 1, interval, i, |s| - 1);
      }
    }
  }

  lemma {:induction false} StartIsStart(n: nat, interval: nat, i: nat)
    requires i < |Starts(n, interval)| && interval >= 1
    ensures IsStart(Starts(n, interval)[i], interval)
  {
    if n > 0 {
      var s := Starts(n - 1, interval);
      if i < |s| {
        StartIsStart(n - 1, interval, i);
      }
    }
  }

  // ----- the bytes of a block -----

  function Common(a: Bytes, b: Bytes): (n: nat)
    ensures n <= |a| && n <= |b| && a[..n] == b[..n] && (n < |a| && n < |b| ==> a[n] != b[n])
  {
    if a == [] || b == [] || a[0] != b[0] then 0
    else
      var n := 1 + Common(a[1..], b[1..]);
      assert a[..n] == [a[0]] + a[1..][..n - 1] && b[..n] == [b[0]] + b[1..][..n - 1];
      n
  }

  /** How much of its key entry `i` shares with the one before it. */
  function Shared(es: seq<Pair>, interval: nat, i: nat): (n: nat)
    requires i < |es|
    ensures n <= |es[i].key| && (i > 0 ==> n <= |es[i - 1].key|)
  {
    if IsStart(i, interval) || i == 0 then 0 else Common(es[i - 1].key, es[i].key)
  }

  /** The restart points are the entries at the multiples of the interval; every other entry leaves out exactly what the
      beginning of its key has in common with the key before it. */
  lemma {:induction false} StartsAre(n: nat, interval: nat, j: nat)
    requires interval >= 1
    ensures j < |Starts(n, interval)| ==> Starts(n, interval)[j] == j * interval
    ensures n > 0 ==> n <= |Starts(n, interval)| * interval < n + interval
    ensures n == 0 ==> |Starts(n, interval)| == 1
  {
    if n > 0 {
      var s := Starts(n - 1, interval);
      StartsAre(n - 1, interval, j);
      StartsAre(n - 1, interval, |s| - 1);
      Multiples(|s|, interval);
    }
  }

  lemma Multiples(k: nat, interval: nat)
    ensures (k + 1) * interval == k * interval + interval && (k - 1) * interval == k * interval - interval
  {
  }

  lemma SharedIsCommon(es: seq<Pair>, interval: nat, q: nat, r: nat)
    requires r < interval && q * interval + r < |es|
    ensures r == 0 ==> Shared(es, interval, q * interval + r) == 0
    ensures r > 0 ==>
      var i := q * interval + r;
      var n, a, b := Shared(es, interval, i), es[i - 1].key, es[i].key;
      a[..n] == b[..n] && (n < |a| && n < |b| ==> a[n] != b[n])
  {
    var i := q * interval + r;
    var k := |Starts(i + 1, interval)|;
    StartsAre(i + 1, interval, k - 1);
    Multiples(k, interval);
    SameQuotient(k - 1, q, r, interval);
  }

  lemma SameQuotient(k: nat, q: nat, r: nat, c: nat)
    requires r < c && k * c <= q * c + r < k * c + c
    ensures k == q
  {
    if k < q {
      MulMonotone(k + 1, q, c);
    } else if q < k {
      MulMonotone(q + 1, k, c);
    }
  }

  function Record(shared: nat, e: Pair): Bytes
    requires shared <= |e.key|
  {
    Varint(shared) + (Varint(|e.key| - shared) + (Varint(|e.value|) + (e.key[shared..] + e.value)))
  }

  /** The entries of a block, end to end. */
  function Body(es: seq<Pair>, interval: nat): Bytes {
    if es == [] then []
    else
      var n := |es| - 1;
      Body(es[..n], interval) + Record(Shared(es, interval, n), es[n])
  }

  /** Where entry `i` starts. */
  function Offset(es: seq<Pair>, interval: nat, i: nat): nat
    requires i <= |es|
  {
    |Body(es[..i], interval)|
  }

  function Offsets(es: seq<Pair>, interval: nat, starts: seq<nat>): (s: seq<nat>)
    requires forall i :: 0 <= i < |starts| ==> starts[i] <= |es|
    ensures |s| == |starts|
    ensures forall i :: 0 <= i < |starts| ==> s[i] == Offset(es, interval, starts[i])
  {
    seq(|starts|, i requires 0 <= i < |starts| => Offset(es, interval, starts[i]))
  }

  function Words(ns: seq<nat>): (b: Bytes)
    ensures |b| == 4 * |ns|
  {
    if ns == [] then [] else Words(ns[..|ns| - 1]) + Fixed32(ns[|ns| - 1])
  }

  ghost predicate StartsBelow(n: nat, interval: nat) {
    forall i :: 0 <= i < |Starts(n, interval)| ==> Starts(n, interval)[i] <= n
  }

  lemma {:induction false} StartsInside(n: nat, interval: nat)
    ensures StartsBelow(n, interval)
  {
    if n > 0 {
      StartsInside(n - 1, interval);
    }
  }

  function Restarts(es: seq<Pair>, interval: nat): seq<nat> {
    StartsInside(|es|, interval);
    Offsets(es, interval, Starts(|es|, interval))
  }

  /** A whole block. */
  function BlockBytes(es: seq<Pair>, interval: nat): Bytes {
    Body(es, interval) + Words(Restarts(es, interval)) + Fixed32(|Restarts(es, interval)|)
  }

  // ----- the builder -----

  /** The loop of Add that finds how much to share. */
  method CommonLength(a: Bytes, b: Bytes) returns (shared: nat)
    ensures shared == Common(a, b)
  {
    var minLength := if |a| < |b| then |a| else |b|;
    shared := 0;
    while shared < minLength && a[shared] == b[shared]
      invariant shared <= minLength && a[..shared] == b[..shared]
    {
      assert a[..shared + 1] == a[..shared] + [a[shared]] && b[..shared + 1] == b[..shared] + [b[shared]];
      shared := shared + 1;
    }
    CommonIs(a, b, shared);
  }

  class BlockBuilder {
    const interval: nat
    var buffer: Bytes
    var restarts: seq<nat>
    var counter: nat
    var lastKey: Bytes
    var finished: bool
    ghost var entries: seq<Pair>

    ghost predicate Valid()
      reads this
    {
      && interval >= 1 && buffer == Body(entries, interval) && restarts == Restarts(entries, interval)
      && counter == |entries| - Last(Starts(|entries|, interval)) <= interval
      && lastKey == KeyBefore(entries)
    }

    constructor (interval: nat)
      requires interval >= 1
      ensures Valid() && !finished && entries == [] && this.interval == interval
    {
      this.interval := interval;
      buffer, restarts, counter, lastKey, finished, entries := [], [0], 0, [], false, [];
      new;
      assert Offset([], interval, 0) == 0;
    }

    /** Add: the key's common beginning with the last key is not stored, but at restart points. */
    method Add(key: Bytes, value: Bytes)
      requires Valid() && !finished
      requires |key| < TWO32 && |value| < TWO32
      modifies this
      ensures Valid() && !finished && entries == old(entries) + [Pair(key, value)]
    {
      hide Body, Record, Starts, Common, Restarts, Varint;
      ghost var es, n, e := entries, |entries|, Pair(key, value);
      var shared: nat := 0;
      if counter < interval {
        shared := CommonLength(lastKey, key);
      } else {
        restarts := restarts + [|buffer|];
        counter := 0;
      }
      var nonShared := |key| - shared;
      var a := EncodeVarint32(shared);
      var b := EncodeVarint32(nonShared);
      var c := EncodeVarint32(|value|);
      buffer := buffer + a;
      buffer := buffer + b;
      buffer := buffer + c;
      buffer := buffer + key[shared..];
      buffer := buffer + value;
      lastKey := lastKey[..shared] + key[shared..];
      counter := counter + 1;
      entries := entries + [e];
      BodyStep(es, interval, e);
      RestartsStep(es, interval, e);
      RecordBytes(shared, e, Body(es, interval));
    }

    /** Finish */
    method Finish() returns (block: Bytes)
      requires Valid() && !finished
      modifies this`buffer, this`finished
      ensures block == BlockBytes(entries, interval) && finished
    {
      hide Body, Restarts;
      for i := 0 to |restarts|
        invariant buffer == Body(entries, interval) + Words(restarts[..i])
      {
        assert restarts[..i + 1][..i] == restarts[..i];
        buffer := buffer + Fixed32(restarts[i]);
      }
      assert restarts[..|restarts|] == restarts;
      buffer := buffer + Fixed32(|restarts|);
      finished := true;
      block := buffer;
    }

    method Reset()
      requires interval >= 1
      modifies this
      ensures Valid() && !finished && entries == []
    {
      buffer, restarts, counter, lastKey, finished, entries := [], [0], 0, [], false, [];
      assert Offset([], interval, 0) == 0;
    }

    /** CurrentSizeEstimate: what Finish would make, exactly. */
    method CurrentSizeEstimate() returns (size: nat)
      requires Valid()
      ensures size == |BlockBytes(entries, interval)|
    {
      size := |buffer| + |restarts| * 4 + 4;
    }
  }

  lemma CommonIs(a: Bytes, b: Bytes, n: nat)
    requires n <= |a| && n <= |b| && a[..n] == b[..n] && (n < |a| && n < |b| ==> a[n] != b[n])
    ensures Common(a, b) == n
  {
  }

  lemma RecordBytes(shared: nat, e: Pair, before: Bytes)
    requires shared <= |e.key|
    ensures before + Varint(shared) + Varint(|e.key| - shared) + Varint(|e.value|) + e.key[shared..] + e.value
      == before + Record(shared, e)
  {
  }

  /** The next entry, the `n`th, goes on with prefix compression. */
  predicate GoesOn(n: nat, interval: nat) {
    n - Last(Starts(n, interval)) < interval
  }

  function KeyBefore(es: seq<Pair>): Bytes {
    if es == [] then [] else Last(es).key
  }

  lemma BodyStep(es: seq<Pair>, interval: nat, e: Pair)
    requires interval >= 1
    ensures var more := es + [e];
      Body(more, interval) == Body(es, interval)
        + Record(if GoesOn(|es|, interval) then Common(KeyBefore(es), e.key) else 0, e)
  {
    hide Record, Common;
    var more, n := es + [e], |es|;
    assert more[..n] == es;
    assert n > 0 ==> more[n - 1] == Last(es);
    assert Shared(more, interval, n) == if GoesOn(n, interval) then Common(KeyBefore(es), e.key) else 0 by {
      NothingShared(e.key);
    }
  }

  lemma NothingShared(key: Bytes)
    ensures Common([], key) == 0
  {
  }

  lemma StartsStep(n: nat, interval: nat)
    ensures Starts(n + 1, interval) == Starts(n, interval) + if GoesOn(n, interval) then [] else [n]
  {
  }

  ghost predicate AllAtMost(s: seq<nat>, n: nat) {
    forall i :: 0 <= i < |s| ==> s[i] <= n
  }

  /** Entries added later do not move the earlier ones. */
  lemma OffsetsStay(es: seq<Pair>, interval: nat, e: Pair, s: seq<nat>)
    requires AllAtMost(s, |es|)
    ensures Offsets(es + [e], interval, s) == Offsets(es, interval, s)
  {
    hide Body;
    forall i | 0 <= i < |s|
      ensures Offsets(es + [e], interval, s)[i] == Offsets(es, interval, s)[i]
    {
      assert (es + [e])[..s[i]] == es[..s[i]];
    }
  }

  lemma RestartsStep(es: seq<Pair>, interval: nat, e: Pair)
    ensures Restarts(es + [e], interval) == Restarts(es, interval) + if GoesOn(|es|, interval) then []
      else [|Body(es, interval)|]
    ensures Last(Starts(|es| + 1, interval)) == if GoesOn(|es|, interval) then Last(Starts(|es|, interval)) else |es|
  {
    hide Body, Starts, GoesOn, Offset;
    var more, n := es + [e], |es|;
    StartsStep(n, interval);
    StartsInside(n, interval);
    StartsInside(n + 1, interval);
    OffsetsStay(es, interval, e, Starts(n, interval));
    if !GoesOn(n, interval) {
      OffsetsStay(es, interval, e, [n]);
      assert Offsets(es, interval, [n]) == [|Body(es, interval)|] by {
        WholeOffset(es, interval);
      }
    }
  }

  lemma WholeOffset(es: seq<Pair>, interval: nat)
    ensures Offset(es, interval, |es|) == |Body(es, interval)|
  {
    assert es[..|es|] == es;
  }
}
