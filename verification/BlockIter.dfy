/** Reading a block: decoding an entry, and the iterator that finds its way by the restart points. */
module BlockIterators {
  import opened Keys
  import opened Wire
  import opened Coding
  import opened Blocks

  // ----- one entry -----

  /** The three lengths before an entry's bytes. */
  datatype Lengths = Lengths(shared: nat, nonShared: nat, value: nat)

  function ThreeLengths(d: Bytes): Read<Lengths> {
    match Get32(d)
    case None => None
    case Some((a, d1)) =>
      match Get32(d1)
      case None => None
      case Some((b, d2)) =>
        match Get32(d2)
        case None => None
        case Some((c, d3)) => Some((Lengths(a, b, c), d3))
  }

  /** DecodeEntry on the bytes up to the limit. The sizes are 32-bit numbers. */
  function EntryOf(d: Bytes): Read<Lengths> {
    if |d| < 3 then None
    else
      match ThreeLengths(d)
      case None => None
      case Some((n, rest)) => if |rest| % TWO32 < (n.nonShared + n.value) % TWO32 then None else Some((n, rest))
  }

  /** DecodeEntry, with its fast path for three one-byte lengths. */
  method DecodeEntry(d: Bytes) returns (r: Read<Lengths>)
    ensures r == EntryOf(d)
  {
    hide Get32;
    if |d| < 3 {
      return None;
    }
    var n, rest;
    if Or(Or(d[0], d[1]), d[2]) < 128 {
      OrSmall(Or(d[0], d[1]), d[2]);
      OrSmall(d[0], d[1]);
      FastPath(d);
      n, rest := Lengths(d[0], d[1], d[2]), d[3..];
    } else {
      var a := GetVarint32(d);
      if a.None? {
        return None;
      }
      var b := GetVarint32(a.value.1);
      if b.None? {
        return None;
      }
      var c := GetVarint32(b.value.1);
      if c.None? {
        return None;
      }
      n, rest := Lengths(a.value.0, b.value.0, c.value.0), c.value.1;
    }
    if |rest| % TWO32 < (n.nonShared + n.value) % TWO32 {
      return None;
    }
    r := Some((n, rest));
  }

  lemma {:induction false} OrSmall(a: nat, b: nat)
    requires Or(a, b) < 128
    ensures a < 128 && b < 128
  {
    OrAtLeast(a, b);
  }

  lemma {:induction false} OrAtLeast(a: nat, b: nat)
    ensures a <= Or(a, b) && b <= Or(a, b)
    decreases a
  {
    if a != 0 && b != 0 {
      OrAtLeast(a / 2, b / 2);
    }
  }

  lemma FastPath(d: Bytes)
    requires |d| >= 3 && d[0] < 128 && d[1] < 128 && d[2] < 128
    ensures ThreeLengths(d) == Some((Lengths(d[0], d[1], d[2]), d[3..]))
  {
    hide Get32;
    OneByte(d);
    OneByte(d[1..]);
    OneByte(d[2..]);
  }

  /** An entry is read back, whatever follows it. */
  lemma EntryBack(shared: nat, e: Pair, rest: Bytes)
    requires shared <= |e.key| < TWO32 && |e.value| < TWO32 && |Record(shared, e) + rest| < TWO32
    ensures EntryOf(Record(shared, e) + rest)
      == Some((Lengths(shared, |e.key| - shared, |e.value|), e.key[shared..] + e.value + rest))
  {
    hide Get32, Varint;
    var tail := e.key[shared..] + e.value + rest;
    var a, b, c := Varint(shared), Varint(|e.key| - shared), Varint(|e.value|);
    assert Record(shared, e) + rest == a + (b + (c + tail));
    Get32Back(shared, b + (c + tail));
    Get32Back(|e.key| - shared, c + tail);
    Get32Back(|e.value|, tail);
  }

  // ----- where things are in a block -----

  lemma {:induction false} BodyPrefix(es: seq<Pair>, interval: nat, i: nat)
    requires i <= |es|
    ensures Body(es[..i], interval) <= Body(es, interval)
  {
    hide Record, Shared;
    if i == |es| {
      assert es[..i] == es;
    } else {
      var n := |es| - 1;
      assert es[..n][..i] == es[..i];
      BodyPrefix(es[..n], interval, i);
    }
  }

  /** Entry `i` is between its offset and the next. */
  lemma RecordAt(es: seq<Pair>, interval: nat, i: nat)
    requires i < |es|
    ensures Offset(es, interval, i) + 3 <= Offset(es, interval, i + 1) <= |Body(es, interval)|
    ensures Body(es, interval)[Offset(es, interval, i)..Offset(es, interval, i + 1)]
      == Record(Shared(es, interval, i), es[i])
  {
    var some, shared := es[..i + 1], Shared(es, interval, i);
    SharedEarly(es, interval, i);
    RecordLength(shared, es[i]);
    BodyPrefix(es, interval, i + 1);
    hide Record, Shared;
    assert some[..i] == es[..i] && some[i] == es[i];
    assert Body(some, interval) == Body(es[..i], interval) + Record(shared, es[i]);
    SliceInside(Body(es, interval), Body(es[..i], interval), Record(shared, es[i]));
  }

  lemma SharedEarly(es: seq<Pair>, interval: nat, i: nat)
    requires i < |es|
    ensures Shared(es[..i + 1], interval, i) == Shared(es, interval, i)
  {
  }

  lemma SliceInside(whole: Bytes, a: Bytes, b: Bytes)
    requires a + b <= whole
    ensures |a| + |b| <= |whole| && whole[|a|..|a| + |b|] == b
  {
  }

  lemma RecordLength(shared: nat, e: Pair)
    requires shared <= |e.key|
    ensures |Record(shared, e)| >= 3 + |e.key| - shared + |e.value|
  {
  }

  lemma {:induction false} OffsetsGrow(es: seq<Pair>, interval: nat, i: nat, j: nat)
    requires i < j <= |es|
    ensures Offset(es, interval, i) < Offset(es, interval, j) <= |Body(es, interval)|
    decreases j
  {
    hide Body;
    RecordAt(es, interval, j - 1);
    if i < j - 1 {
      OffsetsGrow(es, interval, i, j - 1);
    }
  }

  /** Offsets are ordered as the entries are. */
  lemma OffsetOrder(es: seq<Pair>, interval: nat, i: nat, j: nat)
    requires i <= |es| && j <= |es|
    ensures Offset(es, interval, i) < Offset(es, interval, j) <==> i < j
  {
    hide Offset;
    if i < j {
      OffsetsGrow(es, interval, i, j);
    } else if j < i {
      OffsetsGrow(es, interval, j, i);
    }
  }

  lemma {:induction false} WordAt(ns: seq<nat>, i: nat)
    requires i < |ns| && ns[i] < TWO32
    ensures Number32(Words(ns)[4 * i..4 * i + 4]) == ns[i]
  {
    hide Number32, Fixed32;
    var n := |ns| - 1;
    Fixed32RoundTrip(ns[i]);
    if i == n {
      assert Words(ns)[4 * i..4 * i + 4] == Fixed32(ns[n]);
    } else {
      WordAt(ns[..n], i);
      assert Words(ns)[4 * i..4 * i + 4] == Words(ns[..n])[4 * i..4 * i + 4];
    }
  }

  lemma WordInside(a: Bytes, ns: seq<nat>, b: Bytes, i: nat)
    requires i < |ns| && ns[i] < TWO32
    ensures var p, all := |a| + 4 * i, a + Words(ns) + b;
      p + 4 <= |all| && Number32(all[p..p + 4]) == ns[i]
  {
    hide Number32, Words;
    var p, all := |a| + 4 * i, a + Words(ns) + b;
    assert all[p..p + 4] == Words(ns)[4 * i..4 * i + 4];
    WordAt(ns, i);
  }

  /** The restart array holds the offsets of the restart points. */
  lemma RestartAt(es: seq<Pair>, interval: nat, i: nat)
    requires i < |Starts(|es|, interval)| && |BlockBytes(es, interval)| < TWO32
    ensures var s, b, p := Starts(|es|, interval), BlockBytes(es, interval), |Body(es, interval)| + 4 * i;
      s[i] <= |es| && p + 4 <= |b| && Number32(b[p..p + 4]) == Offset(es, interval, s[i])
  {
    hide Body, Number32, Starts, Offset, Words, Fixed32;
    StartsInside(|es|, interval);
    var rs, start := Restarts(es, interval), Starts(|es|, interval)[i];
    OffsetInside(es, interval, start);
    assert rs[i] == Offset(es, interval, start);
    assert rs[i] <= |BlockBytes(es, interval)|;
    WordInside(Body(es, interval), rs, Fixed32(|rs|), i);
  }

  lemma OffsetInside(es: seq<Pair>, interval: nat, i: nat)
    requires i <= |es|
    ensures Offset(es, interval, i) <= |Body(es, interval)|
  {
    BodyPrefix(es, interval, i);
  }

  lemma CountAt(es: seq<Pair>, interval: nat)
    requires |BlockBytes(es, interval)| < TWO32
    ensures var b := BlockBytes(es, interval);
      |b| >= 4 && Number32(b[|b| - 4..]) == |Starts(|es|, interval)|
        && |b| == |Body(es, interval)| + 4 * |Starts(|es|, interval)| + 4
  {
    hide Body, Number32, Starts;
    var b, n := BlockBytes(es, interval), |Restarts(es, interval)|;
    assert b[|b| - 4..] == Fixed32(n);
    Fixed32RoundTrip(n);
  }

  /** No key is longer than the entries up to it. */
  lemma {:induction false} KeyFits(es: seq<Pair>, interval: nat, i: nat)
    requires i < |es|
    ensures |es[i].key| + |es[i].value| <= Offset(es, interval, i + 1)
  {
    hide Body, Starts, Common;
    RecordAt(es, interval, i);
    RecordLength(Shared(es, interval, i), es[i]);
    if i > 0 {
      KeyFits(es, interval, i - 1);
    }
  }

  /** The block of the entries, where its restart array is, and how long that is. */
  ghost predicate IsBlock(data: Bytes, restarts: nat, numRestarts: nat, es: seq<Pair>, interval: nat) {
    && interval >= 1 && data == BlockBytes(es, interval) && |data| < TWO32
    && restarts == |Body(es, interval)| && numRestarts == |Starts(|es|, interval)|
  }

  /** Decoding the bytes from `p` up to the restart array finds entry `e`, which ends at `next`. */
  ghost predicate Finds(data: Bytes, p: nat, next: nat, restarts: nat, shared: nat, e: Pair) {
    && p < next <= restarts <= |data| && shared <= |e.key|
    && EntryOf(data[p..restarts]).Some?
    && var (n, rest) := EntryOf(data[p..restarts]).value;
      && n == Lengths(shared, |e.key| - shared, |e.value|) && |rest| <= restarts
      && var q := restarts - |rest|;
        && q + n.nonShared + n.value == next
        && data[q..q + n.nonShared] == e.key[shared..] && data[q + n.nonShared..next] == e.value
  }

  lemma DecodeAt(data: Bytes, restarts: nat, numRestarts: nat, es: seq<Pair>, interval: nat, i: nat)
    requires IsBlock(data, restarts, numRestarts, es, interval) && i < |es|
    ensures Finds(data, Offset(es, interval, i), Offset(es, interval, i + 1), restarts, Shared(es, interval, i), es[i])
  {
    hide Starts, Shared, Finds, Words, Fixed32, Record;
    var body := Body(es, interval);
    assert body <= data;
    RecordAt(es, interval, i);
    KeyFits(es, interval, i);
    hide Offset, Body, BlockBytes;
    DecodeIn(data, Offset(es, interval, i), Offset(es, interval, i + 1), restarts, Shared(es, interval, i), es[i],
      body);
  }

  lemma DecodeIn(data: Bytes, p: nat, next: nat, restarts: nat, shared: nat, e: Pair, body: Bytes)
    requires body <= data && |body| == restarts && |data| < TWO32 && p < next <= restarts
    requires shared <= |e.key| && |e.key| + |e.value| <= next && body[p..next] == Record(shared, e)
    ensures Finds(data, p, next, restarts, shared, e)
  {
    hide Record, EntryOf;
    var tail := data[next..restarts];
    assert data[p..restarts] == data[p..next] + tail && data[p..next] == body[p..next];
    EntryBack(shared, e, tail);
    var a, b := e.key[shared..], e.value;
    var q := restarts - |a + b + tail|;
    EndsWith(data, p, restarts, a + b + tail, shared, e, tail);
    assert q + |a| + |b| == next;
    assert data[q..restarts] == a + b + tail;
    SliceOfSlice(data, q, restarts, 0, |a|);
    SliceOfSlice(data, q, restarts, |a|, |a| + |b|);
    assert (a + b + tail)[0..|a|] == a && (a + b + tail)[|a|..|a| + |b|] == b;
  }

  lemma SliceOfSlice(s: Bytes, i: nat, j: nat, a: nat, b: nat)
    requires i <= j <= |s| && a <= b <= j - i
    ensures s[i..j][a..b] == s[i + a..i + b]
  {
    forall k | 0 <= k < b - a
      ensures s[i..j][a..b][k] == s[i + a..i + b][k]
    {
      assert s[i..j][a + k] == s[i + a + k];
    }
  }

  lemma EndsWith(data: Bytes, p: nat, restarts: nat, end: Bytes, shared: nat, e: Pair, tail: Bytes)
    requires p <= restarts <= |data| && shared <= |e.key| && end == e.key[shared..] + e.value + tail
    requires data[p..restarts] == Record(shared, e) + tail
    ensures p + |end| <= restarts && data[restarts - |end|..restarts] == end
  {
  }

  // ----- the iterator -----

  /** Restart point `index` is at or before entry `p`. */
  ghost predicate NotAfter(n: nat, interval: nat, index: nat, p: nat) {
    var s := Starts(n, interval);
    index < |s| && s[index] <= p
  }

  /** Entry `p` is in the group of restart point `index`, or is the one that starts the next. */
  ghost predicate Near(n: nat, interval: nat, index: nat, p: nat) {
    var s := Starts(n, interval);
    index < |s| && s[index] <= p && (index + 1 < |s| ==> p <= s[index + 1])
  }

  class Iter {
    const less: (Bytes, Bytes) -> bool
    const data: Bytes
    const restarts: nat
    const numRestarts: nat
    var current: nat
    var restartIndex: nat
    var key: Bytes
    var valueStart: nat
    var valueEnd: nat
    ghost const entries: seq<Pair>
    ghost const interval: nat
    /** The entry the iterator is at; their number when it is at none. */
    ghost var pos: nat

    ghost predicate Valid()
      reads this
    {
      && IsBlock(data, restarts, numRestarts, entries, interval) && pos <= |entries|
      && (pos == |entries| ==> current == restarts)
      && (pos < |entries| ==> At(pos))
    }

    /** The iterator is at entry `p`. */
    ghost predicate At(p: nat)
      reads this
      requires p < |entries|
    {
      && current == Offset(entries, interval, p) && key == entries[p].key
      && valueStart <= valueEnd <= |data| && valueEnd == Offset(entries, interval, p + 1)
        && data[valueStart..valueEnd] == entries[p].value
      && Near(|entries|, interval, restartIndex, p)
    }

    /** Parsing goes on at entry `next`. */
    ghost predicate Ready(next: nat)
      reads this
    {
      && IsBlock(data, restarts, numRestarts, entries, interval) && next <= |entries|
      && valueEnd == Offset(entries, interval, next) && NotAfter(|entries|, interval, restartIndex, next)
      && (next == 0 || IsStart(next, interval) || key == entries[next - 1].key)
    }

    /** Valid: whether the iterator is at an entry. */
    predicate IsValid()
      reads this
    {
      current < restarts
    }

    constructor (less: (Bytes, Bytes) -> bool, data: Bytes, restarts: nat, numRestarts: nat, ghost entries: seq<Pair>,
            ghost interval: nat)
      requires IsBlock(data, restarts, numRestarts, entries, interval)
      ensures Valid() && !IsValid() && pos == |entries|
      ensures this.less == less && this.data == data && this.entries == entries && this.interval == interval
    {
      this.less := less;
      this.data := data;
      this.restarts := restarts;
      this.numRestarts := numRestarts;
      this.entries := entries;
      this.interval := interval;
      current, restartIndex, key, valueStart, valueEnd := restarts, numRestarts, [], 0, 0;
      pos := |entries|;
    }

    function Value(): Bytes
      requires valueStart <= valueEnd <= |data|
      reads this
    {
      data[valueStart..valueEnd]
    }

    method GetRestartPoint(index: nat) returns (offset: nat)
      requires IsBlock(data, restarts, numRestarts, entries, interval) && index < numRestarts
      ensures Starts(|entries|, interval)[index] <= |entries|
      ensures offset == Offset(entries, interval, Starts(|entries|, interval)[index])
    {
      RestartAt(entries, interval, index);
      offset := Number32(data[restarts + index * 4..restarts + index * 4 + 4]);
    }

    method SeekToRestartPoint(index: nat)
      requires IsBlock(data, restarts, numRestarts, entries, interval) && index < numRestarts
      modifies this
      ensures Starts(|entries|, interval)[index] <= |entries| && Ready(Starts(|entries|, interval)[index])
    {
      hide Offset, Starts;
      key := [];
      restartIndex := index;
      valueStart := GetRestartPoint(index);
      valueEnd := valueStart;
      StartReady(|entries|, interval, index);
    }

    method ParseNextKey(ghost next: nat) returns (ok: bool)
      requires Ready(next)
      modifies this
      ensures Valid() && pos == next && (ok <==> next < |entries|)
    {
      hide Offset, Starts, Shared, Body, BlockBytes, EntryOf;
      current := valueEnd;
      pos := next;
      WholeOffset(entries, interval);
      OffsetOrder(entries, interval, next, |entries|);
      if current >= restarts {
        current, restartIndex := restarts, numRestarts;
        return false;
      }
      DecodeAt(data, restarts, numRestarts, entries, interval, next);
      var r := DecodeEntry(data[current..restarts]);
      KeyRebuilt(entries, interval, next, key);
      if r.None? || |key| < r.value.0.shared {
        // A corrupt entry, which a built block does not have.
        assert false;
      }
      var (lengths, rest) := r.value;
      var p := restarts - |rest|;
      key := key[..lengths.shared] + data[p..p + lengths.nonShared];
      valueStart := p + lengths.nonShared;
      valueEnd := valueStart + lengths.value;
      ok := true;
      AdvanceRestartIndex(next);
    }

    method SeekToFirst()
      requires Valid()
      modifies this
      ensures Valid() && pos == 0
    {
      FirstStart(|entries|, interval);
      SeekToRestartPoint(0);
      var _ := ParseNextKey(0);
    }

    method SeekToLast()
      requires Valid()
      modifies this
      ensures Valid() && pos == if entries == [] then 0 else |entries| - 1
    {
      hide Offset, Starts, Body, BlockBytes, Near, NotAfter, IsStart;
      ghost var next := Last(Starts(|entries|, interval));
      SeekToRestartPoint(numRestarts - 1);
      WholeOffset(entries, interval);
      while true
        invariant Ready(next) && (if entries == [] then next == 0 else next < |entries|)
        decreases |entries| - next
      {
        var more := ParseNextKey(next);
        if !more {
          break;
        }
        OffsetOrder(entries, interval, next + 1, |entries|);
        if valueEnd >= restarts {
          break;
        }
        GoOn(next);
        next := next + 1;
      }
    }

    /** From an entry, parsing goes on at the next. */
    lemma GoOn(p: nat)
      requires IsBlock(data, restarts, numRestarts, entries, interval) && p < |entries| && At(p)
      ensures Ready(p + 1)
    {
    }

    /** Back to a restart point before the current entry, then forward until the next entry is the current one. */
    method Prev()
      requires Valid() && IsValid()
      modifies this
      ensures Valid() && pos == if old(pos) == 0 then |entries| else old(pos) - 1
    {
      hide Offset, Starts, Body, BlockBytes, NotAfter, IsStart, Shared;
      var original := current;
      ghost var p, s := pos, Starts(|entries|, interval);
      FirstStart(|entries|, interval);
      while true
        invariant pos == p && current == original == Offset(entries, interval, p) && restartIndex < numRestarts
        decreases restartIndex
      {
        var offset := GetRestartPoint(restartIndex);
        OffsetOrder(entries, interval, s[restartIndex], p);
        if offset < original {
          break;
        }
        if restartIndex == 0 {
          current, restartIndex, pos := restarts, numRestarts, |entries|;
          return;
        }
        restartIndex := restartIndex - 1;
      }
      ghost var next := s[restartIndex];
      SeekToRestartPoint(restartIndex);
      while true
        invariant Ready(next) && next < p
        decreases p - next
      {
        var more := ParseNextKey(next);
        OffsetOrder(entries, interval, next + 1, p);
        if !more || valueEnd >= original {
          break;
        }
        GoOn(next);
        next := next + 1;
      }
    }

    method Next()
      requires Valid() && IsValid()
      modifies this
      ensures Valid() && pos == old(pos) + 1
    {
      GoOn(pos);
      var _ := ParseNextKey(pos + 1);
    }

    /** Binary search for the last restart point with a key before the target, then a linear scan. */
    method Seek(target: Bytes)
      requires Valid() && Transitive(less) && InOrder(entries, less)
      modifies this
      ensures Valid() && IsFirstAtOrAfter(entries, less, target, pos)
    {
      hide Offset, Starts, Body, BlockBytes, NotAfter, IsStart, Shared, InOrder, Transitive, IsFirstAtOrAfter;
      ghost var s := Starts(|entries|, interval);
      var left, right := 0, numRestarts - 1;
      while left < right
        invariant Valid() && 0 <= left <= right < numRestarts
        invariant left == 0 || BeforeTarget(s[left], target)
      {
        var mid := (left + right + 1) / 2;
        ManyStarts(|entries|, interval);
        var midKey := RestartKey(mid);
        if less(midKey, target) {
          left := mid;
        } else {
          right := mid - 1;
        }
      }
      ghost var next := s[left];
      SeekToRestartPoint(left);
      AllBefore(next, target);
      while true
        invariant Ready(next) && Passed(next, target)
        decreases |entries| - next
      {
        var more := ParseNextKey(next);
        if !more || !less(key, target) {
          FirstFound(next, target);
          return;
        }
        PassOne(next, target);
        GoOn(next);
        next := next + 1;
      }
    }

    /** The key at a restart point, which is stored whole. */
    method RestartKey(index: nat) returns (key: Bytes)
      requires IsBlock(data, restarts, numRestarts, entries, interval) && index < numRestarts && entries != []
      ensures var start := Starts(|entries|, interval)[index]; start < |entries| && key == entries[start].key
    {
      hide Offset, Starts, Body, BlockBytes, EntryOf;
      ghost var start := Starts(|entries|, interval)[index];
      var region := GetRestartPoint(index);
      StartInside(|entries|, interval, index);
      DecodeAt(data, restarts, numRestarts, entries, interval, start);
      var r := DecodeEntry(data[region..restarts]);
      if r.None? || r.value.0.shared != 0 {
        // A corrupt entry, which a built block does not have.
        assert false;
      }
      var p := restarts - |r.value.1|;
      key := data[p..p + r.value.0.nonShared];
    }

    ghost predicate BeforeTarget(i: nat, target: Bytes) {
      i < |entries| && less(entries[i].key, target)
    }

    /** All entries before the `n`th are before the target. */
    ghost predicate Passed(n: nat, target: Bytes) {
      n <= |entries| && forall i :: 0 <= i < n ==> less(entries[i].key, target)
    }

    lemma AllBefore(n: nat, target: Bytes)
      requires Transitive(less) && InOrder(entries, less) && n <= |entries| && (n == 0 || BeforeTarget(n, target))
      ensures Passed(n, target)
    {
    }

    lemma PassOne(n: nat, target: Bytes)
      requires Passed(n, target) && n < |entries| && less(entries[n].key, target)
      ensures Passed(n + 1, target)
    {
    }

    lemma FirstFound(n: nat, target: Bytes)
      requires Transitive(less) && InOrder(entries, less) && Passed(n, target)
      requires n == |entries| || !less(entries[n].key, target)
      ensures IsFirstAtOrAfter(entries, less, target, n)
    {
    }

    /** The loop at the end of ParseNextKey. */
    method AdvanceRestartIndex(ghost p: nat)
      requires IsBlock(data, restarts, numRestarts, entries, interval) && p < |entries|
      requires current == Offset(entries, interval, p)
      requires NotAfter(|entries|, interval, restartIndex, p)
      modifies this`restartIndex
      ensures Near(|entries|, interval, restartIndex, p)
    {
      hide Offset, Starts, Body, BlockBytes;
      ghost var s := Starts(|entries|, interval);
      while restartIndex + 1 < numRestarts
        invariant NotAfter(|entries|, interval, restartIndex, p)
        decreases numRestarts - restartIndex
      {
        var following := GetRestartPoint(restartIndex + 1);
        OffsetOrder(entries, interval, s[restartIndex + 1], p);
        if following >= current {
          return;
        }
        restartIndex := restartIndex + 1;
      }
    }
  }

  lemma ManyStarts(n: nat, interval: nat)
    ensures |Starts(n, interval)| > 1 ==> n > 0
  {
  }

  lemma StartInside(n: nat, interval: nat, index: nat)
    requires n > 0 && interval >= 1 && index < |Starts(n, interval)|
    ensures Starts(n, interval)[index] < n && IsStart(Starts(n, interval)[index], interval)
  {
  }

  lemma FirstStart(n: nat, interval: nat)
    ensures Starts(n, interval)[0] == 0
  {
  }

  lemma StartReady(n: nat, interval: nat, index: nat)
    requires interval >= 1 && index < |Starts(n, interval)|
    ensures var s := Starts(n, interval); NotAfter(n, interval, index, s[index]) && IsStart(s[index], interval)
  {
  }

  /** The stored part of a key completes what is left of the key before it. */
  lemma KeyRebuilt(es: seq<Pair>, interval: nat, i: nat, key: Bytes)
    requires i < |es| && (i == 0 || IsStart(i, interval) || key == es[i - 1].key)
    ensures var n := Shared(es, interval, i);
      n <= |key| && key[..n] + es[i].key[n..] == es[i].key
  {
  }

  /** Block's constructor and NewIterator, for the bytes of a built block. */
  method NewIterator(data: Bytes, less: (Bytes, Bytes) -> bool, ghost es: seq<Pair>, ghost interval: nat)
    returns (it: Iter)
    requires interval >= 1 && data == BlockBytes(es, interval) && |data| < TWO32
    ensures fresh(it) && it.Valid() && !it.IsValid() && it.pos == |es|
    ensures it.less == less && it.entries == es && it.interval == interval
  {
    CountAt(es, interval);
    hide Body, Starts;
    var numRestarts := Number32(data[|data| - 4..]);
    var allowed := (|data| - 4) / 4;
    if |data| < 4 || numRestarts > allowed || numRestarts == 0 {
      // Bad block contents, which a built block does not have.
      assert false;
    }
    it := new Iter(less, data, |data| - (1 + numRestarts) * 4, numRestarts, es, interval);
  }

  /** Building a block from a list of pairs and iterating over its bytes gives the list back. */
  method ListBack(es: seq<Pair>, interval: nat, less: (Bytes, Bytes) -> bool) returns (back: seq<Pair>)
    requires interval >= 1 && |BlockBytes(es, interval)| < TWO32
    ensures back == es
  {
    hide Body, BlockBytes, IsBlock, Offset, Near;
    var builder := new BlockBuilder(interval);
    for i := 0 to |es|
      invariant fresh(builder) && builder.Valid() && !builder.finished && builder.entries == es[..i]
      invariant builder.interval == interval
    {
      SmallPair(es, interval, i);
      builder.Add(es[i].key, es[i].value);
      assert es[..i + 1] == es[..i] + [es[i]];
    }
    assert es[..|es|] == es;
    var data := builder.Finish();
    var it := NewIterator(data, less, es, interval);
    it.SeekToFirst();
    back := [];
    while it.IsValid()
      invariant fresh(it) && it.Valid() && it.entries == es && back == es[..it.pos]
      decreases |es| - it.pos
    {
      InsideBlock(it);
      back := back + [Pair(it.key, it.Value())];
      it.Next();
    }
    InsideBlock(it);
  }

  lemma SmallPair(es: seq<Pair>, interval: nat, i: nat)
    requires i < |es| && |BlockBytes(es, interval)| < TWO32
    ensures |es[i].key| < TWO32 && |es[i].value| < TWO32
  {
    hide Body;
    KeyFits(es, interval, i);
    OffsetInside(es, interval, i + 1);
  }

  /** The iterator is valid exactly when it is at an entry. */
  lemma InsideBlock(it: Iter)
    requires it.Valid()
    ensures it.IsValid() <==> it.pos < |it.entries|
  {
    hide Body;
    if it.pos < |it.entries| {
      OffsetOrder(it.entries, it.interval, it.pos, |it.entries|);
      WholeOffset(it.entries, it.interval);
    }
  }
}
