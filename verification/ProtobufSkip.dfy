/** Fields the reader does not know: their bytes are passed over, whatever their types, and change nothing. */
module ProtobufSkip {
  import opened Keys
  import opened Wire
  import opened Protobuf
  import opened ProtobufRoundTrip

  // ----- one record -----

  lemma {:induction false} VarintSkipped(n: nat, rest: Bytes)
    ensures SkipVarint(Varint(n) + rest) == Some(rest)
  {
    if n >= 128 {
      VarintSkipped(n / 128, rest);
      assert (Varint(n) + rest)[1..] == Varint(n / 128) + rest;
    } else {
      assert (Varint(n) + rest)[1..] == rest;
    }
  }

  lemma TakenAll(b: Bytes, rest: Bytes)
    ensures Take(b + rest, |b|) == Some((b, rest))
  {
    assert (b + rest)[..|b|] == b && (b + rest)[|b|..] == rest;
  }

  lemma DelimitedSkipped(b: Bytes, rest: Bytes)
    requires |b| < TWO32
    ensures Skip(Delimited(b) + rest, WT_STRING) == Some(rest)
  {
    DelimitedBack(b, rest);
  }

  /** Skipping goes exactly past one encoded value. */
  lemma ValueSkipped(t: Type, v: Value, rest: Bytes)
    requires ValueOk(t, v) && |Encoded(t, v)| < TWO32
    ensures Skip(Encoded(t, v) + rest, WireType(t)) == Some(rest)
  {
    PayloadBound(t, v);
    match t
    case BoolType => VarintSkipped(if v.n != 0 then 1 else 0, rest);
    case IntType(_) => VarintSkipped(Unsigned64(v.n), rest);
    case UintType(_) => VarintSkipped(v.n, rest);
    case SintType(_) => VarintSkipped(ZigZag(v.n), rest);
    case Fixed32Type => TakenAll(Fixed32(v.n), rest);
    case Fixed64Type => TakenAll(Fixed64(v.n), rest);
    case MessageType(fs) => DelimitedSkipped(EncodedFields(fs, v.slots), rest);
    case _ => DelimitedSkipped(v.bytes, rest);
  }

  ghost predicate Unknown(fs: seq<Field>, g: Field) {
    FieldOk(g) && forall i :: 0 <= i < |fs| ==> fs[i].tag != g.tag
  }

  lemma RecordSkipped(fs: seq<Field>, g: Field, wireType: nat, payload: Bytes, rest: Bytes, slots: seq<Slot>,
          seen: set<nat>, fixed: int)
    requires Unknown(fs, g) && |slots| == |fs| && wireType < 8 && Skip(payload + rest, wireType) == Some(rest)
    ensures DecodedFields(fs, TagBytes(wireType, g.tag) + payload + rest, slots, seen, fixed)
      == DecodedFields(fs, rest, slots, seen, fixed)
  {
    hide Skip;
    TagBack(g, wireType, payload + rest);
    var data := TagBytes(wireType, g.tag) + payload + rest;
    assert data == TagBytes(wireType, g.tag) + (payload + rest);
    var i := Find(fs, g.tag);
    assert i == |fs|;
  }

  // ----- one field -----

  lemma {:induction false} EachSkipped(fs: seq<Field>, g: Field, vs: seq<Value>, k: nat, rest: Bytes, slots: seq<Slot>,
          seen: set<nat>, fixed: int)
    requires Unknown(fs, g) && |slots| == |fs| && k <= |vs|
    requires (forall i :: 0 <= i < |vs| ==> ValueOk(g.ltype, vs[i])) && |EncodedEach(g, vs)| < TWO32
    ensures DecodedFields(fs, EncodedEach(g, vs[k..]) + rest, slots, seen, fixed)
      == DecodedFields(fs, rest, slots, seen, fixed)
    decreases |vs| - k
  {
    hide Encoded, ValueOk, DecodedFields, TagBytes, Skip;
    if k == |vs| {
      assert EncodedEach(g, vs[k..]) + rest == rest;
    } else {
      RunStarts(g, vs, k);
      EachSplits(g, vs, k);
      var after := EncodedEach(g, vs[k + 1..]) + rest;
      ValueSkipped(g.ltype, vs[k], after);
      assert EncodedEach(g, vs[k..]) + rest
        == TagBytes(WireType(g.ltype), g.tag) + Encoded(g.ltype, vs[k]) + after;
      RecordSkipped(fs, g, WireType(g.ltype), Encoded(g.ltype, vs[k]), after, slots, seen, fixed);
      EachSkipped(fs, g, vs, k + 1, rest, slots, seen, fixed);
    }
  }

  /** The bytes of a field the descriptor does not have change nothing: the reader goes on behind them in the state it
      was in. */
  lemma SlotSkipped(fs: seq<Field>, g: Field, s: Slot, rest: Bytes, slots: seq<Slot>, seen: set<nat>, fixed: int)
    requires FieldOk(g) && (forall i :: 0 <= i < |fs| ==> fs[i].tag != g.tag) && |slots| == |fs|
    requires SlotOk(g, s) && |EncodedSlot(g, s)| < TWO32
    ensures DecodedFields(fs, EncodedSlot(g, s) + rest, slots, seen, fixed)
      == DecodedFields(fs, rest, slots, seen, fixed)
  {
    hide DecodedFields, Skip, TagBytes, Encoded;
    if EncodedSlot(g, s) == [] {
      assert EncodedSlot(g, s) + rest == rest;
    } else if s.One? {
      ValueSkipped(g.ltype, s.value, rest);
      RecordSkipped(fs, g, WireType(g.ltype), Encoded(g.ltype, s.value), rest, slots, seen, fixed);
    } else if Packable(g.ltype) {
      var run := EncodedRun(g, s.values);
      DelimitedSkipped(run, rest);
      RecordSkipped(fs, g, WT_STRING, Delimited(run), rest, slots, seen, fixed);
    } else {
      assert s.values[0..] == s.values;
      EachSkipped(fs, g, s.values, 0, rest, slots, seen, fixed);
    }
  }

  /** A record of an unknown field with any other wire type is refused. */
  lemma BadWireType(fs: seq<Field>, g: Field, wireType: nat, rest: Bytes, slots: seq<Slot>, seen: set<nat>, fixed: int)
    requires FieldOk(g) && (forall i :: 0 <= i < |fs| ==> fs[i].tag != g.tag) && |slots| == |fs|
    requires wireType == 3 || wireType == 4 || wireType == 6 || wireType == 7
    ensures DecodedFields(fs, TagBytes(wireType, g.tag) + rest, slots, seen, fixed) == None
  {
    hide Varint, TagBytes, Varint32From, ReadVarint32;
    TagBack(g, wireType, rest);
    assert Find(fs, g.tag) == |fs|;
  }

  // ----- a message -----

  function Count(keep: seq<bool>, n: nat): nat
    requires n <= |keep|
  {
    if n == 0 then 0 else Count(keep, n - 1) + if keep[n - 1] then 1 else 0
  }

  /** The elements that are marked, in order. */
  function Kept<T>(xs: seq<T>, keep: seq<bool>): (r: seq<T>)
    requires |keep| == |xs|
  {
    if xs == [] then []
    else Kept(xs[..|xs| - 1], keep[..|xs| - 1]) + if keep[|xs| - 1] then [xs[|xs| - 1]] else []
  }

  lemma {:induction false} CountOfFront(keep: seq<bool>, m: nat, n: nat)
    requires n <= m <= |keep|
    ensures Count(keep[..m], n) == Count(keep, n)
  {
    if n > 0 {
      CountOfFront(keep, m, n - 1);
    }
  }

  lemma {:induction false} CountGrows(keep: seq<bool>, m: nat, n: nat)
    requires m <= n <= |keep|
    ensures Count(keep, m) <= Count(keep, n)
    ensures m < n && keep[m] ==> Count(keep, m) < Count(keep, n)
  {
    if m < n {
      CountGrows(keep, m, n - 1);
    }
  }

  /** A marked element is found at the place that the marks before it give. */
  lemma {:induction false} KeptAt<T>(xs: seq<T>, keep: seq<bool>, j: nat)
    requires |keep| == |xs| && j <= |xs|
    ensures |Kept(xs, keep)| == Count(keep, |keep|)
    ensures j < |xs| && keep[j] ==> Count(keep, j) < |Kept(xs, keep)| && Kept(xs, keep)[Count(keep, j)] == xs[j]
  {
    if xs != [] {
      var n := |xs| - 1;
      KeptAt(xs[..n], keep[..n], if j < n then j else n);
      CountOfFront(keep, n, n);
      if j < n {
        CountOfFront(keep, n, j);
      }
    }
  }

  /** And nothing else is found. */
  lemma {:induction false} Origin(keep: seq<bool>, n: nat, i: nat) returns (j: nat)
    requires n <= |keep| && i < Count(keep, n)
    ensures j < n && keep[j] && Count(keep, j) == i
  {
    if i < Count(keep, n - 1) {
      j := Origin(keep, n - 1, i);
    } else {
      j := n - 1;
    }
  }

  lemma KeptPair(fs: seq<Field>, slots: seq<Slot>, keep: seq<bool>, i: nat) returns (j: nat)
    requires |fs| == |slots| == |keep| && i < Count(keep, |keep|)
    ensures |Kept(fs, keep)| == |Kept(slots, keep)| == Count(keep, |keep|)
    ensures j < |fs| && keep[j] && Count(keep, j) == i
    ensures Kept(fs, keep)[i] == fs[j] && Kept(slots, keep)[i] == slots[j]
  {
    j := Origin(keep, |keep|, i);
    KeptAt(fs, keep, j);
    KeptAt(slots, keep, j);
  }

  lemma KeptOk(gs: seq<Field>, ts: seq<Slot>, keep: seq<bool>)
    requires FieldsOk(gs) && MessageOk(gs, ts) && |keep| == |gs|
    ensures FieldsOk(Kept(gs, keep)) && MessageOk(Kept(gs, keep), Kept(ts, keep))
  {
    hide Kept, Count, FieldOk, SlotOk;
    KeptAt(gs, keep, 0);
    KeptAt(ts, keep, 0);
    var fs, slots := Kept(gs, keep), Kept(ts, keep);
    forall i | 0 <= i < |fs|
      ensures FieldOk(fs[i]) && SlotOk(fs[i], slots[i])
    {
      var j := KeptPair(gs, ts, keep, i);
    }
    forall i, k | 0 <= i < |fs| && 0 <= k < |fs| && i != k
      ensures fs[i].tag != fs[k].tag && (SameUnion(fs[i], fs[k]) ==> slots[i].Absent? || slots[k].Absent?)
    {
      var j := KeptPair(gs, ts, keep, i);
      var l := KeptPair(gs, ts, keep, k);
      assert j != l;
    }
    assert OneChoice(fs, slots);
  }

  lemma StartState(fs: seq<Field>, slots: seq<Slot>)
    requires |slots| == |fs|
    ensures Mixed(fs, slots, 0) == Defaults(fs) && Seen(fs, 0) == {} && LastFixed(fs, slots, 0) == -1
  {
  }

  /** One field of the sender moves the reader on exactly if it knows the field. */
  lemma OneFieldRead(gs: seq<Field>, ts: seq<Slot>, keep: seq<bool>, m: nat, rest: Bytes)
    requires FieldsOk(gs) && AllOk(gs, ts) && |keep| == |gs| && m < |gs|
    requires FieldsOk(Kept(gs, keep)) && MessageOk(Kept(gs, keep), Kept(ts, keep))
    requires |EncodedSlot(gs[m], ts[m])| < TWO32
    ensures Count(keep, m) <= Count(keep, m + 1) <= |Kept(gs, keep)|
    ensures var fs, slots, c, d := Kept(gs, keep), Kept(ts, keep), Count(keep, m), Count(keep, m + 1);
      DecodedFields(fs, EncodedSlot(gs[m], ts[m]) + rest, Mixed(fs, slots, c), Seen(fs, c), LastFixed(fs, slots, c))
      == DecodedFields(fs, rest, Mixed(fs, slots, d), Seen(fs, d), LastFixed(fs, slots, d))
  {
    hide Kept, DecodedFields, EncodedSlot, SlotOk, FieldsOk, MessageOk, Mixed, Seen, LastFixed;
    var fs, slots, c := Kept(gs, keep), Kept(ts, keep), Count(keep, m);
    KeptAt(gs, keep, m);
    KeptAt(ts, keep, m);
    CountGrows(keep, m + 1, |gs|);
    if keep[m] {
      FieldBack(fs, slots, c, rest);
    } else {
      DroppedTag(gs, ts, keep, m);
      SlotSkipped(fs, gs[m], ts[m], rest, Mixed(fs, slots, c), Seen(fs, c), LastFixed(fs, slots, c));
    }
  }

  /** After the first `n` fields of the sender the reader is where those of them that it knows have led it. */
  lemma {:induction false} KeptFieldsBack(gs: seq<Field>, ts: seq<Slot>, keep: seq<bool>, n: nat, rest: Bytes)
    requires FieldsOk(gs) && AllOk(gs, ts) && |keep| == |gs| && n <= |gs|
    requires FieldsOk(Kept(gs, keep)) && MessageOk(Kept(gs, keep), Kept(ts, keep))
    requires AllOk(gs[..n], ts[..n]) && |EncodedFields(gs[..n], ts[..n])| < TWO32
    ensures Count(keep, n) <= |Kept(gs, keep)|
    ensures var fs, slots, c := Kept(gs, keep), Kept(ts, keep), Count(keep, n);
      DecodedFields(fs, EncodedFields(gs[..n], ts[..n]) + rest, Defaults(fs), {}, -1)
      == DecodedFields(fs, rest, Mixed(fs, slots, c), Seen(fs, c), LastFixed(fs, slots, c))
  {
    hide Kept, DecodedFields, EncodedSlot, SlotOk, FieldsOk, MessageOk, EncodedFields, Mixed, Seen, LastFixed, Count;
    var fs, slots := Kept(gs, keep), Kept(ts, keep);
    if n == 0 {
      KeptAt(gs, keep, 0);
      KeptAt(ts, keep, 0);
      StartState(fs, slots);
      NoneCounted(keep);
      NoFields(gs[..0], ts[..0]);
      assert EncodedFields(gs[..0], ts[..0]) + rest == rest;
    } else {
      var m := n - 1;
      FieldsSplit(gs, ts, m);
      var slot := EncodedSlot(gs[m], ts[m]);
      assert EncodedFields(gs[..n], ts[..n]) + rest == EncodedFields(gs[..m], ts[..m]) + (slot + rest);
      KeptFieldsBack(gs, ts, keep, m, slot + rest);
      OneFieldRead(gs, ts, keep, m, rest);
    }
  }

  lemma NoneCounted(keep: seq<bool>)
    ensures Count(keep, 0) == 0
  {
  }

  lemma NoFields(fs: seq<Field>, slots: seq<Slot>)
    requires fs == [] && slots == []
    ensures EncodedFields(fs, slots) == []
  {
  }

  lemma NothingLeft(fs: seq<Field>, slots: seq<Slot>)
    requires FieldsOk(fs) && MessageOk(fs, slots)
    ensures DecodedFields(fs, [], Mixed(fs, slots, |fs|), Seen(fs, |fs|), LastFixed(fs, slots, |fs|))
      == Some((slots, []))
  {
    assert Mixed(fs, slots, |fs|) == slots;
    AllSeen(fs, |fs|);
    LastFixedFilled(fs, slots, |fs|);
  }

  lemma DroppedTag(gs: seq<Field>, ts: seq<Slot>, keep: seq<bool>, n: nat)
    requires FieldsOk(gs) && |keep| == |gs| == |ts| && n < |gs| && !keep[n]
    ensures FieldOk(gs[n]) && forall i :: 0 <= i < |Kept(gs, keep)| ==> Kept(gs, keep)[i].tag != gs[n].tag
  {
    hide Kept, Count, FieldOk;
    KeptAt(gs, keep, 0);
    forall i | 0 <= i < |Kept(gs, keep)|
      ensures Kept(gs, keep)[i].tag != gs[n].tag
    {
      var j := KeptPair(gs, ts, keep, i);
    }
  }

  /** A reader that knows only some of the sender's fields gets exactly the values of these, and reads to the end. */
  lemma PartBack(gs: seq<Field>, ts: seq<Slot>, keep: seq<bool>)
    requires FieldsOk(gs) && MessageOk(gs, ts) && |EncodedFields(gs, ts)| < TWO32 && |keep| == |gs|
    ensures FieldsOk(Kept(gs, keep)) && |Kept(ts, keep)| == |Kept(gs, keep)|
    ensures DecodedFields(Kept(gs, keep), EncodedFields(gs, ts), Defaults(Kept(gs, keep)), {}, -1)
      == Some((Kept(ts, keep), []))
  {
    hide Kept, DecodedFields, EncodedFields, EncodedSlot;
    KeptOk(gs, ts, keep);
    var fs, slots := Kept(gs, keep), Kept(ts, keep);
    KeptAt(gs, keep, |gs|);
    assert gs[..|gs|] == gs && ts[..|gs|] == ts;
    KeptFieldsBack(gs, ts, keep, |gs|, []);
    assert EncodedFields(gs, ts) + [] == EncodedFields(gs, ts);
    NothingLeft(fs, slots);
  }

  /** A zero byte behind a message ends it; what follows is left unread. */
  lemma ZeroEnds(gs: seq<Field>, ts: seq<Slot>, keep: seq<bool>, rest: Bytes)
    requires FieldsOk(gs) && MessageOk(gs, ts) && |EncodedFields(gs, ts)| < TWO32 && |keep| == |gs|
    ensures |Kept(ts, keep)| == |Kept(gs, keep)|
    ensures DecodedFields(Kept(gs, keep), EncodedFields(gs, ts) + [0] + rest, Defaults(Kept(gs, keep)), {}, -1)
      == Some((Kept(ts, keep), rest))
  {
    hide Kept, DecodedFields, EncodedFields, EncodedSlot;
    KeptOk(gs, ts, keep);
    var fs, slots := Kept(gs, keep), Kept(ts, keep);
    KeptAt(gs, keep, |gs|);
    assert gs[..|gs|] == gs && ts[..|gs|] == ts;
    KeptFieldsBack(gs, ts, keep, |gs|, [0] + rest);
    assert EncodedFields(gs, ts) + [0] + rest == EncodedFields(gs, ts) + ([0] + rest);
    EndsAtZero(fs, slots, rest);
  }

  lemma EndsAtZero(fs: seq<Field>, slots: seq<Slot>, rest: Bytes)
    requires FieldsOk(fs) && MessageOk(fs, slots)
    ensures DecodedFields(fs, [0] + rest, Mixed(fs, slots, |fs|), Seen(fs, |fs|), LastFixed(fs, slots, |fs|))
      == Some((slots, rest))
  {
    assert Mixed(fs, slots, |fs|) == slots;
    AllSeen(fs, |fs|);
    LastFixedFilled(fs, slots, |fs|);
    assert ([0] + rest)[1..] == rest;
  }

  // ----- a field the sender never wrote -----

  /** A slot the field may have, given a value for it. */
  function SomeSlot(f: Field, v: Value): (s: Slot)
    requires ValueOk(f.ltype, v)
    ensures SlotOk(f, s) && (f.rule.OneOf? ==> s.Absent?)
  {
    match f.rule
    case Required => One(v)
    case Singular => One(v)
    case Optional => Absent
    case OneOf(_) => Absent
    case Repeated(_) => Many([])
    case FixedCount(count) => Many(seq(count, _ => v))
  }

  lemma OneFieldMore(gs: seq<Field>, ts: seq<Slot>, keep: seq<bool>, g: Field, v: Value)
    requires FieldsOk(gs + [g]) && MessageOk(gs, ts) && |keep| == |gs| && ValueOk(g.ltype, v)
    ensures MessageOk(gs + [g], ts + [SomeSlot(g, v)])
    ensures Kept(gs + [g], keep + [true]) == Kept(gs, keep) + [g]
    ensures Kept(ts + [SomeSlot(g, v)], keep + [true]) == Kept(ts, keep) + [SomeSlot(g, v)]
    ensures Count(keep + [true], |gs|) == |Kept(gs, keep)| == |Kept(ts, keep)|
  {
    var s := SomeSlot(g, v);
    var more, slots, marks := gs + [g], ts + [s], keep + [true];
    assert more[..|gs|] == gs && slots[..|gs|] == ts && marks[..|gs|] == keep;
    forall i | 0 <= i < |more|
      ensures SlotOk(more[i], slots[i])
    {
    }
    CountOfFront(marks, |gs|, |gs|);
    KeptAt(gs, keep, 0);
    KeptAt(ts, keep, 0);
  }

  lemma {:induction false} SeenBelow(fs: seq<Field>, n: nat)
    requires n <= |fs|
    ensures forall k :: k in Seen(fs, n) ==> k < RequiredBefore(fs, n)
  {
    if n > 0 {
      SeenBelow(fs, n - 1);
    }
  }

  /** What the checks at the end say when only the last field has not been met. */
  lemma LastUnmet(fs: seq<Field>, slots: seq<Slot>)
    requires FieldsOk(fs) && MessageOk(fs, slots) && fs != []
    ensures var c := |fs| - 1;
      var end := DecodedFields(fs, [], Mixed(fs, slots, c), Seen(fs, c), LastFixed(fs, slots, c));
      if fs[c].rule.Required? && RequiredBefore(fs, c) < 64 then end == None
      else end == Some((slots[..c] + [DefaultSlot(fs[c])], []))
  {
    var c := |fs| - 1;
    LastFixedFilled(fs, slots, c);
    AllSeen(fs, c);
    SeenBelow(fs, c);
    assert Mixed(fs, slots, c) == slots[..c] + [DefaultSlot(fs[c])];
    var k := RequiredBefore(fs, c);
    assert k !in Seen(fs, c) && (fs[c].rule.Required? ==> k < RequiredBefore(fs, |fs|));
  }

  /** A reader that asks for one field more, which the sender never wrote: the message is refused if that field is
      required, among the first 64 that are; otherwise it reads as its default. */
  lemma NewField(gs: seq<Field>, ts: seq<Slot>, keep: seq<bool>, g: Field, v: Value)
    requires FieldsOk(gs + [g]) && MessageOk(gs, ts) && |EncodedFields(gs, ts)| < TWO32
    requires |keep| == |gs| && ValueOk(g.ltype, v)
    ensures |Kept(gs, keep)| == |Kept(ts, keep)|
    ensures var fs := Kept(gs, keep) + [g];
      DecodedFields(fs, EncodedFields(gs, ts), Defaults(fs), {}, -1) ==
      if g.rule.Required? && RequiredBefore(fs, |fs| - 1) < 64 then None
      else Some((Kept(ts, keep) + [DefaultSlot(g)], []))
  {
    hide Kept, DecodedFields, EncodedFields, EncodedSlot, Count, FieldsOk, MessageOk, Defaults, Mixed, Seen, LastFixed;
    OneFieldMore(gs, ts, keep, g, v);
    var more, all, marks := gs + [g], ts + [SomeSlot(g, v)], keep + [true];
    var fs, slots := Kept(more, marks), Kept(all, marks);
    KeptOk(more, all, marks);
    assert more[..|gs|] == gs && all[..|gs|] == ts;
    KeptFieldsBack(more, all, marks, |gs|, []);
    assert EncodedFields(gs, ts) + [] == EncodedFields(gs, ts);
    LastUnmet(fs, slots);
    assert slots[..|fs| - 1] == Kept(ts, keep);
  }
}
