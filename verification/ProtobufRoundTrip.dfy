/** Decoding what was encoded gives the message back. */
module ProtobufRoundTrip {
  import opened Keys
  import opened Wire
  import opened Protobuf

  // ----- pieces -----

  lemma TagBack(f: Field, wireType: nat, rest: Bytes)
    requires FieldOk(f) && wireType < 8
    ensures ReadVarint32(TagBytes(wireType, f.tag) + rest) == Some((8 * f.tag + wireType, rest))
    ensures |TagBytes(wireType, f.tag)| > 0
  {
    Varint32RoundTrip(8 * f.tag + wireType, rest);
  }

  lemma DelimitedBack(b: Bytes, rest: Bytes)
    requires |b| < TWO32
    ensures ReadDelimited(Delimited(b) + rest) == Some((b, rest))
    ensures ReadVarint32(Delimited(b) + rest) == Some((|b|, b + rest))
  {
    Varint32RoundTrip(|b|, b + rest);
    assert Delimited(b) + rest == Varint(|b|) + (b + rest);
  }

  lemma {:induction false} NoNul(b: Bytes)
    requires 0 !in b
    ensures UpToNul(b) == b
  {
    if b != [] {
      assert b[0] in b;
      assert b == [b[0]] + b[1..];
      NoNul(b[1..]);
    }
  }

  lemma NarrowFits(n: int, size: nat)
    requires SizeOk(size)
    ensures IsSigned(n, size) ==> Narrow(n, size) == n
    ensures n >= 0 && IsUnsigned(n, size) ==> NarrowUnsigned(n, size) == n
  {
  }

  lemma IntBack(t: Type, v: Value, rest: Bytes, was: Value, init: bool)
    requires TypeOk(t) && ValueOk(t, v) && (t.IntType? || t.UintType? || t.SintType? || t.BoolType?)
    ensures Decoded(t, Encoded(t, v) + rest, was, init) == Some((v, rest))
  {
    match t
    case BoolType =>
      Varint32RoundTrip(v.n, rest);
    case IntType(size) =>
      SignedBack(v.n, size);
      NarrowFits(v.n, size);
      VarintRoundTrip(Unsigned64(v.n), rest);
    case UintType(size) =>
      NarrowFits(v.n, size);
      VarintRoundTrip(v.n, rest);
    case SintType(size) =>
      ZigZagRoundTrip(v.n);
      NarrowFits(v.n, size);
      VarintRoundTrip(ZigZag(v.n), rest);
  }

  lemma FixedBack(t: Type, v: Value, rest: Bytes, was: Value, init: bool)
    requires ValueOk(t, v) && (t.Fixed32Type? || t.Fixed64Type?)
    ensures Decoded(t, Encoded(t, v) + rest, was, init) == Some((v, rest))
  {
    var e := Encoded(t, v);
    if t.Fixed32Type? {
      Fixed32RoundTrip(v.n);
      assert (e + rest)[..4] == e && (e + rest)[4..] == rest;
    } else {
      Fixed64RoundTrip(v.n);
      assert (e + rest)[..8] == e && (e + rest)[8..] == rest;
    }
  }

  lemma StringBack(t: Type, v: Value, rest: Bytes, was: Value, init: bool)
    requires ValueOk(t, v) && (t.BytesType? || t.StringType? || t.FixedBytesType?) && |v.bytes| < TWO32
    ensures Decoded(t, Encoded(t, v) + rest, was, init) == Some((v, rest))
  {
    var b := v.bytes;
    DelimitedBack(b, rest);
    assert (b + rest)[..|b|] == b && (b + rest)[|b|..] == rest;
    if t.StringType? {
      NoNul(b);
    }
    if t.FixedBytesType? && |b| == 0 {
      assert seq(0, _ => 0) == b;
    }
  }

  lemma PayloadBound(t: Type, v: Value)
    requires ValueOk(t, v)
    ensures t.BytesType? || t.StringType? || t.FixedBytesType? ==> |v.bytes| <= |Encoded(t, v)|
    ensures t.MessageType? ==> MessageOk(t.fields, v.slots) && |EncodedFields(t.fields, v.slots)| <= |Encoded(t, v)|
  {
  }

  /** Decoding one encoded value, into a fresh place, gives it back. */
  lemma {:induction false} ValueBack(t: Type, v: Value, rest: Bytes, init: bool)
    requires TypeOk(t) && ValueOk(t, v) && |Encoded(t, v)| < TWO32
    ensures Decoded(t, Encoded(t, v) + rest, Default(t), init) == Some((v, rest))
    decreases TypeDepth(t), 1, 0
  {
    PayloadBound(t, v);
    match t
    case Fixed32Type => FixedBack(t, v, rest, Default(t), init);
    case Fixed64Type => FixedBack(t, v, rest, Default(t), init);
    case BytesType(_) => StringBack(t, v, rest, Default(t), init);
    case StringType(_) => StringBack(t, v, rest, Default(t), init);
    case FixedBytesType(_) => StringBack(t, v, rest, Default(t), init);
    case MessageType(fs) =>
      var body := EncodedFields(fs, v.slots);
      DelimitedBack(body, rest);
      MessageBack(fs, v.slots);
    case _ => IntBack(t, v, rest, Default(t), init);
  }

  // ----- arrays -----

  lemma {:induction false} RunSplits(f: Field, vs: seq<Value>, k: nat)
    requires k <= |vs| && forall i :: 0 <= i < |vs| ==> ValueOk(f.ltype, vs[i])
    ensures EncodedRun(f, vs) == EncodedRun(f, vs[..k]) + EncodedRun(f, vs[k..])
  {
    hide Encoded, ValueOk;
    if k == |vs| {
      assert vs[..k] == vs && vs[k..] == [];
    } else {
      var n := |vs| - 1;
      RunSplits(f, vs[..n], k);
      TailOf(vs, k);
    }
  }

  lemma TailOf(vs: seq<Value>, k: nat)
    requires k < |vs|
    ensures var n := |vs| - 1;
      vs[..n][..k] == vs[..k] && vs[..n][k..] == vs[k..][..n - k] && |vs[k..]| == n - k + 1 && vs[k..][n - k] == vs[n]
  {
  }

  lemma {:induction false} EachSplits(f: Field, vs: seq<Value>, k: nat)
    requires k <= |vs| && forall i :: 0 <= i < |vs| ==> ValueOk(f.ltype, vs[i])
    ensures EncodedEach(f, vs) == EncodedEach(f, vs[..k]) + EncodedEach(f, vs[k..])
  {
    hide Encoded, ValueOk, TagBytes;
    if k == |vs| {
      assert vs[..k] == vs && vs[k..] == [];
    } else {
      var n := |vs| - 1;
      EachSplits(f, vs[..n], k);
      TailOf(vs, k);
    }
  }

  lemma RunStarts(f: Field, vs: seq<Value>, k: nat)
    requires k < |vs| && forall i :: 0 <= i < |vs| ==> ValueOk(f.ltype, vs[i])
    ensures EncodedRun(f, vs[k..]) == Encoded(f.ltype, vs[k]) + EncodedRun(f, vs[k + 1..])
    ensures EncodedEach(f, vs[k..])
      == TagBytes(WireType(f.ltype), f.tag) + Encoded(f.ltype, vs[k]) + EncodedEach(f, vs[k + 1..])
  {
    hide Encoded, ValueOk, TagBytes;
    RunSplits(f, vs[k..], 1);
    EachSplits(f, vs[k..], 1);
    assert vs[k..][..1] == [vs[k]] && vs[k..][1..] == vs[k + 1..];
    assert [vs[k]][..0] == [];
  }

  lemma NotEmpty(t: Type, v: Value)
    requires ValueOk(t, v)
    ensures Packable(t) ==> Encoded(t, v) != []
  {
  }

  lemma {:induction false} RunBack(f: Field, vs: seq<Value>, k: nat)
    requires FieldOk(f) && IsArray(f) && Packable(f.ltype) && k <= |vs| <= ArraySize(f)
    requires (forall i :: 0 <= i < |vs| ==> ValueOk(f.ltype, vs[i])) && |EncodedRun(f, vs)| < TWO32
    ensures DecodedRun(f, EncodedRun(f, vs[k..]), vs[..k]) == Some(vs)
    decreases FieldDepth(f), 2, |vs| - k
  {
    hide Encoded, Decoded, ValueOk;
    if k == |vs| {
      assert vs[..k] == vs && vs[k..] == [];
    } else {
      RunSplits(f, vs, k);
      RunStarts(f, vs, k);
      NotEmpty(f.ltype, vs[k]);
      ValueBack(f.ltype, vs[k], EncodedRun(f, vs[k + 1..]), true);
      assert vs[..k] + [vs[k]] == vs[..k + 1];
      RunBack(f, vs, k + 1);
    }
  }

  // ----- the state between fields -----

  /** After the bytes of the first `n` fields: their slots, and the others' defaults. */
  function Mixed(fs: seq<Field>, slots: seq<Slot>, n: nat): (r: seq<Slot>)
    requires |slots| == |fs|
    ensures |r| == |fs|
  {
    seq(|fs|, i requires 0 <= i < |fs| => if i < n then slots[i] else DefaultSlot(fs[i]))
  }

  /** The required fields among the first `n`, by number. */
  function Seen(fs: seq<Field>, n: nat): set<nat>
    requires n <= |fs|
  {
    if n == 0 then {}
    else if fs[n - 1].rule.Required? then Seen(fs, n - 1) + {RequiredBefore(fs, n - 1)}
    else Seen(fs, n - 1)
  }

  /** The last array without a counter, among the first `n`, that has entries. */
  function LastFixed(fs: seq<Field>, slots: seq<Slot>, n: nat): (r: int)
    requires n <= |fs| == |slots|
    ensures r < n
  {
    if n == 0 then -1
    else if fs[n - 1].rule.FixedCount? && slots[n - 1].Many? && slots[n - 1].values != [] then n - 1
    else LastFixed(fs, slots, n - 1)
  }

  lemma {:induction false} AllSeen(fs: seq<Field>, n: nat)
    requires n <= |fs|
    ensures forall k: nat :: k < RequiredBefore(fs, n) ==> k in Seen(fs, n)
  {
    if n > 0 {
      AllSeen(fs, n - 1);
    }
  }

  lemma LastFixedFilled(fs: seq<Field>, slots: seq<Slot>, n: nat)
    requires MessageOk(fs, slots) && n <= |fs|
    ensures Filled(fs, Mixed(fs, slots, n), LastFixed(fs, slots, n))
  {
  }

  lemma {:induction false} FindsField(fs: seq<Field>, n: nat)
    requires FieldsOk(fs) && n < |fs|
    ensures Find(fs, fs[n].tag) == n
  {
  }

  lemma {:induction false} DefaultsAgree(f: Field, s: Slot)
    requires SlotOk(f, s) && IsDefault(f, s)
    ensures s == DefaultSlot(f)
    decreases f
  {
    if f.rule.Singular? {
      DefaultValueAgrees(f.ltype, s.value);
    }
  }

  lemma {:induction false} DefaultValueAgrees(t: Type, v: Value)
    requires ValueOk(t, v) && IsDefaultValue(t, v)
    ensures v == Default(t)
    decreases t
  {
    match t
    case MessageType(fs) =>
      assert MessageOk(fs, v.slots);
      forall i | 0 <= i < |fs|
        ensures v.slots[i] == DefaultSlot(fs[i])
      {
        assert SlotOk(fs[i], v.slots[i]) && IsDefault(fs[i], v.slots[i]);
        DefaultsAgree(fs[i], v.slots[i]);
      }
      assert v.slots == Defaults(fs);
    case FixedBytesType(n) =>
      assert seq(n, _ => 0) == v.bytes;
    case _ =>
  }

  /** A singular field takes no bytes exactly when it holds the number zero or the empty string. */
  lemma SingularSilent(f: Field, v: Value)
    requires f.rule.Singular? && SlotOk(f, One(v)) && !f.ltype.MessageType?
    ensures EncodedSlot(f, One(v)) == [] <==> v == if Packable(f.ltype) then Num(0) else Str([])
  {
    assert ValueOk(f.ltype, v);
    assert |TagBytes(WireType(f.ltype), f.tag)| > 0;
    assert IsDefault(f, One(v)) <==> IsDefaultValue(f.ltype, v);
    assert v.Num? ==> v == Num(v.n);
    assert v.Str? ==> v == Str(v.bytes) && (v.bytes == [] <==> |v.bytes| == 0);
  }

  lemma SilentIsDefault(f: Field, s: Slot)
    requires SlotOk(f, s)
    ensures IsDefault(f, s) <==> !f.rule.Required? && !f.rule.FixedCount? && EncodedSlot(f, s) == []
  {
    if s.Many? {
      ArrayNotSilent(f, s);
    }
  }

  /** Or a message all fields of which take no bytes, none of them required or an array without a counter. */
  lemma SingularMessageSilent(f: Field, v: Value)
    requires f.rule.Singular? && SlotOk(f, One(v)) && f.ltype.MessageType?
    ensures v.Msg? && MessageOk(f.ltype.fields, v.slots)
    ensures EncodedSlot(f, One(v)) == [] <==> forall i :: 0 <= i < |f.ltype.fields| ==>
      var g := f.ltype.fields[i];
      SlotOk(g, v.slots[i]) && EncodedSlot(g, v.slots[i]) == [] && !g.rule.Required? && !g.rule.FixedCount?
  {
    assert ValueOk(f.ltype, v);
    var fs := f.ltype.fields;
    assert MessageOk(fs, v.slots);
    assert |TagBytes(WireType(f.ltype), f.tag)| > 0;
    forall i | 0 <= i < |fs|
      ensures SlotOk(fs[i], v.slots[i])
      ensures IsDefault(fs[i], v.slots[i]) <==>
        EncodedSlot(fs[i], v.slots[i]) == [] && !fs[i].rule.Required? && !fs[i].rule.FixedCount?
    {
      SilentIsDefault(fs[i], v.slots[i]);
    }
    assert IsDefault(f, One(v)) <==> IsDefaultValue(f.ltype, v);
  }

  /** Where a field has no bytes, its slot is the default, and nothing else changes. */
  lemma SilentField(fs: seq<Field>, slots: seq<Slot>, n: nat)
    requires MessageOk(fs, slots) && n < |fs| && SlotOk(fs[n], slots[n]) && EncodedSlot(fs[n], slots[n]) == []
    ensures Mixed(fs, slots, n + 1) == Mixed(fs, slots, n) && Seen(fs, n + 1) == Seen(fs, n)
    ensures LastFixed(fs, slots, n + 1) == LastFixed(fs, slots, n)
  {
    var f, s := fs[n], slots[n];
    if s.One? && f.rule.Singular? && IsDefault(f, s) {
      DefaultsAgree(f, s);
    }
    if s.Many? {
      ArrayNotSilent(f, s);
    }
  }

  lemma ArrayNotSilent(f: Field, s: Slot)
    requires SlotOk(f, s) && s.Many?
    ensures EncodedSlot(f, s) == [] ==> s.values == []
  {
    if s.values != [] {
      var last := s.values[|s.values| - 1];
      assert |TagBytes(WireType(f.ltype), f.tag) + Encoded(f.ltype, last)| > 0;
      assert |EncodedEach(f, s.values)| > 0;
    }
  }

  // ----- one field -----

  /** One record read back. */
  lemma RecordBack(fs: seq<Field>, n: nat, wireType: nat, payload: Bytes, rest: Bytes, slots: seq<Slot>,
          seen: set<nat>, fixed: int)
    requires FieldsOk(fs) && n < |fs| && |slots| == |fs| && wireType < 8
    ensures DecodedFields(fs, TagBytes(wireType, fs[n].tag) + payload + rest, slots, seen, fixed)
      == DecodedRecord(fs, n, wireType, payload + rest, slots, seen, fixed)
  {
    var f := fs[n];
    assert FieldOk(f);
    TagBack(f, wireType, payload + rest);
    assert TagBytes(wireType, f.tag) + payload + rest == TagBytes(wireType, f.tag) + (payload + rest);
    FindsField(fs, n);
  }

  /** Choosing field `n` turns the state before it into the state after it. */
  lemma ChosenMixed(fs: seq<Field>, slots: seq<Slot>, n: nat, before: seq<Slot>)
    requires MessageOk(fs, slots) && n < |fs| && !slots[n].Absent?
    requires |before| == |fs| && forall i :: 0 <= i < |fs| && i != n ==> before[i] == Mixed(fs, slots, n)[i]
    ensures Chosen(fs, before, n, slots[n]) == Mixed(fs, slots, n + 1)
  {
  }

  lemma OneFieldBack(fs: seq<Field>, slots: seq<Slot>, n: nat, rest: Bytes)
    requires FieldsOk(fs) && MessageOk(fs, slots) && n < |fs| && SlotOk(fs[n], slots[n])
    requires slots[n].One? && EncodedSlot(fs[n], slots[n]) != [] && |EncodedSlot(fs[n], slots[n])| < TWO32
    ensures DecodedFields(fs, EncodedSlot(fs[n], slots[n]) + rest, Mixed(fs, slots, n), Seen(fs, n),
      LastFixed(fs, slots, n))
      == DecodedFields(fs, rest, Mixed(fs, slots, n + 1), Seen(fs, n + 1), LastFixed(fs, slots, n + 1))
    decreases FieldDepth(fs[n]), 2, 0
  {
    var f, v := fs[n], slots[n].value;
    assert FieldOk(f);
    var before, seen, fixed := Mixed(fs, slots, n), Seen(fs, n), LastFixed(fs, slots, n);
    RecordBack(fs, n, WireType(f.ltype), Encoded(f.ltype, v), rest, before, seen, fixed);
    ValueBack(f.ltype, v, rest, false);
    ChosenMixed(fs, slots, n, before);
  }

  lemma ElementsOk(fs: seq<Field>, slots: seq<Slot>, n: nat)
    requires MessageOk(fs, slots) && FieldsOk(fs) && n < |fs| && slots[n].Many?
    ensures FieldOk(fs[n]) && TypeOk(fs[n].ltype) && SlotOk(fs[n], slots[n]) && IsArray(fs[n])
    ensures |slots[n].values| <= ArraySize(fs[n])
    ensures forall i :: 0 <= i < |slots[n].values| ==> ValueOk(fs[n].ltype, slots[n].values[i])
    ensures Seen(fs, n + 1) == Seen(fs, n)
  {
  }

  /** One entry of an unpacked array. */
  lemma EntryBack(f: Field, vs: seq<Value>, k: nat, after: Bytes)
    requires TypeOk(f.ltype) && IsArray(f) && !Packable(f.ltype) && k < |vs| <= ArraySize(f)
    requires ValueOk(f.ltype, vs[k]) && |Encoded(f.ltype, vs[k])| < TWO32
    ensures DecodedSlot(f, WireType(f.ltype), Encoded(f.ltype, vs[k]) + after, Many(vs[..k]))
      == Some((Many(vs[..k + 1]), after))
    decreases FieldDepth(f), 2, 0
  {
    hide Encoded, Decoded, ValueOk, TypeOk;
    ValueBack(f.ltype, vs[k], after, true);
    assert vs[..k] + [vs[k]] == vs[..k + 1];
  }

  /** The slots while array `n` holds its first `k` entries. */
  function Filling(fs: seq<Field>, slots: seq<Slot>, n: nat, k: nat): (r: seq<Slot>)
    requires |slots| == |fs| && n < |fs| && slots[n].Many? && k <= |slots[n].values|
    ensures |r| == |fs|
  {
    Mixed(fs, slots, n)[n := Many(slots[n].values[..k])]
  }

  /** The array without a counter that is being filled, once array `n` holds `k` entries. */
  function FixedAt(fs: seq<Field>, slots: seq<Slot>, n: nat, k: nat): int
    requires |slots| == |fs| && n < |fs|
  {
    if fs[n].rule.FixedCount? && k > 0 then n else LastFixed(fs, slots, n)
  }

  lemma FillingSteps(fs: seq<Field>, slots: seq<Slot>, n: nat, k: nat)
    requires MessageOk(fs, slots) && FieldsOk(fs) && n < |fs| && slots[n].Many? && k <= |slots[n].values|
    ensures k < |slots[n].values| ==>
      Chosen(fs, Filling(fs, slots, n, k), n, Many(slots[n].values[..k + 1])) == Filling(fs, slots, n, k + 1)
    ensures k == |slots[n].values| ==> Filling(fs, slots, n, k) == Mixed(fs, slots, n + 1)
    ensures k == 0 ==> Filling(fs, slots, n, k) == Mixed(fs, slots, n)
    ensures k == 0 ==> FixedAt(fs, slots, n, k) == LastFixed(fs, slots, n)
    ensures k == |slots[n].values| > 0 ==> FixedAt(fs, slots, n, k) == LastFixed(fs, slots, n + 1)
  {
    assert SlotOk(fs[n], slots[n]);
    var vs := slots[n].values;
    assert vs[..|vs|] == vs && vs[..0] == [];
  }

  lemma EntryRecord(fs: seq<Field>, slots: seq<Slot>, n: nat, k: nat, after: Bytes)
    requires FieldsOk(fs) && MessageOk(fs, slots) && n < |fs| && slots[n].Many? && k < |slots[n].values|
    requires ValueOk(fs[n].ltype, slots[n].values[k]) && !Packable(fs[n].ltype)
    requires |Encoded(fs[n].ltype, slots[n].values[k])| < TWO32
    ensures DecodedRecord(fs, n, WireType(fs[n].ltype), Encoded(fs[n].ltype, slots[n].values[k]) + after,
                          Filling(fs, slots, n, k), Seen(fs, n), FixedAt(fs, slots, n, k))
      == DecodedFields(fs, after, Filling(fs, slots, n, k + 1), Seen(fs, n), FixedAt(fs, slots, n, k + 1))
    decreases FieldDepth(fs[n]), 3, 0
  {
    hide Encoded, DecodedSlot, DecodedFields, Filled, Mixed, Chosen, ValueOk;
    ElementsOk(fs, slots, n);
    var f, vs := fs[n], slots[n].values;
    EntryBack(f, vs, k, after);
    FillingSteps(fs, slots, n, k);
    LastFixedFilled(fs, slots, n);
    assert k == 0 ==> vs[..k] == [];
    assert Filled(fs, Filling(fs, slots, n, k), FixedAt(fs, slots, n, k)) || k > 0 by {
      if k == 0 {
        assert Filling(fs, slots, n, k) == Mixed(fs, slots, n);
      }
    }
  }

  lemma EachStep(fs: seq<Field>, slots: seq<Slot>, n: nat, k: nat, rest: Bytes)
    requires FieldsOk(fs) && MessageOk(fs, slots) && |slots| == |fs| && n < |fs| && !Packable(fs[n].ltype)
    requires slots[n].Many? && k < |slots[n].values|
    requires forall i :: 0 <= i < |slots[n].values| ==> ValueOk(fs[n].ltype, slots[n].values[i])
    requires |EncodedEach(fs[n], slots[n].values)| < TWO32
    ensures DecodedFields(fs, EncodedEach(fs[n], slots[n].values[k..]) + rest, Filling(fs, slots, n, k), Seen(fs, n),
      FixedAt(fs, slots, n, k))
      == DecodedFields(fs, EncodedEach(fs[n], slots[n].values[k + 1..]) + rest, Filling(fs, slots, n, k + 1),
        Seen(fs, n), FixedAt(fs, slots, n, k + 1))
    decreases FieldDepth(fs[n]), 4, 0
  {
    hide Encoded, ValueOk, DecodedFields, DecodedRecord, Filling, TagBytes, Seen, MessageOk, FieldsOk, FieldOk,
      FixedAt, EncodedEach;
    ElementsOk(fs, slots, n);
    var f, vs := fs[n], slots[n].values;
    RunStarts(f, vs, k);
    EachSplits(f, vs, k);
    var head, after := Encoded(f.ltype, vs[k]), EncodedEach(f, vs[k + 1..]) + rest;
    assert EncodedEach(f, vs[k..]) + rest == TagBytes(WireType(f.ltype), f.tag) + head + after;
    RecordBack(fs, n, WireType(f.ltype), head, after, Filling(fs, slots, n, k), Seen(fs, n), FixedAt(fs, slots, n, k));
    EntryRecord(fs, slots, n, k, after);
  }

  /** The entries of an unpacked array, from entry `k` on. */
  lemma {:induction false} EachBack(fs: seq<Field>, slots: seq<Slot>, n: nat, k: nat, rest: Bytes)
    requires FieldsOk(fs) && MessageOk(fs, slots) && |slots| == |fs| && n < |fs| && !Packable(fs[n].ltype)
    requires slots[n].Many? && slots[n].values != [] && k <= |slots[n].values|
    requires forall i :: 0 <= i < |slots[n].values| ==> ValueOk(fs[n].ltype, slots[n].values[i])
    requires |EncodedEach(fs[n], slots[n].values)| < TWO32
    ensures DecodedFields(fs, EncodedEach(fs[n], slots[n].values[k..]) + rest, Filling(fs, slots, n, k), Seen(fs, n),
      FixedAt(fs, slots, n, k))
      == DecodedFields(fs, rest, Mixed(fs, slots, n + 1), Seen(fs, n + 1), LastFixed(fs, slots, n + 1))
    decreases FieldDepth(fs[n]), 5, |slots[n].values| - k
  {
    hide Encoded, ValueOk, DecodedFields, Filling, Seen, MessageOk, FieldsOk, Mixed, LastFixed, FixedAt;
    if k == |slots[n].values| {
      ElementsOk(fs, slots, n);
      FillingSteps(fs, slots, n, k);
      assert slots[n].values[k..] == [];
      assert EncodedEach(fs[n], []) + rest == rest;
    } else {
      EachStep(fs, slots, n, k, rest);
      EachBack(fs, slots, n, k + 1, rest);
    }
  }

  lemma PackedBack(fs: seq<Field>, slots: seq<Slot>, n: nat, rest: Bytes)
    requires FieldsOk(fs) && MessageOk(fs, slots) && n < |fs| && SlotOk(fs[n], slots[n]) && FieldOk(fs[n])
    requires slots[n].Many? && slots[n].values != [] && Packable(fs[n].ltype) && |EncodedSlot(fs[n], slots[n])| < TWO32
    ensures DecodedFields(fs, EncodedSlot(fs[n], slots[n]) + rest, Mixed(fs, slots, n), Seen(fs, n),
      LastFixed(fs, slots, n))
      == DecodedFields(fs, rest, Mixed(fs, slots, n + 1), Seen(fs, n + 1), LastFixed(fs, slots, n + 1))
    decreases FieldDepth(fs[n]), 3, 0
  {
    var f, vs := fs[n], slots[n].values;
    var before, seen, fixed := Mixed(fs, slots, n), Seen(fs, n), LastFixed(fs, slots, n);
    var run := EncodedRun(f, vs);
    assert EncodedSlot(f, slots[n]) == TagBytes(WT_STRING, f.tag) + Delimited(run);
    RecordBack(fs, n, WT_STRING, Delimited(run), rest, before, seen, fixed);
    DelimitedBack(run, rest);
    assert vs[0..] == vs && vs[..0] == [];
    RunBack(f, vs, 0);
    LastFixedFilled(fs, slots, n);
    ChosenMixed(fs, slots, n, before);
  }

  /** Reading the bytes of field `n` leads from the state before it to the state after it. */
  lemma FieldBack(fs: seq<Field>, slots: seq<Slot>, n: nat, rest: Bytes)
    requires FieldsOk(fs) && MessageOk(fs, slots) && n < |fs| && SlotOk(fs[n], slots[n])
    requires |EncodedSlot(fs[n], slots[n])| < TWO32
    ensures DecodedFields(fs, EncodedSlot(fs[n], slots[n]) + rest, Mixed(fs, slots, n), Seen(fs, n),
      LastFixed(fs, slots, n))
      == DecodedFields(fs, rest, Mixed(fs, slots, n + 1), Seen(fs, n + 1), LastFixed(fs, slots, n + 1))
    decreases FieldDepth(fs[n]), 6, 0
  {
    var f, s := fs[n], slots[n];
    assert FieldOk(f);
    if EncodedSlot(f, s) == [] {
      SilentField(fs, slots, n);
      assert EncodedSlot(f, s) + rest == rest;
    } else if s.One? {
      OneFieldBack(fs, slots, n, rest);
    } else if Packable(f.ltype) {
      PackedBack(fs, slots, n, rest);
    } else {
      ElementsOk(fs, slots, n);
      FillingSteps(fs, slots, n, 0);
      assert s.values[0..] == s.values;
      EachBack(fs, slots, n, 0, rest);
    }
  }

  // ----- the message -----

  ghost predicate AllOk(fs: seq<Field>, slots: seq<Slot>) {
    |slots| == |fs| && forall i :: 0 <= i < |fs| ==> SlotOk(fs[i], slots[i])
  }

  lemma FieldsSplit(fs: seq<Field>, slots: seq<Slot>, n: nat)
    requires AllOk(fs, slots) && n < |fs|
    ensures AllOk(fs[..n], slots[..n]) && AllOk(fs[..n + 1], slots[..n + 1])
    ensures EncodedFields(fs[..n + 1], slots[..n + 1])
      == EncodedFields(fs[..n], slots[..n]) + EncodedSlot(fs[n], slots[n])
  {
    assert fs[..n + 1][..n] == fs[..n] && slots[..n + 1][..n] == slots[..n];
    var gs, ts := fs[..n + 1], slots[..n + 1];
    forall i | 0 <= i < |gs|
      ensures SlotOk(gs[i], ts[i])
    {
      assert SlotOk(fs[i], slots[i]);
    }
  }

  /** The bytes of fields `n` and up. */
  ghost function EncodedFrom(fs: seq<Field>, slots: seq<Slot>, n: nat): Bytes
    requires AllOk(fs, slots) && n <= |fs|
    decreases |fs| - n
  {
    if n == |fs| then [] else EncodedSlot(fs[n], slots[n]) + EncodedFrom(fs, slots, n + 1)
  }

  lemma {:induction false} FromStart(fs: seq<Field>, slots: seq<Slot>, n: nat)
    requires AllOk(fs, slots) && n <= |fs|
    ensures AllOk(fs[..n], slots[..n])
    ensures EncodedFields(fs, slots) == EncodedFields(fs[..n], slots[..n]) + EncodedFrom(fs, slots, n)
    decreases |fs| - n
  {
    hide EncodedFields, EncodedSlot, SlotOk;
    if n == |fs| {
      assert fs[..n] == fs && slots[..n] == slots;
    } else {
      FromStart(fs, slots, n + 1);
      FieldsSplit(fs, slots, n);
    }
  }

  lemma {:induction false} FieldsBack(fs: seq<Field>, slots: seq<Slot>, n: nat)
    requires FieldsOk(fs) && MessageOk(fs, slots) && n <= |fs| && AllOk(fs, slots)
    requires |EncodedFrom(fs, slots, n)| < TWO32
    ensures DecodedFields(fs, EncodedFrom(fs, slots, n), Mixed(fs, slots, n), Seen(fs, n), LastFixed(fs, slots, n))
      == Some((slots, []))
    decreases Depth(fs), 7, |fs| - n
  {
    if n == |fs| {
      assert Mixed(fs, slots, n) == slots;
      AllSeen(fs, n);
      LastFixedFilled(fs, slots, n);
    } else {
      FieldBack(fs, slots, n, EncodedFrom(fs, slots, n + 1));
      FieldsBack(fs, slots, n + 1);
    }
  }

  /** Decoding the bytes of a valid message, into a message set to defaults, succeeds, uses them all, and gives the
      message back. */
  lemma {:induction false} MessageBack(fs: seq<Field>, slots: seq<Slot>)
    requires FieldsOk(fs) && MessageOk(fs, slots) && |EncodedFields(fs, slots)| < TWO32
    ensures DecodedFields(fs, EncodedFields(fs, slots), Defaults(fs), {}, -1) == Some((slots, []))
    decreases Depth(fs), 8, 0
  {
    FromStart(fs, slots, 0);
    assert EncodedFields(fs[..0], slots[..0]) == [];
    assert EncodedFields(fs, slots) == EncodedFrom(fs, slots, 0);
    assert Mixed(fs, slots, 0) == Defaults(fs) && Seen(fs, 0) == {} && LastFixed(fs, slots, 0) == -1;
    FieldsBack(fs, slots, 0);
  }
}
