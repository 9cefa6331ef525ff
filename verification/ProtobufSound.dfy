/** Whatever the bytes, a message that decodes is one its structure can hold. */
module ProtobufSound {
  import opened Keys
  import opened Wire
  import opened Protobuf

  // ----- what a structure can hold -----

  /** A value within its type's range and room. */
  predicate ValueHeld(t: Type, v: Value)
    decreases t
  {
    match t
    case BoolType => v.Num? && (v.n == 0 || v.n == 1)
    case IntType(size) => v.Num? && IsSigned(v.n, size)
    case UintType(size) => v.Num? && IsUnsigned(v.n, size)
    case SintType(size) => v.Num? && IsSigned(v.n, size)
    case Fixed32Type => v.Num? && 0 <= v.n < TWO32
    case Fixed64Type => v.Num? && 0 <= v.n < TWO64
    case BytesType(capacity) => v.Str? && |v.bytes| <= capacity
    case StringType(capacity) => v.Str? && (v.bytes == [] || (|v.bytes| < capacity && 0 !in v.bytes))
    case FixedBytesType(length) => v.Str? && |v.bytes| == length
    case MessageType(fs) => v.Msg? && MessageHeld(fs, v.slots)
  }

  /** As a valid slot, but an array without a counter may have been left untouched. */
  predicate SlotHeld(f: Field, s: Slot)
    decreases f
  {
    match f.rule
    case Required => s.One? && ValueHeld(f.ltype, s.value)
    case Singular => s.One? && ValueHeld(f.ltype, s.value)
    case Optional => s.Absent? || (s.One? && ValueHeld(f.ltype, s.value))
    case OneOf(_) => s.Absent? || (s.One? && ValueHeld(f.ltype, s.value))
    case Repeated(capacity) => s.Many? && |s.values| <= capacity && forall i :: 0 <= i < |s.values| ==>
      ValueHeld(f.ltype, s.values[i])
    case FixedCount(count) => s.Many? && (s.values == [] || |s.values| == count) && forall i :: 0 <= i < |s.values| ==>
      ValueHeld(f.ltype, s.values[i])
  }

  /** Every slot is one its field can hold, and of each union at most one field is chosen. */
  predicate MessageHeld(fs: seq<Field>, slots: seq<Slot>)
    decreases fs
  {
    && |slots| == |fs|
    && (forall i :: 0 <= i < |fs| ==> SlotHeld(fs[i], slots[i]))
    && OneChoice(fs, slots)
  }

  lemma {:induction false} DefaultHeld(t: Type)
    requires TypeOk(t)
    ensures ValueHeld(t, Default(t))
    decreases t
  {
    match t
    case MessageType(fs) => DefaultsHeld(fs);
    case _ =>
  }

  lemma {:induction false} DefaultSlotHeld(f: Field)
    requires FieldOk(f)
    ensures SlotHeld(f, DefaultSlot(f))
    decreases f
  {
    DefaultHeld(f.ltype);
  }

  lemma {:induction false} DefaultsHeld(fs: seq<Field>)
    requires FieldsOk(fs)
    ensures MessageHeld(fs, Defaults(fs))
    decreases fs
  {
    forall i | 0 <= i < |fs|
      ensures SlotHeld(fs[i], DefaultSlot(fs[i]))
    {
      DefaultSlotHeld(fs[i]);
    }
  }

  // ----- numbers -----

  lemma {:induction false} VarintBound(data: Bytes, bitpos: nat, result: nat)
    requires result < TWO64
    ensures VarintFrom(data, bitpos, result).Some? ==> VarintFrom(data, bitpos, result).value.0 < TWO64
    decreases |data|
  {
    if bitpos < 64 && data != [] {
      Pow2Values();
      hide Pow2, Or, Shifted;
      OrFits(result, Shifted(data[0] % 128, bitpos) % TWO64, 64);
      VarintBound(data[1..], bitpos + 7, Or(result, Shifted(data[0] % 128, bitpos) % TWO64));
    }
  }

  lemma MergedBelow(result: nat, x: nat)
    requires result < TWO32 && x < TWO32
    ensures Or(result, x) < TWO32
  {
    Pow2Values();
    OrFits(result, x, 32);
  }

  lemma {:induction false} Varint32Bound(data: Bytes, bitpos: nat, result: nat)
    requires result < TWO32
    ensures Varint32From(data, bitpos, result).Some? ==> Varint32From(data, bitpos, result).value.0 < TWO32
    decreases |data|
  {
    hide Pow2, Or, Shifted;
    if data != [] {
      var x := Shifted(data[0] % 128, bitpos) % TWO32;
      MergedBelow(result, x);
      Varint32Bound(data[1..], (bitpos + 7) % 256, if bitpos >= 32 then result else Or(result, x));
    }
  }

  lemma {:induction false} NoNulBefore(b: Bytes)
    ensures 0 !in UpToNul(b) && |UpToNul(b)| <= |b|
  {
    if b != [] && b[0] != 0 {
      NoNulBefore(b[1..]);
    }
  }

  lemma NarrowHeld(n: int, size: nat)
    requires SizeOk(size)
    ensures IsSigned(n, 8) && Narrow(n, size) == n ==> IsSigned(n, size)
    ensures 0 <= n < TWO64 && NarrowUnsigned(n, size) == n ==> IsUnsigned(n, size)
  {
  }

  lemma NumberHeld(t: Type, data: Bytes, was: Value, init: bool)
    requires TypeOk(t) && Packable(t)
    ensures Decoded(t, data, was, init).Some? ==> ValueHeld(t, Decoded(t, data, was, init).value.0)
  {
    VarintBound(data, 0, 0);
    if ReadVarint(data).Some? {
      var n := ReadVarint(data).value.0;
      match t
      case IntType(size) => NarrowHeld(if size == 8 then Signed64(n) else Signed32(n), size);
      case UintType(size) => NarrowHeld(n, size);
      case SintType(size) => NarrowHeld(UnZigZag(n), size);
      case _ =>
    }
  }

  lemma StringHeld(t: Type, data: Bytes, was: Value, init: bool)
    requires t.BytesType? || t.StringType? || t.FixedBytesType?
    ensures Decoded(t, data, was, init).Some? ==> ValueHeld(t, Decoded(t, data, was, init).value.0)
  {
    if t.StringType? && ReadVarint32(data).Some? {
      var (n, rest) := ReadVarint32(data).value;
      if n <= |rest| {
        NoNulBefore(rest[..n]);
      }
    }
  }

  // ----- the loop -----

  /** Between two records: as at the end, but the array without a counter that is being filled may be incomplete. */
  ghost predicate Going(fs: seq<Field>, slots: seq<Slot>, fixed: int) {
    && |slots| == |fs|
    && (forall i :: 0 <= i < |fs| ==> PartHeld(fs[i], slots[i], i == fixed))
    && OneChoice(fs, slots)
  }

  ghost predicate PartHeld(f: Field, s: Slot, filling: bool) {
    if filling && f.rule.FixedCount? then
      s.Many? && |s.values| <= f.rule.count && forall i :: 0 <= i < |s.values| ==> ValueHeld(f.ltype, s.values[i])
    else SlotHeld(f, s)
  }

  lemma ValueIsHeld(t: Type, data: Bytes, was: Value, init: bool)
    requires TypeOk(t) && ValueHeld(t, was)
    ensures Decoded(t, data, was, init).Some? ==> ValueHeld(t, Decoded(t, data, was, init).value.0)
    decreases TypeDepth(t), 2, |data|, 0
  {
    if Packable(t) {
      NumberHeld(t, data, was, init);
    } else if t.MessageType? {
      var fs := t.fields;
      if ReadDelimited(data).Some? {
        ReadShortens(data);
        var (body, rest) := ReadDelimited(data).value;
        DefaultsHeld(fs);
        FieldsAreHeld(fs, body, if !init && was.Msg? && |was.slots| == |fs| then was.slots else Defaults(fs), {}, -1);
      }
    } else {
      StringHeld(t, data, was, init);
    }
  }

  lemma RunIsHeld(f: Field, data: Bytes, vs: seq<Value>)
    requires IsArray(f) && TypeOk(f.ltype) && |vs| <= ArraySize(f)
    requires forall i :: 0 <= i < |vs| ==> ValueHeld(f.ltype, vs[i])
    ensures var all := DecodedRun(f, data, vs); all.Some? ==>
      |all.value| <= ArraySize(f) && forall i :: 0 <= i < |all.value| ==> ValueHeld(f.ltype, all.value[i])
    decreases FieldDepth(f), 3, |data|, 0
  {
    if data != [] && |vs| < ArraySize(f) {
      DefaultHeld(f.ltype);
      ValueIsHeld(f.ltype, data, Default(f.ltype), true);
      match Decoded(f.ltype, data, Default(f.ltype), true)
      case Some((v, rest)) =>
        if |rest| < |data| {
          RunIsHeld(f, rest, vs + [v]);
        }
      case None =>
    }
  }

  lemma ArrayIsHeld(f: Field, wireType: nat, data: Bytes, was: Slot)
    requires FieldOk(f) && IsArray(f) && PartHeld(f, was, true)
    ensures DecodedSlot(f, wireType, data, was).Some? ==> PartHeld(f, DecodedSlot(f, wireType, data, was).value.0, true)
    decreases FieldDepth(f), 4, |data|, 0
  {
    hide Decoded, DecodedRun, ReadDelimited, ValueHeld, TypeOk, Default;
    assert FieldOk(f) ==> TypeOk(f.ltype);
    DefaultHeld(f.ltype);
    ValueIsHeld(f.ltype, data, Default(f.ltype), true);
    if ReadDelimited(data).Some? {
      ReadShortens(data);
      RunIsHeld(f, ReadDelimited(data).value.0, was.values);
    }
  }

  lemma SlotIsHeld(f: Field, wireType: nat, data: Bytes, was: Slot)
    requires FieldOk(f) && PartHeld(f, was, true)
    ensures DecodedSlot(f, wireType, data, was).Some? ==> PartHeld(f, DecodedSlot(f, wireType, data, was).value.0, true)
    decreases FieldDepth(f), 4, |data|, 1
  {
    if IsArray(f) {
      ArrayIsHeld(f, wireType, data, was);
    } else {
      hide Decoded, DecodedRun, ReadDelimited, ValueHeld, TypeOk, Default;
      assert FieldOk(f) ==> TypeOk(f.ltype);
      DefaultHeld(f.ltype);
      ValueIsHeld(f.ltype, data, if was.One? then was.value else Default(f.ltype), false);
    }
  }

  lemma FieldsAreHeld(fs: seq<Field>, data: Bytes, slots: seq<Slot>, seen: set<nat>, fixed: int)
    requires FieldsOk(fs) && Going(fs, slots, fixed)
    ensures DecodedFields(fs, data, slots, seen, fixed).Some? ==>
      MessageHeld(fs, DecodedFields(fs, data, slots, seen, fixed).value.0)
    decreases Depth(fs), 5, |data|, 0
  {
    if data != [] && ReadVarint32(data).Some? {
      ReadShortens(data);
      var (head, rest) := ReadVarint32(data).value;
      if head != 0 {
        var i := Find(fs, head / 8);
        if i < |fs| {
          RecordIsHeld(fs, i, head % 8, rest, slots, seen, fixed);
        } else if Skip(rest, head % 8).Some? && |Skip(rest, head % 8).value| < |data| {
          FieldsAreHeld(fs, Skip(rest, head % 8).value, slots, seen, fixed);
        }
      }
    }
  }

  lemma RecordIsHeld(fs: seq<Field>, i: nat, wireType: nat, data: Bytes, slots: seq<Slot>, seen: set<nat>, fixed: int)
    requires FieldsOk(fs) && Going(fs, slots, fixed) && i < |fs|
    ensures DecodedRecord(fs, i, wireType, data, slots, seen, fixed).Some? ==>
      MessageHeld(fs, DecodedRecord(fs, i, wireType, data, slots, seen, fixed).value.0)
    decreases Depth(fs), 5, |data|, 1
  {
    var f := fs[i];
    assert FieldOk(f);
    var starts := f.rule.FixedCount? && fixed != i;
    var was := if starts then Many([]) else slots[i];
    SlotIsHeld(f, wireType, data, was);
    if (!starts || Filled(fs, slots, fixed)) && DecodedSlot(f, wireType, data, was).Some? {
      var (s, after) := DecodedSlot(f, wireType, data, was).value;
      FieldsAreHeld(fs, after, Chosen(fs, slots, i, s),
        if f.rule.Required? then seen + {RequiredBefore(fs, i)} else seen, if f.rule.FixedCount? then i else fixed);
    }
  }

  /** Whatever the bytes are: if they decode, every number is within its type, every string, array and byte field
      within its room, every array without a counter full or untouched, and no union has two choices. */
  lemma DecodedIsHeld(fs: seq<Field>, data: Bytes)
    requires FieldsOk(fs)
    ensures var r := DecodedFields(fs, data, Defaults(fs), {}, -1); r.Some? ==> MessageHeld(fs, r.value.0)
  {
    DefaultsHeld(fs);
    FieldsAreHeld(fs, data, Defaults(fs), {}, -1);
  }
}
