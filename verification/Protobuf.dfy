/** nanopb's descriptors and messages, the bytes a message stands for, and what the decoder makes of bytes. */
module Protobuf {
  import opened Keys
  import opened Wire

  // ----- descriptors -----

  /** Field data types. Sizes are those of the C member, in bytes. */
  datatype Type =
    | BoolType | IntType(size: nat) | UintType(size: nat) | SintType(size: nat) | Fixed32Type | Fixed64Type
    | BytesType(capacity: nat) | StringType(capacity: nat) | FixedBytesType(length: nat)
    | MessageType(fields: seq<Field>)

  /** Repetition rules. A singular field is optional without a has-flag; a fixed count is an array without a counter;
      the fields of one union share a choice. */
  datatype Rule = Required | Optional | Singular | Repeated(capacity: nat) | FixedCount(count: nat) | OneOf(choice: nat)

  datatype Field = Field(tag: nat, rule: Rule, ltype: Type)

  predicate Packable(t: Type) {
    !(t.BytesType? || t.StringType? || t.FixedBytesType? || t.MessageType?)
  }

  predicate IsArray(f: Field) {
    f.rule.Repeated? || f.rule.FixedCount?
  }

  function ArraySize(f: Field): nat
    requires IsArray(f)
  {
    if f.rule.Repeated? then f.rule.capacity else f.rule.count
  }

  predicate SizeOk(size: nat) {
    size == 1 || size == 2 || size == 4 || size == 8
  }

  predicate FieldOk(f: Field)
    decreases f
  {
    0 < f.tag < 0x2000_0000 && TypeOk(f.ltype)
  }

  predicate TypeOk(t: Type)
    decreases t
  {
    (t.IntType? || t.UintType? || t.SintType? ==> SizeOk(t.size)) && (t.MessageType? ==> FieldsOk(t.fields))
  }

  /** Tags are distinct and not zero, at every depth. */
  predicate FieldsOk(fs: seq<Field>)
    decreases fs
  {
    (forall i, j :: 0 <= i < j < |fs| ==> fs[i].tag != fs[j].tag) && forall i :: 0 <= i < |fs| ==> FieldOk(fs[i])
  }

  function FieldDepth(f: Field): nat
    decreases f
  {
    TypeDepth(f.ltype)
  }

  function TypeDepth(t: Type): nat
    decreases t
  {
    if t.MessageType? then 1 + Depth(t.fields) else 0
  }

  /** How deep messages nest below these fields. */
  function Depth(fs: seq<Field>): (d: nat)
    ensures forall i :: 0 <= i < |fs| ==> FieldDepth(fs[i]) <= d
    decreases fs
  {
    if fs == [] then 0
    else
      var a, b := FieldDepth(fs[0]), Depth(fs[1..]);
      assert forall i :: 0 < i < |fs| ==> fs[i] == fs[1..][i - 1];
      if a > b then a else b
  }

  // ----- messages -----

  datatype Value = Num(n: int) | Str(bytes: Bytes) | Msg(slots: seq<Slot>)

  /** What the structure holds for one field. */
  datatype Slot = Absent | One(value: Value) | Many(values: seq<Value>)

  function Default(t: Type): Value
    decreases t
  {
    match t
    case BytesType(_) => Str([])
    case StringType(_) => Str([])
    case FixedBytesType(n) => Str(seq(n, _ => 0))
    case MessageType(fs) => Msg(Defaults(fs))
    case _ => Num(0)
  }

  function DefaultSlot(f: Field): Slot
    decreases f
  {
    match f.rule
    case Required => One(Default(f.ltype))
    case Singular => One(Default(f.ltype))
    case Optional => Absent
    case OneOf(_) => Absent
    case Repeated(_) => Many([])
    case FixedCount(_) => Many([])
  }

  /** pb_message_set_to_defaults, for fields without default values of their own. */
  function Defaults(fs: seq<Field>): (r: seq<Slot>)
    ensures |r| == |fs| && forall i :: 0 <= i < |fs| ==> r[i] == DefaultSlot(fs[i])
    decreases fs
  {
    if fs == [] then [] else [DefaultSlot(fs[0])] + Defaults(fs[1..])
  }

  /** A value that fits its C member. */
  predicate ValueOk(t: Type, v: Value)
    decreases t
  {
    match t
    case BoolType => v.Num? && (v.n == 0 || v.n == 1)
    case IntType(size) => v.Num? && IsSigned(v.n, size)
    case UintType(size) => v.Num? && IsUnsigned(v.n, size)
    case SintType(size) => v.Num? && IsSigned(v.n, size)
    case Fixed32Type => v.Num? && 0 <= v.n < TWO32
    case Fixed64Type => v.Num? && 0 <= v.n < TWO64
    case BytesType(capacity) => v.Str? && |v.bytes| <= capacity
    case StringType(capacity) => v.Str? && |v.bytes| < capacity && 0 !in v.bytes
    case FixedBytesType(length) => v.Str? && |v.bytes| == length
    case MessageType(fs) => v.Msg? && MessageOk(fs, v.slots)
  }

  predicate SlotOk(f: Field, s: Slot)
    decreases f
  {
    match f.rule
    case Required => s.One? && ValueOk(f.ltype, s.value)
    case Singular => s.One? && ValueOk(f.ltype, s.value)
    case Optional => s.Absent? || (s.One? && ValueOk(f.ltype, s.value))
    case OneOf(_) => s.Absent? || (s.One? && ValueOk(f.ltype, s.value))
    case Repeated(capacity) => s.Many? && |s.values| <= capacity && forall i :: 0 <= i < |s.values| ==>
      ValueOk(f.ltype, s.values[i])
    case FixedCount(count) => s.Many? && |s.values| == count && forall i :: 0 <= i < |s.values| ==>
      ValueOk(f.ltype, s.values[i])
  }

  /** Every slot fits its field, and of each union at most one field is chosen. */
  predicate MessageOk(fs: seq<Field>, slots: seq<Slot>)
    decreases fs
  {
    && |slots| == |fs|
    && (forall i :: 0 <= i < |fs| ==> SlotOk(fs[i], slots[i]))
    && OneChoice(fs, slots)
  }

  predicate OneChoice(fs: seq<Field>, slots: seq<Slot>)
    requires |slots| == |fs|
  {
    forall i, j :: 0 <= i < |fs| && 0 <= j < |fs| && i != j && SameUnion(fs[i], fs[j]) ==>
      slots[i].Absent? || slots[j].Absent?
  }

  predicate SameUnion(f: Field, g: Field) {
    f.rule.OneOf? && g.rule.OneOf? && f.rule.choice == g.rule.choice
  }

  // ----- the bytes of a message -----

  const WT_VARINT := 0
  const WT_64BIT := 1
  const WT_STRING := 2
  const WT_32BIT := 5

  function WireType(t: Type): nat {
    match t
    case Fixed32Type => WT_32BIT
    case Fixed64Type => WT_64BIT
    case BytesType(_) => WT_STRING
    case StringType(_) => WT_STRING
    case FixedBytesType(_) => WT_STRING
    case MessageType(_) => WT_STRING
    case _ => WT_VARINT
  }

  function TagBytes(wireType: nat, tag: nat): Bytes {
    Varint(8 * tag + wireType)
  }

  function Delimited(b: Bytes): Bytes {
    Varint(|b|) + b
  }

  /** pb_enc_*: the bytes of one value. */
  function Encoded(t: Type, v: Value): Bytes
    requires ValueOk(t, v)
    decreases t
  {
    match t
    case BoolType => Varint(if v.n != 0 then 1 else 0)
    case IntType(_) => Varint(Unsigned64(v.n))
    case UintType(_) => Varint(v.n)
    case SintType(_) => Varint(ZigZag(v.n))
    case Fixed32Type => Fixed32(v.n)
    case Fixed64Type => Fixed64(v.n)
    case BytesType(_) => Delimited(v.bytes)
    case StringType(_) => Delimited(v.bytes)
    case FixedBytesType(_) => Delimited(v.bytes)
    case MessageType(fs) =>
      assert MessageOk(fs, v.slots);
      Delimited(EncodedFields(fs, v.slots))
  }

  /** The values of an array end to end. */
  function EncodedRun(f: Field, vs: seq<Value>): Bytes
    requires forall i :: 0 <= i < |vs| ==> ValueOk(f.ltype, vs[i])
    decreases f, |vs|
  {
    if vs == [] then [] else EncodedRun(f, vs[..|vs| - 1]) + Encoded(f.ltype, vs[|vs| - 1])
  }

  /** The values of an array, each behind its tag. */
  function EncodedEach(f: Field, vs: seq<Value>): Bytes
    requires forall i :: 0 <= i < |vs| ==> ValueOk(f.ltype, vs[i])
    decreases f, |vs|
  {
    if vs == [] then []
    else EncodedEach(f, vs[..|vs| - 1]) + (TagBytes(WireType(f.ltype), f.tag) + Encoded(f.ltype, vs[|vs| - 1]))
  }

  /** pb_check_proto3_default_value */
  predicate IsDefault(f: Field, s: Slot)
    requires SlotOk(f, s)
    decreases f
  {
    match f.rule
    case Required => false
    case FixedCount(_) => false
    case Repeated(_) => s.values == []
    case Optional => s.Absent?
    case OneOf(_) => s.Absent?
    case Singular => IsDefaultValue(f.ltype, s.value)
  }

  predicate IsDefaultValue(t: Type, v: Value)
    requires ValueOk(t, v)
    decreases t
  {
    match t
    case BytesType(_) => v.bytes == []
    case StringType(_) => v.bytes == []
    case FixedBytesType(length) => length == 0
    case MessageType(fs) =>
      assert MessageOk(fs, v.slots);
      forall i :: 0 <= i < |fs| ==> IsDefault(fs[i], v.slots[i])
    case _ => v.n == 0
  }

  /** encode_basic_field */
  function EncodedSlot(f: Field, s: Slot): Bytes
    requires SlotOk(f, s)
    decreases f, if s.Many? then |s.values| + 1 else 0
  {
    if s.Absent? then []
    else if s.One? then
      if f.rule.Singular? && IsDefault(f, s) then [] else TagBytes(WireType(f.ltype), f.tag) + Encoded(f.ltype, s.value)
    else if s.values == [] then []
    else if Packable(f.ltype) then TagBytes(WT_STRING, f.tag) + Delimited(EncodedRun(f, s.values))
    else EncodedEach(f, s.values)
  }

  /** pb_encode: the fields in descriptor order. */
  function EncodedFields(fs: seq<Field>, slots: seq<Slot>): Bytes
    requires |slots| == |fs| && forall i :: 0 <= i < |fs| ==> SlotOk(fs[i], slots[i])
    decreases fs
  {
    if fs == [] then []
    else EncodedFields(fs[..|fs| - 1], slots[..|fs| - 1]) + EncodedSlot(fs[|fs| - 1], slots[|fs| - 1])
  }

  // ----- what the decoder makes of bytes -----

  /** pb_field_iter_find: the field with the tag, or none. */
  function Find(fs: seq<Field>, tag: nat): (i: nat)
    ensures i <= |fs| && (i < |fs| ==> fs[i].tag == tag)
    ensures (i == |fs| ==> forall j :: 0 <= j < |fs| ==> fs[j].tag != tag)
  {
    if fs == [] then 0
    else
      var i := Find(fs[..|fs| - 1], tag);
      if i < |fs| - 1 then i else if fs[|fs| - 1].tag == tag then |fs| - 1 else |fs|
  }

  /** pb_read, or the skipping form of it. */
  function Take(data: Bytes, n: nat): Read<Bytes> {
    if |data| < n then None else Some((data[..n], data[n..]))
  }

  /** pb_make_string_substream and its close: the delimited bytes, and what follows. */
  function ReadDelimited(data: Bytes): Read<Bytes> {
    match ReadVarint32(data)
    case None => None
    case Some((n, rest)) => Take(rest, n)
  }

  function SkipVarint(data: Bytes): Option<Bytes> {
    if data == [] then None else if data[0] >= 128 then SkipVarint(data[1..]) else Some(data[1..])
  }

  function After<T>(r: Read<T>): Option<Bytes> {
    match r
    case None => None
    case Some((_, rest)) => Some(rest)
  }

  /** pb_skip_field */
  function Skip(data: Bytes, wireType: nat): Option<Bytes> {
    if wireType == WT_VARINT then SkipVarint(data)
    else if wireType == WT_64BIT then After(Take(data, 8))
    else if wireType == WT_STRING then After(ReadDelimited(data))
    else if wireType == WT_32BIT then After(Take(data, 4))
    else None
  }

  function UpToNul(b: Bytes): Bytes {
    if b == [] || b[0] == 0 then [] else [b[0]] + UpToNul(b[1..])
  }

  /** Casting to a narrower signed type, as two's complement. */
  function Narrow(n: int, size: nat): int {
    if size == 1 then (n + 0x80) % 0x100 - 0x80
    else if size == 2 then (n + 0x8000) % 0x1_0000 - 0x8000
    else if size == 4 then (n + TWO31) % TWO32 - TWO31
    else n
  }

  function NarrowUnsigned(n: nat, size: nat): nat {
    if size == 1 then n % 0x100 else if size == 2 then n % 0x1_0000 else if size == 4 then n % TWO32 else n
  }

  lemma ReadsShorten(data: Bytes, bitpos: nat, result: nat)
    ensures Varint32From(data, bitpos, result).Some? ==> |Varint32From(data, bitpos, result).value.1| < |data|
  {
  }

  lemma Reads64Shorten(data: Bytes, bitpos: nat, result: nat)
    ensures VarintFrom(data, bitpos, result).Some? ==> |VarintFrom(data, bitpos, result).value.1| < |data|
  {
  }

  lemma ReadShortens(data: Bytes)
    ensures ReadVarint32(data).Some? ==> |ReadVarint32(data).value.1| < |data|
    ensures ReadVarint(data).Some? ==> |ReadVarint(data).value.1| < |data|
    ensures ReadDelimited(data).Some? ==> |ReadDelimited(data).value.1| < |data|
  {
    Reads64Shorten(data, 0, 0);
    if data != [] {
      ReadsShorten(data[1..], 7, data[0] % 128);
    }
  }

  /** pb_dec_*: one value; `was` is what the destination held. */
  function Decoded(t: Type, data: Bytes, was: Value, init: bool): (r: Read<Value>)
    ensures r.Some? ==> |r.value.1| <= |data|
    decreases TypeDepth(t), 2, |data|, 0
  {
    ReadShortens(data);
    match t
    case BoolType =>
      (match ReadVarint32(data)
       case None => None
       case Some((n, rest)) => Some((Num(if n != 0 then 1 else 0), rest)))
    case IntType(size) =>
      (match ReadVarint(data)
       case None => None
       case Some((n, rest)) =>
         var s := if size == 8 then Signed64(n) else Signed32(n);
         if Narrow(s, size) != s then None else Some((Num(s), rest)))
    case UintType(size) =>
      (match ReadVarint(data)
       case None => None
       case Some((n, rest)) => if NarrowUnsigned(n, size) != n then None else Some((Num(n), rest)))
    case SintType(size) =>
      (match ReadVarint(data)
       case None => None
       case Some((n, rest)) => if Narrow(UnZigZag(n), size) != UnZigZag(n) then None
         else Some((Num(UnZigZag(n)), rest)))
    case Fixed32Type => if |data| < 4 then None else Some((Num(Number32(data[..4])), data[4..]))
    case Fixed64Type => if |data| < 8 then None else Some((Num(Number64(data[..8])), data[8..]))
    case BytesType(capacity) =>
      (match ReadVarint32(data)
       case None => None
       case Some((n, rest)) => if n > capacity || |rest| < n then None else Some((Str(rest[..n]), rest[n..])))
    case StringType(capacity) =>
      (match ReadVarint32(data)
       case None => None
       case Some((n, rest)) => if n + 1 > capacity
         || |rest| < n then None else Some((Str(UpToNul(rest[..n])), rest[n..])))
    case FixedBytesType(length) =>
      (match ReadVarint32(data)
       case None => None
       case Some((n, rest)) =>
         if n == 0 then Some((Str(seq(length, _ => 0)), rest))
         else if n != length || |rest| < n then None
         else Some((Str(rest[..n]), rest[n..])))
    case MessageType(fs) =>
      (match ReadDelimited(data)
       case None => None
       case Some((body, rest)) =>
         var start := if !init && was.Msg? && |was.slots| == |fs| then was.slots else Defaults(fs);
         match DecodedFields(fs, body, start, {}, -1)
         case None => None
         case Some((slots, _)) => Some((Msg(slots), rest)))
  }

  /** The loop over a packed array: values until the bytes or the room run out. */
  function DecodedRun(f: Field, data: Bytes, vs: seq<Value>): Option<seq<Value>>
    requires IsArray(f)
    decreases FieldDepth(f), 3, |data|, 0
  {
    if data == [] then Some(vs)
    else if |vs| >= ArraySize(f) then None
    else
      match Decoded(f.ltype, data, Default(f.ltype), true)
      case None => None
      case Some((v, rest)) => if |rest| < |data| then DecodedRun(f, rest, vs + [v]) else None
  }

  /** decode_static_field, but for the effect of a union on its other fields. */
  function DecodedSlot(f: Field, wireType: nat, data: Bytes, was: Slot): (r: Read<Slot>)
    ensures r.Some? ==> |r.value.1| <= |data|
    decreases FieldDepth(f), 4, |data|, 0
  {
    ReadShortens(data);
    if IsArray(f) then
      var vs := if was.Many? then was.values else [];
      if wireType == WT_STRING && Packable(f.ltype) then
        match ReadDelimited(data)
        case None => None
        case Some((body, rest)) =>
          match DecodedRun(f, body, vs)
          case None => None
          case Some(all) => Some((Many(all), rest))
      else if |vs| >= ArraySize(f) then None
      else
        match Decoded(f.ltype, data, Default(f.ltype), true)
        case None => None
        case Some((v, rest)) => Some((Many(vs + [v]), rest))
    else
      match Decoded(f.ltype, data, if was.One? then was.value else Default(f.ltype), false)
      case None => None
      case Some((v, rest)) => Some((One(v), rest))
  }

  /** Setting a field of a union drops the union's other fields. */
  function Chosen(fs: seq<Field>, slots: seq<Slot>, i: nat, s: Slot): (r: seq<Slot>)
    requires |slots| == |fs| && i < |fs|
    ensures |r| == |fs|
  {
    seq(|fs|, j requires 0 <= j < |fs| => if j == i then s else if SameUnion(fs[i], fs[j]) then Absent else slots[j])
  }

  const MAX_REQUIRED := 64

  /** How many required fields come before place `i`. */
  function RequiredBefore(fs: seq<Field>, i: nat): nat
    requires i <= |fs|
  {
    if i == 0 then 0 else RequiredBefore(fs, i - 1) + if fs[i - 1].rule.Required? then 1 else 0
  }

  /** An array without a counter has all its entries. */
  predicate Filled(fs: seq<Field>, slots: seq<Slot>, fixed: int)
    requires |slots| == |fs|
  {
    0 <= fixed < |fs| && fs[fixed].rule.FixedCount? && slots[fixed].Many? ==>
      |slots[fixed].values| == fs[fixed].rule.count
  }

  /** The checks at the end of pb_decode_noinit. */
  function Checked(fs: seq<Field>, slots: seq<Slot>, seen: set<nat>, fixed: int, rest: Bytes): Read<seq<Slot>>
    requires |slots| == |fs|
  {
    if Filled(fs, slots, fixed) && forall k: nat :: k < RequiredBefore(fs, |fs|) && k < MAX_REQUIRED ==> k in seen
    then Some((slots, rest))
    else None
  }

  /** pb_decode_noinit: records until the bytes run out or a zero tag; and the bytes after that. `seen` are the
      required fields met, by number; `fixed` is the array without a counter that is being filled, or -1. */
  function DecodedFields(fs: seq<Field>, data: Bytes, slots: seq<Slot>, seen: set<nat>,
          fixed: int): (r: Read<seq<Slot>>)
    requires |slots| == |fs|
    ensures r.Some? ==> |r.value.0| == |fs| && |r.value.1| <= |data|
    decreases Depth(fs), 5, |data|, 0
  {
    ReadShortens(data);
    if data == [] then Checked(fs, slots, seen, fixed, [])
    else
      match ReadVarint32(data)
      case None => None
      case Some((head, rest)) =>
        if head == 0 then Checked(fs, slots, seen, fixed, rest)
        else
          var i, wireType := Find(fs, head / 8), head % 8;
          if i == |fs| then
            match Skip(rest, wireType)
            case None => None
            case Some(after) => if |after| < |data| then DecodedFields(fs, after, slots, seen, fixed) else None
          else
            DecodedRecord(fs, i, wireType, rest, slots, seen, fixed)
  }

  /** One record of a known field. */
  function DecodedRecord(fs: seq<Field>, i: nat, wireType: nat, data: Bytes, slots: seq<Slot>, seen: set<nat>,
          fixed: int): (r: Read<seq<Slot>>)
    requires |slots| == |fs| && i < |fs|
    ensures r.Some? ==> |r.value.0| == |fs| && |r.value.1| <= |data|
    decreases Depth(fs), 5, |data|, 1
  {
    var f := fs[i];
    var starts := f.rule.FixedCount? && fixed != i;
    if starts && !Filled(fs, slots, fixed) then None
    else
      var was := if starts then Many([]) else slots[i];
      match DecodedSlot(f, wireType, data, was)
      case None => None
      case Some((s, after)) =>
        DecodedFields(fs, after, Chosen(fs, slots, i, s),
                      if f.rule.Required? then seen + {RequiredBefore(fs, i)} else seen,
                      if f.rule.FixedCount? then i else fixed)
  }
}
