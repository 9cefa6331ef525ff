/** nanopb's decoder: streams with a limit, the wrapping field iterator, and the decoding loop. */
module ProtobufDecoder {
  import opened Keys
  import opened Wire
  import opened Protobuf

  // ----- input streams -----

  /** pb_istream_t over a buffer: a position, and how many bytes the stream may still read. */
  class IStream {
    const buffer: Bytes
    var pos: nat
    var left: nat

    ghost predicate Valid()
      reads this
    {
      pos + left <= |buffer|
    }

    function Rest(): Bytes
      requires Valid()
      reads this
    {
      buffer[pos..pos + left]
    }

    /** Where the stream's bytes end. */
    function End(): nat
      reads this
    {
      pos + left
    }

    constructor (buffer: Bytes, pos: nat, left: nat)
      requires pos + left <= |buffer|
      ensures Valid() && this.buffer == buffer && this.pos == pos && this.left == left
    {
      this.buffer := buffer;
      this.pos := pos;
      this.left := left;
    }

    /** pb_readbyte */
    method ReadByte() returns (ok: bool, b: Byte)
      requires Valid()
      modifies this
      ensures Valid() && End() == old(End()) && (ok <==> old(left) > 0)
      ensures ok ==> left == old(left) - 1 && b == old(Rest())[0] && Rest() == old(Rest())[1..]
      ensures !ok ==> left == old(left) && Rest() == old(Rest())
    {
      if left == 0 {
        return false, 0;
      }
      b := buffer[pos];
      pos := pos + 1;
      left := left - 1;
      ok := true;
    }

    /** pb_read */
    method Read(count: nat) returns (ok: bool, b: Bytes)
      requires Valid()
      modifies this
      ensures Valid() && End() == old(End()) && (ok <==> count <= old(left)) && left <= old(left)
      ensures ok ==> left == old(left) - count && b == old(Rest())[..count] && Rest() == old(Rest())[count..]
    {
      if count == 0 {
        return true, [];
      }
      if left < count {
        return false, [];
      }
      b := buffer[pos..pos + count];
      pos := pos + count;
      left := left - count;
      ok := true;
    }

    /** pb_decode_varint */
    method DecodeVarint() returns (ok: bool, value: nat)
      requires Valid()
      modifies this
      ensures Valid() && left <= old(left) && End() == old(End())
      ensures ReadVarint(old(Rest())) == if ok then Some((value, Rest())) else None
    {
      hide Or, Shifted;
      ghost var start := Rest();
      var bitpos: nat, result: nat := 0, 0;
      while true
        invariant Valid() && left <= old(left) && End() == old(End())
        invariant VarintFrom(start, 0, 0) == VarintFrom(Rest(), bitpos, result)
        decreases left
      {
        if bitpos >= 64 {
          return false, 0;
        }
        var more, b := ReadByte();
        if !more {
          return false, 0;
        }
        result := Or(result, Shifted(b % 128, bitpos) % TWO64);
        bitpos := bitpos + 7;
        if b < 128 {
          return true, result;
        }
      }
    }

    /** pb_decode_varint32_eof, but for the end-of-file flag */
    method DecodeVarint32() returns (ok: bool, value: nat)
      requires Valid()
      modifies this
      ensures Valid() && left <= old(left) && End() == old(End())
      ensures ReadVarint32(old(Rest())) == if ok then Some((value, Rest())) else None
    {
      hide Or, Shifted;
      ghost var start := Rest();
      var more, b := ReadByte();
      if !more {
        return false, 0;
      }
      if b < 128 {
        return true, b;
      }
      var bitpos: nat, result: nat := 7, b % 128;
      while true
        invariant Valid() && left <= old(left) && End() == old(End()) && 0 <= bitpos < 256
        invariant ReadVarint32(start) == Varint32From(Rest(), bitpos, result)
        decreases left
      {
        more, b := ReadByte();
        if !more {
          return false, 0;
        }
        if bitpos >= 32 {
          var signExtension := if bitpos < 63 then 0xFF else 0x01;
          if b % 128 != 0 && (result < TWO31 || b != signExtension) {
            return false, 0;
          }
        } else {
          result := Or(result, Shifted(b % 128, bitpos) % TWO32);
        }
        bitpos := (bitpos + 7) % 256;
        if b < 128 {
          break;
        }
      }
      if bitpos == 35 && (b / 16) % 8 != 0 {
        return false, 0;
      }
      return true, result;
    }

    /** pb_make_string_substream: the substream reads the delimited bytes, which this stream counts as read. */
    method MakeSubstream() returns (ok: bool, sub: IStream?)
      requires Valid()
      modifies this
      ensures Valid() && left <= old(left) && (!ok ==> End() == old(End()))
      ensures ok <==> ReadDelimited(old(Rest())).Some?
      ensures ok ==> sub != null && fresh(sub) && sub.Valid() && sub.buffer == buffer && sub.left < old(left)
      ensures ok ==> sub.Rest() == ReadDelimited(old(Rest())).value.0
      ensures ok ==> sub.pos == pos && sub.End() + left == old(End())
      ensures ok ==> buffer[sub.End()..sub.End() + left] == ReadDelimited(old(Rest())).value.1
    {
      ReadShortens(Rest());
      var got, size := DecodeVarint32();
      if !got {
        return false, null;
      }
      ghost var rest := Rest();
      if left < size {
        return false, null;
      }
      sub := new IStream(buffer, pos, size);
      left := left - size;
      ok := true;
      assert sub.Rest() == rest[..size];
      assert buffer[sub.End()..sub.End() + left] == rest[size..];
    }

    /** pb_close_string_substream: whatever the substream left unread is passed over. */
    method CloseSubstream(sub: IStream)
      requires sub != this && sub.Valid() && sub.buffer == buffer && sub.End() + left <= |buffer|
      modifies this, sub
      ensures Valid() && pos == old(sub.End()) && left == old(left)
      ensures Rest() == buffer[old(sub.End())..old(sub.End()) + left]
    {
      if sub.left != 0 {
        var _, _ := sub.Read(sub.left);
      }
      pos := sub.pos;
    }

    /** pb_skip_varint */
    method SkipVarint() returns (ok: bool)
      requires Valid()
      modifies this
      ensures Valid() && left <= old(left) && End() == old(End())
      ensures Protobuf.SkipVarint(old(Rest())) == if ok then Some(Rest()) else None
    {
      ghost var start := Rest();
      while true
        invariant Valid() && left <= old(left) && End() == old(End())
        invariant Protobuf.SkipVarint(start) == Protobuf.SkipVarint(Rest())
        decreases left
      {
        var more, b := ReadByte();
        if !more {
          return false;
        }
        if b < 128 {
          return true;
        }
      }
    }

    /** pb_skip_field */
    method SkipField(wireType: nat) returns (ok: bool)
      requires Valid()
      modifies this
      ensures Valid() && left <= old(left) && End() == old(End())
      ensures Skip(old(Rest()), wireType) == if ok then Some(Rest()) else None
    {
      if wireType == WT_VARINT {
        ok := SkipVarint();
      } else if wireType == WT_64BIT {
        var got, _ := Read(8);
        ok := got;
      } else if wireType == WT_STRING {
        var got, size := DecodeVarint32();
        if !got {
          return false;
        }
        var got', _ := Read(size);
        ok := got';
      } else if wireType == WT_32BIT {
        var got, _ := Read(4);
        ok := got;
      } else {
        ok := false;
      }
    }
  }

  // ----- the field iterator -----

  /** pb_field_iter_t: a place in the descriptor, and how many required fields come before it. */
  class FieldIter {
    const fields: seq<Field>
    var pos: nat
    var requiredIndex: nat

    ghost predicate Valid()
      reads this
    {
      pos <= |fields| && (pos == |fields| ==> fields == []) && requiredIndex == RequiredBefore(fields, pos)
    }

    /** pb_field_iter_begin */
    constructor (fields: seq<Field>)
      ensures Valid() && this.fields == fields && pos == 0
    {
      this.fields := fields;
      pos := 0;
      requiredIndex := 0;
    }

    /** pb_field_iter_next: false when it wraps back to the first field. */
    method Next() returns (more: bool)
      requires Valid()
      modifies this
      ensures Valid() && (more <==> old(pos) + 1 < |fields|)
      ensures pos == if more then old(pos) + 1 else 0
    {
      if pos == |fields| {
        return false;
      }
      if pos + 1 == |fields| {
        pos := 0;
        requiredIndex := 0;
        return false;
      }
      if fields[pos].rule.Required? {
        requiredIndex := requiredIndex + 1;
      }
      pos := pos + 1;
      more := true;
    }

    /** pb_field_iter_find: search from here to the end and on from the beginning; the place is kept if there is no
        such field. */
    method Find(tag: nat) returns (found: bool)
      requires Valid() && FieldsOk(fields)
      modifies this
      ensures Valid() && (found <==> Protobuf.Find(fields, tag) < |fields|)
      ensures pos == if found then Protobuf.Find(fields, tag) else old(pos)
    {
      var start := pos;
      ghost var at := Protobuf.Find(fields, tag);
      if fields == [] {
        return false;
      }
      ghost var tried := 0;
      while true
        invariant Valid() && start < |fields| && 0 <= tried < |fields| && pos == Wrapped(start, tried, |fields|)
        invariant forall k :: 0 <= k < tried ==> !TagAt(fields, start, k, tag)
        decreases |fields| - tried
      {
        if fields[pos].tag == tag {
          SameField(fields, pos, at);
          return true;
        }
        var _ := Next();
        tried := tried + 1;
        if pos == start {
          break;
        }
      }
      AllTried(fields, start, tag);
      found := false;
    }
  }

  lemma SameField(fs: seq<Field>, i: nat, j: nat)
    requires FieldsOk(fs) && i < |fs| && j == Protobuf.Find(fs, fs[i].tag)
    ensures i == j
  {
  }

  /** The place `k` steps after `start`, in a circle of `n`. */
  function Wrapped(start: nat, k: nat, n: nat): nat
    requires start < n && k <= n
    ensures Wrapped(start, k, n) < n
  {
    if start + k < n then start + k else start + k - n
  }

  predicate TagAt(fs: seq<Field>, start: nat, k: nat, tag: nat)
    requires start < |fs| && k <= |fs|
  {
    fs[Wrapped(start, k, |fs|)].tag == tag
  }

  lemma AllTried(fs: seq<Field>, start: nat, tag: nat)
    requires start < |fs| && forall k :: 0 <= k < |fs| ==> !TagAt(fs, start, k, tag)
    ensures Protobuf.Find(fs, tag) == |fs|
  {
    var n, at := |fs|, Protobuf.Find(fs, tag);
    if at < n {
      assert TagAt(fs, start, if start <= at then at - start else at + n - start, tag);
    }
  }

  // ----- the decoder -----

  /** pb_dec_* */
  method DecodeValue(s: IStream, t: Type, was: Value, init: bool) returns (ok: bool, v: Value)
    requires s.Valid() && TypeOk(t)
    modifies s
    ensures s.Valid() && s.left <= old(s.left) && s.End() <= old(s.End()) && (ok ==> s.End() == old(s.End()))
    ensures Decoded(t, old(s.Rest()), was, init) == if ok then Some((v, s.Rest())) else None
    decreases TypeDepth(t), 0, 0
  {
    hide ReadVarint, ReadVarint32;
    v := was;
    match t
    case BoolType =>
      var got, n := s.DecodeVarint32();
      return got, Num(if n != 0 then 1 else 0);
    case IntType(size) =>
      var got, n := s.DecodeVarint();
      var svalue := if size == 8 then Signed64(n) else Signed32(n);
      return got && Narrow(svalue, size) == svalue, Num(svalue);
    case UintType(size) =>
      var got, n := s.DecodeVarint();
      return got && NarrowUnsigned(n, size) == n, Num(n);
    case SintType(size) =>
      var got, n := s.DecodeVarint();
      return got && Narrow(UnZigZag(n), size) == UnZigZag(n), Num(UnZigZag(n));
    case Fixed32Type =>
      var got, b := s.Read(4);
      return got, if got then Num(Number32(b)) else was;
    case Fixed64Type =>
      var got, b := s.Read(8);
      return got, if got then Num(Number64(b)) else was;
    case BytesType(capacity) =>
      var got, n := s.DecodeVarint32();
      if !got || n > capacity {
        return false, was;
      }
      var read, b := s.Read(n);
      return read, Str(b);
    case StringType(capacity) =>
      var got, n := s.DecodeVarint32();
      if !got || n + 1 > capacity {
        return false, was;
      }
      var read, b := s.Read(n);
      return read, Str(UpToNul(b));
    case FixedBytesType(length) =>
      var got, n := s.DecodeVarint32();
      if !got {
        return false, was;
      }
      if n == 0 {
        return true, Str(seq(length, _ => 0));
      }
      if n != length {
        return false, was;
      }
      var read, b := s.Read(n);
      return read, Str(b);
    case MessageType(fs) =>
      ok, v := DecodeSubmessage(s, fs, was, init);
  }

  /** pb_dec_submessage */
  method DecodeSubmessage(s: IStream, fs: seq<Field>, was: Value, init: bool) returns (ok: bool, v: Value)
    requires s.Valid() && FieldsOk(fs)
    modifies s
    ensures s.Valid() && s.left <= old(s.left) && s.End() <= old(s.End()) && (ok ==> s.End() == old(s.End()))
    ensures Decoded(MessageType(fs), old(s.Rest()), was, init) == if ok then Some((v, s.Rest())) else None
    decreases Depth(fs), 4
  {
    hide DecodedFields, ReadDelimited;
    var made, sub := s.MakeSubstream();
    if !made {
      return false, was;
    }
    var m := new Message(if !init && was.Msg? && |was.slots| == |fs| then was.slots else Defaults(fs));
    ok := DecodeNoinit(sub, fs, m);
    s.CloseSubstream(sub);
    v := Msg(m.slots);
  }

  /** The structure a message is decoded into. */
  class Message {
    var slots: seq<Slot>

    constructor (slots: seq<Slot>)
      ensures this.slots == slots
    {
      this.slots := slots;
    }
  }

  /** decode_static_field, for the field's own slot. */
  method DecodeSlot(s: IStream, f: Field, wireType: nat, was: Slot) returns (ok: bool, slot: Slot)
    requires s.Valid() && FieldOk(f)
    modifies s
    ensures s.Valid() && s.left <= old(s.left) && s.End() <= old(s.End()) && (ok ==> s.End() == old(s.End()))
    ensures DecodedSlot(f, wireType, old(s.Rest()), was) == if ok then Some((slot, s.Rest())) else None
    decreases FieldDepth(f), 1
  {
    hide Decoded, DecodedRun, ReadDelimited;
    if !IsArray(f) {
      var got, v := DecodeValue(s, f.ltype, if was.One? then was.value else Default(f.ltype), false);
      return got, One(v);
    }
    var vs := if was.Many? then was.values else [];
    if wireType == WT_STRING && Packable(f.ltype) {
      var made, sub := s.MakeSubstream();
      if !made {
        return false, was;
      }
      var got, all := DecodePacked(sub, f, vs);
      if !got {
        return false, was;
      }
      s.CloseSubstream(sub);
      return true, Many(all);
    }
    if |vs| >= ArraySize(f) {
      return false, was;
    }
    var got, v := DecodeValue(s, f.ltype, Default(f.ltype), true);
    return got, Many(vs + [v]);
  }

  /** The loop over a packed array. */
  method DecodePacked(sub: IStream, f: Field, had: seq<Value>) returns (ok: bool, vs: seq<Value>)
    requires sub.Valid() && FieldOk(f) && IsArray(f) && Packable(f.ltype)
    modifies sub
    ensures sub.Valid() && sub.End() <= old(sub.End()) && (ok ==> sub.End() == old(sub.End()))
    ensures DecodedRun(f, old(sub.Rest()), had) == if ok then Some(vs) else None
    decreases FieldDepth(f), 0, 1
  {
    hide Decoded;
    vs := had;
    while sub.left > 0 && |vs| < ArraySize(f)
      invariant sub.Valid() && sub.End() == old(sub.End())
      invariant DecodedRun(f, old(sub.Rest()), had) == DecodedRun(f, sub.Rest(), vs)
      decreases sub.left
    {
      ghost var before := sub.Rest();
      NumberShortens(f.ltype, before, Default(f.ltype), true);
      var got, v := DecodeValue(sub, f.ltype, Default(f.ltype), true);
      if !got {
        return false, vs;
      }
      vs := vs + [v];
    }
    ok := sub.left == 0;
  }

  lemma NumberShortens(t: Type, data: Bytes, was: Value, init: bool)
    requires Packable(t)
    ensures var r := Decoded(t, data, was, init); r.Some? ==> |r.value.1| < |data|
  {
    ReadShortens(data);
  }

  /** The body of pb_decode_noinit's loop for a known field: an array without a counter is counted in `size`, and of the
      required fields the first 64 are ticked off. */
  method DecodeRecord(s: IStream, fs: seq<Field>, m: Message, it: FieldIter, wireType: nat, seen: array<bool>,
          ghost met: set<nat>,
                      fixed: int, size: nat)
    returns (ok: bool, ghost met': set<nat>, fixed': int, size': nat)
    requires s.Valid() && FieldsOk(fs) && |m.slots| == |fs| && it.Valid() && it.fields == fs && it.pos < |fs|
    requires Ticked(seen[..], met) && Counted(fs, m.slots, fixed, size)
    modifies s, m, seen
    ensures s.Valid() && s.left <= old(s.left) && s.End() <= old(s.End()) && (ok ==> s.End() == old(s.End()))
    ensures |m.slots| == |fs| && Ticked(seen[..], met') && (ok ==> Counted(fs, m.slots, fixed', size'))
    ensures DecodedRecord(fs, it.pos, wireType, old(s.Rest()), old(m.slots), met, fixed)
      == if ok then DecodedFields(fs, s.Rest(), m.slots, met', fixed') else None
    decreases Depth(fs), 2
  {
    hide DecodedSlot, Chosen, DecodedFields, FieldsOk;
    var f, slots := fs[it.pos], m.slots;
    assert FieldOk(f) by {
      FieldAt(fs, it.pos);
    }
    ghost var before := s.Rest();
    ok, met', fixed', size' := false, met, fixed, size;
    if f.rule.FixedCount? && fixed != it.pos {
      if fixed >= 0 && size != fs[fixed].rule.count {
        return;
      }
      fixed' := it.pos;
      size' := 0;
      m.slots := m.slots[it.pos := Many([])];
    }
    if f.rule.Required? {
      if it.requiredIndex < MAX_REQUIRED {
        seen[it.requiredIndex] := true;
      }
      met' := met + {it.requiredIndex};
    }
    var slot;
    ok, slot := DecodeSlot(s, f, wireType, m.slots[it.pos]);
    if !ok {
      return;
    }
    SlotStep(fs, slots, it.pos, wireType, before, m.slots[it.pos], slot);
    if f.rule.FixedCount? {
      size' := |slot.values|;
    }
    m.slots := Chosen(fs, m.slots, it.pos, slot);
  }

  lemma FieldAt(fs: seq<Field>, i: nat)
    requires FieldsOk(fs) && i < |fs|
    ensures FieldOk(fs[i]) && FieldDepth(fs[i]) <= Depth(fs)
  {
  }

  /** pb_decode_noinit */
  method DecodeNoinit(s: IStream, fs: seq<Field>, m: Message) returns (ok: bool)
    requires s.Valid() && FieldsOk(fs) && |m.slots| == |fs|
    modifies s, m
    ensures s.Valid() && s.left <= old(s.left) && s.End() <= old(s.End()) && (ok ==> s.End() == old(s.End()))
    ensures DecodedFields(fs, old(s.Rest()), old(m.slots), {}, -1) == if ok then Some((m.slots, s.Rest())) else None
    decreases Depth(fs), 3
  {
    hide ReadVarint32, Skip, DecodedSlot, Chosen, Checked, AllTicked, Find;
    ghost var data, from, met: set<nat> := s.Rest(), m.slots, {};
    var seen := new bool[MAX_REQUIRED](_ => false);
    var fixed: int, fixedSize: nat := -1, 0;
    var it := new FieldIter(fs);
    while s.left > 0
      invariant s.Valid() && s.left <= old(s.left) && s.End() == old(s.End())
      invariant it.Valid() && it.fields == fs && |m.slots| == |fs| && fresh(it) && fresh(seen)
      invariant Ticked(seen[..], met) && Counted(fs, m.slots, fixed, fixedSize)
      invariant DecodedFields(fs, data, from, {}, -1) == DecodedFields(fs, s.Rest(), m.slots, met, fixed)
      decreases s.left
    {
      ReadShortens(s.Rest());
      var got, head := s.DecodeVarint32();
      if !got {
        return false;
      }
      if head == 0 {
        assert DecodedFields(fs, data, from, {}, -1) == Checked(fs, m.slots, met, fixed, s.Rest());
        break;
      }
      var found := it.Find(head / 8);
      if !found {
        ok := s.SkipField(head % 8);
        if !ok {
          return;
        }
        continue;
      }
      ok, met, fixed, fixedSize := DecodeRecord(s, fs, m, it, head % 8, seen, met, fixed, fixedSize);
      if !ok {
        return;
      }
    }
    assert DecodedFields(fs, data, from, {}, -1) == Checked(fs, m.slots, met, fixed, s.Rest());
    CountedFills(fs, m.slots, met, fixed, fixedSize, s.Rest());
    if fixed >= 0 && fixedSize != fs[fixed].rule.count {
      return false;
    }
    ok := AllMet(it, seen);
    SeenMeansMet(fs, m.slots, seen[..], met, fixed, s.Rest());
  }

  /** What a record leaves in the structure. */
  lemma SlotStep(fs: seq<Field>, slots: seq<Slot>, i: nat, wireType: nat, data: Bytes, was: Slot, slot: Slot)
    requires |slots| == |fs| && i < |fs|
    requires var r := DecodedSlot(fs[i], wireType, data, was); r.Some? && r.value.0 == slot
    ensures IsArray(fs[i]) ==> slot.Many?
    ensures Chosen(fs, slots[i := was], i, slot) == Chosen(fs, slots, i, slot)
    ensures Chosen(fs, slots, i, slot)[i] == slot
    ensures forall j :: 0 <= j < |fs| && j != i && !fs[j].rule.OneOf? ==> Chosen(fs, slots, i, slot)[j] == slots[j]
  {
  }

  lemma CountedFills(fs: seq<Field>, slots: seq<Slot>, met: set<nat>, fixed: int, size: nat, rest: Bytes)
    requires |slots| == |fs| && Counted(fs, slots, fixed, size)
    ensures Filled(fs, slots, fixed) <==> !(fixed >= 0 && size != fs[fixed].rule.count)
    ensures !Filled(fs, slots, fixed) ==> Checked(fs, slots, met, fixed, rest) == None
  {
  }

  predicate AllTicked(seen: seq<bool>, required: nat)
    requires |seen| == MAX_REQUIRED
  {
    forall k: nat :: k < required && k < MAX_REQUIRED ==> seen[k]
  }

  lemma SeenMeansMet(fs: seq<Field>, slots: seq<Slot>, seen: seq<bool>, met: set<nat>, fixed: int, rest: Bytes)
    requires |slots| == |fs| && Ticked(seen, met) && Filled(fs, slots, fixed)
    ensures Checked(fs, slots, met, fixed, rest) == if AllTicked(seen, RequiredBefore(fs, |fs|)) then
      Some((slots, rest)) else None
  {
  }

  /** Whether the first 64 required fields were all met. */
  method AllMet(it: FieldIter, seen: array<bool>) returns (ok: bool)
    requires it.Valid() && seen.Length == MAX_REQUIRED
    modifies it
    ensures it.Valid()
    ensures ok <==> AllTicked(seen[..], RequiredBefore(it.fields, |it.fields|))
  {
    var required, last := it.requiredIndex, it.pos;
    var more := it.Next();
    while more
      invariant it.Valid() && last <= |it.fields| && required == RequiredBefore(it.fields, last)
      invariant more ==> it.pos == last + 1 < |it.fields|
      invariant !more ==> it.fields == [] || last + 1 == |it.fields|
      decreases |it.fields| - last
    {
      required, last := it.requiredIndex, it.pos;
      more := it.Next();
    }
    if last < |it.fields| && it.fields[last].rule.Required? {
      required := required + 1;
    }
    if required > MAX_REQUIRED {
      required := MAX_REQUIRED;
    }
    ok := AllTicked(seen[..], required);
  }

  /** The flags tell, for the first 64 required fields, which have been met. */
  ghost predicate Ticked(seen: seq<bool>, met: set<nat>) {
    |seen| == MAX_REQUIRED && forall k: nat :: k < MAX_REQUIRED ==> (seen[k] <==> k in met)
  }

  /** `size` is how full the array without a counter is. */
  ghost predicate Counted(fs: seq<Field>, slots: seq<Slot>, fixed: int, size: nat)
    requires |slots| == |fs|
  {
    -1 <= fixed < |fs| && (fixed >= 0 ==>
      fs[fixed].rule.FixedCount? && slots[fixed].Many? && |slots[fixed].values| == size)
  }

  /** pb_decode */
  method Decode(s: IStream, fs: seq<Field>) returns (ok: bool, m: Message)
    requires s.Valid() && FieldsOk(fs)
    modifies s
    ensures s.Valid() && fresh(m)
    ensures DecodedFields(fs, old(s.Rest()), Defaults(fs), {}, -1) == if ok then Some((m.slots, s.Rest())) else None
  {
    m := new Message(Defaults(fs));
    ok := DecodeNoinit(s, fs, m);
  }
}
