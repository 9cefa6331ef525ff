/** nanopb's encoder: one pass that counts and one that writes, with the same code. */
module ProtobufEncoder {
  import opened Keys
  import opened Wire
  import opened Protobuf
  import opened ProtobufRoundTrip

  /** pb_ostream_t: a sizing stream counts and writes nothing. */
  class OStream {
    const sizing: bool
    const maxSize: nat
    var bytesWritten: nat
    var written: Bytes

    predicate Valid()
      reads this
    {
      sizing || bytesWritten <= maxSize
    }

    constructor (sizing: bool, maxSize: nat)
      ensures Valid() && this.sizing == sizing && this.maxSize == maxSize && bytesWritten == 0 && written == []
    {
      this.sizing := sizing;
      this.maxSize := maxSize;
      bytesWritten := 0;
      written := [];
    }
  }

  /** What a call that means to write `e` did, from a stream with `n` bytes, `w` of them written: a sizing stream
      counted the bytes, a writing one appended them, exactly when they fit. */
  predicate Wrote(s: OStream, n: nat, w: Bytes, e: Bytes, ok: bool)
    reads s
  {
    && s.Valid()
    && (ok <==> s.sizing || n + |e| <= s.maxSize)
    && (ok ==> s.bytesWritten == n + |e| && s.written == if s.sizing then w else w + e)
  }

  /** Writing one thing after another. */
  lemma WroteBoth(s: OStream, n: nat, w: Bytes, a: Bytes, b: Bytes, ok: bool)
    requires (s.sizing || n + |a| <= s.maxSize) && Wrote(s, n + |a|, if s.sizing then w else w + a, b, ok)
    ensures Wrote(s, n, w, a + b, ok)
  {
  }

  /** pb_write */
  method Write(s: OStream, buf: Bytes) returns (ok: bool)
    requires s.Valid()
    modifies s
    ensures Wrote(s, old(s.bytesWritten), old(s.written), buf, ok)
  {
    if |buf| > 0 && !s.sizing {
      if s.bytesWritten + |buf| > s.maxSize {
        return false;
      }
      s.written := s.written + buf;
    }
    s.bytesWritten := s.bytesWritten + |buf|;
    ok := true;
  }

  /** pb_write without a buffer: a sizing stream only counts. */
  method Count(s: OStream, ghost buf: Bytes, size: nat) returns (ok: bool)
    requires s.sizing && size == |buf|
    modifies s
    ensures Wrote(s, old(s.bytesWritten), old(s.written), buf, ok)
  {
    s.bytesWritten := s.bytesWritten + size;
    ok := true;
  }

  /** pb_encode_varint */
  method WriteVarint(s: OStream, n: nat) returns (ok: bool)
    requires s.Valid() && n < TWO64
    modifies s
    ensures Wrote(s, old(s.bytesWritten), old(s.written), Varint(n), ok)
  {
    var bytes := EncodeVarint(n);
    ok := Write(s, bytes);
  }

  /** pb_encode_string */
  method WriteString(s: OStream, b: Bytes) returns (ok: bool)
    requires s.Valid() && |b| < TWO64
    modifies s
    ensures Wrote(s, old(s.bytesWritten), old(s.written), Delimited(b), ok)
  {
    ghost var n, w := s.bytesWritten, s.written;
    ok := WriteVarint(s, |b|);
    if ok {
      ok := Write(s, b);
      WroteBoth(s, n, w, Varint(|b|), b, ok);
    }
  }

  /** pb_encode_tag */
  method WriteTag(s: OStream, wireType: nat, tag: nat) returns (ok: bool)
    requires s.Valid() && wireType < 8 && tag < 0x2000_0000
    modifies s
    ensures Wrote(s, old(s.bytesWritten), old(s.written), TagBytes(wireType, tag), ok)
  {
    ok := WriteVarint(s, 8 * tag + wireType);
  }

  /** pb_enc_* */
  method WriteValue(s: OStream, t: Type, v: Value) returns (ok: bool)
    requires s.Valid() && TypeOk(t) && ValueOk(t, v) && |Encoded(t, v)| < TWO64
    modifies s
    ensures Wrote(s, old(s.bytesWritten), old(s.written), Encoded(t, v), ok)
    decreases TypeDepth(t), 1, 0
  {
    match t
    case BoolType =>
      ok := WriteVarint(s, if v.n != 0 then 1 else 0);
    case IntType(size) =>
      SignedBack(v.n, size);
      ok := WriteVarint(s, Unsigned64(v.n));
    case UintType(_) =>
      ok := WriteVarint(s, v.n);
    case SintType(_) =>
      ZigZagRoundTrip(v.n);
      ok := WriteVarint(s, ZigZag(v.n));
    case Fixed32Type =>
      ok := Write(s, Fixed32(v.n));
    case Fixed64Type =>
      ok := Write(s, Fixed64(v.n));
    case BytesType(_) =>
      ok := WriteString(s, v.bytes);
    case StringType(_) =>
      ok := WriteString(s, v.bytes);
    case FixedBytesType(_) =>
      ok := WriteString(s, v.bytes);
    case MessageType(fs) =>
      PayloadBound(t, v);
      ok := WriteSubmessage(s, fs, v.slots);
  }

  /** pb_encode_submessage: count first, then write, within the count. */
  method WriteSubmessage(s: OStream, fs: seq<Field>, slots: seq<Slot>) returns (ok: bool)
    requires s.Valid() && FieldsOk(fs) && AllOk(fs, slots) && |EncodedFields(fs, slots)| < TWO64
    modifies s
    ensures Wrote(s, old(s.bytesWritten), old(s.written), Delimited(EncodedFields(fs, slots)), ok)
    decreases Depth(fs), 7, 0
  {
    ghost var n, w, body := s.bytesWritten, s.written, EncodedFields(fs, slots);
    var counting := new OStream(true, 0);
    ok := EncodeFields(counting, fs, slots);
    var size := counting.bytesWritten;
    ok := WriteVarint(s, size);
    if !ok {
      return;
    }
    if s.sizing {
      ok := Count(s, body, size);
      WroteBoth(s, n, w, Varint(size), body, ok);
      return;
    }
    if s.bytesWritten + size > s.maxSize {
      return false;
    }
    var writing := new OStream(false, size);
    ok := EncodeFields(writing, fs, slots);
    s.bytesWritten := s.bytesWritten + writing.bytesWritten;
    s.written := s.written + writing.written;
    if writing.bytesWritten != size {
      ok := false;
    }
    assert [] + body == body;
    WroteBoth(s, n, w, Varint(size), body, ok);
  }

  method WriteRun(s: OStream, f: Field, vs: seq<Value>) returns (ok: bool)
    requires s.Valid() && TypeOk(f.ltype) && forall i :: 0 <= i < |vs| ==> ValueOk(f.ltype, vs[i])
    requires |EncodedRun(f, vs)| < TWO64
    modifies s
    ensures Wrote(s, old(s.bytesWritten), old(s.written), EncodedRun(f, vs), ok)
    decreases FieldDepth(f), 2, 0
  {
    ghost var n, w := s.bytesWritten, s.written;
    ok := true;
    for i := 0 to |vs|
      invariant ok && Wrote(s, n, w, EncodedRun(f, vs[..i]), true)
    {
      assert vs[..i + 1][..i] == vs[..i];
      RunPrefix(f, vs, i + 1);
      ok := WriteValue(s, f.ltype, vs[i]);
      WroteBoth(s, n, w, EncodedRun(f, vs[..i]), Encoded(f.ltype, vs[i]), ok);
      if !ok {
        return;
      }
    }
    assert vs[..|vs|] == vs;
  }

  lemma RunPrefix(f: Field, vs: seq<Value>, k: nat)
    requires k <= |vs| && forall i :: 0 <= i < |vs| ==> ValueOk(f.ltype, vs[i])
    ensures |EncodedRun(f, vs[..k])| <= |EncodedRun(f, vs)| && |EncodedEach(f, vs[..k])| <= |EncodedEach(f, vs)|
  {
    RunSplits(f, vs, k);
    EachSplits(f, vs, k);
  }

  method WriteEach(s: OStream, f: Field, vs: seq<Value>) returns (ok: bool)
    requires s.Valid() && FieldOk(f) && forall i :: 0 <= i < |vs| ==> ValueOk(f.ltype, vs[i])
    requires |EncodedEach(f, vs)| < TWO64
    modifies s
    ensures Wrote(s, old(s.bytesWritten), old(s.written), EncodedEach(f, vs), ok)
    decreases FieldDepth(f), 2, 0
  {
    ghost var n, w := s.bytesWritten, s.written;
    ok := true;
    for i := 0 to |vs|
      invariant ok && Wrote(s, n, w, EncodedEach(f, vs[..i]), true)
    {
      assert vs[..i + 1][..i] == vs[..i];
      RunPrefix(f, vs, i + 1);
      ghost var done, tag := EncodedEach(f, vs[..i]), TagBytes(WireType(f.ltype), f.tag);
      ok := WriteTag(s, WireType(f.ltype), f.tag);
      WroteBoth(s, n, w, done, tag, ok);
      if ok {
        ok := WriteValue(s, f.ltype, vs[i]);
        WroteBoth(s, n, w, done + tag, Encoded(f.ltype, vs[i]), ok);
        assert done + tag + Encoded(f.ltype, vs[i]) == done + (tag + Encoded(f.ltype, vs[i]));
      }
      if !ok {
        EachLonger(f, vs, i);
        return;
      }
    }
    assert vs[..|vs|] == vs;
  }

  lemma EachLonger(f: Field, vs: seq<Value>, i: nat)
    requires i < |vs| && forall i :: 0 <= i < |vs| ==> ValueOk(f.ltype, vs[i])
    ensures |EncodedEach(f, vs[..i])| + |TagBytes(WireType(f.ltype), f.tag)| <= |EncodedEach(f, vs)|
  {
    assert vs[..i + 1][..i] == vs[..i];
    RunPrefix(f, vs, i + 1);
  }

  /** encode_array: packed when the type allows, its size counted first. */
  method WriteArray(s: OStream, f: Field, vs: seq<Value>) returns (ok: bool)
    requires s.Valid() && FieldOk(f) && IsArray(f) && SlotOk(f, Many(vs)) && |EncodedSlot(f, Many(vs))| < TWO64
    modifies s
    ensures Wrote(s, old(s.bytesWritten), old(s.written), EncodedSlot(f, Many(vs)), ok)
    decreases FieldDepth(f), 4, 0
  {
    if |vs| == 0 {
      return true;
    }
    if |vs| > ArraySize(f) {
      return false;
    }
    if Packable(f.ltype) {
      ghost var n, w, run, tag := s.bytesWritten, s.written, EncodedRun(f, vs), TagBytes(WT_STRING, f.tag);
      ok := WriteTag(s, WT_STRING, f.tag);
      if !ok {
        return;
      }
      var size := PackedSize(f, vs);
      ok := WriteVarint(s, size);
      WroteBoth(s, n, w, tag, Varint(size), ok);
      if !ok {
        return;
      }
      if s.sizing {
        ok := Count(s, run, size);
      } else {
        ok := WriteRun(s, f, vs);
      }
      WroteBoth(s, n, w, tag + Varint(size), run, ok);
      assert tag + Varint(size) + run == tag + (Varint(size) + run);
    } else {
      ok := WriteEach(s, f, vs);
    }
  }

  /** The size of a packed array: known for fixed-width numbers, counted for others. */
  method PackedSize(f: Field, vs: seq<Value>) returns (size: nat)
    requires FieldOk(f) && Packable(f.ltype) && forall i :: 0 <= i < |vs| ==> ValueOk(f.ltype, vs[i])
    requires |EncodedRun(f, vs)| < TWO64
    ensures size == |EncodedRun(f, vs)|
    decreases FieldDepth(f), 3, 0
  {
    if f.ltype.Fixed32Type? {
      FixedRun(f, vs, 4);
      size := 4 * |vs|;
    } else if f.ltype.Fixed64Type? {
      FixedRun(f, vs, 8);
      size := 8 * |vs|;
    } else {
      var counting := new OStream(true, 0);
      var ok := WriteRun(counting, f, vs);
      size := counting.bytesWritten;
    }
  }

  lemma {:induction false} FixedRun(f: Field, vs: seq<Value>, width: nat)
    requires forall i :: 0 <= i < |vs| ==> ValueOk(f.ltype, vs[i])
    requires (f.ltype.Fixed32Type? && width == 4) || (f.ltype.Fixed64Type? && width == 8)
    ensures |EncodedRun(f, vs)| == width * |vs|
  {
    if vs != [] {
      FixedRun(f, vs[..|vs| - 1], width);
    }
  }

  /** encode_basic_field */
  method WriteSlot(s: OStream, f: Field, slot: Slot) returns (ok: bool)
    requires s.Valid() && FieldOk(f) && SlotOk(f, slot) && |EncodedSlot(f, slot)| < TWO64
    modifies s
    ensures Wrote(s, old(s.bytesWritten), old(s.written), EncodedSlot(f, slot), ok)
    decreases FieldDepth(f), 5, 0
  {
    match slot
    case Absent => return true;
    case Many(vs) => ok := WriteArray(s, f, vs);
    case One(v) =>
      if f.rule.Singular? && IsDefault(f, slot) {
        return true;
      }
      ghost var n, w, tag := s.bytesWritten, s.written, TagBytes(WireType(f.ltype), f.tag);
      ok := WriteTag(s, WireType(f.ltype), f.tag);
      if ok {
        ok := WriteValue(s, f.ltype, v);
        WroteBoth(s, n, w, tag, Encoded(f.ltype, v), ok);
      }
  }

  /** pb_encode */
  method EncodeFields(s: OStream, fs: seq<Field>, slots: seq<Slot>) returns (ok: bool)
    requires s.Valid() && FieldsOk(fs) && AllOk(fs, slots) && |EncodedFields(fs, slots)| < TWO64
    modifies s
    ensures Wrote(s, old(s.bytesWritten), old(s.written), EncodedFields(fs, slots), ok)
    decreases Depth(fs), 6, 0
  {
    ghost var n, w := s.bytesWritten, s.written;
    assert fs[..0] == [];
    ok := true;
    for i := 0 to |fs|
      invariant ok && AllOk(fs[..i], slots[..i]) && Wrote(s, n, w, EncodedFields(fs[..i], slots[..i]), true)
    {
      assert FieldOk(fs[i]) && SlotOk(fs[i], slots[i]) && FieldDepth(fs[i]) <= Depth(fs);
      FieldsSplit(fs, slots, i);
      FromStart(fs, slots, i + 1);
      ok := WriteSlot(s, fs[i], slots[i]);
      WroteBoth(s, n, w, EncodedFields(fs[..i], slots[..i]), EncodedSlot(fs[i], slots[i]), ok);
      if !ok {
        return;
      }
    }
    assert fs[..|fs|] == fs && slots[..|slots|] == slots;
  }

  /** pb_get_encoded_size */
  method GetEncodedSize(fs: seq<Field>, slots: seq<Slot>) returns (size: nat)
    requires FieldsOk(fs) && MessageOk(fs, slots) && |EncodedFields(fs, slots)| < TWO64
    ensures size == |EncodedFields(fs, slots)|
  {
    var s := new OStream(true, 0);
    var ok := EncodeFields(s, fs, slots);
    size := s.bytesWritten;
  }
}
