/** nanopb's encoder and decoder together. */
module ProtobufCodec {
  import opened Keys
  import opened Wire
  import opened Protobuf
  import opened ProtobufRoundTrip
  import opened ProtobufSkip
  import opened ProtobufEncoder
  import opened ProtobufDecoder

  /** Encoding a valid message into a buffer of `maxSize` bytes succeeds exactly when the size the sizing pass reports
      fits; decoding what was written then succeeds, reads all of it, and gives the message back. */
  method RoundTrip(fs: seq<Field>, slots: seq<Slot>, maxSize: nat)
    returns (size: nat, encoded: bool, decoded: bool, back: seq<Slot>, left: nat)
    requires FieldsOk(fs) && MessageOk(fs, slots) && |EncodedFields(fs, slots)| < TWO32
    ensures size == |EncodedFields(fs, slots)| && (encoded <==> size <= maxSize)
    ensures encoded ==> decoded && back == slots && left == 0
  {
    hide MessageOk, EncodedFields, DecodedFields;
    assert AllOk(fs, slots) by {
      SlotsOk(fs, slots);
    }
    size := GetEncodedSize(fs, slots);
    var out := new OStream(false, maxSize);
    encoded := EncodeFields(out, fs, slots);
    decoded, back, left := false, [], 0;
    if encoded {
      assert [] + EncodedFields(fs, slots) == EncodedFields(fs, slots);
      var into := new IStream(out.written, 0, |out.written|);
      assert into.Rest() == EncodedFields(fs, slots);
      var m;
      decoded, m := Decode(into, fs);
      MessageBack(fs, slots);
      back := m.slots;
      left := into.left;
    }
  }

  /** Decoding with only some of the sender's fields succeeds, reads all of the message, and gives these fields. */
  method ReadPart(fs: seq<Field>, slots: seq<Slot>, keep: seq<bool>) returns (decoded: bool, back: seq<Slot>, left: nat)
    requires FieldsOk(fs) && MessageOk(fs, slots) && |EncodedFields(fs, slots)| < TWO32 && |keep| == |fs|
    ensures decoded && back == Kept(slots, keep) && left == 0
  {
    hide MessageOk, EncodedFields, DecodedFields;
    assert AllOk(fs, slots) by {
      SlotsOk(fs, slots);
    }
    var size := GetEncodedSize(fs, slots);
    var out := new OStream(false, size);
    var encoded := EncodeFields(out, fs, slots);
    assert [] + EncodedFields(fs, slots) == EncodedFields(fs, slots);
    var into := new IStream(out.written, 0, |out.written|);
    assert into.Rest() == EncodedFields(fs, slots);
    PartBack(fs, slots, keep);
    var m;
    decoded, m := Decode(into, Kept(fs, keep));
    back := m.slots;
    left := into.left;
  }

  lemma SlotsOk(fs: seq<Field>, slots: seq<Slot>)
    requires MessageOk(fs, slots)
    ensures AllOk(fs, slots)
  {
  }
}
