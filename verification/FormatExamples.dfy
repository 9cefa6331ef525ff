/** One small instance of each format, byte by byte. */
module FormatExamples {
  import opened Keys
  import opened Wire
  import Coding
  import Log
  import Blocks
  import Separators
  import WriteBatches
  import VersionEdits
  import FilterBlocks
  import opened Protobuf

  lemma Varint300()
    ensures Varint(300) == [0xAC, 0x02]
  {
  }

  lemma Numbers()
    ensures Fixed32(0x01020304) == [4, 3, 2, 1] && Fixed64(0x0102030405060708) == [8, 7, 6, 5, 4, 3, 2, 1]
    ensures ZigZag(0) == 0 && ZigZag(-1) == 1 && ZigZag(1) == 2 && ZigZag(-2) == 3
    ensures ZigZag(0x7FFF_FFFF) == 0xFFFF_FFFE && ZigZag(-0x8000_0000) == 0xFFFF_FFFF
  {
  }

  /** The internal key of user key "a", sequence number 5, a value: the kind is the lowest byte of the trailer. */
  lemma InternalKeyBytes()
    ensures Separators.RawKey([97], 5, Value) == [97, 1, 5, 0, 0, 0, 0, 0, 0]
  {
    hide Fixed32;
    SmallNumbers();
    assert 256 * 5 + 1 == 0x501;
  }

  lemma SmallNumbers()
    ensures Fixed32(0x501) == [1, 5, 0, 0] && Fixed32(0) == [0, 0, 0, 0] && Fixed32(1) == [1, 0, 0, 0]
    ensures Fixed32(5) == [5, 0, 0, 0]
  {
  }

  /** The first fragment of a log: of a record that fits, and of one that does not fit its block. */
  lemma LogBytes(sum: Coding.Checksum, data: Bytes)
    ensures Log.NextFragment(sum, 0, [97, 98], true) == Fixed32(sum([1, 97, 98])) + [2, 0, 1, 97, 98]
    ensures |data| > 32761 ==>
      Log.NextFragment(sum, 0, data, true) == Fixed32(sum([2] + data[..32761])) + [0xF9, 0x7F, 2] + data[..32761]
  {
    hide Fixed32;
    var ab: Bytes := [97, 98];
    assert ab[..2] == ab && [1] + ab == [1, 97, 98];
  }

  /** A batch: its header, with sequence number 5 and no operations, a put of "v" under "k", and a deletion of "k". */
  lemma BatchBytes()
    ensures WriteBatches.Rep(5, []) == [5, 0, 0, 0, 0, 0, 0, 0, 0, 0, 0, 0]
    ensures WriteBatches.OpBytes(WriteBatches.PutOp([107], [118])) == [1, 1, 107, 1, 118]
    ensures WriteBatches.OpBytes(WriteBatches.DeleteOp([107])) == [0, 1, 107]
  {
    hide Fixed32;
    SmallNumbers();
  }

  /** A block: an entry that shares one byte of its key with the one before, and the end of an empty block, with one
      restart point. */
  lemma BlockBytes()
    ensures Blocks.Record(1, Blocks.Pair([97, 99], [50])) == [1, 1, 1, 99, 50]
    ensures Blocks.BlockBytes([], 16) == [0, 0, 0, 0, 1, 0, 0, 0]
  {
    hide Fixed32;
    SmallNumbers();
    assert Blocks.Restarts([], 16) == [0];
    assert Blocks.Words([0]) == [0, 0, 0, 0];
  }

  /** The items of an edit, one at a time. */
  lemma EditBytes()
    ensures VersionEdits.Encoded(VersionEdits.NO_EDIT.(comparator := Some([120])), []) == [1, 1, 120]
    ensures VersionEdits.Encoded(VersionEdits.NO_EDIT.(logNumber := Some(6)), []) == [2, 6]
    ensures VersionEdits.Encoded(VersionEdits.NO_EDIT.(nextFileNumber := Some(6)), []) == [3, 6]
    ensures VersionEdits.Encoded(VersionEdits.NO_EDIT.(lastSequence := Some(6)), []) == [4, 6]
    ensures VersionEdits.Encoded(VersionEdits.NO_EDIT.(prevLogNumber := Some(6)), []) == [9, 6]
  {
  }

  lemma ItemBytes()
    ensures VersionEdits.PointerItem((1, [107])) == [5, 1, 1, 107]
    ensures VersionEdits.DeletedItem((2, 5)) == [6, 2, 5]
    ensures VersionEdits.NewFileItem((0, VersionEdits.FileMeta(7, 9, [97], [98]))) == [7, 0, 7, 9, 1, 97, 1, 98]
  {
  }

  /** A filter block without filters: where the offsets start, and the base of two kilobytes. */
  lemma FilterBlockBytes()
    ensures FilterBlocks.FilterBlockBytes([], []) == [0, 0, 0, 0, 11]
  {
  }

  /** The examples of the Protocol Buffers Encoding guide: 150 in field 1, "testing" in field 2, a message with 150 in
      field 3, packed 3, 270 and 86942 in field 4. */
  lemma FieldBytes()
    ensures EncodedSlot(Field(1, Required, UintType(4)), One(Num(150))) == [0x08, 0x96, 0x01]
    ensures EncodedSlot(Field(2, Required, BytesType(10)), One(Str([116, 101, 115, 116, 105, 110, 103])))
      == [0x12, 0x07, 116, 101, 115, 116, 105, 110, 103]
  {
  }

  /** Both fixed widths. */
  lemma FixedBytes()
    ensures EncodedSlot(Field(5, Required, Fixed32Type), One(Num(1))) == [0x2D, 1, 0, 0, 0]
    ensures EncodedSlot(Field(6, Required, Fixed64Type), One(Num(1))) == [0x31, 1, 0, 0, 0, 0, 0, 0, 0]
  {
    hide Fixed32;
    SmallNumbers();
  }

  lemma PackedBytes()
    ensures EncodedSlot(Field(4, Repeated(3), UintType(4)), Many([Num(3), Num(270), Num(86942)]))
      == [0x22, 0x06, 0x03, 0x8E, 0x02, 0x9E, 0xA7, 0x05]
  {
    var f, vs := Field(4, Repeated(3), UintType(4)), [Num(3), Num(270), Num(86942)];
    assert vs[..2] == [Num(3), Num(270)] && vs[..2][..1] == [Num(3)] && vs[..2][..1][..0] == [];
    assert EncodedRun(f, [Num(3)]) == [0x03];
    assert EncodedRun(f, vs[..2]) == [0x03, 0x8E, 0x02];
  }

  lemma SubmessageBytes()
    ensures var f := Field(3, Required, MessageType([Field(1, Required, UintType(4))]));
      SlotOk(f, One(Msg([One(Num(150))]))) && EncodedSlot(f, One(Msg([One(Num(150))]))) == [0x1A, 3, 8, 0x96, 1]
  {
    var fs, slots := [Field(1, Required, UintType(4))], [One(Num(150))];
    assert fs[..0] == [] && slots[..0] == [];
    assert ValueOk(MessageType(fs), Msg(slots));
    assert EncodedFields(fs, slots) == [0x08, 0x96, 0x01];
  }
}
