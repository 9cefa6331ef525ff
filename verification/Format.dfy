/** The parts of a table file: block handles, stored blocks and the footer. */
module Formats {
  import opened Keys
  import opened Wire
  import opened Coding

  datatype Handle = Handle(offset: nat, size: nat)

  // ----- block handles -----

  predicate HandleOk(h: Handle) {
    h.offset < TWO64 && h.size < TWO64
  }

  function HandleBytes(h: Handle): Bytes {
    Varint(h.offset) + Varint(h.size)
  }

  /** BlockHandle::DecodeFrom */
  function ReadHandle(data: Bytes): Read<Handle> {
    match Get64(data)
    case None => None
    case Some((offset, rest)) =>
      match Get64(rest)
      case None => None
      case Some((size, rest)) => Some((Handle(offset, size), rest))
  }

  lemma HandleBack(h: Handle, rest: Bytes)
    requires HandleOk(h)
    ensures ReadHandle(HandleBytes(h) + rest) == Some((h, rest)) && |HandleBytes(h)| <= 20
  {
    hide Get64, Varint, Pow2;
    assert HandleBytes(h) + rest == Varint(h.offset) + (Varint(h.size) + rest);
    Get64Back(h.offset, Varint(h.size) + rest);
    Get64Back(h.size, rest);
    Pow2Values();
    VarintSize(h.offset, 10);
    VarintSize(h.size, 10);
  }

  // ----- stored blocks -----

  const NO_COMPRESSION: Byte := 0
  const BLOCK_TRAILER := 5

  /** A block's contents, its compression type and the checksum of both. */
  function Stored(sum: Checksum, contents: Bytes): Bytes {
    contents + [NO_COMPRESSION] + Fixed32(sum(contents + [NO_COMPRESSION]))
  }

  /** ReadBlock, for blocks that are not compressed. */
  function ReadBlock(sum: Checksum, verify: bool, file: Bytes, h: Handle): Option<Bytes> {
    if h.offset + h.size + BLOCK_TRAILER > |file| then None
    else
      var b := file[h.offset..h.offset + h.size + BLOCK_TRAILER];
      if verify && sum(b[..h.size + 1]) != Number32(b[h.size + 1..]) then None
      else if b[h.size] != NO_COMPRESSION then None
      else Some(b[..h.size])
  }

  /** The file has the stored block at the handle. */
  ghost predicate Holds(sum: Checksum, file: Bytes, h: Handle, contents: Bytes) {
    && h.size == |contents| && h.offset + h.size + BLOCK_TRAILER <= |file|
    && file[h.offset..h.offset + h.size + BLOCK_TRAILER] == Stored(sum, contents)
  }

  lemma BlockBack(sum: Checksum, verify: bool, file: Bytes, h: Handle, contents: Bytes)
    requires Holds(sum, file, h, contents)
    ensures ReadBlock(sum, verify, file, h) == Some(contents)
  {
    hide Number32, Fixed32;
    var b := Stored(sum, contents);
    Fixed32RoundTrip(sum(contents + [NO_COMPRESSION]));
    assert b[..h.size + 1] == contents + [NO_COMPRESSION]
      && b[h.size + 1..] == Fixed32(sum(contents + [NO_COMPRESSION]));
    assert b[..h.size] == contents;
  }

  /** With verification on, nothing else is read: contents come back only where the file holds them, with their type
      and the checksum of both. */
  lemma VerifiedBlock(sum: Checksum, file: Bytes, h: Handle, contents: Bytes)
    ensures ReadBlock(sum, true, file, h) == Some(contents) <==> Holds(sum, file, h, contents)
  {
    hide Number32, Fixed32;
    if Holds(sum, file, h, contents) {
      BlockBack(sum, true, file, h, contents);
    }
    if ReadBlock(sum, true, file, h) == Some(contents) {
      var b := file[h.offset..h.offset + h.size + BLOCK_TRAILER];
      assert b[..h.size + 1] == contents + [NO_COMPRESSION];
      Number32Back(b[h.size + 1..]);
      assert b == b[..h.size + 1] + b[h.size + 1..];
    }
  }

  /** Appending to a file leaves what it holds. */
  lemma StillHolds(sum: Checksum, file: Bytes, more: Bytes, h: Handle, contents: Bytes)
    requires Holds(sum, file, h, contents)
    ensures Holds(sum, file + more, h, contents)
  {
  }

  lemma NowHolds(sum: Checksum, file: Bytes, contents: Bytes)
    ensures Holds(sum, file + Stored(sum, contents), Handle(|file|, |contents|), contents)
    ensures |Stored(sum, contents)| == |contents| + BLOCK_TRAILER
  {
  }

  // ----- the footer -----

  const HANDLES_LENGTH := 40
  const FOOTER_LENGTH := 48
  const MAGIC_LOW: nat := 0x8b80fb57
  const MAGIC_HIGH: nat := 0xdb477524

  datatype Footer = Footer(metaindex: Handle, index: Handle)

  /** Footer::EncodeTo: both handles, padded, and the magic number. */
  function FooterBytes(f: Footer): (b: Bytes)
    requires HandleOk(f.metaindex) && HandleOk(f.index)
    ensures |b| == FOOTER_LENGTH
  {
    HandleBack(f.metaindex, []);
    HandleBack(f.index, []);
    var handles := HandleBytes(f.metaindex) + HandleBytes(f.index);
    handles + seq(HANDLES_LENGTH - |handles|, _ => 0) + Fixed32(MAGIC_LOW) + Fixed32(MAGIC_HIGH)
  }

  /** Footer::DecodeFrom, on the last bytes of a file. */
  function ReadFooter(b: Bytes): Option<Footer>
    requires |b| == FOOTER_LENGTH
  {
    if Number32(b[40..44]) != MAGIC_LOW || Number32(b[44..]) != MAGIC_HIGH then None
    else
      match ReadHandle(b)
      case None => None
      case Some((metaindex, rest)) =>
        match ReadHandle(rest)
        case None => None
        case Some((index, _)) => Some(Footer(metaindex, index))
  }

  lemma MagicBytes()
    ensures Fixed32(MAGIC_LOW) == [0x57, 0xfb, 0x80, 0x8b] && Fixed32(MAGIC_HIGH) == [0x24, 0x75, 0x47, 0xdb]
  {
  }

  /** Only files that end in the eight bytes of the magic number have a footer. */
  lemma MagicLast(b: Bytes)
    requires |b| == FOOTER_LENGTH && ReadFooter(b).Some?
    ensures b[40..] == [0x57, 0xfb, 0x80, 0x8b, 0x24, 0x75, 0x47, 0xdb]
  {
    hide Number32, Fixed32, ReadHandle;
    MagicBytes();
    Number32Back(b[40..44]);
    Number32Back(b[44..]);
    assert b[40..] == b[40..44] + b[44..];
  }

  lemma FooterBack(f: Footer)
    requires HandleOk(f.metaindex) && HandleOk(f.index)
    ensures ReadFooter(FooterBytes(f)) == Some(f)
  {
    hide Number32, Fixed32, ReadHandle, HandleBytes;
    var b := FooterBytes(f);
    HandleBack(f.metaindex, []);
    HandleBack(f.index, []);
    var handles := HandleBytes(f.metaindex) + HandleBytes(f.index);
    var pad: Bytes := seq(HANDLES_LENGTH - |handles|, _ => 0);
    var magic := Fixed32(MAGIC_LOW) + Fixed32(MAGIC_HIGH);
    Fixed32RoundTrip(MAGIC_LOW);
    Fixed32RoundTrip(MAGIC_HIGH);
    assert b == handles + pad + Fixed32(MAGIC_LOW) + Fixed32(MAGIC_HIGH);
    assert b[40..44] == Fixed32(MAGIC_LOW) && b[44..] == Fixed32(MAGIC_HIGH);
    HandleBack(f.metaindex, HandleBytes(f.index) + (pad + magic));
    HandleBack(f.index, pad + magic);
    assert b == HandleBytes(f.metaindex) + (HandleBytes(f.index) + (pad + magic));
  }
}
