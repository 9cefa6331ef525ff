/** The edits the manifest is made of, as bytes. */
module VersionEdits {
  import opened Keys
  import opened Wire
  import opened Coding
  import Versions

  datatype FileMeta = FileMeta(number: nat, size: nat, smallest: Bytes, largest: Bytes)

  /** What an edit says. The deleted files are level and number. */
  datatype Edit = Edit(
    comparator: Option<Bytes>, logNumber: Option<nat>, prevLogNumber: Option<nat>, nextFileNumber: Option<nat>,
      lastSequence: Option<nat>,
    compactPointers: seq<(nat, Bytes)>, deletedFiles: set<(nat, nat)>, newFiles: seq<(nat, FileMeta)>)

  const NO_EDIT := Edit(None, None, None, None, None, [], {}, [])

  predicate NumberOk(n: Option<nat>) {
    n.Some? ==> n.value < TWO64
  }

  predicate MetaOk(f: FileMeta) {
    f.number < TWO64 && f.size < TWO64 && |f.smallest| < TWO32 && |f.largest| < TWO32
  }

  /** The fields fit their C types, and levels are levels. */
  ghost predicate EditOk(e: Edit) {
    && (e.comparator.Some? ==> |e.comparator.value| < TWO32)
    && NumberOk(e.logNumber) && NumberOk(e.prevLogNumber) && NumberOk(e.nextFileNumber) && NumberOk(e.lastSequence)
    && (forall i :: 0 <= i < |e.compactPointers| ==>
      e.compactPointers[i].0 < Versions.NUM_LEVELS && |e.compactPointers[i].1| < TWO32)
    && (forall d :: d in e.deletedFiles ==> d.0 < Versions.NUM_LEVELS && d.1 < TWO64)
    && (forall i :: 0 <= i < |e.newFiles| ==> e.newFiles[i].0 < Versions.NUM_LEVELS && MetaOk(e.newFiles[i].1))
  }

  const COMPARATOR := 1
  const LOG_NUMBER := 2
  const NEXT_FILE_NUMBER := 3
  const LAST_SEQUENCE := 4
  const COMPACT_POINTER := 5
  const DELETED_FILE := 6
  const NEW_FILE := 7
  const PREV_LOG_NUMBER := 9

  // ----- writing -----

  function NumberItem(tag: nat, n: Option<nat>): Bytes {
    if n.None? then [] else Varint(tag) + Varint(n.value)
  }

  function ComparatorItem(c: Option<Bytes>): Bytes {
    if c.None? then [] else Varint(COMPARATOR) + Prefixed(c.value)
  }

  function PointerItem(p: (nat, Bytes)): Bytes {
    Varint(COMPACT_POINTER) + (Varint(p.0) + Prefixed(p.1))
  }

  function DeletedItem(d: (nat, nat)): Bytes {
    Varint(DELETED_FILE) + (Varint(d.0) + Varint(d.1))
  }

  function NewFileItem(f: (nat, FileMeta)): Bytes {
    Varint(NEW_FILE) + (Varint(f.0)
      + (Varint(f.1.number) + (Varint(f.1.size) + (Prefixed(f.1.smallest) + Prefixed(f.1.largest)))))
  }

  function PointerItems(ps: seq<(nat, Bytes)>): Bytes {
    if ps == [] then [] else PointerItems(ps[..|ps| - 1]) + PointerItem(ps[|ps| - 1])
  }

  function DeletedItems(ds: seq<(nat, nat)>): Bytes {
    if ds == [] then [] else DeletedItems(ds[..|ds| - 1]) + DeletedItem(ds[|ds| - 1])
  }

  function NewFileItems(fs: seq<(nat, FileMeta)>): Bytes {
    if fs == [] then [] else NewFileItems(fs[..|fs| - 1]) + NewFileItem(fs[|fs| - 1])
  }

  /** EncodeTo; `order` is the order in which the set of deleted files is gone through. */
  function Encoded(e: Edit, order: seq<(nat, nat)>): Bytes {
    ComparatorItem(e.comparator) + (NumberItem(LOG_NUMBER, e.logNumber) + (NumberItem(PREV_LOG_NUMBER, e.prevLogNumber)
    + (NumberItem(NEXT_FILE_NUMBER, e.nextFileNumber) + (NumberItem(LAST_SEQUENCE, e.lastSequence)
    + (PointerItems(e.compactPointers) + (DeletedItems(order) + NewFileItems(e.newFiles)))))))
  }

  // ----- reading -----

  function GetLevel(data: Bytes): Read<nat> {
    match Get32(data)
    case None => None
    case Some((v, rest)) => if v < Versions.NUM_LEVELS then Some((v, rest)) else None
  }

  function GetPointer(data: Bytes): Read<(nat, Bytes)> {
    match GetLevel(data)
    case None => None
    case Some((level, rest)) =>
      match GetPrefixed(rest)
      case None => None
      case Some((key, rest)) => Some(((level, key), rest))
  }

  function GetDeleted(data: Bytes): Read<(nat, nat)> {
    match GetLevel(data)
    case None => None
    case Some((level, rest)) =>
      match Get64(rest)
      case None => None
      case Some((number, rest)) => Some(((level, number), rest))
  }

  function GetMeta(data: Bytes): Read<FileMeta> {
    match Get64(data)
    case None => None
    case Some((number, rest)) =>
      match Get64(rest)
      case None => None
      case Some((size, rest)) =>
        match GetPrefixed(rest)
        case None => None
        case Some((smallest, rest)) =>
          match GetPrefixed(rest)
          case None => None
          case Some((largest, rest)) => Some((FileMeta(number, size, smallest, largest), rest))
  }

  function GetNewFile(data: Bytes): Read<(nat, FileMeta)> {
    match GetLevel(data)
    case None => None
    case Some((level, rest)) =>
      match GetMeta(rest)
      case None => None
      case Some((f, rest)) => Some(((level, f), rest))
  }

  function Mapped<A, B>(r: Read<A>, f: A -> B): Read<B> {
    match r
    case None => None
    case Some((a, rest)) => Some((f(a), rest))
  }

  /** One item after its tag, put into the edit. */
  function Item(tag: nat, data: Bytes, e: Edit): Read<Edit> {
    if tag == COMPARATOR then Mapped(GetPrefixed(data), c => e.(comparator := Some(c)))
    else if tag == LOG_NUMBER then Mapped(Get64(data), n => e.(logNumber := Some(n)))
    else if tag == PREV_LOG_NUMBER then Mapped(Get64(data), n => e.(prevLogNumber := Some(n)))
    else if tag == NEXT_FILE_NUMBER then Mapped(Get64(data), n => e.(nextFileNumber := Some(n)))
    else if tag == LAST_SEQUENCE then Mapped(Get64(data), n => e.(lastSequence := Some(n)))
    else if tag == COMPACT_POINTER then Mapped(GetPointer(data), p => e.(compactPointers := e.compactPointers + [p]))
    else if tag == DELETED_FILE then Mapped(GetDeleted(data), d => e.(deletedFiles := e.deletedFiles + {d}))
    else if tag == NEW_FILE then Mapped(GetNewFile(data), f => e.(newFiles := e.newFiles + [f]))
    else None
  }

  /** The loop of DecodeFrom: none for corruption. */
  function Decoded(data: Bytes, e: Edit): Option<Edit>
    decreases |data|
  {
    match Get32(data)
    case None => if data == [] then Some(e) else None
    case Some((tag, rest)) =>
      match Item(tag, rest, e)
      case None => None
      case Some((more, after)) => if |after| < |data| then Decoded(after, more) else None
  }

  /** Clear leaves the compaction pointers. */
  function Cleared(e: Edit): Edit {
    NO_EDIT.(compactPointers := e.compactPointers)
  }

  class VersionEdit {
    var edit: Edit

    constructor ()
      ensures edit == NO_EDIT
    {
      edit := NO_EDIT;
    }

    method EncodeTo(order: seq<(nat, nat)>) returns (dst: Bytes)
      requires forall d :: d in order <==> d in edit.deletedFiles
      ensures dst == Encoded(edit, order)
    {
      hide ComparatorItem, NumberItem, PointerItem, DeletedItem, NewFileItem;
      var head := ComparatorItem(edit.comparator);
      head := head + NumberItem(LOG_NUMBER, edit.logNumber);
      head := head + NumberItem(PREV_LOG_NUMBER, edit.prevLogNumber);
      head := head + NumberItem(NEXT_FILE_NUMBER, edit.nextFileNumber);
      head := head + NumberItem(LAST_SEQUENCE, edit.lastSequence);
      var pointers, deleted, files := [], [], [];
      for i := 0 to |edit.compactPointers|
        invariant pointers == PointerItems(edit.compactPointers[..i])
      {
        assert edit.compactPointers[..i + 1][..i] == edit.compactPointers[..i];
        pointers := pointers + PointerItem(edit.compactPointers[i]);
      }
      for i := 0 to |order|
        invariant deleted == DeletedItems(order[..i])
      {
        assert order[..i + 1][..i] == order[..i];
        deleted := deleted + DeletedItem(order[i]);
      }
      for i := 0 to |edit.newFiles|
        invariant files == NewFileItems(edit.newFiles[..i])
      {
        assert edit.newFiles[..i + 1][..i] == edit.newFiles[..i];
        files := files + NewFileItem(edit.newFiles[i]);
      }
      assert edit.compactPointers[..|edit.compactPointers|] == edit.compactPointers && order[..|order|] == order;
      assert edit.newFiles[..|edit.newFiles|] == edit.newFiles;
      dst := head + pointers + deleted + files;
    }

    /** DecodeFrom: what a used edit held is gone, but for its compaction pointers. */
    method DecodeFrom(src: Bytes) returns (ok: bool)
      modifies this
      ensures Decoded(src, Cleared(old(edit))) == if ok then Some(edit) else None
    {
      hide Item, Get32;
      edit := Cleared(edit);
      var input := src;
      while true
        invariant Decoded(src, Cleared(old(edit))) == Decoded(input, edit)
        decreases |input|
      {
        var tag := GetVarint32(input);
        if tag.None? {
          return input == [];
        }
        var item := Item(tag.value.0, tag.value.1, edit);
        ItemShortens(tag.value.0, tag.value.1, edit);
        Get32Shortens(input);
        if item.None? {
          return false;
        }
        edit, input := item.value.0, item.value.1;
      }
    }
  }

  lemma Get32Shortens(data: Bytes)
    ensures Get32(data).Some? ==> |Get32(data).value.1| < |data|
  {
    PtrShortens(data, 0, 0, 32);
  }

  lemma PiecesShorten(data: Bytes)
    ensures Get64(data).Some? ==> |Get64(data).value.1| < |data|
    ensures GetPrefixed(data).Some? ==> |GetPrefixed(data).value.1| < |data|
    ensures GetLevel(data).Some? ==> |GetLevel(data).value.1| < |data|
  {
    Get32Shortens(data);
    PtrShortens(data, 0, 0, 64);
  }

  lemma ItemShortens(tag: nat, data: Bytes, e: Edit)
    ensures Item(tag, data, e).Some? ==> |Item(tag, data, e).value.1| <= |data|
  {
    hide Get32, Get64, GetPrefixed, GetLevel;
    PiecesShorten(data);
    if GetLevel(data).Some? {
      var rest := GetLevel(data).value.1;
      PiecesShorten(rest);
      if Get64(rest).Some? {
        var rest2 := Get64(rest).value.1;
        PiecesShorten(rest2);
        if Get64(rest2).Some? {
          var rest3 := Get64(rest2).value.1;
          PiecesShorten(rest3);
          if GetPrefixed(rest3).Some? {
            PiecesShorten(GetPrefixed(rest3).value.1);
          }
        }
      }
    }
  }

  // ----- decoding undoes encoding -----

  /** Reading one item, whatever follows it. */
  lemma StepBack(tag: nat, body: Bytes, rest: Bytes, e: Edit, more: Edit)
    requires tag < TWO32 && Item(tag, body + rest, e) == Some((more, rest))
    ensures Decoded(Varint(tag) + body + rest, e) == Decoded(rest, more)
  {
    hide Item, Get32, Varint;
    assert Varint(tag) + body + rest == Varint(tag) + (body + rest);
    Get32Back(tag, body + rest);
    assert |Varint(tag)| > 0;
  }

  lemma NumberBack(tag: nat, n: Option<nat>, rest: Bytes, e: Edit, more: Edit)
    requires NumberOk(n) && tag < TWO32 && (n.None? ==> more == e)
    requires n.Some? && Get64(Varint(n.value) + rest) == Some((n.value, rest)) ==>
      Item(tag, Varint(n.value) + rest, e) == Some((more, rest))
    ensures Decoded(NumberItem(tag, n) + rest, e) == Decoded(rest, more)
  {
    hide Item, Varint, Get64, Decoded;
    if n.Some? {
      Get64Back(n.value, rest);
      StepBack(tag, Varint(n.value), rest, e, more);
    } else {
      assert [] + rest == rest;
    }
  }

  lemma ComparatorBack(c: Option<Bytes>, rest: Bytes, e: Edit)
    requires (c.Some? ==> |c.value| < TWO32) && (c.None? ==> e.comparator.None?)
    ensures Decoded(ComparatorItem(c) + rest, e) == Decoded(rest, e.(comparator := c))
  {
    hide Prefixed, GetPrefixed, Varint, Decoded;
    if c.Some? {
      PrefixedBack(c.value, rest);
      StepBack(COMPARATOR, Prefixed(c.value), rest, e, e.(comparator := c));
    } else {
      assert [] + rest == rest;
    }
  }

  lemma LevelBack(level: nat, rest: Bytes)
    requires level < Versions.NUM_LEVELS
    ensures GetLevel(Varint(level) + rest) == Some((level, rest))
  {
    hide Get32, Varint;
    Get32Back(level, rest);
  }

  lemma PointerBack(p: (nat, Bytes), rest: Bytes, e: Edit)
    requires p.0 < Versions.NUM_LEVELS && |p.1| < TWO32
    ensures Decoded(PointerItem(p) + rest, e) == Decoded(rest, e.(compactPointers := e.compactPointers + [p]))
  {
    hide Prefixed, GetPrefixed, GetLevel, Varint, Decoded;
    var body := Varint(p.0) + Prefixed(p.1);
    assert body + rest == Varint(p.0) + (Prefixed(p.1) + rest);
    LevelBack(p.0, Prefixed(p.1) + rest);
    PrefixedBack(p.1, rest);
    StepBack(COMPACT_POINTER, body, rest, e, e.(compactPointers := e.compactPointers + [p]));
  }

  lemma DeletedBack(d: (nat, nat), rest: Bytes, e: Edit)
    requires d.0 < Versions.NUM_LEVELS && d.1 < TWO64
    ensures Decoded(DeletedItem(d) + rest, e) == Decoded(rest, e.(deletedFiles := e.deletedFiles + {d}))
  {
    hide GetLevel, Get64, Varint, Decoded;
    var body := Varint(d.0) + Varint(d.1);
    assert body + rest == Varint(d.0) + (Varint(d.1) + rest);
    LevelBack(d.0, Varint(d.1) + rest);
    Get64Back(d.1, rest);
    StepBack(DELETED_FILE, body, rest, e, e.(deletedFiles := e.deletedFiles + {d}));
  }

  lemma MetaBack(f: FileMeta, rest: Bytes)
    requires MetaOk(f)
    ensures GetMeta(Varint(f.number) + (Varint(f.size) + (Prefixed(f.smallest) + (Prefixed(f.largest) + rest))))
      == Some((f, rest))
  {
    hide Get64, Varint, Prefixed, GetPrefixed;
    Get64Back(f.number, Varint(f.size) + (Prefixed(f.smallest) + (Prefixed(f.largest) + rest)));
    Get64Back(f.size, Prefixed(f.smallest) + (Prefixed(f.largest) + rest));
    PrefixedBack(f.smallest, Prefixed(f.largest) + rest);
    PrefixedBack(f.largest, rest);
  }

  lemma NewFileBack(f: (nat, FileMeta), rest: Bytes, e: Edit)
    requires f.0 < Versions.NUM_LEVELS && MetaOk(f.1)
    ensures Decoded(NewFileItem(f) + rest, e) == Decoded(rest, e.(newFiles := e.newFiles + [f]))
  {
    hide GetLevel, GetMeta, Varint, Prefixed, Decoded;
    var m := f.1;
    var body := Varint(f.0) + (Varint(m.number) + (Varint(m.size) + (Prefixed(m.smallest) + Prefixed(m.largest))));
    var tail := Varint(m.number) + (Varint(m.size) + (Prefixed(m.smallest) + (Prefixed(m.largest) + rest)));
    assert body + rest == Varint(f.0) + tail;
    LevelBack(f.0, tail);
    MetaBack(m, rest);
    StepBack(NEW_FILE, body, rest, e, e.(newFiles := e.newFiles + [f]));
  }

  lemma {:induction false} PointersBack(ps: seq<(nat, Bytes)>, rest: Bytes, e: Edit)
    requires forall i :: 0 <= i < |ps| ==> ps[i].0 < Versions.NUM_LEVELS && |ps[i].1| < TWO32
    ensures Decoded(PointerItems(ps) + rest, e) == Decoded(rest, e.(compactPointers := e.compactPointers + ps))
  {
    hide PointerItem, Decoded;
    if ps == [] {
      assert [] + rest == rest && e.compactPointers + ps == e.compactPointers;
    } else {
      var n := |ps| - 1;
      PointersBack(ps[..n], PointerItem(ps[n]) + rest, e);
      var more := e.(compactPointers := e.compactPointers + ps[..n]);
      PointerBack(ps[n], rest, more);
      assert PointerItems(ps) + rest == PointerItems(ps[..n]) + (PointerItem(ps[n]) + rest);
      assert more.compactPointers + [ps[n]] == e.compactPointers + ps;
    }
  }

  ghost function Elements(ds: seq<(nat, nat)>): set<(nat, nat)> {
    set d | d in ds
  }

  lemma {:induction false} DeletedItemsBack(ds: seq<(nat, nat)>, rest: Bytes, e: Edit)
    requires forall i :: 0 <= i < |ds| ==> ds[i].0 < Versions.NUM_LEVELS && ds[i].1 < TWO64
    ensures Decoded(DeletedItems(ds) + rest, e) == Decoded(rest, e.(deletedFiles := e.deletedFiles + Elements(ds)))
  {
    hide DeletedItem, Decoded;
    if ds == [] {
      assert [] + rest == rest && e.deletedFiles + Elements(ds) == e.deletedFiles;
    } else {
      var n := |ds| - 1;
      DeletedItemsBack(ds[..n], DeletedItem(ds[n]) + rest, e);
      var more := e.(deletedFiles := e.deletedFiles + Elements(ds[..n]));
      DeletedBack(ds[n], rest, more);
      assert DeletedItems(ds) + rest == DeletedItems(ds[..n]) + (DeletedItem(ds[n]) + rest);
      assert Elements(ds) == Elements(ds[..n]) + {ds[n]};
      assert more.deletedFiles + {ds[n]} == e.deletedFiles + Elements(ds);
    }
  }

  lemma {:induction false} NewFilesBack(fs: seq<(nat, FileMeta)>, rest: Bytes, e: Edit)
    requires forall i :: 0 <= i < |fs| ==> fs[i].0 < Versions.NUM_LEVELS && MetaOk(fs[i].1)
    ensures Decoded(NewFileItems(fs) + rest, e) == Decoded(rest, e.(newFiles := e.newFiles + fs))
  {
    hide NewFileItem, Decoded;
    if fs == [] {
      assert [] + rest == rest && e.newFiles + fs == e.newFiles;
    } else {
      var n := |fs| - 1;
      NewFilesBack(fs[..n], NewFileItem(fs[n]) + rest, e);
      var more := e.(newFiles := e.newFiles + fs[..n]);
      NewFileBack(fs[n], rest, more);
      assert NewFileItems(fs) + rest == NewFileItems(fs[..n]) + (NewFileItem(fs[n]) + rest);
      assert more.newFiles + [fs[n]] == e.newFiles + fs;
    }
  }

  // ----- what is accepted -----

  lemma ReadsFit(data: Bytes)
    ensures Get32(data).Some? ==> Get32(data).value.0 < TWO32
    ensures Get64(data).Some? ==> Get64(data).value.0 < TWO64
    ensures GetPrefixed(data).Some? ==> |GetPrefixed(data).value.0| < TWO32
  {
    Pow2Values();
    PtrBound(data, 0, 0, 32);
    PtrBound(data, 0, 0, 64);
  }

  lemma MetaFits(data: Bytes)
    ensures GetMeta(data).Some? ==> MetaOk(GetMeta(data).value.0)
  {
    hide Get64, GetPrefixed;
    ReadsFit(data);
    if Get64(data).Some? {
      var rest := Get64(data).value.1;
      ReadsFit(rest);
      if Get64(rest).Some? {
        var rest := Get64(rest).value.1;
        ReadsFit(rest);
        if GetPrefixed(rest).Some? {
          ReadsFit(GetPrefixed(rest).value.1);
        }
      }
    }
  }

  lemma PairsFit(data: Bytes)
    ensures GetPointer(data).Some? ==>
      GetPointer(data).value.0.0 < Versions.NUM_LEVELS && |GetPointer(data).value.0.1| < TWO32
    ensures GetDeleted(data).Some? ==>
      GetDeleted(data).value.0.0 < Versions.NUM_LEVELS && GetDeleted(data).value.0.1 < TWO64
    ensures GetNewFile(data).Some? ==>
      GetNewFile(data).value.0.0 < Versions.NUM_LEVELS && MetaOk(GetNewFile(data).value.0.1)
  {
    hide Get32, Get64, GetPrefixed, GetMeta;
    if Get32(data).Some? {
      var rest := Get32(data).value.1;
      ReadsFit(rest);
      MetaFits(rest);
    }
  }

  lemma NumberPut(e: Edit, n: nat)
    requires EditOk(e) && n < TWO64
    ensures EditOk(e.(logNumber := Some(n))) && EditOk(e.(prevLogNumber := Some(n)))
    ensures EditOk(e.(nextFileNumber := Some(n))) && EditOk(e.(lastSequence := Some(n)))
  {
  }

  lemma ComparatorPut(e: Edit, c: Bytes)
    requires EditOk(e) && |c| < TWO32
    ensures EditOk(e.(comparator := Some(c)))
  {
  }

  lemma PairPut(e: Edit, p: (nat, Bytes), d: (nat, nat), f: (nat, FileMeta))
    requires EditOk(e)
    ensures p.0 < Versions.NUM_LEVELS && |p.1| < TWO32 ==> EditOk(e.(compactPointers := e.compactPointers + [p]))
    ensures d.0 < Versions.NUM_LEVELS && d.1 < TWO64 ==> EditOk(e.(deletedFiles := e.deletedFiles + {d}))
    ensures f.0 < Versions.NUM_LEVELS && MetaOk(f.1) ==> EditOk(e.(newFiles := e.newFiles + [f]))
  {
    hide MetaOk, NumberOk;
  }

  lemma ItemFits(tag: nat, data: Bytes, e: Edit)
    requires EditOk(e)
    ensures Item(tag, data, e).Some? ==> EditOk(Item(tag, data, e).value.0)
  {
    hide Get32, Get64, GetPrefixed, GetMeta, GetPointer, GetDeleted, GetNewFile, MetaOk, EditOk;
    ReadsFit(data);
    PairsFit(data);
    if Get64(data).Some? {
      NumberPut(e, Get64(data).value.0);
    }
    if GetPrefixed(data).Some? {
      ComparatorPut(e, GetPrefixed(data).value.0);
    }
    PairPut(e, if GetPointer(data).Some? then GetPointer(data).value.0 else (0, []),
            if GetDeleted(data).Some? then GetDeleted(data).value.0 else (0, 0),
            if GetNewFile(data).Some? then GetNewFile(data).value.0 else (0, FileMeta(0, 0, [], [])));
  }

  /** Whatever the bytes: an edit that decodes has numbers and strings within the format's widths and levels of the
      tree, and every item of a record has one of the format's eight tags. */
  lemma {:induction false} DecodedIsOk(data: Bytes, e: Edit)
    requires EditOk(e)
    ensures Decoded(data, e).Some? ==> EditOk(Decoded(data, e).value)
    ensures Decoded(data, e).Some? && data != [] ==>
      Get32(data).Some? && Get32(data).value.0 in {1, 2, 3, 4, 5, 6, 7, 9}
    decreases |data|
  {
    hide Get32, Item, EditOk;
    if Get32(data).Some? {
      var (tag, rest) := Get32(data).value;
      ItemFits(tag, rest, e);
      KnownTags(tag, rest, e);
      if Item(tag, rest, e).Some? {
        var (more, after) := Item(tag, rest, e).value;
        if |after| < |data| {
          DecodedIsOk(after, more);
        }
      }
    }
  }

  lemma KnownTags(tag: nat, data: Bytes, e: Edit)
    ensures Item(tag, data, e).Some? ==> tag in {1, 2, 3, 4, 5, 6, 7, 9}
  {
  }

  lemma NothingLeft(e: Edit)
    ensures Decoded([], e) == Some(e)
  {
  }

  /** Decoding what was encoded gives the edit back, in whatever order the deleted files were written; except that a
      used edit's compaction pointers stay in front. */
  lemma EditBack(e: Edit, order: seq<(nat, nat)>, used: Edit)
    requires EditOk(e) && Elements(order) == e.deletedFiles
    ensures Decoded(Encoded(e, order), Cleared(used))
      == Some(e.(compactPointers := used.compactPointers + e.compactPointers))
  {
    hide ComparatorItem, NumberItem, PointerItems, DeletedItems, NewFileItems, Decoded, Get64, Varint, GetPrefixed;
    var r7 := NewFileItems(e.newFiles);
    var r6 := DeletedItems(order) + r7;
    var r5 := PointerItems(e.compactPointers) + r6;
    var r4 := NumberItem(LAST_SEQUENCE, e.lastSequence) + r5;
    var r3 := NumberItem(NEXT_FILE_NUMBER, e.nextFileNumber) + r4;
    var r2 := NumberItem(PREV_LOG_NUMBER, e.prevLogNumber) + r3;
    var r1 := NumberItem(LOG_NUMBER, e.logNumber) + r2;
    var e0 := Cleared(used);
    ComparatorBack(e.comparator, r1, e0);
    var e1 := e0.(comparator := e.comparator);
    NumberBack(LOG_NUMBER, e.logNumber, r2, e1, e1.(logNumber := e.logNumber));
    var e2 := e1.(logNumber := e.logNumber);
    NumberBack(PREV_LOG_NUMBER, e.prevLogNumber, r3, e2, e2.(prevLogNumber := e.prevLogNumber));
    var e3 := e2.(prevLogNumber := e.prevLogNumber);
    NumberBack(NEXT_FILE_NUMBER, e.nextFileNumber, r4, e3, e3.(nextFileNumber := e.nextFileNumber));
    var e4 := e3.(nextFileNumber := e.nextFileNumber);
    NumberBack(LAST_SEQUENCE, e.lastSequence, r5, e4, e4.(lastSequence := e.lastSequence));
    var e5 := e4.(lastSequence := e.lastSequence);
    PointersBack(e.compactPointers, r6, e5);
    var e6 := e5.(compactPointers := e5.compactPointers + e.compactPointers);
    forall i | 0 <= i < |order|
      ensures order[i].0 < Versions.NUM_LEVELS && order[i].1 < TWO64
    {
      assert order[i] in Elements(order);
    }
    DeletedItemsBack(order, r7, e6);
    var e7 := e6.(deletedFiles := e6.deletedFiles + Elements(order));
    assert r7 + [] == r7;
    NewFilesBack(e.newFiles, [], e7);
    var e8 := e7.(newFiles := e7.newFiles + e.newFiles);
    NothingLeft(e8);
    assert {} + e.deletedFiles == e.deletedFiles && [] + e.newFiles == e.newFiles;
  }

  /** An edit that was accepted can be written again and reads the same: recovery may copy what it has read. */
  lemma WrittenAgain(data: Bytes, e: Edit, order: seq<(nat, nat)>)
    requires Decoded(data, NO_EDIT) == Some(e) && Elements(order) == e.deletedFiles
    ensures Decoded(Encoded(e, order), NO_EDIT) == Some(e)
  {
    hide Decoded, Encoded;
    DecodedIsOk(data, NO_EDIT);
    EditBack(e, order, NO_EDIT);
    assert [] + e.compactPointers == e.compactPointers;
  }
}
