/** Building a table file: sorted pairs cut into blocks, and an index of separators and block handles. */
module Tables {
  import opened Keys
  import opened Wire
  import opened Coding
  import opened Blocks
  import opened Separators
  import opened Formats

  // ----- what is in a table -----

  /** The data blocks, where they are in the file, and the entries of the index block. */
  datatype Layout = Layout(blocks: seq<seq<Pair>>, handles: seq<Handle>, index: seq<Pair>)

  ghost function Flat(blocks: seq<seq<Pair>>): seq<Pair> {
    if blocks == [] then [] else Flat(blocks[..|blocks| - 1]) + blocks[|blocks| - 1]
  }

  ghost predicate StoredAt(sum: Checksum, file: Bytes, block: seq<Pair>, h: Handle, interval: nat) {
    block != [] && HandleOk(h) && Holds(sum, file, h, BlockBytes(block, interval))
  }

  /** Every block is in the file where its handle says. */
  ghost predicate AllStored(sum: Checksum, file: Bytes, l: Layout, interval: nat) {
    && |l.handles| == |l.blocks| && Ascending(l.handles)
    && forall j :: 0 <= j < |l.blocks| ==> StoredAt(sum, file, l.blocks[j], l.handles[j], interval)
  }

  ghost predicate Ascending(hs: seq<Handle>) {
    forall i, j :: 0 <= i < j < |hs| ==> hs[i].offset < hs[j].offset
  }

  /** `sep` is at or after the last key before it, and before the key after it, if there is one. A separator that is
      not itself the last key has another user key than the key after it. */
  ghost predicate Separates(sep: Bytes, last: Bytes, next: Option<Bytes>) {
    && IsRawKey(sep) && (sep == last || RawLess(last, sep))
    && (next.Some? ==> RawLess(sep, next.value) && (sep == last || User(sep) != User(next.value)))
  }

  /** The first key after block `j`; after the last block comes `next`. */
  ghost function KeyAfter(blocks: seq<seq<Pair>>, j: nat, next: Option<Bytes>): Option<Bytes> {
    if j + 1 < |blocks| then (if blocks[j + 1] == [] then None else Some(blocks[j + 1][0].key)) else next
  }

  ghost predicate EntryOk(l: Layout, j: nat, next: Option<Bytes>)
    requires j < |l.index| && j < |l.blocks| && j < |l.handles|
  {
    && l.blocks[j] != [] && l.index[j].value == HandleBytes(l.handles[j])
    && Separates(l.index[j].key, Last(l.blocks[j]).key, KeyAfter(l.blocks, j, next))
  }

  /** The index has, for each of its entries, a separator and the handle of that block. */
  ghost predicate Indexed(l: Layout, next: Option<Bytes>) {
    && |l.index| <= |l.blocks| == |l.handles|
    && forall j :: 0 <= j < |l.index| ==> EntryOk(l, j, next)
  }

  ghost predicate AllRaw(ps: seq<Pair>) {
    forall i :: 0 <= i < |ps| ==> IsRawKey(ps[i].key)
  }

  ghost function FirstKey(data: seq<Pair>): Option<Bytes> {
    if data == [] then None else Some(data[0].key)
  }

  /** What holds between two calls of the builder: `data` are the pairs of the block being built, `pending` tells that
      the index entry of the last block is still to come. */
  ghost predicate Building(sum: Checksum, file: Bytes, l: Layout, interval: nat, data: seq<Pair>, lastKey: Bytes,
          pending: bool, handle: Handle)
  {
    var all := Flat(l.blocks) + data;
    && AllStored(sum, file, l, interval) && Indexed(l, FirstKey(data))
    && |l.blocks| == |l.index| + (if pending then 1 else 0)
    && InOrder(all, RawLess) && AllRaw(all) && (all != [] ==> lastKey == Last(all).key) && |lastKey| < TWO32
    && (pending ==> data == [] && handle == Last(l.handles))
    && (!pending && data == [] ==> l.blocks == [])
  }

  /** The layout after a block was written. */
  ghost function WithBlock(l: Layout, data: seq<Pair>, h: Handle): Layout {
    Layout(l.blocks + [data], l.handles + [h], l.index)
  }

  ghost function WithEntry(l: Layout, sep: Bytes, h: Handle): Layout {
    l.(index := l.index + [Pair(sep, HandleBytes(h))])
  }

  lemma FlatMore(blocks: seq<seq<Pair>>, data: seq<Pair>)
    ensures Flat(blocks + [data]) == Flat(blocks) + data
  {
  }

  lemma {:induction false} FlatLast(blocks: seq<seq<Pair>>)
    requires blocks != [] && Last(blocks) != []
    ensures Flat(blocks) != [] && Last(Flat(blocks)) == Last(Last(blocks))
  {
  }

  /** Adding a pair, with the index entry that was pending. */
  lemma AddStep(sum: Checksum, file: Bytes, l: Layout, interval: nat, data: seq<Pair>, lastKey: Bytes, pending: bool,
          handle: Handle, e: Pair)
    requires Building(sum, file, l, interval, data, lastKey, pending, handle)
    requires IsRawKey(e.key) && |e.key| < TWO32 && (Flat(l.blocks) + data != [] ==> RawLess(lastKey, e.key))
    ensures var more := if pending then WithEntry(l, RawSeparator(lastKey, e.key), handle) else l;
      Building(sum, file, more, interval, data + [e], e.key, false, handle)
    ensures pending ==> IsRawKey(lastKey) && |RawSeparator(lastKey, e.key)| < TWO32
  {
    hide Holds, HandleOk, HandleBytes, RawLess, BlockBytes, Separates, IsRawKey, RawSeparator;
    var all := Flat(l.blocks) + data;
    OneMoreInOrder(all, e, lastKey);
    assert Flat(l.blocks) + (data + [e]) == all + [e];
    if pending {
      var n := |l.index|;
      assert StoredAt(sum, file, l.blocks[n], l.handles[n], interval);
      FlatLast(l.blocks);
      assert all == Flat(l.blocks);
      assert IsRawKey(lastKey);
      SeparatorSeparates(lastKey, e.key);
      var more := WithEntry(l, RawSeparator(lastKey, e.key), handle);
      forall j | 0 <= j < |more.index|
        ensures EntryOk(more, j, Some(e.key))
      {
        if j < n {
          assert EntryOk(l, j, FirstKey(data))
            && KeyAfter(l.blocks, j, FirstKey(data)) == KeyAfter(l.blocks, j, Some(e.key));
        }
      }
    } else {
      forall j | 0 <= j < |l.index|
        ensures EntryOk(l, j, FirstKey(data + [e]))
      {
        assert EntryOk(l, j, FirstKey(data));
      }
    }
  }

  lemma SeparatorSeparates(last: Bytes, next: Bytes)
    requires IsRawKey(last) && IsRawKey(next) && RawLess(last, next)
    ensures var s := RawSeparator(last, next); Separates(s, last, Some(next)) && |s| <= |last|
  {
    hide RawLess, Separator, Fixed64;
    RawSeparatorBetween(last, next);
    SeparatorUser(last, next);
  }

  lemma OneMoreInOrder(all: seq<Pair>, e: Pair, lastKey: Bytes)
    requires InOrder(all, RawLess) && AllRaw(all)
    requires (all != [] ==> lastKey == Last(all).key && RawLess(lastKey, e.key)) && IsRawKey(e.key)
    ensures InOrder(all + [e], RawLess) && AllRaw(all + [e])
  {
    hide RawLess, IsRawKey;
    var more := all + [e];
    forall i, j | 0 <= i < j < |more|
      ensures RawLess(more[i].key, more[j].key)
    {
      if j == |all| && i < |all| - 1 {
        RawTransitive(all[i].key, lastKey, e.key);
      }
    }
  }

  /** Writing out a block. */
  lemma FlushStep(sum: Checksum, file: Bytes, l: Layout, interval: nat, data: seq<Pair>, lastKey: Bytes, handle: Handle)
    requires Building(sum, file, l, interval, data, lastKey, false, handle) && data != []
    requires var b := BlockBytes(data, interval); |file| + |b| < TWO64
    ensures var b := BlockBytes(data, interval);
      Building(sum, file + Stored(sum, b), WithBlock(l, data, Handle(|file|, |b|)), interval, [], lastKey, true,
        Handle(|file|, |b|))
  {
    hide Holds, HandleBytes, RawLess, BlockBytes, Separates, IsRawKey, Stored, Indexed, InOrder, AllRaw;
    var b := BlockBytes(data, interval);
    var h, file' := Handle(|file|, |b|), file + Stored(sum, b);
    var more := WithBlock(l, data, h);
    NowHolds(sum, file, b);
    FlatMore(l.blocks, data);
    assert Flat(more.blocks) + [] == Flat(l.blocks) + data;
    forall j | 0 <= j < |more.blocks|
      ensures StoredAt(sum, file', more.blocks[j], more.handles[j], interval)
    {
      if j < |l.blocks| {
        assert StoredAt(sum, file, l.blocks[j], l.handles[j], interval);
        StillHolds(sum, file, Stored(sum, b), l.handles[j], BlockBytes(l.blocks[j], interval));
      }
    }
    forall i | 0 <= i < |l.handles|
      ensures l.handles[i].offset < h.offset
    {
      assert StoredAt(sum, file, l.blocks[i], l.handles[i], interval);
      HoldsBefore(sum, file, l.handles[i], BlockBytes(l.blocks[i], interval));
    }
    StillIndexed(l, data, h);
  }

  lemma HoldsBefore(sum: Checksum, file: Bytes, h: Handle, contents: Bytes)
    requires Holds(sum, file, h, contents)
    ensures h.offset < |file|
  {
  }

  lemma StillIndexed(l: Layout, data: seq<Pair>, h: Handle)
    requires Indexed(l, FirstKey(data)) && |l.index| == |l.blocks| && data != []
    ensures Indexed(WithBlock(l, data, h), None)
  {
    hide HandleBytes, Separates;
    var more := WithBlock(l, data, h);
    forall j | 0 <= j < |more.index|
      ensures EntryOk(more, j, None)
    {
      assert EntryOk(l, j, FirstKey(data));
    }
  }

  /** The index entry of the last block, when there is no next key. */
  lemma FinishStep(sum: Checksum, file: Bytes, l: Layout, interval: nat, lastKey: Bytes, handle: Handle)
    requires Building(sum, file, l, interval, [], lastKey, true, handle)
    ensures Indexed(WithEntry(l, RawSuccessor(lastKey), handle), None)
    ensures IsRawKey(lastKey) && |RawSuccessor(lastKey)| < TWO32
  {
    hide Holds, HandleOk, HandleBytes, RawLess, BlockBytes, IsRawKey, RawSuccessor;
    var n, more := |l.index|, WithEntry(l, RawSuccessor(lastKey), handle);
    assert StoredAt(sum, file, l.blocks[n], l.handles[n], interval);
    FlatLast(l.blocks);
    assert Flat(l.blocks) + [] == Flat(l.blocks);
    assert IsRawKey(lastKey);
    RawSuccessorAfter(lastKey);
    assert Separates(RawSuccessor(lastKey), lastKey, None);
    hide Separates;
    forall j | 0 <= j < |more.index|
      ensures EntryOk(more, j, None)
    {
      if j < n {
        assert EntryOk(l, j, FirstKey([]));
      }
    }
  }

  // ----- the builder -----

  /** A finished table: its blocks and index in the file, and a footer that says where the index is. */
  ghost predicate IsTable(sum: Checksum, file: Bytes, l: Layout, interval: nat, footer: Footer) {
    && AllStored(sum, file, l, interval) && |l.index| == |l.blocks| && Indexed(l, None)
    && InOrder(Flat(l.blocks), RawLess) && AllRaw(Flat(l.blocks))
    && HandleOk(footer.metaindex) && HandleOk(footer.index) && Holds(sum, file, footer.index, BlockBytes(l.index, 1))
    && |file| >= FOOTER_LENGTH && file[|file| - FOOTER_LENGTH..] == FooterBytes(footer)
  }

  class TableBuilder {
    const sum: Checksum
    const interval: nat
    const blockSize: nat
    const dataBlock: BlockBuilder
    const indexBlock: BlockBuilder
    var file: Bytes
    var lastKey: Bytes
    var numEntries: nat
    var closed: bool
    var pendingIndexEntry: bool
    var pendingHandle: Handle
    ghost var layout: Layout

    ghost predicate Valid()
      reads this, dataBlock, indexBlock
    {
      && dataBlock != indexBlock && dataBlock.Valid() && indexBlock.Valid() && !dataBlock.finished
        && !indexBlock.finished && !closed
      && dataBlock.interval == interval && indexBlock.interval == 1 && indexBlock.entries == layout.index
      && Building(sum, file, layout, interval, dataBlock.entries, lastKey, pendingIndexEntry, pendingHandle)
      && (numEntries == 0 <==> All() == [])
    }

    /** Everything added so far. */
    ghost function All(): seq<Pair>
      reads this, dataBlock
    {
      Flat(layout.blocks) + dataBlock.entries
    }

    constructor (sum: Checksum, interval: nat, blockSize: nat)
      requires interval >= 1
      ensures Valid() && All() == [] && fresh(dataBlock) && fresh(indexBlock)
      ensures file == [] && this.sum == sum && this.interval == interval
    {
      this.sum := sum;
      this.interval := interval;
      this.blockSize := blockSize;
      dataBlock := new BlockBuilder(interval);
      indexBlock := new BlockBuilder(1);
      file, lastKey, numEntries, closed, pendingIndexEntry, pendingHandle := [], [], 0, false, false, Handle(0, 0);
      layout := Layout([], [], []);
    }

    /** Add: keys must come in order. The file must stay addressable. A block goes to the file with the pair that brings
        it to its size, and not before. */
    method Add(key: Bytes, value: Bytes)
      requires Valid() && IsRawKey(key) && |key| < TWO32 && |value| < TWO32
      requires numEntries > 0 ==> RawLess(lastKey, key)
      requires |file| + |BlockBytes(dataBlock.entries + [Pair(key, value)], interval)| < TWO64
      modifies this, dataBlock, indexBlock
      ensures Valid() && All() == old(All()) + [Pair(key, value)] && lastKey == key
      ensures var block := old(dataBlock.entries) + [Pair(key, value)];
        if |BlockBytes(block, interval)| >= blockSize
        then dataBlock.entries == [] && file == old(file) + Stored(sum, BlockBytes(block, interval))
        else dataBlock.entries == block && file == old(file)
    {
      hide Building, Flat, BlockBytes, RawLess, RawSeparator, HandleBytes, Body, Restarts, Starts, IsRawKey;
      ghost var l, e, was := layout, Pair(key, value), dataBlock.entries;
      AddStep(sum, file, l, interval, was, lastKey, pendingIndexEntry, pendingHandle, e);
      if pendingIndexEntry {
        lastKey := FindRawSeparator(lastKey, key);
        HandleFits(sum, file, l, interval, was, old(lastKey), pendingHandle);
        indexBlock.Add(lastKey, HandleBytes(pendingHandle));
        layout := WithEntry(l, lastKey, pendingHandle);
        pendingIndexEntry := false;
      }
      lastKey := key;
      numEntries := numEntries + 1;
      dataBlock.Add(key, value);
      assert Flat(l.blocks) + (was + [e]) == Flat(l.blocks) + was + [e];
      var estimate := dataBlock.CurrentSizeEstimate();
      if estimate >= blockSize {
        Flush();
      }
    }

    /** Flush: write out the block being built. */
    method Flush()
      requires Valid() && |file| + |BlockBytes(dataBlock.entries, interval)| < TWO64
      modifies this, dataBlock
      ensures Valid() && All() == old(All()) && lastKey == old(lastKey) && numEntries == old(numEntries)
      ensures dataBlock.entries == []
      ensures file == old(file) + if old(dataBlock.entries) == [] then []
        else Stored(sum, BlockBytes(old(dataBlock.entries), interval))
    {
      hide Building, Flat, BlockBytes, Body, Restarts, Starts, Stored;
      ghost var data, before := dataBlock.entries, file;
      if |dataBlock.buffer| == 0 {
        EmptyBody(data, interval);
        return;
      }
      assert data != [] by {
        NoBody(interval);
      }
      NotPending(sum, file, layout, interval, data, lastKey, pendingIndexEntry, pendingHandle);
      FlushStep(sum, file, layout, interval, data, lastKey, pendingHandle);
      FlatMore(layout.blocks, data);
      var raw := dataBlock.Finish();
      pendingHandle := WriteRawBlock(raw);
      layout := WithBlock(layout, data, pendingHandle);
      dataBlock.Reset();
      pendingIndexEntry := true;
      assert Flat(layout.blocks) + [] == Flat(layout.blocks);
    }

    /** WriteRawBlock */
    method WriteRawBlock(contents: Bytes) returns (h: Handle)
      modifies this`file
      ensures h == Handle(|old(file)|, |contents|) && file == old(file) + Stored(sum, contents)
    {
      h := Handle(|file|, |contents|);
      file := file + contents;
      var crc := sum(contents + [NO_COMPRESSION]);
      file := file + ([NO_COMPRESSION] + Fixed32(crc));
    }

    /** Finish: the last block, an empty metaindex block, the index block and the footer. */
    method Finish() returns (footer: Footer)
      requires Valid()
      requires |file| + |BlockBytes(dataBlock.entries, interval)| + |BlockBytes(indexBlock.entries, 1)| + |lastKey|
        + 100 < TWO64
      modifies this, dataBlock, indexBlock
      ensures closed && IsTable(sum, file, layout, interval, footer) && Flat(layout.blocks) == old(All())
    {
      hide Building, Flat, BlockBytes, Body, Restarts, Starts, Stored, HandleBytes, RawSuccessor, IsTable,
        FooterBytes, AllStored, Indexed;
      StoredSize(sum, BlockBytes(dataBlock.entries, interval));
      Flush();
      ghost var flushed := file;
      assert Flat(layout.blocks) + [] == Flat(layout.blocks);
      closed := true;
      LastEntry(sum, file, layout, interval, lastKey, pendingIndexEntry, pendingHandle);
      var metaBlock := new BlockBuilder(interval);
      var meta := metaBlock.Finish();
      var metaHandle := WriteRawBlock(meta);
      if pendingIndexEntry {
        var h := pendingHandle;
        lastKey := FindRawSuccessor(lastKey);
        IndexGrows(indexBlock.entries, Pair(lastKey, HandleBytes(h)));
        indexBlock.Add(lastKey, HandleBytes(h));
        layout := WithEntry(layout, lastKey, h);
        pendingIndexEntry := false;
      }
      var index := indexBlock.Finish();
      StoredSize(sum, meta);
      EmptyBlockSize(interval);
      var indexHandle := WriteRawBlock(index);
      indexBlock.Reset();
      footer := Footer(metaHandle, indexHandle);
      Finished(sum, flushed, layout, interval, meta, footer);
      file := file + FooterBytes(footer);
    }
  }

  /** What the index lacks before Finish completes it. */
  lemma LastEntry(sum: Checksum, file: Bytes, l: Layout, interval: nat, lastKey: Bytes, pending: bool, handle: Handle)
    requires Building(sum, file, l, interval, [], lastKey, pending, handle)
    ensures var all := if pending then WithEntry(l, RawSuccessor(lastKey), handle) else l;
      |all.index| == |all.blocks| && Indexed(all, None) && AllStored(sum, file, all, interval)
      && InOrder(Flat(all.blocks), RawLess) && AllRaw(Flat(all.blocks))
    ensures pending ==> HandleOk(handle) && |HandleBytes(handle)| <= 20 && |RawSuccessor(lastKey)| <= |lastKey| < TWO32
  {
    hide StoredAt, RawSuccessor, HandleBytes, RawLess, HandleOk, Indexed, InOrder, AllRaw;
    assert Flat(l.blocks) + [] == Flat(l.blocks);
    if pending {
      FinishStep(sum, file, l, interval, lastKey, handle);
      HandleFits(sum, file, l, interval, [], lastKey, handle);
      RawSuccessorAfter(lastKey);
    }
  }

  /** One more entry adds little to a block. */
  lemma IndexGrows(es: seq<Pair>, e: Pair)
    requires |e.key| < TWO32 && |e.value| < TWO32
    ensures |BlockBytes(es + [e], 1)| <= |BlockBytes(es, 1)| + |e.key| + |e.value| + 19
  {
    hide Body, Starts, Restarts, Words, Record;
    BodyStep(es, 1, e);
    RestartsStep(es, 1, e);
    RecordSize(if GoesOn(|es|, 1) then Common(KeyBefore(es), e.key) else 0, e);
  }

  lemma RecordSize(shared: nat, e: Pair)
    requires shared <= |e.key| < TWO32 && |e.value| < TWO32
    ensures |Record(shared, e)| <= 15 + |e.key| + |e.value|
  {
    hide Varint;
    Pow2Values();
    Pow2Add(28, 7);
    VarintSize(shared, 5);
    VarintSize(|e.key| - shared, 5);
    VarintSize(|e.value|, 5);
  }

  lemma StoredSize(sum: Checksum, contents: Bytes)
    ensures |Stored(sum, contents)| == |contents| + BLOCK_TRAILER
  {
  }

  lemma EmptyBlockSize(interval: nat)
    ensures |BlockBytes([], interval)| == 8
  {
  }

  lemma AllStillStored(sum: Checksum, file: Bytes, more: Bytes, l: Layout, interval: nat)
    requires AllStored(sum, file, l, interval)
    ensures AllStored(sum, file + more, l, interval)
  {
    hide Holds, HandleOk, BlockBytes;
    forall j | 0 <= j < |l.blocks|
      ensures StoredAt(sum, file + more, l.blocks[j], l.handles[j], interval)
    {
      assert StoredAt(sum, file, l.blocks[j], l.handles[j], interval);
      StillHolds(sum, file, more, l.handles[j], BlockBytes(l.blocks[j], interval));
    }
  }

  lemma Finished(sum: Checksum, flushed: Bytes, l: Layout, interval: nat, meta: Bytes, footer: Footer)
    requires AllStored(sum, flushed, l, interval) && |l.index| == |l.blocks| && Indexed(l, None)
    requires InOrder(Flat(l.blocks), RawLess) && AllRaw(Flat(l.blocks)) && HandleOk(footer.metaindex)
    requires HandleOk(footer.index)
    requires footer.index == Handle(|flushed| + |Stored(sum, meta)|, |BlockBytes(l.index, 1)|)
    ensures IsTable(sum, flushed + Stored(sum, meta) + Stored(sum, BlockBytes(l.index, 1)) + FooterBytes(footer), l,
      interval, footer)
  {
    hide AllStored, Indexed, InOrder, AllRaw, Stored, BlockBytes, FooterBytes, Holds, Flat;
    var index, tail := BlockBytes(l.index, 1), FooterBytes(footer);
    AllStillStored(sum, flushed, Stored(sum, meta), l, interval);
    AllStillStored(sum, flushed + Stored(sum, meta), Stored(sum, index), l, interval);
    AllStillStored(sum, flushed + Stored(sum, meta) + Stored(sum, index), tail, l, interval);
    NowHolds(sum, flushed + Stored(sum, meta), index);
    StillHolds(sum, flushed + Stored(sum, meta) + Stored(sum, index), tail, footer.index, index);
  }

  lemma EmptyBody(data: seq<Pair>, interval: nat)
    requires Body(data, interval) == []
    ensures data == []
  {
  }

  lemma NoBody(interval: nat)
    ensures Body([], interval) == []
  {
  }

  lemma NotPending(sum: Checksum, file: Bytes, l: Layout, interval: nat, data: seq<Pair>, lastKey: Bytes,
          pending: bool, handle: Handle)
    requires Building(sum, file, l, interval, data, lastKey, pending, handle) && data != []
    ensures !pending
  {
  }

  lemma HandleFits(sum: Checksum, file: Bytes, l: Layout, interval: nat, data: seq<Pair>, lastKey: Bytes,
          handle: Handle)
    requires Building(sum, file, l, interval, data, lastKey, true, handle)
    ensures HandleOk(handle) && |HandleBytes(handle)| <= 20
  {
    hide HandleBytes;
    assert StoredAt(sum, file, l.blocks[|l.blocks| - 1], handle, interval);
    HandleBack(handle, []);
  }
}
