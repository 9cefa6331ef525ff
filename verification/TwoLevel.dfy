/** Reading a table: the iterator over the index and the blocks, and point lookups. */
module TwoLevels {
  import opened Keys
  import opened Wire
  import opened Coding
  import opened Blocks
  import opened BlockIterators
  import opened Separators
  import opened Formats
  import opened Tables

  // ----- places in a table -----

  /** How many pairs come before block `j`. */
  ghost function Before(blocks: seq<seq<Pair>>, j: nat): nat
    requires j <= |blocks|
  {
    |Flat(blocks[..j])|
  }

  lemma BeforeNext(blocks: seq<seq<Pair>>, j: nat)
    requires j < |blocks|
    ensures Before(blocks, j + 1) == Before(blocks, j) + |blocks[j]|
  {
    assert blocks[..j + 1][..j] == blocks[..j];
  }

  lemma BeforeEnds(blocks: seq<seq<Pair>>)
    ensures Before(blocks, 0) == 0 && Before(blocks, |blocks|) == |Flat(blocks)|
  {
    assert blocks[..0] == [] && blocks[..|blocks|] == blocks;
  }

  /** Pair `i` of block `j`, in the whole table. */
  lemma {:induction false} InFlat(blocks: seq<seq<Pair>>, j: nat, i: nat)
    requires j < |blocks| && i < |blocks[j]|
    ensures Before(blocks, j) + i < |Flat(blocks)| && Flat(blocks)[Before(blocks, j) + i] == blocks[j][i]
  {
    var n := |blocks| - 1;
    if j < n {
      InFlat(blocks[..n], j, i);
      assert blocks[..n][..j] == blocks[..j];
    }
  }

  /** Every pair of the table is some pair of some block. */
  lemma {:induction false} Located(blocks: seq<seq<Pair>>, p: nat) returns (j: nat, i: nat)
    requires p < |Flat(blocks)|
    ensures j < |blocks| && i < |blocks[j]| && p == Before(blocks, j) + i
  {
    var n := |blocks| - 1;
    if p < |Flat(blocks[..n])| {
      j, i := Located(blocks[..n], p);
      assert blocks[..n][..j] == blocks[..j];
    } else {
      j, i := n, p - |Flat(blocks[..n])|;
    }
  }

  lemma {:induction false} BeforeAscends(blocks: seq<seq<Pair>>, j: nat, k: nat)
    requires j <= k <= |blocks|
    ensures Before(blocks, j) <= Before(blocks, k)
  {
    if j < k {
      BeforeAscends(blocks, j, k - 1);
      BeforeNext(blocks, k - 1);
    }
  }

  // ----- searching the index -----

  /** The index entries before `j` are before the target, the others are not. */
  ghost predicate IndexFound(l: Layout, target: Bytes, j: nat) {
    IsFirstAtOrAfter(l.index, RawLess, target, j)
  }

  ghost predicate Complete(l: Layout) {
    && |l.index| == |l.blocks| == |l.handles| && Indexed(l, None) && InOrder(Flat(l.blocks), RawLess)
      && AllRaw(Flat(l.blocks))
  }

  /** All keys of a block the index search passes over are before the target. */
  lemma PassedBlock(l: Layout, target: Bytes, j: nat, i: nat)
    requires Complete(l) && j < |l.blocks| && i < |l.blocks[j]| && RawLess(l.index[j].key, target)
    ensures RawLess(l.blocks[j][i].key, target)
  {
    hide RawLess, HandleBytes;
    assert EntryOk(l, j, None);
    var last := Last(l.blocks[j]).key;
    if last != l.index[j].key {
      RawTransitive(last, l.index[j].key, target);
    }
    if i != |l.blocks[j]| - 1 {
      InBlockOrder(l, j, i, |l.blocks[j]| - 1);
      RawTransitive(l.blocks[j][i].key, last, target);
    }
  }

  lemma InBlockOrder(l: Layout, j: nat, i: nat, k: nat)
    requires Complete(l) && j < |l.blocks| && i < k < |l.blocks[j]|
    ensures RawLess(l.blocks[j][i].key, l.blocks[j][k].key)
  {
    hide RawLess;
    InFlat(l.blocks, j, i);
    InFlat(l.blocks, j, k);
  }

  /** All keys after a block the index search stops at are not before the target. */
  lemma BlockAfter(l: Layout, target: Bytes, j: nat, p: nat)
    requires Complete(l) && j < |l.blocks| && !RawLess(l.index[j].key, target)
    requires Before(l.blocks, j + 1) <= p < |Flat(l.blocks)|
    ensures !RawLess(Flat(l.blocks)[p].key, target)
  {
    hide RawLess, HandleBytes;
    assert EntryOk(l, j, None);
    BeforeEnds(l.blocks);
    BeforeAscends(l.blocks, j + 1, |l.blocks|);
    if j + 1 < |l.blocks| {
      assert l.blocks[j + 1] != [] by {
        assert EntryOk(l, j + 1, None);
      }
      InFlat(l.blocks, j + 1, 0);
      var first := l.blocks[j + 1][0].key;
      if RawLess(Flat(l.blocks)[p].key, target) {
        if p > Before(l.blocks, j + 1) {
          RawTransitive(first, Flat(l.blocks)[p].key, target);
        }
        RawTransitive(l.index[j].key, first, target);
      }
    }
  }

  /** The first pair at or after the target, found through the index: place `p` of block `j`, or whatever follows that
      block. */
  lemma FoundThroughIndex(l: Layout, target: Bytes, j: nat, p: nat)
    requires Complete(l) && IndexFound(l, target, j) && j < |l.blocks|
    requires IsFirstAtOrAfter(l.blocks[j], RawLess, target, p)
    ensures IsFirstAtOrAfter(Flat(l.blocks), RawLess, target, Before(l.blocks, j) + p)
  {
    hide RawLess, Flat, Indexed, InOrder, AllRaw;
    var all, at := Flat(l.blocks), Before(l.blocks, j) + p;
    BeforeNext(l.blocks, j);
    BeforeEnds(l.blocks);
    BeforeAscends(l.blocks, j + 1, |l.blocks|);
    forall q | 0 <= q < |all|
      ensures RawLess(all[q].key, target) <==> q < at
    {
      var k, i := Located(l.blocks, q);
      InFlat(l.blocks, k, i);
      if k < j {
        PassedBlock(l, target, k, i);
        BeforeNext(l.blocks, k);
        BeforeAscends(l.blocks, k + 1, j);
      } else if k > j {
        BeforeAscends(l.blocks, j + 1, k);
        BlockAfter(l, target, j, q);
      }
    }
  }

  /** Past the last index entry there is nothing. */
  lemma NothingThroughIndex(l: Layout, target: Bytes)
    requires Complete(l) && IndexFound(l, target, |l.blocks|)
    ensures IsFirstAtOrAfter(Flat(l.blocks), RawLess, target, |Flat(l.blocks)|)
  {
    hide RawLess, Flat, Indexed, InOrder, AllRaw;
    forall q | 0 <= q < |Flat(l.blocks)|
      ensures RawLess(Flat(l.blocks)[q].key, target)
    {
      var k, i := Located(l.blocks, q);
      InFlat(l.blocks, k, i);
      PassedBlock(l, target, k, i);
    }
  }

  /** A block found through the index without a key at or after the target: the first such key, which is in the next
      block, has another user key. */
  lemma OtherUser(l: Layout, target: Bytes, j: nat)
    requires Complete(l) && j < |l.blocks| && !RawLess(l.index[j].key, target)
    requires forall i :: 0 <= i < |l.blocks[j]| ==> RawLess(l.blocks[j][i].key, target)
    ensures j + 1 < |l.blocks| ==> l.blocks[j + 1] != [] && User(l.blocks[j + 1][0].key) != User(target)
  {
    hide BytesLess, HandleBytes, Trailer64, User;
    assert EntryOk(l, j, None);
    if j + 1 < |l.blocks| {
      assert EntryOk(l, j + 1, None);
      var last, sep, next := Last(l.blocks[j]).key, l.index[j].key, l.blocks[j + 1][0].key;
      assert sep != last;
      BytesTotal(User(sep), User(target));
      BytesTotal(User(sep), User(next));
    }
  }

  // ----- an open table -----

  /** Every block's offsets fit 32 bits. */
  ghost predicate SmallBlocks(l: Layout, interval: nat) {
    |BlockBytes(l.index, 1)| < TWO32 && forall j :: 0 <= j < |l.blocks| ==> |BlockBytes(l.blocks[j], interval)| < TWO32
  }

  class Table {
    const sum: Checksum
    const verify: bool
    const file: Bytes
    const indexBlock: Bytes
    ghost const layout: Layout
    ghost const interval: nat
    ghost const footer: Footer

    ghost predicate Valid() {
      && IsTable(sum, file, layout, interval, footer) && interval >= 1 && SmallBlocks(layout, interval)
      && indexBlock == BlockBytes(layout.index, 1)
    }

    /** Table::Open on a finished table. */
    constructor (sum: Checksum, verify: bool, file: Bytes, ghost layout: Layout, ghost interval: nat,
            ghost footer: Footer)
      requires IsTable(sum, file, layout, interval, footer) && interval >= 1 && SmallBlocks(layout, interval)
      ensures Valid() && this.file == file && this.layout == layout
    {
      hide ReadFooter, ReadBlock, FooterBytes, AllStored, Indexed, InOrder, AllRaw, BlockBytes, Stored;
      this.sum := sum;
      this.verify := verify;
      this.file := file;
      this.layout := layout;
      this.interval := interval;
      this.footer := footer;
      FooterBack(footer);
      var read := ReadFooter(file[|file| - FOOTER_LENGTH..]);
      BlockBack(sum, verify, file, footer.index, BlockBytes(layout.index, 1));
      var contents := ReadBlock(sum, verify, file, read.value.index);
      indexBlock := contents.value;
    }

    /** BlockReader: the iterator over the block an index value stands for. */
    method BlockReader(indexValue: Bytes, ghost j: nat) returns (it: Iter)
      requires Valid() && j < |layout.blocks| == |layout.handles| && indexValue == HandleBytes(layout.handles[j])
      ensures fresh(it) && it.Valid() && !it.IsValid() && it.less == RawLess && it.entries == layout.blocks[j]
      ensures it.interval == interval
    {
      hide ReadBlock, BlockBytes, Stored, HandleBytes, ReadHandle, Indexed, InOrder, AllRaw, RawLess, FooterBytes;
      assert StoredAt(sum, file, layout.blocks[j], layout.handles[j], interval);
      HandleBack(layout.handles[j], []);
      assert indexValue + [] == indexValue;
      var handle := ReadHandle(indexValue).value.0;
      BlockBack(sum, verify, file, handle, BlockBytes(layout.blocks[j], interval));
      var contents := ReadBlock(sum, verify, file, handle).value;
      it := NewIterator(contents, RawLess, layout.blocks[j], interval);
    }

    /** The iterator over the index block. */
    method IndexIterator() returns (it: Iter)
      requires Valid()
      ensures fresh(it) && it.Valid() && !it.IsValid() && it.less == RawLess && it.entries == layout.index
      ensures it.pos == |layout.index|
    {
      it := NewIterator(indexBlock, RawLess, layout.index, 1);
    }
  }

  // ----- the two-level iterator -----

  class TwoLevelIterator {
    const table: Table
    const index: Iter
    var data: Iter?
    var dataBlockHandle: Bytes
    /** Which block `data` is over. */
    ghost var at: nat

    ghost predicate Inner()
      reads this, index, data
    {
      && table.Valid() && index.Valid() && index.less == RawLess && index.entries == table.layout.index
      && (data != null ==>
            && data != index && data.Valid() && data.less == RawLess && at < |table.layout.blocks|
            && data.entries == table.layout.blocks[at] && dataBlockHandle == HandleBytes(table.layout.handles[at]))
    }

    /** The data iterator is over the block the index iterator is at, and on a pair; or there is none. */
    ghost predicate Valid()
      reads this, index, data
    {
      && Inner()
      && (data == null ==> index.pos == |table.layout.blocks|)
      && (data != null ==> index.pos == at && data.pos < |data.entries|)
    }

    predicate IsValid()
      reads this, data
    {
      data != null && data.IsValid()
    }

    ghost function Pairs(): seq<Pair> {
      Flat(table.layout.blocks)
    }

    /** The place in the whole table; their number when at no pair. */
    ghost function Pos(): nat
      requires Inner()
      reads this, index, data
    {
      if data == null then |Pairs()| else Before(table.layout.blocks, at) + data.pos
    }

    constructor (table: Table)
      requires table.Valid()
      ensures Valid() && fresh(index) && data == null && this.table == table && Pos() == |Pairs()|
    {
      hide RawLess, Flat, BlockBytes, IsTable, IsBlock, Near, Offset;
      var it := table.IndexIterator();
      this.table := table;
      index := it;
      data, dataBlockHandle, at := null, [], 0;
      new;
      Sizes(table);
    }

    /** The block under the index iterator; kept if it is the one at hand. */
    method InitDataBlock()
      requires Inner()
      modifies this
      ensures Inner() && (data == null || data == old(data) || fresh(data))
      ensures if index.pos < |table.layout.blocks| then data != null && at == index.pos else data == null
    {
      hide RawLess, Flat, BlockBytes, HandleBytes, IsTable, IsBlock, Near, Offset;
      Sizes(table);
      InsideBlock(index);
      if !index.IsValid() {
        data := null;
      } else {
        var handle := index.Value();
        HandleOfBlock(table, index.pos);
        if data != null && handle == dataBlockHandle {
          SameHandle(table, at, index.pos);
        } else {
          at := index.pos;
          data := table.BlockReader(handle, at);
          dataBlockHandle := handle;
        }
      }
    }

    /** Onto the next pair, if the data iterator has run off its block. */
    method SkipEmptyDataBlocksForward()
      requires Inner() && if data == null then index.pos == |table.layout.blocks| else index.pos == at
      modifies this, index, data
      ensures Valid() && Pos() == old(Pos()) && (data == null || data == old(data) || fresh(data))
    {
      hide RawLess, Flat, BlockBytes, HandleBytes, IsTable, IsBlock, Near, Offset;
      Sizes(table);
      while data == null || !data.IsValid()
        invariant Inner() && if data == null then index.pos == |table.layout.blocks| else index.pos == at
        invariant Pos() == old(Pos()) && (data == null || data == old(data) || fresh(data))
        decreases |table.layout.blocks| - index.pos, if data == null then 0 else 1
      {
        InsideBlock(index);
        if !index.IsValid() {
          data := null;
          return;
        }
        InsideBlock(data);
        BeforeNext(table.layout.blocks, at);
        BeforeEnds(table.layout.blocks);
        index.Next();
        InitDataBlock();
        if data != null {
          data.SeekToFirst();
        }
      }
      InsideBlock(data);
    }

    /** Onto the last pair of the block before, if the data iterator has run off the front of its block. */
    method SkipEmptyDataBlocksBackward()
      requires Inner() && if data == null then index.pos == |table.layout.blocks| else index.pos == at
      modifies this, index, data
      ensures Valid() && (data == null || data == old(data) || fresh(data))
      ensures Pos() == if old(data == null || data.pos < |data.entries|) then old(Pos())
                       else if old(at) == 0 then |Pairs()| else Before(table.layout.blocks, old(at)) - 1
    {
      hide RawLess, Flat, BlockBytes, HandleBytes, IsTable, IsBlock, Near, Offset;
      Sizes(table);
      ghost var start, moved := at, false;
      while data == null || !data.IsValid()
        invariant Inner() && if data == null then index.pos == |table.layout.blocks| else index.pos == at
        invariant data == null || data == old(data) || fresh(data)
        invariant !moved ==> data == old(data) && at == start && (data != null ==> data.pos == old(data.pos))
        invariant moved ==> old(data != null && data.pos >= |data.entries|) && start < |table.layout.blocks|
        invariant moved && data == null ==> start == 0
        invariant moved && data != null ==>
          data.pos < |data.entries| && Pos() == Before(table.layout.blocks, start) - 1 && start > 0
        decreases if data == null || moved then 0 else 1
      {
        InsideBlock(index);
        if !index.IsValid() {
          data := null;
          return;
        }
        InsideBlock(data);
        index.Prev();
        InitDataBlock();
        if data != null {
          HandleOfBlock(table, at);
          BeforeNext(table.layout.blocks, at);
          data.SeekToLast();
          InsideBlock(data);
        }
        moved := true;
      }
      InsideBlock(data);
    }

    method SeekToFirst()
      requires Valid()
      modifies this, index, data
      ensures Valid() && Pos() == 0 && (data == null || data == old(data) || fresh(data))
    {
      hide RawLess, Flat, BlockBytes, HandleBytes, IsTable, IsBlock, Near, Offset;
      Sizes(table);
      BeforeEnds(table.layout.blocks);
      index.SeekToFirst();
      InitDataBlock();
      if data != null {
        data.SeekToFirst();
      }
      SkipEmptyDataBlocksForward();
    }

    method SeekToLast()
      requires Valid()
      modifies this, index, data
      ensures Valid() && Pos() == (if Pairs() == [] then 0 else |Pairs()| - 1)
      ensures (data == null || data == old(data) || fresh(data))
    {
      hide RawLess, Flat, BlockBytes, HandleBytes, IsTable, IsBlock, Near, Offset;
      Sizes(table);
      BeforeEnds(table.layout.blocks);
      index.SeekToLast();
      InitDataBlock();
      if data != null {
        HandleOfBlock(table, at);
        BeforeNext(table.layout.blocks, at);
        data.SeekToLast();
      }
      SkipEmptyDataBlocksBackward();
    }

    method Next()
      requires Valid() && IsValid()
      modifies this, index, data
      ensures Valid() && Pos() == old(Pos()) + 1 && (data == null || data == old(data) || fresh(data))
    {
      hide RawLess, Flat, BlockBytes, HandleBytes, IsTable, IsBlock, Near, Offset;
      data.Next();
      SkipEmptyDataBlocksForward();
    }

    method Prev()
      requires Valid() && IsValid()
      modifies this, index, data
      ensures Valid() && Pos() == (if old(Pos()) == 0 then |Pairs()| else old(Pos()) - 1)
      ensures data == null || data == old(data) || fresh(data)
    {
      hide RawLess, Flat, BlockBytes, HandleBytes, IsTable, IsBlock, Near, Offset;
      BeforeEnds(table.layout.blocks);
      if at > 0 {
        SomethingBefore(table, at);
      }
      data.Prev();
      SkipEmptyDataBlocksBackward();
    }

    /** The first pair of the table at or after the target. */
    method Seek(target: Bytes)
      requires Valid()
      modifies this, index, data
      ensures Valid() && IsFirstAtOrAfter(Pairs(), RawLess, target, Pos())
      ensures (data == null || data == old(data) || fresh(data))
    {
      hide RawLess, Flat, BlockBytes, HandleBytes, IsTable, IsBlock, Near, Offset, IsFirstAtOrAfter, Complete;
      Sizes(table);
      InOrders(table);
      index.Seek(target);
      ghost var j := index.pos;
      InitDataBlock();
      if data != null {
        BlockInOrder(table.layout, j);
        data.Seek(target);
        FoundThroughIndex(table.layout, target, j, data.pos);
      } else {
        FoundBelow(table.layout, target, j);
        NothingThroughIndex(table.layout, target);
      }
      SkipEmptyDataBlocksForward();
    }
  }

  lemma FoundBelow(l: Layout, target: Bytes, j: nat)
    requires IndexFound(l, target, j) && j >= |l.blocks| == |l.index|
    ensures j == |l.blocks|
  {
  }

  lemma SomethingBefore(t: Table, j: nat)
    requires t.Valid() && 0 < j <= |t.layout.blocks|
    ensures Before(t.layout.blocks, j) > 0
  {
  }

  /** The keys of the index are in order, as those of the table are. */
  lemma InOrders(t: Table)
    requires t.Valid()
    ensures Complete(t.layout) && Transitive(RawLess) && InOrder(t.layout.index, RawLess)
  {
    hide RawLess, Holds, HandleBytes, Separates, FooterBytes, StoredAt, EntryOk;
    var l := t.layout;
    assert Complete(l);
    hide Complete, IsTable;
    forall a, b, c | RawLess(a, b) && RawLess(b, c)
      ensures RawLess(a, c)
    {
      RawTransitive(a, b, c);
    }
    forall j, k | 0 <= j < k < |l.index|
      ensures RawLess(l.index[j].key, l.index[k].key)
    {
      IndexOrder(l, j, k);
    }
  }

  lemma IndexOrder(l: Layout, j: nat, k: nat)
    requires Complete(l) && j < k < |l.index|
    ensures RawLess(l.index[j].key, l.index[k].key)
  {
    hide RawLess, HandleBytes;
    assert EntryOk(l, j, None) && EntryOk(l, k, None) && EntryOk(l, j + 1, None);
    var a, first, last, b := l.index[j].key, l.blocks[j + 1][0].key, Last(l.blocks[k]).key, l.index[k].key;
    FirstBeforeLast(l, j + 1, k);
    if first != last {
      RawTransitive(a, first, last);
    }
    if last != b {
      RawTransitive(a, last, b);
    }
  }

  lemma FirstBeforeLast(l: Layout, j: nat, k: nat)
    requires Complete(l) && j <= k < |l.blocks| && l.blocks[j] != [] && l.blocks[k] != []
    ensures var first, last := l.blocks[j][0].key, Last(l.blocks[k]).key; first == last || RawLess(first, last)
  {
    hide RawLess, Indexed, Flat;
    var i := |l.blocks[k]| - 1;
    InFlat(l.blocks, j, 0);
    InFlat(l.blocks, k, i);
    BeforeAscends(l.blocks, j, k);
  }

  lemma BlockInOrder(l: Layout, j: nat)
    requires Complete(l) && j < |l.blocks|
    ensures InOrder(l.blocks[j], RawLess)
  {
    hide RawLess;
    forall i, k | 0 <= i < k < |l.blocks[j]|
      ensures RawLess(l.blocks[j][i].key, l.blocks[j][k].key)
    {
      InBlockOrder(l, j, i, k);
    }
  }

  /** The iterator is valid exactly when it is at a pair, and shows that pair. */
  lemma ShowsPair(it: TwoLevelIterator)
    requires it.Valid()
    ensures it.IsValid() <==> it.Pos() < |it.Pairs()|
    ensures it.IsValid() ==> it.data.valueStart <= it.data.valueEnd <= |it.data.data|
    ensures it.IsValid() ==> Pair(it.data.key, it.data.Value()) == it.Pairs()[it.Pos()]
  {
    hide RawLess, BlockBytes, HandleBytes, IsTable, IsBlock, Near, Offset;
    if it.data != null {
      InsideBlock(it.data);
      InFlat(it.table.layout.blocks, it.at, it.data.pos);
    }
  }

  // ----- point lookups -----

  /** The filter lets every key of a block through to it. */
  ghost predicate FilterSound(l: Layout, mayMatch: (nat, Bytes) -> bool, k: Bytes)
    requires |l.blocks| == |l.handles|
  {
    forall j, i :: 0 <= j < |l.blocks| && 0 <= i < |l.blocks[j]| && User(l.blocks[j][i].key) == User(k)
      ==> mayMatch(l.handles[j].offset, k)
  }

  /** InternalGet: what the callback is given, if it is called. It is called with the first pair at or after `k`
      whenever that pair has the user key of `k`; and with no other pair. */
  method InternalGet(t: Table, k: Bytes, mayMatch: (nat, Bytes) -> bool) returns (r: Option<Pair>, ghost p: nat)
    requires t.Valid() && |t.layout.blocks| == |t.layout.handles| && FilterSound(t.layout, mayMatch, k)
    ensures IsFirstAtOrAfter(Flat(t.layout.blocks), RawLess, k, p)
    ensures r.Some? ==> p < |Flat(t.layout.blocks)| && r.value == Flat(t.layout.blocks)[p]
    ensures r.None? ==> p < |Flat(t.layout.blocks)| ==> User(Flat(t.layout.blocks)[p].key) != User(k)
  {
    hide RawLess, Flat, BlockBytes, HandleBytes, ReadHandle, IsTable, IsBlock, Near, Offset, Complete, User;
    Sizes(t);
    InOrders(t);
    ghost var l := t.layout;
    var iiter := t.IndexIterator();
    iiter.Seek(k);
    InsideBlock(iiter);
    ghost var j := iiter.pos;
    p := |Flat(l.blocks)|;
    r := None;
    if iiter.IsValid() {
      HandleOfBlock(t, j);
      HandleIs(t, j);
      BlockInOrder(l, j);
      ghost var i := FirstPlace(l.blocks[j], k);
      p := Before(l.blocks, j) + i;
      FoundThroughIndex(l, k, j, i);
      BeforeNext(l.blocks, j);
      if i < |l.blocks[j]| {
        InFlat(l.blocks, j, i);
      } else {
        NextBlockOther(l, k, j);
      }
      var handle := ReadHandle(iiter.Value());
      if handle.Some? && !mayMatch(handle.value.0.offset, k) {
        return;
      }
      var blockIter := t.BlockReader(iiter.Value(), j);
      blockIter.Seek(k);
      OneFirst(l.blocks[j], k, i, blockIter.pos);
      InsideBlock(blockIter);
      if blockIter.IsValid() {
        r := Some(Pair(blockIter.key, blockIter.Value()));
      }
    } else {
      FoundBelow(l, k, j);
      NothingThroughIndex(l, k);
    }
  }

  lemma {:induction false} FirstPlace(es: seq<Pair>, k: Bytes) returns (p: nat)
    requires Transitive(RawLess) && InOrder(es, RawLess)
    ensures IsFirstAtOrAfter(es, RawLess, k, p)
  {
    hide RawLess;
    if es == [] || RawLess(Last(es).key, k) {
      p := |es|;
    } else {
      p := FirstPlace(es[..|es| - 1], k);
    }
  }

  lemma OneFirst(es: seq<Pair>, k: Bytes, p: nat, q: nat)
    requires IsFirstAtOrAfter(es, RawLess, k, p) && IsFirstAtOrAfter(es, RawLess, k, q)
    ensures p == q
  {
    hide RawLess;
    var atP, atQ := p < |es| && RawLess(es[p].key, k), q < |es| && RawLess(es[q].key, k);
    assert !atP && !atQ;
  }

  lemma HandleIs(t: Table, j: nat)
    requires t.Valid() && j < |t.layout.index| == |t.layout.handles| == |t.layout.blocks|
    ensures ReadHandle(t.layout.index[j].value) == Some((t.layout.handles[j], []))
  {
    hide HandleBytes, ReadHandle, BlockBytes, Holds;
    HandleOfBlock(t, j);
    assert StoredAt(t.sum, t.file, t.layout.blocks[j], t.layout.handles[j], t.interval);
    HandleBack(t.layout.handles[j], []);
    assert HandleBytes(t.layout.handles[j]) + [] == HandleBytes(t.layout.handles[j]);
  }

  /** With nothing at or after `k` in the block, the next pair has another user key. */
  lemma NextBlockOther(l: Layout, k: Bytes, j: nat)
    requires Complete(l) && IndexFound(l, k, j) && j < |l.blocks|
    requires IsFirstAtOrAfter(l.blocks[j], RawLess, k, |l.blocks[j]|)
    ensures var p := Before(l.blocks, j) + |l.blocks[j]|; p < |Flat(l.blocks)| ==>
      User(Flat(l.blocks)[p].key) != User(k)
  {
    hide RawLess, User, HandleBytes, Flat;
    OtherUser(l, k, j);
    BeforeNext(l.blocks, j);
    BeforeEnds(l.blocks);
    if j + 1 < |l.blocks| {
      InFlat(l.blocks, j + 1, 0);
    }
  }

  lemma Sizes(t: Table)
    requires t.Valid()
    ensures |t.layout.index| == |t.layout.blocks| == |t.layout.handles|
  {
  }

  lemma HandleOfBlock(t: Table, j: nat)
    requires t.Valid() && j < |t.layout.index|
    ensures |t.layout.index| == |t.layout.blocks| == |t.layout.handles|
    ensures t.layout.index[j].value == HandleBytes(t.layout.handles[j]) && t.layout.blocks[j] != []
  {
    hide HandleBytes, Separates;
    assert EntryOk(t.layout, j, None);
  }

  /** Blocks have handles of their own. */
  lemma SameHandle(t: Table, j: nat, k: nat)
    requires t.Valid() && j < |t.layout.handles| == |t.layout.blocks| && k < |t.layout.handles|
    requires HandleBytes(t.layout.handles[j]) == HandleBytes(t.layout.handles[k])
    ensures j == k
  {
    hide HandleBytes, BlockBytes, ReadHandle, Holds;
    var a, b := t.layout.handles[j], t.layout.handles[k];
    assert StoredAt(t.sum, t.file, t.layout.blocks[j], a, t.interval)
      && StoredAt(t.sum, t.file, t.layout.blocks[k], b, t.interval);
    HandleBack(a, []);
    HandleBack(b, []);
  }
}
