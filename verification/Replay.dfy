/** What the log and the manifest hold as files: a record is there whole or not at all, and stands for the batch or
    the edit that was written. */
module Replay {
  import opened Keys
  import opened Wire
  import opened Log
  import Coding
  import WriteBatches
  import WriteGroup
  import VersionEdits

  // ----- torn appends -----

  /** A file cut inside its last record, or before it, holds the other records and not that one; and nothing is
      reported. */
  lemma TornAppend(sum: Coding.Checksum, checks: bool, records: seq<Bytes>, last: Bytes, file: Bytes)
    requires PrefixOf(file, Written(sum, records + [last]))
    requires |Written(sum, records)| <= |file| < |Written(sum, records + [last])|
    ensures RecordsFrom(sum, checks, file, 0) == (records, [])
  {
    hide RecordsFrom, Fragments;
    var all := records + [last];
    assert all[..|all| - 1] == records;
    CutLogReadsBack(sum, checks, all, file);
    WholeIs(sum, records, last, |file|);
    assert all[..|records|] == records;
  }

  lemma WholeIs(sum: Coding.Checksum, records: seq<Bytes>, last: Bytes, size: nat)
    requires |Written(sum, records)| <= size < |Written(sum, records + [last])|
    ensures Whole(sum, records + [last], size) == |records|
  {
    hide Fragments;
    assert (records + [last])[..|records|] == records;
  }

  // ----- the write-ahead log -----

  datatype Stamped = Stamped(sn: nat, ops: seq<WriteBatches.BatchOp>)

  ghost predicate StampedOk(b: Stamped) {
    b.sn < TWO64 && |b.ops| < TWO32 && WriteBatches.OpsOk(b.ops)
  }

  ghost predicate AllStampedOk(bs: seq<Stamped>) {
    forall i :: 0 <= i < |bs| ==> StampedOk(bs[i])
  }

  /** The records AppendLog writes for the batches. */
  function BatchRecords(bs: seq<Stamped>): (r: seq<Bytes>)
    ensures |r| == |bs|
  {
    if bs == [] then [] else BatchRecords(bs[..|bs| - 1]) + [WriteBatches.Rep(bs[|bs| - 1].sn, bs[|bs| - 1].ops)]
  }

  /** An operation on a user key's place in the order. */
  function OpOf(op: WriteBatches.BatchOp): WriteGroup.Op {
    match op
    case PutOp(key, value) => WriteGroup.Put(Rank(key), value)
    case DeleteOp(key) => WriteGroup.Delete(Rank(key))
  }

  function OpsOf(ops: seq<WriteBatches.BatchOp>): (r: seq<WriteGroup.Op>)
    ensures |r| == |ops| && forall i :: 0 <= i < |r| ==> r[i] == OpOf(ops[i])
  {
    seq(|ops|, i requires 0 <= i < |ops| => OpOf(ops[i]))
  }

  /** What replaying a record puts into the memtable. */
  function Replayed(record: Bytes): seq<Entry> {
    if |record| < WriteBatches.HEADER then []
    else WriteGroup.Stamp(OpsOf(WriteBatches.Handled(record[WriteBatches.HEADER..]).0), Number64(record[..8]))
  }

  function ReplayedAll(records: seq<Bytes>): seq<Entry> {
    if records == [] then [] else ReplayedAll(records[..|records| - 1]) + Replayed(records[|records| - 1])
  }

  function StampedAll(bs: seq<Stamped>): seq<Entry> {
    if bs == [] then [] else StampedAll(bs[..|bs| - 1]) + WriteGroup.Stamp(OpsOf(bs[|bs| - 1].ops), bs[|bs| - 1].sn)
  }

  /** A record stands for the entries its batch was stamped with. */
  lemma BatchReplays(b: Stamped)
    requires StampedOk(b)
    ensures Replayed(WriteBatches.Rep(b.sn, b.ops)) == WriteGroup.Stamp(OpsOf(b.ops), b.sn)
  {
    hide WriteBatches.Handled, Number64, WriteBatches.Rep, WriteGroup.Stamp, OpsOf;
    WriteBatches.HeaderParts(b.sn, b.ops);
    WriteBatches.BatchBack(b.sn, b.ops);
  }

  lemma {:induction false} BatchesReplay(bs: seq<Stamped>)
    requires AllStampedOk(bs)
    ensures ReplayedAll(BatchRecords(bs)) == StampedAll(bs)
  {
    hide Replayed, WriteGroup.Stamp, WriteBatches.Rep, OpsOf;
    if bs != [] {
      var n := |bs| - 1;
      BatchesReplay(bs[..n]);
      BatchReplays(bs[n]);
      assert BatchRecords(bs)[..n] == BatchRecords(bs[..n]);
    }
  }

  /** A log torn while the last batch was appended replays as the batches before it, each stamped as it was; so an
      append that was not finished is no append. */
  lemma TornBatchIsNone(sum: Coding.Checksum, checks: bool, bs: seq<Stamped>, last: Stamped, file: Bytes)
    requires AllStampedOk(bs)
    requires PrefixOf(file, Written(sum, BatchRecords(bs + [last])))
    requires |Written(sum, BatchRecords(bs))| <= |file| < |Written(sum, BatchRecords(bs + [last]))|
    ensures var (records, reports) := RecordsFrom(sum, checks, file, 0);
      ReplayedAll(records) == StampedAll(bs) && reports == []
  {
    hide RecordsFrom, Written, ReplayedAll, StampedAll, WriteBatches.Rep;
    assert (bs + [last])[..|bs|] == bs;
    TornAppend(sum, checks, BatchRecords(bs), WriteBatches.Rep(last.sn, last.ops), file);
    BatchesReplay(bs);
  }

  /** A log that was not torn replays whole. */
  lemma WholeLogReplays(sum: Coding.Checksum, checks: bool, bs: seq<Stamped>)
    requires AllStampedOk(bs)
    ensures var (records, reports) := RecordsFrom(sum, checks, Written(sum, BatchRecords(bs)), 0);
      ReplayedAll(records) == StampedAll(bs) && reports == []
  {
    hide RecordsFrom, Written, ReplayedAll, StampedAll;
    LogReadsBack(sum, checks, BatchRecords(bs));
    BatchesReplay(bs);
  }

  // ----- the manifest -----

  /** An edit and the order its set of deleted files is gone through. */
  datatype Ordered = Ordered(edit: VersionEdits.Edit, order: seq<(nat, nat)>)

  ghost predicate OrderedOk(o: Ordered) {
    VersionEdits.EditOk(o.edit) && VersionEdits.Elements(o.order) == o.edit.deletedFiles
  }

  ghost predicate AllOrderedOk(os: seq<Ordered>) {
    forall i :: 0 <= i < |os| ==> OrderedOk(os[i])
  }

  function EditRecords(os: seq<Ordered>): (r: seq<Bytes>)
    ensures |r| == |os|
  {
    if os == [] then [] else EditRecords(os[..|os| - 1]) + [VersionEdits.Encoded(os[|os| - 1].edit, os[|os| - 1].order)]
  }

  /** What replaying the records reads, each into an edit of its own; none if one is corrupt. */
  function DecodedAll(records: seq<Bytes>): Option<seq<VersionEdits.Edit>> {
    if records == [] then Some([])
    else
      match DecodedAll(records[..|records| - 1])
      case None => None
      case Some(es) =>
        match VersionEdits.Decoded(records[|records| - 1], VersionEdits.NO_EDIT)
        case None => None
        case Some(e) => Some(es + [e])
  }

  function EditsOf(os: seq<Ordered>): (r: seq<VersionEdits.Edit>)
    ensures |r| == |os|
  {
    if os == [] then [] else EditsOf(os[..|os| - 1]) + [os[|os| - 1].edit]
  }

  lemma {:induction false} EditsReplay(os: seq<Ordered>)
    requires AllOrderedOk(os)
    ensures DecodedAll(EditRecords(os)) == Some(EditsOf(os))
  {
    hide VersionEdits.Encoded, VersionEdits.Decoded, VersionEdits.EditOk;
    if os != [] {
      var n := |os| - 1;
      EditsReplay(os[..n]);
      assert OrderedOk(os[n]);
      EditReplays(os[n]);
      assert EditRecords(os)[..n] == EditRecords(os[..n]);
    }
  }

  lemma EditReplays(o: Ordered)
    requires OrderedOk(o)
    ensures VersionEdits.Decoded(VersionEdits.Encoded(o.edit, o.order), VersionEdits.NO_EDIT) == Some(o.edit)
  {
    hide VersionEdits.Encoded, VersionEdits.Decoded, VersionEdits.EditOk;
    VersionEdits.EditBack(o.edit, o.order, VersionEdits.NO_EDIT);
    assert [] + o.edit.compactPointers == o.edit.compactPointers;
  }

  /** A manifest torn while an edit was appended replays as the edits before it. */
  lemma TornEditIsNone(sum: Coding.Checksum, checks: bool, os: seq<Ordered>, last: Ordered, file: Bytes)
    requires AllOrderedOk(os)
    requires PrefixOf(file, Written(sum, EditRecords(os + [last])))
    requires |Written(sum, EditRecords(os))| <= |file| < |Written(sum, EditRecords(os + [last]))|
    ensures var (records, reports) := RecordsFrom(sum, checks, file, 0);
      DecodedAll(records) == Some(EditsOf(os)) && reports == []
  {
    hide RecordsFrom, Written, DecodedAll, EditsOf, VersionEdits.Encoded;
    assert (os + [last])[..|os|] == os;
    TornAppend(sum, checks, EditRecords(os), VersionEdits.Encoded(last.edit, last.order), file);
    EditsReplay(os);
  }
}
