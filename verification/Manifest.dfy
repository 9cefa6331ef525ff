/** The manifest as a file: reading it back, whole or torn, gives the version its edits led to one at a time, and the
    counters of the last of them. */
module Manifests {
  import opened Keys
  import opened Wire
  import opened Versions
  import opened Builders
  import opened Replay
  import Coding
  import Log
  import Machine
  import Separators
  import VersionEdits

  // ----- what a record means -----

  ghost predicate Describes(m: VersionEdits.FileMeta, f: File) {
    f.Ok() && m.number == f.number && m.size == f.size && Separators.StandsFor(m.smallest, f.Smallest())
    && Separators.StandsFor(m.largest, f.Largest())
  }

  /** The record's edit deletes the same files, and describes the files added, in order. */
  ghost predicate Means(r: VersionEdits.Edit, e: Edit) {
    && r.deletedFiles == e.deleted && |r.newFiles| == |e.added|
    && forall i :: 0 <= i < |e.added| ==>
         r.newFiles[i].0 == e.added[i].0 && Describes(r.newFiles[i].1, e.added[i].1)
  }

  /** The edit a record's edit stands for, its files looked up by number. */
  function FileEdit(tables: Catalogue, r: VersionEdits.Edit): Edit
    requires forall i :: 0 <= i < |r.newFiles| ==> r.newFiles[i].1.number in tables
  {
    Edit(r.deletedFiles, seq(|r.newFiles|, i requires 0 <= i < |r.newFiles| =>
      (r.newFiles[i].0, tables[r.newFiles[i].1.number])))
  }

  lemma MeaningIsFileEdit(tables: Catalogue, r: VersionEdits.Edit, e: Edit)
    requires KnownEdit(tables, e) && Means(r, e)
    ensures forall i :: 0 <= i < |r.newFiles| ==> r.newFiles[i].1.number in tables
    ensures FileEdit(tables, r) == e
  {
    forall i | 0 <= i < |e.added|
      ensures e.added[i].1.number in tables && tables[e.added[i].1.number] == e.added[i].1
    {
      assert Known(tables, [e.added[i].1]) && e.added[i].1 in [e.added[i].1];
    }
  }

  // ----- the counters -----

  datatype Counters = Counters(log: Option<nat>, next: Option<nat>, last: Option<nat>)

  function Newer(n: Option<nat>, was: Option<nat>): Option<nat> {
    if n.Some? then n else was
  }

  function Taking(c: Counters, r: VersionEdits.Edit): Counters {
    Counters(Newer(r.logNumber, c.log), Newer(r.nextFileNumber, c.next), Newer(r.lastSequence, c.last))
  }

  function CountersOf(os: seq<Ordered>): Counters {
    if os == [] then Counters(None, None, None) else Taking(CountersOf(os[..|os| - 1]), os[|os| - 1].edit)
  }

  // ----- a manifest's history -----

  /** The records are edits under the comparator's name, and stand for edits that led through the versions. */
  ghost predicate Recorded(os: seq<Ordered>, es: seq<Edit>, vs: seq<seq<Level>>, tables: Catalogue, name: Bytes) {
    && |os| == |es| && AllOrderedOk(os) && History(tables, es, vs)
    && forall i :: 0 <= i < |os| ==> Means(os[i].edit, es[i]) && UnderName(os[i].edit, name)
  }

  predicate UnderName(r: VersionEdits.Edit, name: Bytes) {
    r.comparator.Some? ==> r.comparator.value == name
  }

  /** One more edit installed and recorded. */
  lemma RecordMore(os: seq<Ordered>, es: seq<Edit>, vs: seq<seq<Level>>, tables: Catalogue, name: Bytes, o: Ordered,
          e: Edit, w: seq<Level>)
    requires Recorded(os, es, vs, tables, name) && OrderedOk(o) && Means(o.edit, e) && UnderName(o.edit, name)
    requires KnownEdit(tables, e) && Installs(tables, vs[|es|], e, w)
    ensures Recorded(os + [o], es + [e], vs + [w], tables, name)
  {
    hide Means, KnownEdit, Installs, VersionOk, OrderedOk;
    var es', vs' := es + [e], vs + [w];
    assert VersionOk(tables, w) by {
      InstallsListed(tables, vs[|es|], e, w);
    }
    forall i | 0 <= i < |es'|
      ensures Installs(tables, vs'[i], es'[i], vs'[i + 1])
    {
      if i < |es| {
        assert Installs(tables, vs[i], es[i], vs[i + 1]);
      }
    }
  }

  lemma InstallsListed(tables: Catalogue, v: seq<Level>, e: Edit, w: seq<Level>)
    requires Installs(tables, v, e, w)
    ensures VersionOk(tables, w)
  {
  }

  lemma {:induction false} RecordAt(os: seq<Ordered>, i: nat)
    requires i < |os|
    ensures EditRecords(os)[i] == VersionEdits.Encoded(os[i].edit, os[i].order)
  {
    if i < |os| - 1 {
      RecordAt(os[..|os| - 1], i);
    }
  }

  lemma {:induction false} RecordsOfPart(os: seq<Ordered>, k: nat)
    requires k <= |os|
    ensures EditRecords(os)[..k] == EditRecords(os[..k])
  {
    if k < |os| {
      RecordsOfPart(os[..|os| - 1], k);
      assert os[..|os| - 1][..k] == os[..k];
    } else {
      assert os[..k] == os;
    }
  }

  // ----- recovery -----

  /** VersionSet::Recover, for a manifest of recorded edits that may be cut anywhere: the version after the last whole
      record, and what the counters were then. None is for damage, another comparator, or a counter that is missing. */
  method Recover(reader: Log.Reader, name: Bytes, tables: Catalogue, ghost os: seq<Ordered>, ghost es: seq<Edit>,
          ghost vs: seq<seq<Level>>)
    returns (r: Option<Machine.Manifest>)
    requires reader.Valid() && reader.Pos() == 0 && reader.reports == [] && Recorded(os, es, vs, tables, name)
    requires Log.PrefixOf(reader.file, Log.Written(reader.sum, EditRecords(os)))
    modifies reader
    ensures var k := Log.Whole(reader.sum, EditRecords(os), |reader.file|); var c := CountersOf(os[..k]);
      r == if c.log.Some? && c.next.Some? && c.last.Some? then
             Some(Machine.Manifest(vs[k], c.log.value, c.next.value, c.last.value))
           else None
  {
    hide Log.Written, Log.RecordsFrom, Log.Whole, VersionEdits.Decoded, VersionEdits.Encoded, Means, OrderedOk,
      Installs, KnownEdit, Taking, Listed, Known, EditRecords, Adds, Log.PrefixOf;
    ghost var k := Log.Whole(reader.sum, EditRecords(os), |reader.file|);
    Log.CutLogReadsBack(reader.sum, reader.checks, EditRecords(os), reader.file);
    var records := Log.ReadAll(reader);
    assert records == EditRecords(os)[..k];
    if reader.reports != [] {
      return None;
    }
    var builder := new Builder(EMPTY_VERSION, tables);
    var c := Counters(None, None, None);
    for i := 0 to |records|
      invariant builder.Ok() && builder.base == EMPTY_VERSION && builder.names == tables && fresh(builder)
      invariant forall l, f :: 0 <= l < NUM_LEVELS ==> (builder.Holds(l, f) <==> f in vs[i][l])
      invariant c == CountersOf(os[..i])
    {
      var edit := new VersionEdits.VersionEdit();
      RecordAt(os, i);
      assert OrderedOk(os[i]);
      EditReplays(os[i]);
      var ok := edit.DecodeFrom(records[i]);
      assert ok && edit.edit == os[i].edit;
      if !ok {
        return None;
      }
      if edit.edit.comparator.Some? && edit.edit.comparator.value != name {
        return None;
      }
      MeaningIsFileEdit(tables, os[i].edit, es[i]);
      ApplyStep(builder, FileEdit(tables, edit.edit), tables, vs[i], vs[i + 1]);
      assert os[..i + 1][..i] == os[..i];
      c := Taking(c, edit.edit);
    }
    if c.log.None? || c.next.None? || c.last.None? {
      return None;
    }
    var v := builder.SaveTo();
    SameListings(tables, v, vs[k]);
    r := Some(Machine.Manifest(v, c.log.value, c.next.value, c.last.value));
  }

  /** One edit more in the builder. */
  method ApplyStep(builder: Builder, e: Edit, ghost names: Catalogue, ghost v: seq<Level>, ghost w: seq<Level>)
    requires builder.Ok() && builder.base == EMPTY_VERSION && builder.names == names && KnownEdit(names, e)
    requires Installs(names, v, e, w)
    requires forall l, f :: 0 <= l < NUM_LEVELS ==> (builder.Holds(l, f) <==> f in v[l])
    modifies builder
    ensures builder.Ok() && forall l, f :: 0 <= l < NUM_LEVELS ==> (builder.Holds(l, f) <==> f in w[l])
  {
    builder.Apply(e);
  }

  /** The record that LogAndApply writes sets every counter, so recovery gives back its own. */
  lemma LastRecordDecides(os: seq<Ordered>, k: nat)
    requires 0 < k <= |os|
    requires var r := os[k - 1].edit; r.logNumber.Some? && r.nextFileNumber.Some? && r.lastSequence.Some?
    ensures var r := os[k - 1].edit; CountersOf(os[..k]) == Counters(r.logNumber, r.nextFileNumber, r.lastSequence)
  {
  }
}
