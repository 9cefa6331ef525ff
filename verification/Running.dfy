/** The steps of an open database, and a crash, keep the invariant. */
module Running {
  import opened Keys
  import opened Versions
  import opened Overlap
  import opened Picking
  import opened Builders
  import opened Installing
  import opened CompactionWork
  import opened CompactionReads
  import opened WriteGroup
  import opened Machine
  import opened Invariant

  // ----- writes and readers -----

  lemma EnqueueKeeps(a: World, b: World, w: Writer)
    requires Inv(a) && Enqueue(a, b, w)
    ensures Inv(b)
  {
    hide DiskOk, Meaning, Matches, LogsMatch, Aged, ReadsAs, VersionGood, LiveOk, RunOk, FlushOk, KeepsLogs, ApplyOk;
    assert GroupBatch(b.state.m) == GroupBatch(a.state.m);
  }

  lemma FinishFlushRequestKeeps(a: World, b: World)
    requires Inv(a) && FinishFlushRequest(a, b)
    ensures Inv(b)
  {
    hide DiskOk, Meaning, Matches, LogsMatch, Aged, ReadsAs, VersionGood, LiveOk, RunOk, FlushOk, KeepsLogs, ApplyOk;
    assert GroupBatch(b.state.m) == GroupBatch(a.state.m);
  }

  lemma SnapshotKeeps(a: World, b: World, s: nat)
    requires Inv(a) && (GetSnapshot(a, b) || ReleaseSnapshot(a, b, s))
    ensures Inv(b)
  {
    hide DiskOk, Meaning, Matches, LogsMatch, Aged, ReadsAs, VersionGood, LiveOk, RunOk, FlushOk, KeepsLogs, ApplyOk;
    assert GroupBatch(b.state.m) == GroupBatch(a.state.m);
    assert SnapshotsOk(b.state.m.snapshots, b.state.m.lastSequence, b.horizon);
  }

  lemma PinKeeps(a: World, b: World, u: Version)
    requires Inv(a) && (PinVersion(a, b) || UnpinVersion(a, b, u))
    ensures Inv(b)
  {
    hide DiskOk, Meaning, Matches, LogsMatch, Aged, ReadsAs, VersionGood, RunOk, FlushOk, KeepsLogs, ApplyOk, FilesIn,
      NumbersBelow, UsesNumber;
    var m, n := a.state.m, b.state.m;
    assert GroupBatch(n) == GroupBatch(m);
    assert LiveOk(b.disk.tables, n.version, n.pinned, n.run, n.pending, n.nextFile);
  }

  lemma FormGroupKeeps(a: World, b: World, count: nat)
    requires Inv(a) && FormGroup(a, b, count)
    ensures Inv(b)
  {
    hide DiskOk, Meaning, Matches, LogsMatch, Aged, ReadsAs, VersionGood, LiveOk, RunOk, FlushOk, KeepsLogs, ApplyOk;
  }

  /** The batch's sequence numbers all lie above the last one used. */
  ghost predicate Above(es: set<Entry>, last: nat) {
    forall e :: e in es ==> e.key.sn > last
  }

  lemma BatchAbove(m: Memory)
    ensures Above(SetOf(GroupBatch(m)), m.lastSequence)
    ensures m.group.Group? ==> UpTo(SetOf(GroupBatch(m)), m.lastSequence + |m.group.ops|)
    ensures Distinct(SetOf(GroupBatch(m)))
  {
  }

  lemma AgesWith(tables: set<Entry>, imm: set<Entry>, mem: set<Entry>, last: nat, batch: set<Entry>)
    requires Aged(mem, imm, tables, last) && Above(batch, last)
    ensures Aged(mem + batch, imm, tables, last)
  {
  }

  lemma ReadsWith(held: set<Entry>, accepted: set<Entry>, last: nat, horizon: nat, batch: set<Entry>)
    requires ReadsAs(held, accepted, horizon) && UpTo(accepted, last) && Above(batch, last)
    ensures ReadsAs(held + batch, accepted + batch, horizon)
  {
    AgreeExtends(held, accepted, batch, horizon);
  }

  lemma InsertGroupKeeps(a: World, b: World)
    requires Inv(a) && InsertGroup(a, b)
    ensures Inv(b)
  {
    hide DiskOk, Meaning, Matches, LogsMatch, Aged, ReadsAs, VersionGood, LiveOk, RunOk, FlushOk, KeepsLogs, ApplyOk;
    var m, n := a.state.m, b.state.m;
    var batch := SetOf(GroupBatch(m));
    BatchAbove(m);
    assert GroupBatch(n) == GroupBatch(m);
    assert n.mem + LoggedOnly(n) == m.mem + LoggedOnly(m);
    assert Accepted(b) == Accepted(a);
    AgesWith(VersionEntries(m.version), m.imm, m.mem, m.lastSequence, batch);
    var held := VersionEntries(m.version) + (m.imm + m.mem);
    assert a.acked + Inserting(m) == a.acked && a.acked + Inserting(n) == a.acked + batch;
    ReadsWith(held, a.acked, m.lastSequence, a.horizon, batch);
    assert VersionEntries(n.version) + (n.imm + n.mem) == held + batch;
  }

  lemma MeaningExtends(es: set<Entry>, done: seq<Op>, ops: seq<Op>, base: nat)
    requires Distinct(es) && base > 0 && UpTo(es, base - 1) && Meaning(es, done)
    ensures Meaning(es + SetOf(Stamp(ops, base)), done + ops)
  {
    var all, stamped := es + SetOf(Stamp(ops, base)), Stamp(ops, base);
    DistinctIsUnique(es);
    GroupIsQueueOrder(map[], done, ops);
    forall s: nat | UpTo(all, s)
      ensures View(all, s) == ApplyAll(map[], done + ops)
    {
      if ops == [] {
        assert all == es;
      } else {
        assert stamped[|ops| - 1] in all;
        WritesApply(es, ops, base, s);
      }
      assert UpTo(es, s);
    }
  }

  /** Counters only grow. */
  lemma ApplyLater(tables: map<nat, File>, last: nat, manifest: nat, version: Version, imm: set<Entry>, nextFile: nat,
                   lastSequence: nat, pending: set<nat>, run: Run, bg: Background, nextFile': nat, lastSequence': nat)
    requires ApplyOk(tables, last, manifest, version, imm, nextFile, lastSequence, pending, run, bg)
    requires nextFile <= nextFile' && lastSequence <= lastSequence'
    ensures ApplyOk(tables, last, manifest, version, imm, nextFile', lastSequence', pending, run, bg)
  {
  }

  lemma FinishGroupKeeps(a: World, b: World)
    requires Inv(a) && FinishGroup(a, b)
    ensures Inv(b)
  {
    hide Meaning, Agree, Counted, LogsOk, ManifestOk, LogsMatch, VersionGood, LiveOk, RunOk, FlushOk, KeepsLogs,
      ApplyOk;
    var m, n := a.state.m, b.state.m;
    BatchAbove(m);
    assert a.acked <= Accepted(a) == Accepted(b) == b.acked;
    MeaningExtends(a.acked, a.done, m.group.ops, m.lastSequence + 1);
    assert b.acked == a.acked + SetOf(Stamp(m.group.ops, m.lastSequence + 1));
    assert n.mem + LoggedOnly(n) == m.mem + LoggedOnly(m);
    assert b.acked + Inserting(n) == a.acked + Inserting(m);
    ApplyLater(a.disk.tables, a.disk.manifests[a.disk.current].lastSequence, m.manifest, m.version, m.imm, m.nextFile,
               m.lastSequence, m.pending, m.run, m.bg, m.nextFile, n.lastSequence);
    assert Aged(n.mem, n.imm, VersionEntries(n.version), n.lastSequence);
    assert SnapshotsOk(n.snapshots, n.lastSequence, b.horizon);
  }

  // ----- logs -----

  lemma LogGrows(logs: map<nat, seq<Batch>>, n: nat, batch: Batch, from: nat)
    requires n in logs && from <= n
    ensures BatchEntries(logs[n] + [batch]) == BatchEntries(logs[n]) + SetOf(batch)
    ensures LogEntries(logs[n := logs[n] + [batch]], from) == LogEntries(logs, from) + SetOf(batch)
  {
    var after := logs[n := logs[n] + [batch]];
    forall b | b in logs[n] + [batch]
      ensures b in logs[n] || b == batch
    {
    }
    assert batch in logs[n] + [batch];
    forall e | e in LogEntries(logs, from)
      ensures e in LogEntries(after, from)
    {
      var p :| p in logs && from <= p && e in BatchEntries(logs[p]);
      assert e in BatchEntries(after[p]);
    }
    forall e | e in SetOf(batch)
      ensures e in LogEntries(after, from)
    {
      assert e in BatchEntries(after[n]);
    }
    forall e | e in LogEntries(after, from)
      ensures e in LogEntries(logs, from) + SetOf(batch)
    {
      var p :| p in after && from <= p && e in BatchEntries(after[p]);
      if p == n {
        assert BatchEntries(after[n]) == BatchEntries(logs[n]) + SetOf(batch);
        assert e in BatchEntries(logs[n]) ==> e in LogEntries(logs, from);
      } else {
        assert p in logs && e in BatchEntries(logs[p]);
      }
    }
  }

  lemma LogGrowsOrdered(logs: map<nat, seq<Batch>>, n: nat, batch: Batch, from: nat, last: nat)
    requires n in logs && from <= n && LogsOrdered(logs, from) && (forall p :: p in logs ==> p <= n)
    requires UpTo(LogEntries(logs, from), last) && Above(SetOf(batch), last)
    ensures LogsOrdered(logs[n := logs[n] + [batch]], from)
  {
    var after := logs[n := logs[n] + [batch]];
    LogGrows(logs, n, batch, from);
    forall p, e | p in logs && from <= p && e in BatchEntries(logs[p])
      ensures e.key.sn <= last
    {
      assert e in LogEntries(logs, from);
    }
    forall i, j | 0 <= i < j < |after[n]|
      ensures Later(SetOf(after[n][j]), SetOf(after[n][i]))
    {
      assert after[n][i] == logs[n][i];
      if j == |logs[n]| {
        forall e | e in SetOf(after[n][i])
          ensures e in BatchEntries(logs[n])
        {
          assert after[n][i] in logs[n];
        }
      }
    }
  }

  /** A batch appended to the newest log is accepted, and recovery would find it. */
  lemma AppendedDisk(d: Disk, accepted: set<Entry>, horizon: nat, n: nat, batch: Batch, last: nat)
    requires DiskOk(d, accepted, horizon) && UpTo(accepted, last) && Above(SetOf(batch), last) && Distinct(SetOf(batch))
    requires n in d.logs && d.manifests[d.current].logNumber <= n && forall p :: p in d.logs ==> p <= n
    ensures DiskOk(d.(logs := d.logs[n := d.logs[n] + [batch]]), accepted + SetOf(batch), horizon)
  {
    hide Agree, ManifestOk, LogsOrdered;
    var mf, e := d.manifests[d.current], d.(logs := d.logs[n := d.logs[n] + [batch]]);
    LogGrows(d.logs, n, batch, mf.logNumber);
    LogGrowsOrdered(d.logs, n, batch, mf.logNumber, last);
    assert VersionEntries(mf.version) <= DiskEntries(d);
    assert DiskEntries(e) == DiskEntries(d) + SetOf(batch);
    ReadsWith(DiskEntries(d), accepted, last, horizon, SetOf(batch));
  }

  lemma AppendLogKeeps(a: World, b: World)
    requires Inv(a) && AppendLog(a, b)
    ensures Inv(b)
  {
    hide DiskOk, Meaning, VersionGood, LiveOk, RunOk, FlushOk, ApplyOk, ReadsAs, Aged, LogEntries, BatchEntries;
    var m, n := a.state.m, b.state.m;
    BatchAbove(m);
    assert GroupBatch(n) == GroupBatch(m);
    assert Accepted(b) == a.acked + SetOf(GroupBatch(m)) && Accepted(a) == a.acked;
    LogGrows(a.disk.logs, m.memLog, GroupBatch(m), m.logNumber);
    AppendedDisk(a.disk, a.acked, a.horizon, m.memLog, GroupBatch(m), m.lastSequence);
  }

  /** A new empty log changes nothing that logs hold. */
  lemma NewLog(logs: map<nat, seq<Batch>>, n: nat, from: nat)
    requires forall p :: p in logs && from <= p ==> p < n
    requires from <= n
    ensures BatchEntries([]) == {} && LogEntries(logs[n := []], from) == LogEntries(logs, from)
    ensures LogsOrdered(logs, from) ==> LogsOrdered(logs[n := []], from)
  {
    var after := logs[n := []];
    forall e
      ensures e in LogEntries(after, from) <==> e in LogEntries(logs, from)
    {
      if e in LogEntries(after, from) {
        var p :| p in after && from <= p && e in BatchEntries(after[p]);
        assert p in logs && e in BatchEntries(logs[p]);
      }
      if e in LogEntries(logs, from) {
        var p :| p in logs && from <= p && e in BatchEntries(logs[p]);
        assert p in after && e in BatchEntries(after[p]);
      }
    }
    if LogsOrdered(logs, from) {
      forall p, q | p in after && q in after && from <= p < q
        ensures Later(BatchEntries(after[q]), BatchEntries(after[p]))
      {
      }
    }
  }

  lemma SwitchMemtableKeeps(a: World, b: World)
    requires Inv(a) && SwitchMemtable(a, b)
    ensures Inv(b)
  {
    hide Meaning, Agree, VersionGood, ManifestOk, RunOk, Makes, FilesIn, SetOf, Since, VersionEntries;
    var m, n := a.state.m, b.state.m;
    var mf := a.disk.manifests[a.disk.current];
    NewLog(a.disk.logs, m.nextFile, mf.logNumber);
    NewLog(a.disk.logs, m.nextFile, m.logNumber);
    assert DiskEntries(b.disk) == DiskEntries(a.disk);
    assert GroupBatch(m) == GroupBatch(n) == [] && Accepted(b) == Accepted(a);
    assert LogsMatch(b.disk.logs, n.logNumber, n.memLog, n.nextFile, n.hasImm, n.imm, n.mem + LoggedOnly(n)) by {
      assert m.imm + (m.mem + LoggedOnly(m)) == n.imm + (n.mem + LoggedOnly(n));
    }
    assert Aged(n.mem, n.imm, VersionEntries(n.version), n.lastSequence);
    assert n.imm + n.mem == m.imm + m.mem;
    assert LiveOk(b.disk.tables, n.version, n.pinned, n.run, n.pending, n.nextFile);
    ApplyLater(a.disk.tables, mf.lastSequence, m.manifest, m.version, m.imm, m.nextFile,
               m.lastSequence, m.pending, m.run, m.bg, n.nextFile, n.lastSequence);
  }

  // ----- flushes -----

  lemma StartFlushKeeps(a: World, b: World)
    requires Inv(a) && StartFlush(a, b)
    ensures Inv(b)
  {
    hide DiskOk, Meaning, LogsOk, Aged, ReadsAs, VersionGood, FilesIn, NumbersBelow, Since, Revived;
    var m, n := a.state.m, b.state.m;
    assert GroupBatch(n) == GroupBatch(m);
    LiveTakes(a.disk.tables, m);
    assert NumbersBelow(m.version, m.nextFile);
    assert !Taken(m.run, m.nextFile);
  }

  /** A number newly taken belongs to no version. */
  lemma LiveTakes(tables: map<nat, File>, m: Memory)
    requires LiveOk(tables, m.version, m.pinned, m.run, m.pending, m.nextFile)
    ensures LiveOk(tables, m.version, m.pinned, m.run, m.pending + {m.nextFile}, m.nextFile + 1)
  {
  }

  /** Writing a table under a pending number leaves every version in use its files. */
  lemma LiveWrites(tables: map<nat, File>, m: Memory, f: File)
    requires LiveOk(tables, m.version, m.pinned, m.run, m.pending, m.nextFile) && f.number in m.pending
    ensures LiveOk(tables[f.number := f], m.version, m.pinned, m.run, m.pending, m.nextFile)
  {
  }

  lemma BuildTableKeeps(a: World, b: World, file: seq<File>)
    requires Inv(a) && BuildTable(a, b, file)
    ensures Inv(b)
  {
    hide Meaning, Agree, LogsOk, LogsMatch, Aged, ReadsAs, VersionGood, NumbersBelow, Since, Revived,
      FilesIn, UsesNumber, Later, SnapshotsOk, Counted, Distinct, Stamp, SetOf, Keeps, Made;
    var m, n := a.state.m, b.state.m;
    var mf := a.disk.manifests[a.disk.current];
    assert GroupBatch(n) == GroupBatch(m);
    if file != [] {
      LiveWrites(a.disk.tables, m, file[0]);
      assert ManifestOk(mf, b.disk.tables);
      assert RunOk(b.disk.tables, n.version, n.run, n.pending, b.horizon);
    }
    assert FlushOk(b.disk.tables, n.version, n.hasImm, n.imm, n.pending, n.run, n.bg);
  }

  lemma FlushedEntries(names: Catalogue, v: Version, level: nat, f: File, w: Version)
    requires Installs(names, v, FlushEdit(level, f), w) && level < NUM_LEVELS
    ensures VersionEntries(w) == VersionEntries(v) + SetOf(f.entries)
  {
    assert FlushEdit(level, f).added[0] == (level, f);
    assert Adds(FlushEdit(level, f), level, f);
    forall e | e in VersionEntries(w)
      ensures e in VersionEntries(v) + SetOf(f.entries)
    {
      var l, g := Home(w, e);
      if g in v[l] {
        InVersion(v, l, g, e);
      }
    }
    forall e | e in VersionEntries(v)
      ensures e in VersionEntries(w)
    {
      var l, g := Home(v, e);
      InVersion(w, l, g, e);
    }
    forall e | e in f.entries
      ensures e in VersionEntries(w)
    {
      InVersion(w, level, f, e);
    }
  }

  lemma FlushIsFlushable(v: Version, imm: set<Entry>, limit: nat, level: nat, f: File)
    requires ShapeOk(v) && NumbersBelow(v, f.number) && Later(imm, VersionEntries(v))
    requires f.Ok() && SetOf(f.entries) == imm && Picks(v, f.Smallest().user, f.Largest().user, limit, level)
    ensures Flushable(v, level, f)
  {
    LaterIsNewer(imm, VersionEntries(v));
    PickedPromises(v, f.Smallest().user, f.Largest().user, limit, level);
  }

  lemma FlushedFiles(tables: map<nat, File>, names: Catalogue, v: Version, level: nat, f: File, w: Version)
    requires Installs(names, v, FlushEdit(level, f), w) && FilesIn(tables, v) && NumbersBelow(v, f.number)
    requires f.number in tables && tables[f.number] == f
    ensures FilesIn(tables, w) && NumbersBelow(w, f.number + 1)
    ensures forall n :: UsesNumber(w, n) ==> n == f.number || UsesNumber(v, n)
  {
  }

  /** The version with the flushed table: in order, on disk, and clear of a running compaction. */
  lemma FlushInstalls(tables: map<nat, File>, v: Version, imm: set<Entry>, level: nat, f: File, w: Version, run: Run,
          pending: set<nat>, horizon: nat, limit: nat)
    requires VersionGood(v) && FilesIn(tables, v) && NumbersBelow(v, f.number)
    requires f.Ok() && SetOf(f.entries) == imm && f.number in tables && tables[f.number] == f
    requires Later(imm, VersionEntries(v)) && FlushMakes(v, [f], level, w, limit)
    requires RunOk(tables, v, run, pending, horizon)
    requires run.Run? ==> Unexposed(run.start, run.c, run.smallest, limit)
    ensures VersionGood(w) && FilesIn(tables, w) && NumbersBelow(w, f.number + 1)
    ensures forall n :: UsesNumber(w, n) ==> n == f.number || UsesNumber(v, n)
    ensures VersionEntries(w) == VersionEntries(v) + imm && (run.Run? ==> RunSince(run, w))
  {
    hide ShapeOk, NewerByNumber, Layered, Since, FilesIn, NumbersBelow, UsesNumber, Flushable, Picks, Later,
      Revived, VersionOk;
    var names :| Installs(names, v, FlushEdit(level, f), w);
    assert level <= MAX_MEM_COMPACT_LEVEL by {
      LevelPicked(v, limit, level, f);
    }
    FlushIsFlushable(v, imm, limit, level, f);
    FlushKeepsTree(names, v, level, f, w);
    FlushedEntries(names, v, level, f, w);
    FlushedFiles(tables, names, v, level, f, w);
    assert VersionOk(names, w);
    if run.Run? {
      FlushClearsRun(run, v, limit, level, f);
      SinceFlush(names, run.start, run.c, KeptBy(run.start, run.c, run.smallest), v, level, f, w);
    }
  }

  lemma LevelPicked(v: Version, limit: nat, level: nat, f: File)
    requires ShapeOk(v) && f.entries != [] && Picks(v, f.Smallest().user, f.Largest().user, limit, level)
    ensures level <= MAX_MEM_COMPACT_LEVEL < NUM_LEVELS
  {
  }

  lemma FlushClearsRun(run: Run, v: Version, limit: nat, level: nat, f: File)
    requires run.Run? && RunSince(run, v) && Unexposed(run.start, run.c, run.smallest, limit)
    requires ShapeOk(v) && Flushable(v, level, f) && Picks(v, f.Smallest().user, f.Largest().user, limit, level)
    ensures TreeOk(run.start) && Chosen(run.start, run.c)
    ensures FlushedDuring(run.start, run.c, KeptBy(run.start, run.c, run.smallest), level, f)
  {
    hide Flushable, Exposed, NewerByNumber, Layered, FlushedDuring, Picks, Since;
    var kept := KeptBy(run.start, run.c, run.smallest);
    ShapeStart(run.start, run.c, kept, v);
    forall x
      ensures !Exposed(v, run.c, kept, x, limit)
    {
      if Exposed(v, run.c, kept, x, limit) {
        StillExposed(run.start, run.c, kept, v, x, limit);
      }
    }
    FlushKeepsClear(run.start, run.c, kept, v, limit, level, f);
  }

  lemma ApplyFlushApplies(d: Disk, m: Memory, level: nat, w: Version, pending: set<nat>, horizon: nat,
          acked: set<Entry>)
    requires UpOk(d, m, acked, horizon) && d.current < d.manifests[d.current].nextFile
    requires m.bg.Built? && FlushMakes(m.version, m.bg.file, level, w, m.overlapLimit)
    requires pending == m.pending - {m.bg.number}
    ensures ApplyOk(d.tables, d.manifests[d.current].lastSequence, m.manifest, m.version, m.imm, m.nextFile,
      m.lastSequence, pending,
                    m.run, Applying(Flush, w, m.memLog, m.nextFile, m.lastSequence, false))
  {
    hide Agree, ReadsAs, VersionGood, FilesIn, Since, Revived, SnapshotsOk, KeepsLogs, FlushMakes,
      BatchEntries, LogEntries, LoggedOnly, Inserting;
    if m.bg.file != [] {
      assert m.bg.file == [m.bg.file[0]];
      FlushInstalls(d.tables, m.version, m.imm, level, m.bg.file[0], w, m.run, m.pending, horizon,
        m.overlapLimit);
    } else {
      assert w == m.version by {
        NothingFlushed(m.version, level, w, m.overlapLimit);
      }
    }
    assert VersionEntries(w) == VersionEntries(m.version) + m.imm;
    assert ManifestOk(Manifest(w, m.memLog, m.nextFile, m.lastSequence), d.tables);
  }

  lemma NothingFlushed(v: Version, level: nat, w: Version, limit: nat)
    requires FlushMakes(v, [], level, w, limit)
    ensures w == v
  {
  }

  lemma ApplyFlushKeeps(a: World, b: World, level: nat, w: Version)
    requires Inv(a) && ApplyFlush(a, b, level, w)
    ensures Inv(b)
  {
    hide LogsOk, Counted, Agree, Meaning, ReadsAs, VersionGood, FilesIn, ManifestOk, RunOk, LogsMatch, NumbersBelow,
      UsesNumber, ApplyOk, FlushMakes;
    var m, n := a.state.m, b.state.m;
    assert GroupBatch(n) == GroupBatch(m);
    ApplyFlushApplies(a.disk, m, level, w, n.pending, a.horizon, a.acked);
    assert RunOk(b.disk.tables, n.version, n.run, n.pending, b.horizon) by {
      RunKeepsPending(a.disk.tables, m.version, m.run, m.pending, a.horizon, m.bg.number);
    }
  }

  lemma RunKeepsPending(tables: map<nat, File>, version: Version, run: Run, pending: set<nat>, horizon: nat,
          number: nat)
    requires RunOk(tables, version, run, pending, horizon) && !Taken(run, number)
    ensures RunOk(tables, version, run, pending - {number}, horizon)
  {
  }

  // ----- manifest records -----

  /** From the newest log on, the logs hold what that log holds. */
  lemma LastLog(logs: map<nat, seq<Batch>>, n: nat)
    requires n in logs && forall p :: p in logs ==> p <= n
    ensures LogEntries(logs, n) == BatchEntries(logs[n])
  {
  }

  lemma LaterLogs(logs: map<nat, seq<Batch>>, from: nat, to: nat)
    requires from <= to
    ensures LogEntries(logs, to) <= LogEntries(logs, from)
    ensures LogsOrdered(logs, from) ==> LogsOrdered(logs, to)
  {
  }

  /** A manifest record may replace the last one if it reads alike and needs no log that is gone. */
  lemma RecordKeepsDisk(d: Disk, mf: Manifest, accepted: set<Entry>, horizon: nat)
    requires DiskOk(d, accepted, horizon) && ManifestOk(mf, d.tables) && d.current < mf.nextFile
    requires LogsOk(d.logs, mf) && Counted(accepted, d.logs, mf)
    requires var held := VersionEntries(mf.version) + LogEntries(d.logs, mf.logNumber);
      held <= accepted && Agree(held, DiskEntries(d), horizon)
    ensures DiskOk(d.(manifests := d.manifests[d.current := mf]), accepted, horizon)
  {
  }

  lemma FlushRecord(d: Disk, m: Memory, acked: set<Entry>, accepted: set<Entry>, horizon: nat)
    requires DiskOk(d, accepted, horizon) && UpOk(d, m, acked, horizon)
    requires m.bg.Applying? && !m.bg.appended && m.bg.source == Flush
    ensures var mf := Manifest(m.bg.w, m.bg.log, m.bg.nextFile, m.bg.lastSequence);
      DiskOk(d.(manifests := d.manifests[d.current := mf]), accepted, horizon)
  {
    hide Agree, VersionGood, FilesIn, NumbersBelow, UsesNumber, RunOk, LiveOk, Since, FlushOk, ReadsAs;
    var mf := Manifest(m.bg.w, m.bg.log, m.bg.nextFile, m.bg.lastSequence);
    LastLog(d.logs, m.memLog);
    LaterLogs(d.logs, m.logNumber, m.memLog);
    assert VersionEntries(mf.version) + LogEntries(d.logs, mf.logNumber) == DiskEntries(d);
    assert Later(BatchEntries(d.logs[m.memLog]), m.imm) by {
      BatchAbove(m);
    }
    AgreeSelf(DiskEntries(d), horizon);
    RecordKeepsDisk(d, mf, accepted, horizon);
  }

  lemma AgreeSelf(a: set<Entry>, h: nat)
    ensures Agree(a, a, h)
  {
  }

  /** The compaction about to be installed, seen under any newer data. */
  lemma AppliedAgrees(m: Memory, tables: map<nat, File>, upper: set<Entry>, horizon: nat)
    requires VersionGood(m.version) && RunOk(tables, m.version, m.run, m.pending, horizon)
    requires m.bg.Applying? && m.bg.source == Compact && Makes(Compact, m.bg.w, m.version, {}, m.run)
    requires Later(upper, VersionEntries(m.version)) && Distinct(upper + VersionEntries(m.version))
    ensures VersionEntries(m.bg.w) <= VersionEntries(m.version)
    ensures Agree(VersionEntries(m.bg.w) + upper, VersionEntries(m.version) + upper, horizon)
  {
    hide Agree, TreeOk, Since, Revived, Keeps, Compacted, Made;
    var r := m.run;
    CompactionAgrees(upper, r.start, r.c, KeptBy(r.start, r.c, r.smallest), m.version, r.outs, m.bg.w, r.smallest);
    AgreeLater(VersionEntries(m.bg.w) + upper, VersionEntries(m.version) + upper, r.smallest, horizon);
  }

  lemma AgreeLater(a: set<Entry>, b: set<Entry>, h: nat, g: nat)
    requires Agree(a, b, h) && h <= g
    ensures Agree(a, b, g)
  {
  }

  lemma CompactRecord(d: Disk, m: Memory, acked: set<Entry>, accepted: set<Entry>, horizon: nat)
    requires DiskOk(d, accepted, horizon) && UpOk(d, m, acked, horizon)
    requires m.bg.Applying? && !m.bg.appended && m.bg.source == Compact
    ensures var mf := Manifest(m.bg.w, m.bg.log, m.bg.nextFile, m.bg.lastSequence);
      DiskOk(d.(manifests := d.manifests[d.current := mf]), accepted, horizon)
  {
    hide Agree, VersionGood, FilesIn, NumbersBelow, UsesNumber, RunOk, LiveOk, FlushOk, ReadsAs, Makes, LogsOrdered,
      LogsMatch;
    var mf := Manifest(m.bg.w, m.bg.log, m.bg.nextFile, m.bg.lastSequence);
    var upper := LogEntries(d.logs, m.logNumber);
    assert upper + VersionEntries(m.version) == DiskEntries(d);
    AppliedAgrees(m, d.tables, upper, horizon);
    RecordKeepsDisk(d, mf, accepted, horizon);
  }

  lemma MoveRecord(d: Disk, m: Memory, acked: set<Entry>, accepted: set<Entry>, horizon: nat)
    requires DiskOk(d, accepted, horizon) && UpOk(d, m, acked, horizon)
    requires m.bg.Applying? && !m.bg.appended && m.bg.source == Move
    ensures var mf := Manifest(m.bg.w, m.bg.log, m.bg.nextFile, m.bg.lastSequence);
      DiskOk(d.(manifests := d.manifests[d.current := mf]), accepted, horizon)
  {
    hide Agree, VersionGood, FilesIn, NumbersBelow, UsesNumber, RunOk, LiveOk, FlushOk, ReadsAs, LogsOrdered, LogsMatch;
    var mf := Manifest(m.bg.w, m.bg.log, m.bg.nextFile, m.bg.lastSequence);
    AgreeSelf(DiskEntries(d), horizon);
    RecordKeepsDisk(d, mf, accepted, horizon);
  }

  lemma AppendManifestKeeps(a: World, b: World)
    requires Inv(a) && AppendManifest(a, b)
    ensures Inv(b)
  {
    hide DiskOk, Meaning, LogsMatch, Aged, ReadsAs, VersionGood, LiveOk, RunOk, FilesIn, NumbersBelow, UsesNumber,
      ManifestOk, Makes;
    var m, n := a.state.m, b.state.m;
    assert GroupBatch(n) == GroupBatch(m) && Accepted(b) == Accepted(a);
    match m.bg.source {
      case Flush => FlushRecord(a.disk, m, a.acked, Accepted(a), a.horizon);
      case Compact => CompactRecord(a.disk, m, a.acked, Accepted(a), a.horizon);
      case Move => MoveRecord(a.disk, m, a.acked, Accepted(a), a.horizon);
    }
    assert b.disk == a.disk.(manifests := a.disk.manifests[a.disk.current := Manifest(m.bg.w, m.bg.log, m.bg.nextFile,
      m.bg.lastSequence)]);
  }

  // ----- installs -----

  lemma AppliedIsHeld(m: Memory, tables: map<nat, File>, last: nat, pending: set<nat>)
    requires m.bg.Applying? && pending <= m.pending
    requires ApplyOk(tables, last, m.manifest, m.version, m.imm, m.nextFile, m.lastSequence, m.pending, m.run, m.bg)
    requires m.bg.source == Compact ==> forall n :: n in pending ==> !Taken(m.run, n)
    ensures VersionGood(m.bg.w) && HeldOk(tables, m.bg.w, pending, m.nextFile)
    ensures UpTo(VersionEntries(m.bg.w), m.lastSequence)
    ensures Makes(m.bg.source, m.bg.w, m.version, if m.bg.source == Flush then m.imm else {}, m.run)
  {
  }

  lemma InstallFlushKeeps(a: World, b: World)
    requires Inv(a) && InstallFlush(a, b)
    ensures Inv(b)
  {
    hide DiskOk, Meaning, Agree, VersionGood, ManifestOk, FilesIn, NumbersBelow, UsesNumber, ApplyOk, LogsOrdered,
      Since, Revived, HeldOk;
    var m, n := a.state.m, b.state.m;
    assert GroupBatch(n) == GroupBatch(m) && Accepted(b) == Accepted(a);
    AppliedIsHeld(m, a.disk.tables, a.disk.manifests[a.disk.current].lastSequence, m.pending);
    LastLog(a.disk.logs, m.memLog);
    assert VersionEntries(n.version) + (n.imm + n.mem) == VersionEntries(m.version) + (m.imm + m.mem);
    assert ApplyOk(b.disk.tables, b.disk.manifests[b.disk.current].lastSequence, n.manifest, n.version, n.imm,
      n.nextFile, n.lastSequence,
                   n.pending, n.run, n.bg) by {
      NotApplying(b.disk.tables, b.disk.manifests[b.disk.current].lastSequence, n);
    }
  }

  lemma NotApplying(tables: map<nat, File>, last: nat, n: Memory)
    requires !n.bg.Applying?
    ensures ApplyOk(tables, last, n.manifest, n.version, n.imm, n.nextFile, n.lastSequence, n.pending, n.run, n.bg)
  {
  }

  lemma InstallCompactionKeeps(a: World, b: World)
    requires Inv(a) && InstallCompaction(a, b)
    ensures Inv(b)
  {
    hide Meaning, Agree, VersionGood, ManifestOk, FilesIn, NumbersBelow, UsesNumber, ApplyOk, LogsMatch, LogsOk,
      Since, Revived, HeldOk, Makes;
    var m, n := a.state.m, b.state.m;
    assert GroupBatch(n) == GroupBatch(m) && Accepted(b) == Accepted(a);
    AppliedIsHeld(m, a.disk.tables, a.disk.manifests[a.disk.current].lastSequence, n.pending);
    var held := VersionEntries(m.version) + (m.imm + m.mem);
    assert held <= Accepted(a);
    assert m.imm + m.mem + VersionEntries(m.version) == held;
    AppliedAgrees(m, a.disk.tables, m.imm + m.mem, a.horizon);
    AgreeTrans(VersionEntries(n.version) + (n.imm + n.mem), held, a.acked + Inserting(m), a.horizon, a.horizon);
    HeldFewer(a.disk.tables, m, n.pending);
    NotApplying(b.disk.tables, b.disk.manifests[b.disk.current].lastSequence, n);
  }

  lemma HeldFewer(tables: map<nat, File>, m: Memory, pending: set<nat>)
    requires LiveOk(tables, m.version, m.pinned, m.run, m.pending, m.nextFile) && pending <= m.pending
    ensures LiveOk(tables, m.version, m.pinned, m.run, pending, m.nextFile)
  {
  }

  lemma InstallMoveKeeps(a: World, b: World)
    requires Inv(a) && InstallMove(a, b)
    ensures Inv(b)
  {
    hide DiskOk, Meaning, Agree, VersionGood, ManifestOk, FilesIn, NumbersBelow, UsesNumber, ApplyOk, LogsMatch,
      LogsOk, Since, Revived, HeldOk;
    var m, n := a.state.m, b.state.m;
    assert GroupBatch(n) == GroupBatch(m) && Accepted(b) == Accepted(a);
    AppliedIsHeld(m, a.disk.tables, a.disk.manifests[a.disk.current].lastSequence, m.pending);
    NotApplying(b.disk.tables, b.disk.manifests[b.disk.current].lastSequence, n);
  }

  // ----- compactions -----

  lemma StartCompactionKeeps(a: World, b: World, c: Compaction, ss: nat)
    requires Inv(a) && StartCompaction(a, b, c, ss)
    ensures Inv(b)
  {
    hide Meaning, Agree, ManifestOk, LogsMatch, LogsOk, Revived, HeldOk, FilesIn, NumbersBelow, UsesNumber, Chosen,
      ShapeOk, NewerByNumber, Layered, ApplyOk, Counted, KeptOf, VersionEntries;
    var m, n := a.state.m, b.state.m;
    assert GroupBatch(n) == GroupBatch(m) && Accepted(b) == Accepted(a);
    assert a.horizon <= ss;
    AgreeLater(DiskEntries(a.disk), Accepted(a), a.horizon, ss);
    AgreeLater(VersionEntries(m.version) + (m.imm + m.mem), a.acked + Inserting(m), a.horizon, ss);
    SinceStart(m.version, c, KeptBy(m.version, c, ss));
    NotApplying(b.disk.tables, b.disk.manifests[b.disk.current].lastSequence, n);
  }

  lemma OpenOutputKeeps(a: World, b: World)
    requires Inv(a) && OpenOutput(a, b)
    ensures Inv(b)
  {
    hide DiskOk, Meaning, Agree, LogsOk, VersionGood, Aged, ReadsAs, Since, Revived, HeldOk, FilesIn,
      NumbersBelow, UsesNumber, ApplyOk;
    var m, n := a.state.m, b.state.m;
    assert GroupBatch(n) == GroupBatch(m) && Accepted(b) == Accepted(a);
    LiveTakes(a.disk.tables, m);
    NotApplying(b.disk.tables, b.disk.manifests[b.disk.current].lastSequence, n);
  }

  lemma ManifestWrites(tables: map<nat, File>, mf: Manifest, f: File)
    requires ManifestOk(mf, tables) && !UsesNumber(mf.version, f.number)
    ensures ManifestOk(mf, tables[f.number := f])
  {
  }

  lemma OutputAccepts(a: World, b: World, f: File)
    requires WriteOutput(a, b, f)
    ensures GroupBatch(b.state.m) == GroupBatch(a.state.m) && Accepted(b) == Accepted(a)
  {
  }

  lemma RunWrites(tables: map<nat, File>, m: Memory, f: File, horizon: nat)
    requires RunOk(tables, m.version, m.run, m.pending, horizon) && m.run.Run? && f.number in m.run.taken
    requires forall o :: o in m.run.outs ==> o.number != f.number
    ensures RunOk(tables[f.number := f], m.version, m.run.(outs := m.run.outs + [f]), m.pending, horizon)
  {
    hide Since, Revived, KeptOf;
  }

  lemma WriteOutputKeeps(a: World, b: World, f: File)
    requires Inv(a) && WriteOutput(a, b, f)
    ensures Inv(b)
  {
    hide Meaning, Agree, LogsOk, LogsMatch, VersionGood, Aged, ReadsAs, Since, Revived, FilesIn, NumbersBelow,
      ManifestOk, ApplyOk, UsesNumber, Made, Stamp, Distinct, Later, Exposed, Accepted, GroupBatch, KeptOf;
    var m, n := a.state.m, b.state.m;
    OutputAccepts(a, b, f);
    LiveWrites(a.disk.tables, m, f);
    RunWrites(a.disk.tables, m, f, a.horizon);
    ManifestWrites(a.disk.tables, a.disk.manifests[a.disk.current], f);
    NotApplying(b.disk.tables, b.disk.manifests[b.disk.current].lastSequence, n);
  }

  /** In a catalogued version one number names one file. */
  lemma NumberNames(names: Catalogue, v: Version, l: nat, f: File, k: nat, g: File)
    requires VersionOk(names, v) && l < |v| && k < |v| && f in v[l] && g in v[k] && f.number == g.number
    ensures f == g
  {
  }

  /** The version a compaction makes: in order, with its files on disk, and no entry that was not there. */
  lemma CompactInstalls(names: Catalogue, tables: map<nat, File>, start: Version, c: Compaction, kept: set<Entry>,
          v: Version, outs: Level, w: Version, top: nat)
    requires VersionGood(v) && FilesIn(tables, v) && NumbersBelow(v, top) && Since(start, c, kept, v) && Made(c, outs)
    requires Installs(names, v, CompactionEdit(c, outs), w) && EntriesOf(outs) <= kept
    requires forall o :: o in outs ==> o.number in tables && tables[o.number] == o && o.number < top
    requires forall o, g :: o in outs && g in v[c.level + 1] ==> o.number != g.number
    ensures VersionGood(w) && FilesIn(tables, w) && NumbersBelow(w, top) && Compacted(v, c, outs, w)
    ensures forall n :: UsesNumber(w, n) ==> UsesNumber(v, n) || exists o :: o in outs && o.number == n
  {
    hide NewerByNumber, Layered, ShapeOk, VersionOk, FilesIn, NumbersBelow, UsesNumber, Since, Made;
    CompactionKeepsTree(names, start, c, kept, v, outs, w);
    assert VersionOk(names, w);
    InputsHere(start, c, kept, v);
    CompactionEditMeans(names, v, c, outs, w);
    CompactedFiles(tables, v, c, outs, w, top);
  }

  lemma InputsHere(start: Version, c: Compaction, kept: set<Entry>, v: Version)
    requires Since(start, c, kept, v)
    ensures c.level + 1 < NUM_LEVELS
    ensures (forall f :: f in c.inputs0 ==> f in v[c.level]) && forall f :: f in c.inputs1 ==> f in v[c.level + 1]
  {
  }

  lemma CompactedFiles(tables: map<nat, File>, v: Version, c: Compaction, outs: Level, w: Version, top: nat)
    requires FilesIn(tables, v) && NumbersBelow(v, top) && Compacted(v, c, outs, w)
    requires forall o :: o in outs ==> o.number in tables && tables[o.number] == o && o.number < top
    ensures FilesIn(tables, w) && NumbersBelow(w, top)
    ensures forall n :: UsesNumber(w, n) ==> UsesNumber(v, n) || exists o :: o in outs && o.number == n
  {
  }

  lemma CompactedWithin(start: Version, c: Compaction, kept: set<Entry>, v: Version, outs: Level, w: Version, ss: nat)
    requires Since(start, c, kept, v) && TreeOk(v) && Compacted(v, c, outs, w)
    requires Keeps(c, outs, DeeperLevels(start, c), ss)
    ensures VersionEntries(w) <= VersionEntries(v)
  {
    hide NewerByNumber, Layered, ShapeOk, Since, Compacted, Drops;
    InstalledEntries(start, c, kept, v, outs, w);
  }

  lemma OutsFresh(tables: map<nat, File>, v: Version, run: Run, pending: set<nat>, nextFile: nat, horizon: nat)
    requires run.Run? && RunOk(tables, v, run, pending, horizon) && HeldOk(tables, v, pending, nextFile)
    requires run.c.level + 1 < |v|
    ensures forall o, g :: o in run.outs && g in v[run.c.level + 1] ==> o.number != g.number
  {
  }

  lemma ApplyCompactionApplies(d: Disk, m: Memory, w: Version, acked: set<Entry>, horizon: nat)
    requires UpOk(d, m, acked, horizon) && d.current < d.manifests[d.current].nextFile
    requires d.manifests[d.current].logNumber < d.manifests[d.current].nextFile
    requires m.bg.Quiet? && m.run.Run? && Finished(m.run)
    requires exists names :: Installs(names, m.version, CompactionEdit(m.run.c, m.run.outs), w)
    ensures ApplyOk(d.tables, d.manifests[d.current].lastSequence, m.manifest, m.version, m.imm, m.nextFile,
      m.lastSequence, m.pending,
                    m.run, Applying(Compact, w, m.logNumber, m.nextFile, m.lastSequence, false))
  {
    hide LogsMatch, ReadsAs, VersionGood, FilesIn, NumbersBelow, UsesNumber, Since, Revived,
      SnapshotsOk, KeepsLogs, Compacted, KeptOf, Made, Installs, FlushOk;
    var r := m.run;
    var names :| Installs(names, m.version, CompactionEdit(r.c, r.outs), w);
    GoodLevels(m.version);
    OutsFresh(d.tables, m.version, r, m.pending, m.nextFile, horizon);
    var kept := KeptBy(r.start, r.c, r.smallest);
    CompactInstalls(names, d.tables, r.start, r.c, kept, m.version, r.outs, w, m.nextFile);
    CompactedWithin(r.start, r.c, kept, m.version, r.outs, w, r.smallest);
  }

  lemma GoodLevels(v: Version)
    requires VersionGood(v)
    ensures |v| == NUM_LEVELS && TreeOk(v)
  {
  }

  lemma ApplyCompactionKeeps(a: World, b: World, w: Version)
    requires Inv(a) && ApplyCompaction(a, b, w)
    ensures Inv(b)
  {
    hide LogsOk, Counted, Agree, Meaning, LogsMatch, Aged, ReadsAs, VersionGood, LiveOk, RunOk, ApplyOk, FilesIn,
      NumbersBelow, Finished, Installs;
    var m, n := a.state.m, b.state.m;
    assert GroupBatch(n) == GroupBatch(m) && Accepted(b) == Accepted(a);
    ApplyCompactionApplies(a.disk, m, w, a.acked, a.horizon);
  }

  // ----- moves -----

  lemma MovesOne(v: Version, c: Compaction)
    requires ShapeOk(v) && Chosen(v, c) && |c.inputs0| == 1 && c.inputs1 == []
    ensures Made(c, c.inputs0) && Inputs(c) == c.inputs0
  {
  }

  lemma MoveFresh(names: Catalogue, v: Version, c: Compaction)
    requires TreeOk(v) && VersionOk(names, v) && Chosen(v, c)
    ensures forall o, g :: o in c.inputs0 && g in v[c.level + 1] ==> o.number != g.number
  {
    hide VersionOk, NewerByNumber, Layered, Disjoint, MeetsHull, LevelClosed;
    forall o, g | o in c.inputs0 && g in v[c.level + 1]
      ensures o.number != g.number
    {
      if o.number == g.number {
        NumberNames(names, v, c.level, o, c.level + 1, g);
        OnOneLevel(v, c.level, c.level + 1, o);
      }
    }
  }

  lemma OnOneLevel(v: Version, l: nat, m: nat, f: File)
    requires TreeOk(v) && l < |v| && m < |v| && f in v[l] && f in v[m]
    ensures l == m
  {
    hide NewerByNumber, Layered, Disjoint;
    assert f.Ok();
    OneHome(v, l, f, m, f, f.entries[0]);
  }

  lemma MovedEntries(v: Version, c: Compaction, w: Version)
    requires TreeOk(v) && Chosen(v, c) && Compacted(v, c, c.inputs0, w) && Inputs(c) == c.inputs0
    ensures VersionEntries(w) == VersionEntries(v)
  {
    SinceStart(v, c, {});
    InstalledEntries(v, c, {}, v, c.inputs0, w);
  }

  lemma StartMoveApplies(d: Disk, m: Memory, c: Compaction, w: Version, acked: set<Entry>, horizon: nat)
    requires UpOk(d, m, acked, horizon) && d.current < d.manifests[d.current].nextFile
    requires d.manifests[d.current].logNumber < d.manifests[d.current].nextFile
    requires m.bg.Quiet? && m.run.NoRun? && ShapeOk(m.version) && Chosen(m.version, c)
    requires |c.inputs0| == 1 && c.inputs1 == []
    requires exists names :: Installs(names, m.version, CompactionEdit(c, c.inputs0), w)
    ensures ApplyOk(d.tables, d.manifests[d.current].lastSequence, m.manifest, m.version, m.imm, m.nextFile,
      m.lastSequence, m.pending,
                    m.run, Applying(Move, w, m.logNumber, m.nextFile, m.lastSequence, false))
  {
    hide LogsMatch, ReadsAs, VersionGood, Since, Revived, SnapshotsOk, KeepsLogs, Compacted, Made,
      FlushOk, NewerByNumber, Layered, ShapeOk, VersionOk, UsesNumber;
    var v := m.version;
    var names :| Installs(names, v, CompactionEdit(c, c.inputs0), w);
    GoodLevels(v);
    MovesOne(v, c);
    SinceStart(v, c, InputEntries(c));
    MoveFresh(names, v, c);
    assert forall o :: o in c.inputs0 ==> o in v[c.level];
    CompactInstalls(names, d.tables, v, c, InputEntries(c), v, c.inputs0, w, m.nextFile);
    MovedEntries(v, c, w);
    MovedNumbers(v, c, w);
  }

  lemma MovedNumbers(v: Version, c: Compaction, w: Version)
    requires ShapeOk(v) && Chosen(v, c) && Compacted(v, c, c.inputs0, w)
    ensures forall n :: UsesNumber(w, n) ==> UsesNumber(v, n)
  {
  }

  lemma StartMoveKeeps(a: World, b: World, c: Compaction, w: Version)
    requires Inv(a) && StartMove(a, b, c, w)
    ensures Inv(b)
  {
    hide LogsOk, Counted, Agree, Meaning, LogsMatch, Aged, ReadsAs, VersionGood, LiveOk, RunOk, ApplyOk, FilesIn,
      NumbersBelow, Chosen, ShapeOk, Installs;
    var m, n := a.state.m, b.state.m;
    assert GroupBatch(n) == GroupBatch(m) && Accepted(b) == Accepted(a);
    StartMoveApplies(a.disk, m, c, w, a.acked, a.horizon);
  }

  // ----- deleting files -----

  lemma DropTable(tables: map<nat, File>, v: Version, n: nat)
    requires FilesIn(tables, v) && !UsesNumber(v, n)
    ensures FilesIn(tables - {n}, v)
  {
  }

  lemma HeldDrops(tables: map<nat, File>, m: Memory, u: Version, n: nat)
    requires HeldOk(tables, u, m.pending, m.nextFile) && IsLive(m, u) && !KeepsTable(m, n)
    ensures HeldOk(tables - {n}, u, m.pending, m.nextFile)
  {
  }

  lemma LiveDrops(tables: map<nat, File>, m: Memory, n: nat)
    requires LiveOk(tables, m.version, m.pinned, m.run, m.pending, m.nextFile) && !KeepsTable(m, n)
    ensures LiveOk(tables - {n}, m.version, m.pinned, m.run, m.pending, m.nextFile)
  {
    hide HeldOk, KeepsTable;
    HeldDrops(tables, m, m.version, n);
    forall u | u in m.pinned
      ensures HeldOk(tables - {n}, u, m.pending, m.nextFile)
    {
      HeldDrops(tables, m, u, n);
    }
    if m.run.Run? {
      HeldDrops(tables, m, m.run.start, n);
    }
  }

  lemma ManifestDrops(tables: map<nat, File>, mf: Manifest, m: Memory, n: nat)
    requires ManifestOk(mf, tables) && mf.version == m.version && !KeepsTable(m, n)
    ensures ManifestOk(mf, tables - {n})
  {
    hide VersionGood, NumbersBelow;
    assert IsLive(m, m.version) && !UsesNumber(mf.version, n);
    DropTable(tables, mf.version, n);
  }

  lemma RunDrops(tables: map<nat, File>, m: Memory, horizon: nat, n: nat)
    requires RunOk(tables, m.version, m.run, m.pending, horizon) && !KeepsTable(m, n)
    ensures RunOk(tables - {n}, m.version, m.run, m.pending, horizon)
  {
  }

  lemma DeleteTableKeeps(a: World, b: World, n: nat)
    requires Inv(a) && DeleteTable(a, b, n)
    ensures Inv(b)
  {
    hide Meaning, Agree, LogsOk, LogsMatch, VersionGood, Aged, ReadsAs, RunOk, LiveOk, ManifestOk, ApplyOk, KeepsTable;
    var m := a.state.m;
    LiveDrops(a.disk.tables, m, n);
    RunDrops(a.disk.tables, m, a.horizon, n);
    ManifestDrops(a.disk.tables, a.disk.manifests[a.disk.current], m, n);
    NotApplying(b.disk.tables, b.disk.manifests[b.disk.current].lastSequence, m);
  }

  lemma DropLog(logs: map<nat, seq<Batch>>, from: nat, n: nat)
    requires n < from
    ensures LogEntries(logs - {n}, from) == LogEntries(logs, from)
    ensures LogsOrdered(logs, from) ==> LogsOrdered(logs - {n}, from)
  {
    var after := logs - {n};
    forall e
      ensures e in LogEntries(after, from) <==> e in LogEntries(logs, from)
    {
      if e in LogEntries(logs, from) {
        var p :| p in logs && from <= p && e in BatchEntries(logs[p]);
        assert p in after && e in BatchEntries(after[p]);
      }
    }
  }

  lemma DeleteLogKeeps(a: World, b: World, n: nat)
    requires Inv(a) && DeleteLog(a, b, n)
    ensures Inv(b)
  {
    hide Meaning, Agree, VersionGood, Aged, ReadsAs, RunOk, LiveOk, ManifestOk, ApplyOk, LogsOrdered;
    DropLog(a.disk.logs, a.state.m.logNumber, n);
    NotApplying(b.disk.tables, b.disk.manifests[b.disk.current].lastSequence, a.state.m);
  }

  lemma DeleteManifestKeeps(a: World, b: World, n: nat)
    requires Inv(a) && DeleteManifest(a, b, n)
    ensures Inv(b)
  {
    hide Meaning, Agree, LogsOk, LogsMatch, VersionGood, Aged, ReadsAs, RunOk, LiveOk, ManifestOk, ApplyOk;
    NotApplying(b.disk.tables, b.disk.manifests[b.disk.current].lastSequence, a.state.m);
  }

  lemma EndCollectingKeeps(a: World, b: World)
    requires Inv(a) && EndCollecting(a, b)
    ensures Inv(b)
  {
    hide DiskOk, Meaning, LogsMatch, VersionGood, Aged, ReadsAs, RunOk, LiveOk, ApplyOk;
    assert GroupBatch(b.state.m) == GroupBatch(a.state.m);
    NotApplying(b.disk.tables, b.disk.manifests[b.disk.current].lastSequence, b.state.m);
  }

  // ----- crash and recovery -----

  lemma CrashKeeps(a: World, b: World)
    requires Inv(a) && Crash(a, b)
    ensures Inv(b)
  {
    hide Agree, LogsOk, LogsMatch, VersionGood, Aged, ReadsAs, RunOk, LiveOk, ManifestOk, ApplyOk, Meaning, Matches,
      FlushOk, KeepsLogs, RecoveringOk;
    if InLog(a.state) {
      var m := a.state.m;
      assert a.acked <= Accepted(a);
      MeaningExtends(a.acked, a.done, m.group.ops, m.lastSequence + 1);
    }
  }

  lemma TodoIsLogs(todo: seq<Todo>, logs: map<nat, seq<Batch>>, from: nat)
    requires IsLogList(todo, logs, from)
    ensures TodoEntries(todo) == LogEntries(logs, from)
    ensures LogsOrdered(logs, from) ==> TodoOk(todo)
  {
  }

  lemma BeginRecoveryKeeps(a: World, b: World, todo: seq<Todo>)
    requires Inv(a) && BeginRecovery(a, b, todo)
    ensures Inv(b)
  {
    hide Agree, Meaning, ManifestOk, Counted, LogsOrdered;
    var mf := a.disk.manifests[a.disk.current];
    TodoIsLogs(todo, a.disk.logs, mf.logNumber);
    assert EntriesOf([]) == {};
    assert mf.logNumber < mf.nextFile by {
      NumberBelow(mf, a.disk.tables);
    }
  }

  lemma NumberBelow(mf: Manifest, tables: map<nat, File>)
    requires ManifestOk(mf, tables)
    ensures mf.logNumber < mf.nextFile && VersionGood(mf.version) && NumbersBelow(mf.version, mf.nextFile)
    ensures UpTo(VersionEntries(mf.version), mf.lastSequence) && FilesIn(tables, mf.version)
  {
  }

  /** Recovery never finds a table missing. */
  lemma NothingMissing(a: World)
    requires Inv(a)
    ensures a.disk.current in a.disk.manifests && NoneMissing(a.disk, a.disk.manifests[a.disk.current].version)
  {
    hide Agree, Meaning, LogsOk, Counted, UpOk, RecoveringOk;
  }
}
