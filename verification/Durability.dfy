/** Over whole runs: no acknowledged write is lost, readers see what was acknowledged, and no file that
    anything still needs is deleted. */
module Durability {
  import opened Keys
  import opened Versions
  import opened Picking
  import opened Builders
  import opened Installing
  import opened CompactionWork
  import opened CompactionReads
  import opened WriteGroup
  import opened Machine
  import opened Requests
  import opened Invariant
  import opened Running
  import opened RecoveryKeeps

  // ----- every step, every run -----

  lemma WriteStepKeeps(a: World, b: World)
    requires Inv(a) && WriteStep(a, b)
    ensures Inv(b)
  {
    hide Inv, Enqueue, SwitchMemtable, FormGroup, AppendLog, InsertGroup, FinishGroup, FinishFlushRequest;
    if w :| Enqueue(a, b, w) {
      EnqueueKeeps(a, b, w);
    } else if SwitchMemtable(a, b) {
      SwitchMemtableKeeps(a, b);
    } else if count :| FormGroup(a, b, count) {
      FormGroupKeeps(a, b, count);
    } else if AppendLog(a, b) {
      AppendLogKeeps(a, b);
    } else if InsertGroup(a, b) {
      InsertGroupKeeps(a, b);
    } else if FinishGroup(a, b) {
      FinishGroupKeeps(a, b);
    } else {
      FinishFlushRequestKeeps(a, b);
    }
  }

  lemma ReaderStepKeeps(a: World, b: World)
    requires Inv(a) && ReaderStep(a, b)
    ensures Inv(b)
  {
    hide Inv, GetSnapshot, ReleaseSnapshot, PinVersion, UnpinVersion;
    if GetSnapshot(a, b) {
      SnapshotKeeps(a, b, 0);
    } else if s :| ReleaseSnapshot(a, b, s) {
      SnapshotKeeps(a, b, s);
    } else if PinVersion(a, b) {
      PinKeeps(a, b, []);
    } else {
      var u :| UnpinVersion(a, b, u);
      PinKeeps(a, b, u);
    }
  }

  lemma FlushStepKeeps(a: World, b: World)
    requires Inv(a) && FlushStep(a, b)
    ensures Inv(b)
  {
    hide Inv, StartFlush, BuildTable, ApplyFlush, AppendManifest, InstallFlush;
    if StartFlush(a, b) {
      StartFlushKeeps(a, b);
    } else if file :| BuildTable(a, b, file) {
      BuildTableKeeps(a, b, file);
    } else if level, w :| ApplyFlush(a, b, level, w) {
      ApplyFlushKeeps(a, b, level, w);
    } else if AppendManifest(a, b) {
      AppendManifestKeeps(a, b);
    } else {
      InstallFlushKeeps(a, b);
    }
  }

  lemma CompactStepKeeps(a: World, b: World)
    requires Inv(a) && CompactStep(a, b)
    ensures Inv(b)
  {
    hide Inv, StartCompaction, StartMove, OpenOutput, WriteOutput, ApplyCompaction, InstallCompaction, InstallMove;
    if c, ss :| StartCompaction(a, b, c, ss) {
      StartCompactionKeeps(a, b, c, ss);
    } else if c, w :| StartMove(a, b, c, w) {
      StartMoveKeeps(a, b, c, w);
    } else if OpenOutput(a, b) {
      OpenOutputKeeps(a, b);
    } else if f :| WriteOutput(a, b, f) {
      WriteOutputKeeps(a, b, f);
    } else if w :| ApplyCompaction(a, b, w) {
      ApplyCompactionKeeps(a, b, w);
    } else if InstallCompaction(a, b) {
      InstallCompactionKeeps(a, b);
    } else {
      InstallMoveKeeps(a, b);
    }
  }

  lemma CollectStepKeeps(a: World, b: World)
    requires Inv(a) && CollectStep(a, b)
    ensures Inv(b)
  {
    hide Inv, DeleteTable, DeleteLog, DeleteManifest, EndCollecting;
    if n :| DeleteTable(a, b, n) {
      DeleteTableKeeps(a, b, n);
    } else if n :| DeleteLog(a, b, n) {
      DeleteLogKeeps(a, b, n);
    } else if n :| DeleteManifest(a, b, n) {
      DeleteManifestKeeps(a, b, n);
    } else {
      EndCollectingKeeps(a, b);
    }
  }

  lemma RecoveryStepKeeps(a: World, b: World)
    requires Inv(a) && RecoveryStep(a, b)
    ensures Inv(b)
  {
    hide Inv, BeginRecovery, RecoverTable, EndLog, CreateLog, WriteManifest, Open;
    if todo :| BeginRecovery(a, b, todo) {
      BeginRecoveryKeeps(a, b, todo);
    } else if k, file, last :| RecoverTable(a, b, k, file, last) {
      RecoverTableKeeps(a, b, k, file, last);
    } else if EndLog(a, b) {
      EndLogKeeps(a, b);
    } else if CreateLog(a, b) {
      CreateLogKeeps(a, b);
    } else if w :| WriteManifest(a, b, w) {
      WriteManifestKeeps(a, b, w);
    } else {
      OpenKeeps(a, b);
    }
  }

  /** No step breaks the invariant. */
  lemma NextKeeps(a: World, b: World)
    requires Inv(a) && Next(a, b)
    ensures Inv(b)
  {
    hide Inv, WriteStep, ReaderStep, FlushStep, CompactStep, CollectStep, RecoveryStep, Crash;
    if WriteStep(a, b) {
      WriteStepKeeps(a, b);
    } else if ReaderStep(a, b) {
      ReaderStepKeeps(a, b);
    } else if FlushStep(a, b) {
      FlushStepKeeps(a, b);
    } else if CompactStep(a, b) {
      CompactStepKeeps(a, b);
    } else if CollectStep(a, b) {
      CollectStepKeeps(a, b);
    } else if RecoveryStep(a, b) {
      RecoveryStepKeeps(a, b);
    } else {
      CrashKeeps(a, b);
    }
  }

  lemma EmptyTree()
    ensures VersionGood(EMPTY_VERSION) && VersionEntries(EMPTY_VERSION) == {}
  {
    assert VersionOk(map[], EMPTY_VERSION);
  }

  lemma InitKeeps(a: World)
    requires Init(a)
    ensures Inv(a)
  {
    hide VersionGood;
    EmptyTree();
    assert DiskEntries(a.disk) == {};
    assert View({}, 0) == map[];
    forall s
      ensures View({}, s) == map[]
    {
    }
  }

  lemma {:induction false} RunKeeps(run: seq<World>)
    requires IsRun(run)
    ensures Inv(run[|run| - 1])
  {
    hide Inv, Next, Init;
    if |run| == 1 {
      InitKeeps(run[0]);
    } else {
      var init := run[..|run| - 1];
      forall i | 0 <= i < |init| - 1
        ensures Next(init[i], init[i + 1])
      {
        assert init[i] == run[i] && init[i + 1] == run[i + 1];
      }
      RunKeeps(init);
      NextKeeps(run[|run| - 2], run[|run| - 1]);
    }
  }

  // ----- durability -----

  /** What recovery would make of the disk: the visible map at a snapshot that sees everything. */
  ghost function Recovered(d: Disk, s: nat): map<UserKey, Bytes>
    requires d.current in d.manifests
  {
    View(DiskEntries(d), s)
  }

  lemma AcceptedMeans(a: World)
    requires Inv(a)
    ensures Meaning(Accepted(a), AcceptedOps(a))
  {
    hide Agree, LogsOk, LogsMatch, VersionGood, Aged, ReadsAs, RunOk, LiveOk, ManifestOk, ApplyOk, Meaning, Matches,
      FlushOk, KeepsLogs, RecoveringOk;
    CrashKeeps(a, a.(state := Down, acked := Accepted(a), done := AcceptedOps(a)));
  }

  /** At every moment of every run, a crash loses nothing: recovery finds all the files it looks for, and what it reads
      back is the map that the acknowledged operations make, in order, followed at most by the operations of the one
      group in flight. These are the writes that clients asked for since the database was opened, each batch whole, one
      after another from the first on: all of those who have left the queue, and the group once it is in the log. */
  lemma CrashLosesNothing(run: seq<World>, s: nat)
    requires IsRun(run)
    ensures var a := run[|run| - 1];
      && a.disk.current in a.disk.manifests && NoneMissing(a.disk, a.disk.manifests[a.disk.current].version)
      && (UpTo(Accepted(a), s) && a.horizon <= s ==> Recovered(a.disk, s) == ApplyAll(map[], AcceptedOps(a)))
      && (AcceptedOps(a) == a.done || (a.state.Up? && a.state.m.group.Group?
        && AcceptedOps(a) == a.done + a.state.m.group.ops))
    ensures var a := run[|run| - 1]; exists n: nat ::
      && n <= |a.asked|
      && (a.state.Up? ==> n == |a.asked| - |a.state.m.queue| + if InLog(a.state) then a.state.m.group.count else 0)
      && (UpTo(Accepted(a), s) && a.horizon <= s ==>
        Recovered(a.disk, s) == ApplyWriters(ApplyAll(map[], a.base), a.asked[..n]))
  {
    hide Next, Init, RecoveringOk, UpOk, Agree, LogsOk, ManifestOk, Counted, NoneMissing;
    AcceptedIsAsked(run);
    RunKeeps(run);
    var a := run[|run| - 1];
    NothingMissing(a);
    AcceptedMeans(a);
    if UpTo(Accepted(a), s) && a.horizon <= s {
      DistinctIsUnique(Accepted(a));
      AgreeViews(DiskEntries(a.disk), Accepted(a), a.horizon, s);
    }
  }

  /** Opening after the crash gives back that map: the operations accepted before are the finished ones now, and
      reads at the new last sequence number see exactly them. */
  lemma OpenReadsBack(run: seq<World>)
    requires IsRun(run) && |run| >= 2 && Open(run[|run| - 2], run[|run| - 1])
    ensures var a, b := run[|run| - 2], run[|run| - 1];
      && b.done == a.done && b.base == a.done && b.asked == []
      && View(VersionEntries(b.state.m.version), b.state.m.lastSequence) == ApplyAll(map[], b.done)
  {
    hide Next, Init, RecoveringOk, DiskOk;
    RunKeeps(run);
    var b := run[|run| - 1];
    ReadersSee(b, b.state.m.lastSequence);
    assert VersionEntries(b.state.m.version) + (b.state.m.imm + b.state.m.mem) == VersionEntries(b.state.m.version);
  }

  // ----- readers -----

  lemma InFlightUnseen(acked: set<Entry>, batch: set<Entry>, last: nat, s: nat, k: UserKey, v: Bytes)
    requires Above(batch, last) && s <= last
    ensures Shows(acked + batch, s, k, v) <==> Shows(acked, s, k, v)
  {
    if Shows(acked, s, k, v) {
      var e :| Newest(acked, s, e) && e.key.user == k && e.key.kind == Value && e.value == v;
      assert Newest(acked + batch, s, e);
    }
    if Shows(acked + batch, s, k, v) {
      var e :| Newest(acked + batch, s, e) && e.key.user == k && e.key.kind == Value && e.value == v;
      assert Newest(acked, s, e);
    }
  }

  lemma HeldReads(held: set<Entry>, acked: set<Entry>, batch: set<Entry>, last: nat, horizon: nat, s: nat)
    requires ReadsAs(held, acked + batch, horizon) && Above(batch, last) && horizon <= s <= last
    requires Distinct(acked + batch)
    ensures View(held, s) == View(acked, s)
  {
    DistinctIsUnique(acked + batch);
    forall k, v
      ensures Shows(held, s, k, v) <==> Shows(acked, s, k, v)
    {
      InFlightUnseen(acked, batch, last, s, k, v);
    }
    SameReads(held, acked, s);
  }

  /** Whatever the memtables and the version have been through, a reader at a held snapshot, or at the last sequence
      number, sees the finished writes as of then; at the last one, the map the finished operations make. */
  lemma ReadersSee(a: World, s: nat)
    requires Inv(a) && a.state.Up? && (s in a.state.m.snapshots || s == a.state.m.lastSequence)
    ensures var m := a.state.m;
      && View(VersionEntries(m.version) + (m.imm + m.mem), s) == View(a.acked, s)
      && (s == m.lastSequence ==> View(a.acked, s) == ApplyAll(map[], a.done))
  {
    hide Agree, ReadsAs, LogsOk, LogsMatch, VersionGood, RunOk, LiveOk, ManifestOk, ApplyOk, Matches, FlushOk,
      KeepsLogs, Aged;
    var m := a.state.m;
    BatchAbove(m);
    assert Distinct(a.acked + Inserting(m));
    HeldReads(VersionEntries(m.version) + (m.imm + m.mem), a.acked, Inserting(m), m.lastSequence, a.horizon, s);
  }

  /** Every reachable state meets what a point lookup asks of it. */
  lemma LookupsAllowed(a: World)
    requires Inv(a) && a.state.Up?
    ensures var m := a.state.m; var tables := VersionEntries(m.version);
      && TreeOk(m.version) && NewerThan(m.mem, m.imm + tables) && NewerThan(m.imm, tables)
        && Unique(m.mem + m.imm + tables)
  {
    hide Agree, LogsOk, LogsMatch, RunOk, LiveOk, ManifestOk, ApplyOk, Matches, FlushOk, KeepsLogs;
    var m := a.state.m;
    var tables := VersionEntries(m.version);
    LaterIsNewer(m.mem, m.imm + tables);
    LaterIsNewer(m.imm, tables);
    assert m.mem + m.imm + tables <= Accepted(a);
    DistinctIsUnique(m.mem + m.imm + tables);
  }

  /** So it is in every run: readers at a held snapshot see the finished writes as of then, and point lookups may rely
      on the order of memtables and version. */
  lemma RunReadersSee(run: seq<World>, s: nat)
    requires IsRun(run) && run[|run| - 1].state.Up?
    requires var m := run[|run| - 1].state.m; s in m.snapshots || s == m.lastSequence
    ensures var a := run[|run| - 1]; var m := a.state.m;
      && View(VersionEntries(m.version) + (m.imm + m.mem), s) == View(a.acked, s)
      && (s == m.lastSequence ==> View(a.acked, s) == ApplyAll(map[], a.done))
      && TreeOk(m.version) && NewerThan(m.mem, m.imm + VersionEntries(m.version))
        && NewerThan(m.imm, VersionEntries(m.version))
  {
    hide Inv, Next, Init, View, ApplyAll, TreeOk, NewerThan;
    RunKeeps(run);
    ReadersSee(run[|run| - 1], s);
    LookupsAllowed(run[|run| - 1]);
  }

  // ----- snapshots stay as they were -----

  lemma WriteStepUnseen(a: World, b: World, s: nat, k: UserKey, v: Bytes)
    requires WriteStep(a, b) && a.state.Up? && s <= a.state.m.lastSequence
    ensures b.state.Up? && s <= b.state.m.lastSequence
    ensures Shows(b.acked, s, k, v) <==> Shows(a.acked, s, k, v)
  {
    hide IsGroup, OpsOf, Shows, GroupBatch, Stamp;
    BatchAbove(a.state.m);
    if FinishGroup(a, b) {
      InFlightUnseen(a.acked, SetOf(GroupBatch(a.state.m)), a.state.m.lastSequence, s, k, v);
    }
  }

  /** While the database stays open, no step changes what a reader at an earlier number sees of the finished writes. */
  lemma StepUnseen(a: World, b: World, s: nat, k: UserKey, v: Bytes)
    requires Next(a, b) && a.state.Up? && b.state.Up? && s <= a.state.m.lastSequence
    ensures s <= b.state.m.lastSequence
    ensures Shows(b.acked, s, k, v) <==> Shows(a.acked, s, k, v)
  {
    hide WriteStep, ReaderStep, FlushStep, CompactStep, CollectStep, Shows, AcceptedOps, Accepted;
    if WriteStep(a, b) {
      WriteStepUnseen(a, b, s, k, v);
    } else if RecoveryStep(a, b) {
      assert false;
    } else if !Crash(a, b) {
      OthersTouchNothing(a, b);
    }
  }

  lemma {:induction false} RunUnseen(run: seq<World>, i: nat, j: nat, s: nat, k: UserKey, v: Bytes)
    requires IsRun(run) && i <= j < |run| && (forall n :: i <= n <= j ==> run[n].state.Up?)
    requires s <= run[i].state.m.lastSequence
    ensures s <= run[j].state.m.lastSequence && (Shows(run[j].acked, s, k, v) <==> Shows(run[i].acked, s, k, v))
  {
    hide Next, Init, Shows;
    if i < j {
      RunUnseen(run, i, j - 1, s, k, v);
      assert Next(run[j - 1], run[j - 1 + 1]);
      StepUnseen(run[j - 1], run[j], s, k, v);
    }
  }

  lemma AckedUnique(a: World)
    requires Inv(a) && a.state.Up?
    ensures Unique(a.acked)
  {
    hide Agree, LogsOk, LogsMatch, VersionGood, Aged, ReadsAs, RunOk, LiveOk, ManifestOk, ApplyOk, Matches,
      FlushOk, KeepsLogs;
    assert a.acked <= Accepted(a);
    DistinctIsUnique(Accepted(a));
    assert Unique(a.acked);
  }

  lemma PrefixIsRun(run: seq<World>, i: nat)
    requires IsRun(run) && i < |run|
    ensures IsRun(run[..i + 1]) && run[..i + 1][|run[..i + 1]| - 1] == run[i]
  {
    hide Next, Init;
    var before := run[..i + 1];
    forall n | 0 <= n < |before| - 1
      ensures Next(before[n], before[n + 1])
    {
      assert before[n] == run[n] && before[n + 1] == run[n + 1];
    }
  }

  /** A snapshot is the moment it was taken: for as long as it is held, and whatever is written, flushed and compacted
      meanwhile, a reader at it sees the map of the operations that were finished then, no more and no less. */
  lemma SnapshotStable(run: seq<World>, i: nat, j: nat)
    requires IsRun(run) && i < j < |run| && GetSnapshot(run[i], run[i + 1])
    requires forall n :: i <= n <= j ==> run[n].state.Up?
    requires run[i].state.m.lastSequence in run[j].state.m.snapshots
    ensures run[i].state.m.lastSequence in run[i + 1].state.m.snapshots
    ensures var m := run[j].state.m;
      View(VersionEntries(m.version) + (m.imm + m.mem), run[i].state.m.lastSequence) == ApplyAll(map[], run[i].done)
  {
    hide Inv, Next, Init, View, Shows, ApplyAll, TreeOk, NewerThan;
    var s := run[i].state.m.lastSequence;
    PrefixIsRun(run, i);
    PrefixIsRun(run, j);
    RunReadersSee(run[..i + 1], s);
    RunReadersSee(run[..j + 1], s);
    RunKeeps(run[..i + 1]);
    RunKeeps(run[..j + 1]);
    AckedUnique(run[i]);
    AckedUnique(run[j]);
    forall k, v
      ensures Shows(run[j].acked, s, k, v) <==> Shows(run[i].acked, s, k, v)
    {
      RunUnseen(run, i, j, s, k, v);
    }
    SameReads(run[j].acked, run[i].acked, s);
  }

  // ----- file garbage -----

  /** The table belongs to the version recovery would start from, to a version in use, or to a compaction's output. */
  ghost predicate NeedsTable(a: World, n: nat) {
    || (a.disk.current in a.disk.manifests && UsesNumber(a.disk.manifests[a.disk.current].version, n))
    || (a.state.Up? && exists u :: IsLive(a.state.m, u) && UsesNumber(u, n))
    || (a.state.Up? && Taken(a.state.m.run, n))
  }

  lemma DeletedIsGarbage(a: World, b: World, n: nat)
    requires Inv(a)
    ensures DeleteTable(a, b, n) ==> !NeedsTable(a, n)
    ensures DeleteLog(a, b, n) ==> n < a.disk.manifests[a.disk.current].logNumber
    ensures DeleteManifest(a, b, n) ==> n != a.disk.current
  {
    hide Agree, LogsOk, LogsMatch, VersionGood, LiveOk, ManifestOk, ApplyOk, FlushOk, KeepsLogs, ReadsAs, Aged,
      UsesNumber;
    if DeleteTable(a, b, n) {
      assert IsLive(a.state.m, a.state.m.version);
    }
  }

  /** In every run, a file is deleted only when nothing needs it: no table in use, no log or manifest recovery would
      read. */
  lemma DeletesOnlyGarbage(run: seq<World>, n: nat)
    requires IsRun(run) && |run| >= 2
    ensures var a, b := run[|run| - 2], run[|run| - 1];
      && (DeleteTable(a, b, n) ==> !NeedsTable(a, n))
      && a.disk.current in a.disk.manifests
      && (DeleteLog(a, b, n) ==> n < a.disk.manifests[a.disk.current].logNumber)
      && (DeleteManifest(a, b, n) ==> n != a.disk.current)
  {
    hide Inv, Next, Init, NeedsTable, DeleteTable, DeleteLog, DeleteManifest;
    var before := run[..|run| - 1];
    assert IsRun(before);
    RunKeeps(before);
    NothingMissing(before[|before| - 1]);
    DeletedIsGarbage(run[|run| - 2], run[|run| - 1], n);
  }

  // ----- the version builder always has what it needs -----

  lemma TablesCatalogue(tables: map<nat, File>, v: Version)
    requires VersionGood(v) && FilesIn(tables, v)
    ensures VersionOk(tables, v)
  {
    var names :| VersionOk(names, v);
  }

  /** The files on disk are the catalogue under which a flush can be applied. */
  lemma FlushFits(a: World, level: nat)
    requires a.state.Up? && a.state.m.bg.Built? && a.state.m.bg.file != [] && level < NUM_LEVELS && Inv(a)
    ensures var v, e := a.state.m.version, FlushEdit(level, a.state.m.bg.file[0]);
      VersionOk(a.disk.tables, v) && KnownEdit(a.disk.tables, e) && AddsNew(v, e)
  {
    hide Inv, VersionOk, KnownEdit, AddsNew;
    var m := a.state.m;
    BuiltParts(a);
    TablesCatalogue(a.disk.tables, m.version);
    GoodLevels(m.version);
    NewFileFits(a.disk.tables, m.version, m.bg.file[0], level);
  }

  lemma BuiltParts(a: World)
    requires a.state.Up? && a.state.m.bg.Built? && a.state.m.bg.file != [] && Inv(a)
    ensures VersionGood(a.state.m.version) && FilesIn(a.disk.tables, a.state.m.version)
    ensures var f := a.state.m.bg.file[0];
      f.Ok() && f.number in a.disk.tables && a.disk.tables[f.number] == f && NumbersBelow(a.state.m.version, f.number)
  {
    hide Agree, LogsOk, LogsMatch, VersionGood, RunOk, ManifestOk, ApplyOk, KeepsLogs, ReadsAs, Aged, FilesIn,
      NumbersBelow, DiskOk;
  }

  lemma NewFileFits(tables: map<nat, File>, v: Version, f: File, level: nat)
    requires |v| == NUM_LEVELS && f.Ok() && f.number in tables && tables[f.number] == f && NumbersBelow(v, f.number)
    requires level < NUM_LEVELS
    ensures KnownEdit(tables, FlushEdit(level, f)) && AddsNew(v, FlushEdit(level, f))
  {
    var e := FlushEdit(level, f);
    assert e.added == [(level, f)];
    forall l, g | 0 <= l < NUM_LEVELS && Adds(e, l, g)
      ensures g !in v[l]
    {
      assert g == f;
    }
  }

  /** And so can a finished compaction. */
  lemma CompactionFits(a: World)
    requires a.state.Up? && a.state.m.bg.Quiet? && a.state.m.run.Run? && Finished(a.state.m.run) && Inv(a)
    ensures var v, e := a.state.m.version, CompactionEdit(a.state.m.run.c, a.state.m.run.outs);
      |v| == NUM_LEVELS && VersionOk(a.disk.tables, v) && KnownEdit(a.disk.tables, e) && AddsNew(v, e)
  {
    hide Agree, LogsOk, LogsMatch, VersionGood, ManifestOk, ApplyOk, KeepsLogs, ReadsAs, Aged, VersionOk,
      Revived, Since, Keeps;
    var m := a.state.m;
    var e := CompactionEdit(m.run.c, m.run.outs);
    TablesCatalogue(a.disk.tables, m.version);
    GoodLevels(m.version);
    OutsFresh(a.disk.tables, m.version, m.run, m.pending, m.nextFile, a.horizon);
    forall i | 0 <= i < |e.added|
      ensures Known(a.disk.tables, [e.added[i].1]) && e.added[i].1.Ok()
    {
      assert e.added[i].1 == m.run.outs[i];
    }
    forall l, g | 0 <= l < NUM_LEVELS && Adds(e, l, g)
      ensures g !in m.version[l]
    {
      assert g in m.run.outs && l == m.run.c.level + 1;
    }
  }
}
