/** What every reachable state of the database machine keeps, on disk and in memory. */
module Invariant {
  import opened Keys
  import opened Versions
  import opened Picking
  import opened Builders
  import opened Installing
  import opened CompactionWork
  import opened CompactionReads
  import opened WriteGroup
  import opened Machine

  // ----- sets of entries that read alike -----

  /** From snapshot `h` on, the two sets show the same values. */
  ghost predicate Agree(a: set<Entry>, b: set<Entry>, h: nat) {
    forall s: nat, k, v :: h <= s ==> (Shows(a, s, k, v) <==> Shows(b, s, k, v))
  }

  ghost predicate Distinct(es: set<Entry>) {
    forall x, y :: x in es && y in es && x.key.sn == y.key.sn ==> x == y
  }

  ghost predicate Later(a: set<Entry>, b: set<Entry>) {
    forall x, y :: x in a && y in b ==> x.key.sn > y.key.sn
  }

  lemma LaterIsNewer(a: set<Entry>, b: set<Entry>)
    requires Later(a, b)
    ensures NewerThan(a, b) && a !! b
  {
  }

  lemma DistinctIsUnique(es: set<Entry>)
    requires Distinct(es)
    ensures Unique(es)
  {
  }

  lemma ShowsExtends(a: set<Entry>, b: set<Entry>, more: set<Entry>, s: nat, k: UserKey, v: Bytes)
    requires Later(more, a) && Later(more, b)
    requires Shows(a, s, k, v) ==> Shows(b, s, k, v)
    requires Shows(a + more, s, k, v)
    ensures Shows(b + more, s, k, v)
  {
  }

  /** Newer writes keep agreeing sets in agreement. */
  lemma AgreeExtends(a: set<Entry>, b: set<Entry>, more: set<Entry>, h: nat)
    requires Agree(a, b, h) && Later(more, a) && Later(more, b)
    ensures Agree(a + more, b + more, h)
  {
    forall s: nat, k, v | h <= s
      ensures Shows(a + more, s, k, v) <==> Shows(b + more, s, k, v)
    {
      if Shows(a + more, s, k, v) {
        ShowsExtends(a, b, more, s, k, v);
      }
      if Shows(b + more, s, k, v) {
        ShowsExtends(b, a, more, s, k, v);
      }
    }
  }

  lemma AgreeTrans(a: set<Entry>, b: set<Entry>, c: set<Entry>, h: nat, g: nat)
    requires Agree(a, b, h) && Agree(b, c, g)
    ensures Agree(a, c, if h <= g then g else h)
  {
  }

  lemma ShowsBeyond(a: set<Entry>, n: nat, s: nat, t: nat, k: UserKey, v: Bytes)
    requires UpTo(a, n) && n <= s && n <= t && Shows(a, s, k, v)
    ensures Shows(a, t, k, v)
  {
  }

  /** Past their last sequence number, sets read as at any later snapshot. */
  lemma AgreeBeyond(a: set<Entry>, b: set<Entry>, h: nat, n: nat)
    requires Agree(a, b, h) && UpTo(a, n) && UpTo(b, n)
    ensures Agree(a, b, n)
  {
    forall s: nat, k, v | n <= s
      ensures Shows(a, s, k, v) <==> Shows(b, s, k, v)
    {
      var t := if s <= h then h else s;
      if Shows(a, s, k, v) {
        ShowsBeyond(a, n, s, t, k, v);
        ShowsBeyond(b, n, t, s, k, v);
      }
      if Shows(b, s, k, v) {
        ShowsBeyond(b, n, s, t, k, v);
        ShowsBeyond(a, n, t, s, k, v);
      }
    }
  }

  lemma AgreeViews(a: set<Entry>, b: set<Entry>, h: nat, s: nat)
    requires Agree(a, b, h) && Unique(a) && Unique(b) && h <= s
    ensures View(a, s) == View(b, s)
  {
    SameReads(a, b, s);
  }

  /** An installed compaction reads as before, whatever newer data lies above. */
  lemma CompactionAgrees(upper: set<Entry>, v0: Version, c: Compaction, kept: set<Entry>, v: Version, outs: Level,
          w: Version, ss: nat)
    requires Since(v0, c, kept, v) && TreeOk(v) && (forall k :: !Revived(v0, c, ss, k))
    requires Later(upper, VersionEntries(v))
    requires Distinct(upper + VersionEntries(v))
    requires Keeps(c, outs, DeeperLevels(v0, c), ss) && Compacted(v, c, outs, w)
    ensures VersionEntries(w) <= VersionEntries(v)
    ensures Agree(VersionEntries(w) + upper, VersionEntries(v) + upper, ss)
  {
    LaterIsNewer(upper, VersionEntries(v));
    DistinctIsUnique(upper + VersionEntries(v));
    InstalledEntries(v0, c, kept, v, outs, w);
    var all, less := upper + VersionEntries(v), upper + VersionEntries(w);
    assert VersionEntries(v) + upper == all && VersionEntries(w) + upper == less;
    forall s: nat, k, u | ss <= s
      ensures Shows(less, s, k, u) <==> Shows(all, s, k, u)
    {
      CompactionIsInvisible(upper, v0, c, kept, v, outs, w, ss, s);
      ViewShows(all, s, k, u);
      ViewShows(less, s, k, u);
    }
  }

  // ----- files -----

  ghost predicate Catalogued(v: Version) {
    exists names :: VersionOk(names, v)
  }

  ghost predicate VersionGood(v: Version) {
    TreeOk(v) && Catalogued(v)
  }

  /** Every file of the version is on disk. */
  ghost predicate FilesIn(tables: map<nat, File>, v: Version) {
    forall l, f :: 0 <= l < |v| && f in v[l] ==> f.number in tables && tables[f.number] == f
  }

  ghost predicate NumbersBelow(v: Version, n: nat) {
    forall l, f :: 0 <= l < |v| && f in v[l] ==> f.number < n
  }

  lemma BelowIsUnused(v: Version, n: nat, k: nat)
    requires NumbersBelow(v, n) && n <= k
    ensures !UsesNumber(v, k)
  {
  }

  // ----- the disk -----

  ghost predicate BatchesOrdered(bs: seq<Batch>) {
    forall i, j :: 0 <= i < j < |bs| ==> Later(SetOf(bs[j]), SetOf(bs[i]))
  }

  ghost predicate LogsOrdered(logs: map<nat, seq<Batch>>, from: nat) {
    && (forall n :: n in logs && from <= n ==> BatchesOrdered(logs[n]))
    && forall n, p :: n in logs && p in logs && from <= n < p ==> Later(BatchEntries(logs[p]), BatchEntries(logs[n]))
  }

  /** What recovery would find. */
  ghost function DiskEntries(d: Disk): set<Entry>
    requires d.current in d.manifests
  {
    VersionEntries(d.manifests[d.current].version) + LogEntries(d.logs, d.manifests[d.current].logNumber)
  }

  ghost predicate ManifestOk(mf: Manifest, tables: map<nat, File>) {
    && VersionGood(mf.version) && FilesIn(tables, mf.version)
    && NumbersBelow(mf.version, mf.nextFile) && mf.logNumber < mf.nextFile
    && UpTo(VersionEntries(mf.version), mf.lastSequence)
  }

  ghost predicate LogsOk(logs: map<nat, seq<Batch>>, mf: Manifest) {
    LogsOrdered(logs, mf.logNumber) && Later(LogEntries(logs, mf.logNumber), VersionEntries(mf.version))
  }

  /** No accepted write has a higher sequence number than recovery would find. */
  ghost predicate Counted(accepted: set<Entry>, logs: map<nat, seq<Batch>>, mf: Manifest) {
    forall e :: e in accepted ==> e.key.sn <= mf.lastSequence || e in LogEntries(logs, mf.logNumber)
  }

  ghost predicate DiskOk(d: Disk, accepted: set<Entry>, horizon: nat) {
    && d.current in d.manifests
    && var mf := d.manifests[d.current];
    && d.current < mf.nextFile && ManifestOk(mf, d.tables) && LogsOk(d.logs, mf) && Counted(accepted, d.logs, mf)
    && Distinct(accepted) && DiskEntries(d) <= accepted && Agree(DiskEntries(d), accepted, horizon)
  }

  // ----- the memory -----

  /** The manifest on disk is the version in memory, or the one about to be installed. */
  ghost predicate Matches(mf: Manifest, version: Version, logNumber: nat, nextFile: nat, lastSequence: nat,
          bg: Background)
  {
    && mf.nextFile <= nextFile && mf.lastSequence <= lastSequence
    && if bg.Applying? && bg.appended then mf == Manifest(bg.w, bg.log, bg.nextFile, bg.lastSequence)
       else mf.version == version && mf.logNumber == logNumber
  }

  /** What is in the log but not yet in the memtable. */
  ghost function LoggedOnly(m: Memory): set<Entry> {
    if m.group.Group? && m.group.stage == Logged then SetOf(GroupBatch(m)) else {}
  }

  ghost predicate LogsMatch(logs: map<nat, seq<Batch>>, logNumber: nat, memLog: nat, nextFile: nat,
                            hasImm: bool, imm: set<Entry>, current: set<Entry>) {
    && memLog in logs && logNumber <= memLog < nextFile
    && (forall n :: n in logs ==> n <= memLog)
    && BatchEntries(logs[memLog]) == current
    && LogEntries(logs, logNumber) == imm + current
    && (!hasImm ==> imm == {})
  }

  ghost function Inserting(m: Memory): set<Entry> {
    if m.group.Group? && m.group.stage == Inserted then SetOf(GroupBatch(m)) else {}
  }

  /** Data ages from memtable to immutable memtable to version. */
  ghost predicate Aged(mem: set<Entry>, imm: set<Entry>, tables: set<Entry>, lastSequence: nat) {
    && Later(mem, imm) && Later(mem, tables) && Later(imm, tables)
    && UpTo(imm, lastSequence) && UpTo(tables, lastSequence)
  }

  /** Memory holds accepted writes only, and reads as they do. */
  ghost predicate ReadsAs(held: set<Entry>, accepted: set<Entry>, horizon: nat) {
    held <= accepted && Agree(held, accepted, horizon)
  }

  ghost predicate HeldOk(tables: map<nat, File>, u: Version, pending: set<nat>, nextFile: nat) {
    FilesIn(tables, u) && NumbersBelow(u, nextFile) && forall n :: n in pending ==> !UsesNumber(u, n)
  }

  /** Every version in use has its files, and no pending number is one of theirs. */
  ghost predicate LiveOk(tables: map<nat, File>, version: Version, pinned: multiset<Version>, run: Run,
                         pending: set<nat>, nextFile: nat) {
    && HeldOk(tables, version, pending, nextFile)
    && (forall u :: u in pinned ==> HeldOk(tables, u, pending, nextFile))
    && (run.Run? ==> HeldOk(tables, run.start, pending, nextFile))
    && forall n :: n in pending ==> n < nextFile
  }

  /** The version is the one the compaction started on and what was flushed since, clear of what it keeps. */
  ghost predicate RunSince(run: Run, version: Version)
    requires run.Run?
  {
    Since(run.start, run.c, KeptBy(run.start, run.c, run.smallest), version)
  }

  ghost predicate RunOk(tables: map<nat, File>, version: Version, run: Run, pending: set<nat>, horizon: nat) {
    run.Run? ==>
      && run.smallest <= horizon
      && RunSince(run, version) && (forall k :: !Revived(run.start, run.c, run.smallest, k)) && run.taken <= pending
      && forall o :: o in run.outs ==> o.number in run.taken && o.number in tables && tables[o.number] == o
  }

  ghost predicate Taken(run: Run, n: nat) {
    run.Run? && n in run.taken
  }

  ghost predicate BuiltOk(tables: map<nat, File>, imm: set<Entry>, number: nat, file: seq<File>) {
    if imm == {} then file == []
    else
      && |file| == 1 && file[0].Ok() && file[0].number == number && SetOf(file[0].entries) == imm
      && number in tables && tables[number] == file[0]
  }

  /** A flush has taken a number above all those of the version. */
  ghost predicate FlushNumber(version: Version, hasImm: bool, pending: set<nat>, run: Run, number: nat) {
    hasImm && number in pending && !Taken(run, number) && NumbersBelow(version, number)
  }

  /** A flush in progress: its table number is pending, then its table is on disk. */
  ghost predicate FlushOk(tables: map<nat, File>, version: Version, hasImm: bool, imm: set<Entry>, pending: set<nat>,
          run: Run, bg: Background)
  {
    && (bg.Building? ==> FlushNumber(version, hasImm, pending, run, bg.number))
    && (bg.Built? ==> FlushNumber(version, hasImm, pending, run, bg.number) && BuiltOk(tables, imm, bg.number, bg.file))
  }

  /** What the version about to be installed holds. */
  ghost predicate Makes(source: Source, w: Version, version: Version, imm: set<Entry>, run: Run) {
    match source
    case Flush => VersionEntries(w) == VersionEntries(version) + imm && (run.Run? ==> RunSince(run, w))
    case Compact => run.Run? && Finished(run) && Compacted(version, run.c, run.outs, w)
    case Move => run.NoRun? && VersionEntries(w) == VersionEntries(version)
  }

  /** Which logs the edit in progress still needs, and that its last sequence number covers the others. */
  ghost predicate KeepsLogs(bg: Background, hasImm: bool, imm: set<Entry>, logNumber: nat, memLog: nat) {
    bg.Applying? ==>
      if bg.source == Flush then hasImm && bg.log == memLog && UpTo(imm, bg.lastSequence) else bg.log == logNumber
  }

  ghost predicate ApplyOk(tables: map<nat, File>, last: nat, manifest: nat, version: Version, imm: set<Entry>,
                          nextFile: nat, lastSequence: nat, pending: set<nat>, run: Run, bg: Background) {
    bg.Applying? ==>
      && last <= bg.lastSequence <= lastSequence && manifest < bg.nextFile <= nextFile
      && ManifestOk(Manifest(bg.w, bg.log, bg.nextFile, bg.lastSequence), tables)
      && (forall n :: n in pending && UsesNumber(bg.w, n) ==> bg.source == Compact && Taken(run, n))
      && Makes(bg.source, bg.w, version, if bg.source == Flush then imm else {}, run)
  }

  ghost predicate SnapshotsOk(snapshots: multiset<nat>, lastSequence: nat, horizon: nat) {
    horizon <= lastSequence && forall s :: s in snapshots ==> horizon <= s <= lastSequence
  }

  ghost predicate UpOk(d: Disk, m: Memory, acked: set<Entry>, horizon: nat) {
    && d.current == m.manifest && d.current in d.manifests
    && var mf := d.manifests[d.current];
    && Matches(mf, m.version, m.logNumber, m.nextFile, m.lastSequence, m.bg)
    && LogsMatch(d.logs, m.logNumber, m.memLog, m.nextFile, m.hasImm, m.imm, m.mem + LoggedOnly(m))
    && Aged(m.mem, m.imm, VersionEntries(m.version), m.lastSequence) && UpTo(acked, m.lastSequence)
    && ReadsAs(VersionEntries(m.version) + (m.imm + m.mem), acked + Inserting(m), horizon)
    && VersionGood(m.version) && LiveOk(d.tables, m.version, m.pinned, m.run, m.pending, m.nextFile)
    && RunOk(d.tables, m.version, m.run, m.pending, horizon)
    && FlushOk(d.tables, m.version, m.hasImm, m.imm, m.pending, m.run, m.bg)
    && KeepsLogs(m.bg, m.hasImm, m.imm, m.logNumber, m.memLog)
    && ApplyOk(d.tables, mf.lastSequence, m.manifest, m.version, m.imm, m.nextFile, m.lastSequence, m.pending, m.run,
      m.bg)
    && SnapshotsOk(m.snapshots, m.lastSequence, horizon)
    && (m.run.Run? ==> Unexposed(m.run.start, m.run.c, m.run.smallest, m.overlapLimit))
  }

  // ----- recovery -----

  ghost function TodoEntries(todo: seq<Todo>): set<Entry> {
    set t, e | t in todo && e in BatchEntries(t.batches) :: e
  }

  ghost predicate TodoOk(todo: seq<Todo>) {
    && (forall i :: 0 <= i < |todo| ==> BatchesOrdered(todo[i].batches))
    && forall i, j :: 0 <= i < j < |todo| ==> Later(BatchEntries(todo[j].batches), BatchEntries(todo[i].batches))
  }

  /** The tables made so far, each newer than those before and than the version. */
  ghost predicate AddedOk(tables: map<nat, File>, v: Version, added: Level, low: nat, high: nat) {
    && (forall i :: 0 <= i < |added| ==> added[i].Ok() && low < added[i].number < high)
    && (forall i :: 0 <= i < |added| ==> added[i].number in tables && tables[added[i].number] == added[i])
    && (forall i, j :: 0 <= i < j < |added| ==>
          added[i].number < added[j].number && Later(SetOf(added[j].entries), SetOf(added[i].entries)))
  }

  /** Every log not yet read is still on the list, and every other one lies below the next file number. */
  ghost predicate Tracked(logs: map<nat, seq<Batch>>, todo: seq<Todo>, nextFile: nat) {
    forall n :: n in logs ==> n < nextFile || exists t :: t in todo && t.number == n
  }

  ghost predicate PhaseOk(d: Disk, r: Recovery) {
    match r.phase
    case Replaying => true
    case Ready(log) =>
      && r.todo == [] && d.current < log < r.nextFile && log in d.logs && d.logs[log] == []
      && forall n :: n in d.logs ==> n <= log
    case Written(log, w) =>
      && r.todo == [] && d.current < log < r.nextFile && log in d.logs && d.logs[log] == []
      && (forall n :: n in d.logs ==> n <= log)
      && VersionEntries(w) == VersionEntries(r.version) + EntriesOf(r.added)
      && r.manifest in d.manifests && d.manifests[r.manifest] == Manifest(w, log, r.nextFile, r.lastSequence)
      && ManifestOk(d.manifests[r.manifest], d.tables)
  }

  ghost predicate RecoveringOk(d: Disk, r: Recovery) {
    && d.current in d.manifests
    && var mf := d.manifests[d.current];
    && r.version == mf.version && r.manifest == mf.nextFile < r.nextFile && mf.lastSequence <= r.lastSequence
    && AddedOk(d.tables, r.version, r.added, mf.nextFile, r.nextFile)
    && LogEntries(d.logs, mf.logNumber) == EntriesOf(r.added) + TodoEntries(r.todo)
    && Later(TodoEntries(r.todo), EntriesOf(r.added)) && TodoOk(r.todo)
    && UpTo(EntriesOf(r.added), r.lastSequence)
    && Tracked(d.logs, r.todo, r.nextFile)
    && PhaseOk(d, r)
  }

  // ----- the invariant -----

  ghost predicate Meaning(es: set<Entry>, ops: seq<Op>) {
    forall s :: UpTo(es, s) ==> View(es, s) == ApplyAll(map[], ops)
  }

  ghost predicate Inv(a: World) {
    && DiskOk(a.disk, Accepted(a), a.horizon) && Meaning(a.acked, a.done)
    && match a.state
       case Down => true
       case Recovering(r) => RecoveringOk(a.disk, r)
       case Up(m) => UpOk(a.disk, m, a.acked, a.horizon)
  }
}
