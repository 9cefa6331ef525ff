/** The database as a state machine. A step is what happens under one hold of the mutex, or one file
    operation made while the mutex is released; a crash may come between any two. */
module Machine {
  import opened Keys
  import opened Versions
  import opened Overlap
  import opened Picking
  import opened Builders
  import opened Installing
  import opened CompactionReads
  import opened WriteGroup

  type Version = seq<Level>
  type Batch = seq<Entry>

  // ----- the disk -----

  /** What replaying a manifest file gives (ReplayManifest). */
  datatype Manifest = Manifest(version: Version, logNumber: nat, nextFile: nat, lastSequence: nat)

  /** Logs and tables by number, manifests by number, and the manifest that CURRENT names. */
  datatype Disk = Disk(logs: map<nat, seq<Batch>>, tables: map<nat, File>, manifests: map<nat, Manifest>, current: nat)

  ghost function BatchEntries(batches: seq<Batch>): set<Entry> {
    set b, e | b in batches && e in b :: e
  }

  /** All that logs numbered `from` or higher hold. */
  ghost function LogEntries(logs: map<nat, seq<Batch>>, from: nat): set<Entry> {
    set n, e | n in logs && from <= n && e in BatchEntries(logs[n]) :: e
  }

  // ----- the memory -----

  datatype Stage = Formed | Logged | Inserted

  /** The group of writers being written by the one at the front of the queue. */
  datatype Group = NoGroup | Group(ops: seq<Op>, count: nat, stage: Stage)

  datatype Source = Flush | Compact | Move

  /** Where the background thread is: building a table from the immutable memtable, in LogAndApply with
      the mutex released (before or after its record reaches the manifest), or deleting files. */
  datatype Background =
    | Quiet
    | Building(number: nat)
    | Built(number: nat, file: seq<File>)
    | Applying(source: Source, w: Version, log: nat, nextFile: nat, lastSequence: nat, appended: bool)
    | Collecting

  /** The compaction whose loop is running, if any: its inputs, its version, the smallest snapshot, the
      output numbers taken so far and the outputs written so far. */
  datatype Run = NoRun | Run(c: Compaction, start: Version, smallest: nat, taken: set<nat>, outs: Level)

  datatype Memory = Memory(
    mem: set<Entry>, memLog: nat, hasImm: bool, imm: set<Entry>,
    version: Version, logNumber: nat, manifest: nat, nextFile: nat, lastSequence: nat,
    pending: set<nat>, snapshots: multiset<nat>, pinned: multiset<Version>,
    queue: seq<Writer>, group: Group, bg: Background, run: Run, overlapLimit: nat)

  /** What recovery still has to replay of one log. */
  datatype Todo = Todo(number: nat, batches: seq<Batch>)

  datatype Phase = Replaying | Ready(log: nat) | Written(log: nat, w: Version)

  datatype Recovery = Recovery(
    version: Version, added: Level, todo: seq<Todo>, nextFile: nat, lastSequence: nat, manifest: nat, phase: Phase)

  datatype State = Down | Recovering(r: Recovery) | Up(m: Memory)

  /** The machine, with a record of what clients were told: entries and operations of finished writes,
      and a sequence number below which compactions may have dropped history. And of what they asked: `asked` are the
      writers who came since the database was last opened, and `base` the operations that were finished then. */
  datatype World = World(
    disk: Disk, state: State, acked: set<Entry>, done: seq<Op>, horizon: nat, base: seq<Op>, asked: seq<Writer>)

  // ----- writes -----

  /** The stamped batch of the group being written. */
  function GroupBatch(m: Memory): Batch {
    if m.group.NoGroup? then [] else Stamp(m.group.ops, m.lastSequence + 1)
  }

  ghost predicate Enqueue(a: World, b: World, w: Writer) {
    a.state.Up? && b == a.(state := Up(a.state.m.(queue := a.state.m.queue + [w])), asked := a.asked + [w])
  }

  /** MakeRoomForWrite: a new log, and a new memtable in place of the full one. */
  ghost predicate SwitchMemtable(a: World, b: World) {
    && a.state.Up?
    && var m := a.state.m;
    && m.queue != [] && m.group.NoGroup? && !m.hasImm
    && b == a.(disk := a.disk.(logs := a.disk.logs[m.nextFile := []]),
               state := Up(m.(memLog := m.nextFile, nextFile := m.nextFile + 1, hasImm := true, imm := m.mem,
                 mem := {})))
  }

  /** The front writer groups what it can and takes sequence numbers for it. */
  ghost predicate FormGroup(a: World, b: World, count: nat) {
    && a.state.Up?
    && var m := a.state.m;
    && m.group.NoGroup? && IsGroup(m.queue, count)
    && m.lastSequence + |OpsOf(m.queue[..count])| <= MAX_SEQUENCE
    && b == a.(state := Up(m.(group := Group(OpsOf(m.queue[..count]), count, Formed))))
  }

  ghost predicate AppendLog(a: World, b: World) {
    && a.state.Up?
    && var m := a.state.m;
    && m.group.Group? && m.group.stage == Formed && m.memLog in a.disk.logs
    && b == a.(disk := a.disk.(logs := a.disk.logs[m.memLog := a.disk.logs[m.memLog] + [GroupBatch(m)]]),
               state := Up(m.(group := m.group.(stage := Logged))))
  }

  ghost predicate InsertGroup(a: World, b: World) {
    && a.state.Up?
    && var m := a.state.m;
    && m.group.Group? && m.group.stage == Logged
    && b == a.(state := Up(m.(mem := m.mem + SetOf(GroupBatch(m)), group := m.group.(stage := Inserted))))
  }

  /** The writers of the group are told their writes are done. */
  ghost predicate FinishGroup(a: World, b: World) {
    && a.state.Up?
    && var m := a.state.m;
    && m.group.Group? && m.group.stage == Inserted && m.group.count <= |m.queue|
    && b == a.(state := Up(m.(lastSequence := m.lastSequence + |m.group.ops|, group := NoGroup,
      queue := m.queue[m.group.count..])),
               acked := a.acked + SetOf(GroupBatch(m)), done := a.done + m.group.ops)
  }

  /** A writer that only asked for a flush leaves the queue. */
  ghost predicate FinishFlushRequest(a: World, b: World) {
    && a.state.Up?
    && var m := a.state.m;
    && m.queue != [] && m.queue[0].request.FlushRequest? && m.group.NoGroup?
    && b == a.(state := Up(m.(queue := m.queue[1..])))
  }

  // ----- readers -----

  ghost predicate GetSnapshot(a: World, b: World) {
    a.state.Up? && b == a.(state := Up(a.state.m.(snapshots := a.state.m.snapshots + multiset{a.state.m.lastSequence})))
  }

  ghost predicate ReleaseSnapshot(a: World, b: World, s: nat) {
    && a.state.Up? && s in a.state.m.snapshots
    && b == a.(state := Up(a.state.m.(snapshots := a.state.m.snapshots - multiset{s})))
  }

  /** A reader takes or drops a reference to a version. */
  ghost predicate PinVersion(a: World, b: World) {
    a.state.Up? && b == a.(state := Up(a.state.m.(pinned := a.state.m.pinned + multiset{a.state.m.version})))
  }

  ghost predicate UnpinVersion(a: World, b: World, u: Version) {
    && a.state.Up? && u in a.state.m.pinned
    && b == a.(state := Up(a.state.m.(pinned := a.state.m.pinned - multiset{u})))
  }

  // ----- flushes -----

  /** CompactMemTable takes a table number; with a compaction running this happens inside its loop. */
  ghost predicate StartFlush(a: World, b: World) {
    && a.state.Up?
    && var m := a.state.m;
    && m.hasImm && m.bg.Quiet?
    && b == a.(state := Up(m.(bg := Building(m.nextFile), nextFile := m.nextFile + 1,
      pending := m.pending + {m.nextFile})))
  }

  /** BuildTable: an empty memtable leaves no file behind. */
  ghost predicate BuildTable(a: World, b: World, file: seq<File>) {
    && a.state.Up?
    && var m := a.state.m;
    && m.bg.Building?
    && (if m.imm == {} then file == []
        else |file| == 1 && file[0].Ok() && file[0].number == m.bg.number && SetOf(file[0].entries) == m.imm)
    && b == a.(disk := a.disk.(tables := if file == [] then a.disk.tables else a.disk.tables[m.bg.number := file[0]]),
               state := Up(m.(bg := Built(m.bg.number, file))))
  }

  /** The flush's version edit makes `w` of `v`. */
  ghost predicate FlushMakes(v: Version, file: seq<File>, level: nat, w: Version, limit: nat) {
    if file == [] then w == v
    else
      && ShapeOk(v) && file[0].entries != []
      && Picks(v, file[0].Smallest().user, file[0].Largest().user, limit, level)
      && exists names :: Installs(names, v, FlushEdit(level, file[0]), w)
  }

  /** The level is picked and LogAndApply begins; the table is no longer pending. */
  ghost predicate ApplyFlush(a: World, b: World, level: nat, w: Version) {
    && a.state.Up?
    && var m := a.state.m;
    && m.bg.Built? && FlushMakes(m.version, m.bg.file, level, w, m.overlapLimit)
    && b == a.(state := Up(m.(pending := m.pending - {m.bg.number},
                              bg := Applying(Flush, w, m.memLog, m.nextFile, m.lastSequence, false))))
  }

  /** The record reaches the manifest. */
  ghost predicate AppendManifest(a: World, b: World) {
    && a.state.Up?
    && var m := a.state.m;
    && m.bg.Applying? && !m.bg.appended
    && b == a.(disk := a.disk.(manifests := a.disk.manifests[m.manifest := Manifest(m.bg.w, m.bg.log, m.bg.nextFile,
      m.bg.lastSequence)]),
               state := Up(m.(bg := m.bg.(appended := true))))
  }

  /** The new version becomes current, and the immutable memtable is let go. */
  ghost predicate InstallFlush(a: World, b: World) {
    && a.state.Up?
    && var m := a.state.m;
    && m.bg.Applying? && m.bg.appended && m.bg.source == Flush
    && b == a.(state := Up(m.(version := m.bg.w, logNumber := m.bg.log, hasImm := false, imm := {}, bg := Collecting)))
  }

  // ----- compactions -----

  ghost predicate IsSmallestSnapshot(m: Memory, ss: nat) {
    if m.snapshots == multiset{} then ss == m.lastSequence
    else ss in m.snapshots && forall s :: s in m.snapshots ==> ss <= s
  }

  /** The compaction exposes no user key to flushes and brings none back. */
  ghost predicate Sound(v: Version, c: Compaction, ss: nat, limit: nat) {
    && ShapeOk(v) && Chosen(v, c) && Unexposed(v, c, ss, limit) && forall k :: !Revived(v, c, ss, k)
  }

  ghost predicate Unexposed(v: Version, c: Compaction, ss: nat, limit: nat) {
    forall x :: !Exposed(v, c, KeptBy(v, c, ss), x, limit)
  }

  ghost predicate StartCompaction(a: World, b: World, c: Compaction, ss: nat) {
    && a.state.Up?
    && var m := a.state.m;
    && m.bg.Quiet? && m.run.NoRun? && !m.hasImm
    && Sound(m.version, c, ss, m.overlapLimit) && IsSmallestSnapshot(m, ss)
    && b == a.(state := Up(m.(run := Run(c, m.version, ss, {}, []))), horizon := ss)
  }

  /** One file with nothing under it moves down by a version edit alone. */
  ghost predicate StartMove(a: World, b: World, c: Compaction, w: Version) {
    && a.state.Up?
    && var m := a.state.m;
    && m.bg.Quiet? && m.run.NoRun? && !m.hasImm
    && ShapeOk(m.version) && Chosen(m.version, c) && |c.inputs0| == 1 && c.inputs1 == []
    && (exists names :: Installs(names, m.version, CompactionEdit(c, c.inputs0), w))
    && b == a.(state := Up(m.(bg := Applying(Move, w, m.logNumber, m.nextFile, m.lastSequence, false))))
  }

  ghost predicate OpenOutput(a: World, b: World) {
    && a.state.Up?
    && var m := a.state.m;
    && m.bg.Quiet? && m.run.Run?
    && b == a.(state := Up(m.(run := m.run.(taken := m.run.taken + {m.nextFile}), pending := m.pending + {m.nextFile},
                              nextFile := m.nextFile + 1)))
  }

  ghost predicate WriteOutput(a: World, b: World, f: File) {
    && a.state.Up?
    && var m := a.state.m;
    && m.bg.Quiet? && m.run.Run? && f.number in m.run.taken && f.Ok()
    && (forall o :: o in m.run.outs ==> o.number != f.number)
    && b == a.(disk := a.disk.(tables := a.disk.tables[f.number := f]),
               state := Up(m.(run := m.run.(outs := m.run.outs + [f]))))
  }

  /** The loop is over: its outputs are what DoCompactionWork makes of the inputs. */
  ghost predicate Finished(run: Run)
    requires run.Run?
  {
    && |run.start| == NUM_LEVELS && run.c.level + 1 < NUM_LEVELS
    && Made(run.c, run.outs) && Keeps(run.c, run.outs, DeeperLevels(run.start, run.c), run.smallest)
  }

  ghost predicate ApplyCompaction(a: World, b: World, w: Version) {
    && a.state.Up?
    && var m := a.state.m;
    && m.bg.Quiet? && m.run.Run? && Finished(m.run)
    && (exists names :: Installs(names, m.version, CompactionEdit(m.run.c, m.run.outs), w))
    && b == a.(state := Up(m.(bg := Applying(Compact, w, m.logNumber, m.nextFile, m.lastSequence, false))))
  }

  ghost predicate InstallCompaction(a: World, b: World) {
    && a.state.Up?
    && var m := a.state.m;
    && m.bg.Applying? && m.bg.appended && m.bg.source == Compact && m.run.Run?
    && b == a.(state := Up(m.(version := m.bg.w, run := NoRun, pending := m.pending - m.run.taken, bg := Collecting)))
  }

  ghost predicate InstallMove(a: World, b: World) {
    && a.state.Up?
    && var m := a.state.m;
    && m.bg.Applying? && m.bg.appended && m.bg.source == Move
    && b == a.(state := Up(m.(version := m.bg.w, bg := Quiet)))
  }

  // ----- deleting obsolete files -----

  /** A version some reader, the compaction, or the database itself still uses. */
  ghost predicate IsLive(m: Memory, u: Version) {
    u == m.version || u in m.pinned || (m.run.Run? && u == m.run.start)
  }

  ghost predicate UsesNumber(v: Version, n: nat) {
    exists l, f :: 0 <= l < |v| && f in v[l] && f.number == n
  }

  ghost predicate KeepsTable(m: Memory, n: nat) {
    n in m.pending || exists u :: IsLive(m, u) && UsesNumber(u, n)
  }

  ghost predicate DeleteTable(a: World, b: World, n: nat) {
    && a.state.Up? && a.state.m.bg.Collecting? && !KeepsTable(a.state.m, n)
    && b == a.(disk := a.disk.(tables := a.disk.tables - {n}))
  }

  ghost predicate DeleteLog(a: World, b: World, n: nat) {
    && a.state.Up? && a.state.m.bg.Collecting? && n < a.state.m.logNumber
    && b == a.(disk := a.disk.(logs := a.disk.logs - {n}))
  }

  ghost predicate DeleteManifest(a: World, b: World, n: nat) {
    && a.state.Up? && a.state.m.bg.Collecting? && n < a.state.m.manifest
    && b == a.(disk := a.disk.(manifests := a.disk.manifests - {n}))
  }

  ghost predicate EndCollecting(a: World, b: World) {
    a.state.Up? && a.state.m.bg.Collecting? && b == a.(state := Up(a.state.m.(bg := Quiet)))
  }

  // ----- crash and recovery -----

  /** A group counts once it is in the log. */
  predicate InLog(s: State) {
    s.Up? && s.m.group.Group? && s.m.group.stage != Formed
  }

  /** All writes a crash must not lose: the finished ones, and the group in the log. */
  ghost function Accepted(a: World): set<Entry> {
    if InLog(a.state) then a.acked + SetOf(GroupBatch(a.state.m)) else a.acked
  }

  ghost function AcceptedOps(a: World): seq<Op> {
    if InLog(a.state) then a.done + a.state.m.group.ops else a.done
  }

  ghost predicate Crash(a: World, b: World) {
    b == a.(state := Down, acked := Accepted(a), done := AcceptedOps(a))
  }

  /** The logs to replay, oldest first. */
  ghost predicate IsLogList(todo: seq<Todo>, logs: map<nat, seq<Batch>>, from: nat) {
    && (forall i, j :: 0 <= i < j < |todo| ==> todo[i].number < todo[j].number)
    && (forall t :: t in todo ==> t.number in logs && from <= t.number && t.batches == logs[t.number])
    && forall n :: n in logs && from <= n ==> exists t :: t in todo && t.number == n
  }

  /** Recovery refuses to go on when a table of the manifest's version is missing. */
  ghost predicate NoneMissing(d: Disk, v: Version) {
    forall n :: UsesNumber(v, n) ==> n in d.tables
  }

  ghost predicate BeginRecovery(a: World, b: World, todo: seq<Todo>) {
    && a.state.Down? && a.disk.current in a.disk.manifests
    && var mf := a.disk.manifests[a.disk.current];
    && NoneMissing(a.disk, mf.version) && IsLogList(todo, a.disk.logs, mf.logNumber)
    && b == a.(state := Recovering(Recovery(mf.version, [], todo, mf.nextFile + 1, mf.lastSequence, mf.nextFile,
      Replaying)))
  }

  /** `n` is the greater of `low` and the greatest sequence number of the entries. */
  ghost predicate IsLastOf(es: set<Entry>, low: nat, n: nat) {
    low <= n && UpTo(es, n) && (n == low || exists e :: e in es && e.key.sn == n)
  }

  /** RecoverLogFile: the next records of the first log become a memtable, and that a level-0 table. Where
      the cut falls depends on the memory the memtable takes. */
  ghost predicate RecoverTable(a: World, b: World, k: nat, file: seq<File>, last: nat) {
    && a.state.Recovering?
    && var r := a.state.r;
    && r.phase.Replaying? && r.todo != [] && 1 <= k <= |r.todo[0].batches|
    && var chunk := BatchEntries(r.todo[0].batches[..k]);
    && IsLastOf(chunk, r.lastSequence, last)
    && (if chunk == {} then file == []
        else |file| == 1 && file[0].Ok() && file[0].number == r.nextFile && SetOf(file[0].entries) == chunk)
    && b == a.(disk := a.disk.(tables := if file == [] then a.disk.tables else a.disk.tables[r.nextFile := file[0]]),
               state := Recovering(r.(added := r.added + file,
                 todo := r.todo[0 := r.todo[0].(batches := r.todo[0].batches[k..])],
                                      nextFile := r.nextFile + 1, lastSequence := last)))
  }

  /** A log is read to its end; its number counts as used. */
  ghost predicate EndLog(a: World, b: World) {
    && a.state.Recovering?
    && var r := a.state.r;
    && r.phase.Replaying? && r.todo != [] && r.todo[0].batches == []
    && b == a.(state := Recovering(r.(todo := r.todo[1..],
                                      nextFile := if r.nextFile <= r.todo[0].number then r.todo[0].number + 1
                                        else r.nextFile)))
  }

  ghost predicate CreateLog(a: World, b: World) {
    && a.state.Recovering?
    && var r := a.state.r;
    && r.phase.Replaying? && r.todo == []
    && b == a.(disk := a.disk.(logs := a.disk.logs[r.nextFile := []]),
               state := Recovering(r.(phase := Ready(r.nextFile), nextFile := r.nextFile + 1)))
  }

  /** The edit of recovery: every table made goes to level 0. */
  function RecoveryEdit(added: Level): Edit {
    Edit({}, seq(|added|, i requires 0 <= i < |added| => (0, added[i])))
  }

  /** A new manifest file is written, a snapshot of the version and the edit; CURRENT names the old one still. */
  ghost predicate WriteManifest(a: World, b: World, w: Version) {
    && a.state.Recovering?
    && var r := a.state.r;
    && r.phase.Ready?
    && (exists names :: Installs(names, r.version, RecoveryEdit(r.added), w))
    && b == a.(disk := a.disk.(manifests := a.disk.manifests[r.manifest := Manifest(w, r.phase.log, r.nextFile,
      r.lastSequence)]),
               state := Recovering(r.(phase := Written(r.phase.log, w))))
  }

  /** The memory of a database just opened, with the limit its options set. */
  function OpenedWith(r: Recovery, limit: nat): Memory
    requires r.phase.Written?
  {
    Memory({}, r.phase.log, false, {}, r.phase.w, r.phase.log, r.manifest, r.nextFile, r.lastSequence, {}, multiset{},
      multiset{}, [], NoGroup, Collecting, NoRun, limit)
  }

  /** CURRENT is switched, and the database is open. */
  ghost predicate Open(a: World, b: World) {
    && a.state.Recovering?
    && var r := a.state.r;
    && r.phase.Written?
    && exists limit :: b == a.(disk := a.disk.(current := r.manifest), state := Up(OpenedWith(r, limit)),
      horizon := if a.horizon <= r.lastSequence then a.horizon else r.lastSequence, base := a.done, asked := [])
  }

  // ----- runs -----

  /** NewDB: a manifest with an empty version and no log. */
  ghost predicate Init(a: World) {
    a == World(Disk(map[], map[], map[1 := Manifest(EMPTY_VERSION, 0, 2, 0)], 1), Down, {}, [], 0, [], [])
  }

  ghost predicate WriteStep(a: World, b: World) {
    || (exists w :: Enqueue(a, b, w))
    || SwitchMemtable(a, b)
    || (exists count :: FormGroup(a, b, count))
    || AppendLog(a, b)
    || InsertGroup(a, b)
    || FinishGroup(a, b)
    || FinishFlushRequest(a, b)
  }

  ghost predicate ReaderStep(a: World, b: World) {
    || GetSnapshot(a, b)
    || (exists s :: ReleaseSnapshot(a, b, s))
    || PinVersion(a, b)
    || (exists u :: UnpinVersion(a, b, u))
  }

  ghost predicate FlushStep(a: World, b: World) {
    || StartFlush(a, b)
    || (exists file :: BuildTable(a, b, file))
    || (exists level, w :: ApplyFlush(a, b, level, w))
    || AppendManifest(a, b)
    || InstallFlush(a, b)
  }

  ghost predicate CompactStep(a: World, b: World) {
    || (exists c, ss :: StartCompaction(a, b, c, ss))
    || (exists c, w :: StartMove(a, b, c, w))
    || OpenOutput(a, b)
    || (exists f :: WriteOutput(a, b, f))
    || (exists w :: ApplyCompaction(a, b, w))
    || InstallCompaction(a, b)
    || InstallMove(a, b)
  }

  ghost predicate CollectStep(a: World, b: World) {
    || (exists n :: DeleteTable(a, b, n))
    || (exists n :: DeleteLog(a, b, n))
    || (exists n :: DeleteManifest(a, b, n))
    || EndCollecting(a, b)
  }

  ghost predicate RecoveryStep(a: World, b: World) {
    || (exists todo :: BeginRecovery(a, b, todo))
    || (exists k, file, last :: RecoverTable(a, b, k, file, last))
    || EndLog(a, b)
    || CreateLog(a, b)
    || (exists w :: WriteManifest(a, b, w))
    || Open(a, b)
  }

  ghost predicate Next(a: World, b: World) {
    || WriteStep(a, b)
    || ReaderStep(a, b)
    || FlushStep(a, b)
    || CompactStep(a, b)
    || CollectStep(a, b)
    || RecoveryStep(a, b)
    || Crash(a, b)
  }

  /** A run of the machine from a new database. */
  ghost predicate IsRun(run: seq<World>) {
    && run != [] && Init(run[0])
    && forall i :: 0 <= i < |run| - 1 ==> Next(run[i], run[i + 1])
  }
}
