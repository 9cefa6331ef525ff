/** The steps of recovery keep the invariant: until CURRENT is switched the old manifest and its logs
    still hold everything, and afterwards the new ones do. */
module RecoveryKeeps {
  import opened Keys
  import opened Versions
  import opened Builders
  import opened Installing
  import opened CompactionReads
  import opened WriteGroup
  import opened Machine
  import opened Invariant
  import opened Running

  // ----- replaying logs -----

  lemma BatchesSplit(bs: seq<Batch>, k: nat)
    requires k <= |bs|
    ensures BatchEntries(bs) == BatchEntries(bs[..k]) + BatchEntries(bs[k..])
    ensures BatchesOrdered(bs) ==> BatchesOrdered(bs[k..]) && Later(BatchEntries(bs[k..]), BatchEntries(bs[..k]))
  {
    assert bs == bs[..k] + bs[k..];
    if BatchesOrdered(bs) {
      forall x, y | x in BatchEntries(bs[k..]) && y in BatchEntries(bs[..k])
        ensures x.key.sn > y.key.sn
      {
        SplitInOrder(bs, k, x, y);
      }
      forall i, j | 0 <= i < j < |bs[k..]|
        ensures Later(SetOf(bs[k..][j]), SetOf(bs[k..][i]))
      {
        assert Later(SetOf(bs[k + j]), SetOf(bs[k + i]));
      }
    }
  }

  lemma SplitInOrder(bs: seq<Batch>, k: nat, x: Entry, y: Entry)
    requires k <= |bs| && BatchesOrdered(bs) && x in BatchEntries(bs[k..]) && y in BatchEntries(bs[..k])
    ensures x.key.sn > y.key.sn
  {
    var j := BatchOf(bs[k..], x);
    var i := BatchOf(bs[..k], y);
    assert bs[k + j] == bs[k..][j] && bs[i] == bs[..k][i];
    assert Later(SetOf(bs[k + j]), SetOf(bs[i]));
  }

  lemma BatchOf(bs: seq<Batch>, e: Entry) returns (i: nat)
    requires e in BatchEntries(bs)
    ensures i < |bs| && e in bs[i]
  {
    var b :| b in bs && e in b;
    i :| 0 <= i < |bs| && bs[i] == b;
  }

  lemma TodoSplit(todo: seq<Todo>)
    requires todo != []
    ensures TodoEntries(todo) == BatchEntries(todo[0].batches) + TodoEntries(todo[1..])
    ensures TodoOk(todo) ==> TodoOk(todo[1..]) && Later(TodoEntries(todo[1..]), BatchEntries(todo[0].batches))
  {
    assert todo == [todo[0]] + todo[1..];
    if TodoOk(todo) {
      forall x, y | x in TodoEntries(todo[1..]) && y in BatchEntries(todo[0].batches)
        ensures x.key.sn > y.key.sn
      {
        var t :| t in todo[1..] && x in BatchEntries(t.batches);
        var j :| 0 <= j < |todo| - 1 && todo[1..][j] == t;
        assert Later(BatchEntries(todo[j + 1].batches), BatchEntries(todo[0].batches));
      }
    }
  }

  /** Taking records from the first log leaves the rest in order, and newer than what was taken. */
  lemma TodoTakes(todo: seq<Todo>, k: nat, rest: seq<Todo>)
    requires todo != [] && k <= |todo[0].batches| && rest == todo[0 := todo[0].(batches := todo[0].batches[k..])]
    requires TodoOk(todo)
    ensures TodoEntries(todo) == BatchEntries(todo[0].batches[..k]) + TodoEntries(rest)
    ensures TodoOk(rest) && Later(TodoEntries(rest), BatchEntries(todo[0].batches[..k]))
  {
    var bs := todo[0].batches;
    BatchesSplit(bs, k);
    TodoSplit(todo);
    TodoSplit(rest);
    assert rest[1..] == todo[1..];
    forall i, j | 0 <= i < j < |rest|
      ensures Later(BatchEntries(rest[j].batches), BatchEntries(rest[i].batches))
    {
      assert Later(BatchEntries(todo[j].batches), BatchEntries(todo[i].batches));
    }
  }

  lemma LastCounts(es: set<Entry>, chunk: set<Entry>, low: nat, last: nat)
    requires IsLastOf(chunk, low, last) && UpTo(es, low)
    ensures low <= last && UpTo(es + chunk, last)
  {
  }

  lemma AddedLater(tables: map<nat, File>, v: Version, added: Level, low: nat, high: nat)
    requires AddedOk(tables, v, added, low, high)
    ensures forall top :: high <= top ==> AddedOk(tables, v, added, low, top)
  {
  }

  lemma AddedGrows(tables: map<nat, File>, v: Version, added: Level, low: nat, high: nat, f: File)
    requires AddedOk(tables, v, added, low, high) && low < high && f.Ok() && f.number == high
    requires Later(SetOf(f.entries), EntriesOf(added))
    ensures AddedOk(tables[high := f], v, added + [f], low, high + 1)
    ensures EntriesOf(added + [f]) == EntriesOf(added) + SetOf(f.entries)
  {
    var all := added + [f];
    forall i | 0 <= i < |added|
      ensures Later(SetOf(f.entries), SetOf(added[i].entries))
    {
      forall e | e in added[i].entries
        ensures e in EntriesOf(added)
      {
        assert added[i] in added;
      }
    }
    forall e | e in EntriesOf(all)
      ensures e in EntriesOf(added) + SetOf(f.entries)
    {
      var g :| g in all && e in g.entries;
    }
    forall e | e in EntriesOf(added) + SetOf(f.entries)
      ensures e in EntriesOf(all)
    {
      if e in EntriesOf(added) {
        var g :| g in added && e in g.entries;
        assert g in all;
      } else {
        assert f in all;
      }
    }
  }

  /** The table made of the chunk, if it has entries, is the newest of those added. */
  lemma RecoverTableFiles(tables: map<nat, File>, mf: Manifest, added: Level, high: nat, chunk: set<Entry>,
          file: seq<File>, after: map<nat, File>)
    requires ManifestOk(mf, tables) && AddedOk(tables, mf.version, added, mf.nextFile, high) && mf.nextFile < high
    requires Later(chunk, EntriesOf(added))
    requires chunk == {} ==> file == [] && after == tables
    requires chunk != {} ==> |file| == 1 && file[0].Ok() && file[0].number == high && SetOf(file[0].entries) == chunk
    requires chunk != {} ==> |file| == 1 && after == tables[high := file[0]]
    ensures ManifestOk(mf, after) && AddedOk(after, mf.version, added + file, mf.nextFile, high + 1)
    ensures EntriesOf(added + file) == EntriesOf(added) + chunk
  {
    hide ManifestOk, AddedOk;
    if file == [] {
      assert added + file == added;
      AddedLater(tables, mf.version, added, mf.nextFile, high);
    } else {
      assert file == [file[0]];
      NumberBelow(mf, tables);
      BelowIsUnused(mf.version, mf.nextFile, high);
      ManifestWrites(tables, mf, file[0]);
      AddedGrows(tables, mf.version, added, mf.nextFile, high, file[0]);
    }
  }

  lemma RecoverTableKeeps(a: World, b: World, k: nat, file: seq<File>, last: nat)
    requires Inv(a) && RecoverTable(a, b, k, file, last)
    ensures Inv(b)
  {
    hide Agree, Meaning, LogsOk, Counted, ManifestOk, TodoOk, AddedOk, Tracked, IsLastOf, BatchEntries, TodoEntries,
      Distinct;
    var r, t := a.state.r, b.state.r;
    var mf := a.disk.manifests[a.disk.current];
    var chunk := BatchEntries(r.todo[0].batches[..k]);
    TodoTakes(r.todo, k, t.todo);
    RecoverTableFiles(a.disk.tables, mf, r.added, r.nextFile, chunk, file, b.disk.tables);
    LastCounts(EntriesOf(r.added), chunk, r.lastSequence, last);
    StillListed(a.disk.logs, r.todo, r.nextFile, k, t.todo);
  }

  lemma StillListed(logs: map<nat, seq<Batch>>, todo: seq<Todo>, nextFile: nat, k: nat, rest: seq<Todo>)
    requires todo != [] && k <= |todo[0].batches| && rest == todo[0 := todo[0].(batches := todo[0].batches[k..])]
    requires Tracked(logs, todo, nextFile)
    ensures Tracked(logs, rest, nextFile + 1)
  {
    forall n | n in logs && nextFile < n
      ensures exists d :: d in rest && d.number == n
    {
      var d :| d in todo && d.number == n;
      var i :| 0 <= i < |todo| && todo[i] == d;
      assert rest[i] in rest && rest[i].number == n;
    }
  }

  lemma EndLogKeeps(a: World, b: World)
    requires Inv(a) && EndLog(a, b)
    ensures Inv(b)
  {
    hide DiskOk, Meaning, TodoOk, AddedOk;
    var r, t := a.state.r, b.state.r;
    TodoSplit(r.todo);
    assert BatchEntries([]) == {};
    AddedLater(a.disk.tables, r.version, r.added, a.disk.manifests[a.disk.current].nextFile, r.nextFile);
    forall n | n in b.disk.logs && t.nextFile <= n
      ensures exists d :: d in t.todo && d.number == n
    {
      var d :| d in r.todo && d.number == n;
      assert r.todo == [r.todo[0]] + r.todo[1..];
    }
  }

  lemma CreateLogKeeps(a: World, b: World)
    requires Inv(a) && CreateLog(a, b)
    ensures Inv(b)
  {
    hide Meaning, Agree, TodoOk, AddedOk, VersionGood, FilesIn, NumbersBelow, LogsOrdered;
    var r := a.state.r;
    var mf := a.disk.manifests[a.disk.current];
    AddedLater(a.disk.tables, r.version, r.added, mf.nextFile, r.nextFile);
    NewLog(a.disk.logs, r.nextFile, mf.logNumber);
  }

  // ----- the new manifest -----

  /** Putting the recovered tables into level 0 keeps the tree in order. */
  lemma RecoveryKeepsTree(names: Catalogue, tables: map<nat, File>, v: Version, added: Level, low: nat, high: nat,
          w: Version)
    requires TreeOk(v) && NumbersBelow(v, low) && AddedOk(tables, v, added, low, high)
    requires Later(EntriesOf(added), VersionEntries(v)) && Installs(names, v, RecoveryEdit(added), w)
    ensures TreeOk(w)
  {
    TreeIsFileOrder(v);
    RecoveryEditMeans(names, v, added, w);
    forall f | f in added
      ensures NewerThan(SetOf(f.entries), VersionEntries(v))
    {
      AddedNewer(v, added, f);
    }
    forall f, g | f in w[0] && g in w[0] && f != g
      ensures f.number != g.number && (f.number > g.number ==> NewerFile(f, g))
    {
      if f in added && g in added {
        AddedInOrder(tables, v, added, low, high, f, g);
      } else if f in added {
        AddedAbove(tables, v, added, low, high, f, 0, g);
        NewerThanFile(SetOf(f.entries), v, 0, g);
      } else if g in added {
        AddedAbove(tables, v, added, low, high, g, 0, f);
      }
    }
    forall l, m, f, g | 0 <= l < m < |w| && f in w[l] && g in w[m]
      ensures NewerFile(f, g)
    {
      if f in added && l == 0 {
        NewerThanFile(SetOf(f.entries), v, m, g);
      }
    }
    FileOrderIsTree(names, w);
  }

  lemma AddedNewer(v: Version, added: Level, f: File)
    requires Later(EntriesOf(added), VersionEntries(v)) && f in added
    ensures NewerThan(SetOf(f.entries), VersionEntries(v))
  {
    forall e | e in f.entries
      ensures e in EntriesOf(added)
    {
    }
  }

  lemma AddedInOrder(tables: map<nat, File>, v: Version, added: Level, low: nat, high: nat, f: File, g: File)
    requires AddedOk(tables, v, added, low, high) && f in added && g in added && f != g
    ensures f.number != g.number && (f.number > g.number ==> NewerFile(f, g))
  {
    var i :| 0 <= i < |added| && added[i] == f;
    var j :| 0 <= j < |added| && added[j] == g;
    if i < j {
      assert added[i].number < added[j].number;
    } else {
      assert added[j].number < added[i].number && Later(SetOf(added[i].entries), SetOf(added[j].entries));
    }
  }

  lemma AddedAbove(tables: map<nat, File>, v: Version, added: Level, low: nat, high: nat, f: File, l: nat, g: File)
    requires AddedOk(tables, v, added, low, high) && NumbersBelow(v, low) && f in added && l < |v| && g in v[l]
    ensures g.number < f.number
  {
    var i :| 0 <= i < |added| && added[i] == f;
  }

  lemma RecoveryEditMeans(names: Catalogue, v: Version, added: Level, w: Version)
    requires Installs(names, v, RecoveryEdit(added), w)
    ensures |v| == |w| == NUM_LEVELS
    ensures forall l, f :: 0 <= l < NUM_LEVELS ==> (f in w[l] <==> f in v[l] || (l == 0 && f in added))
  {
    var e := RecoveryEdit(added);
    forall l: nat, f | l < NUM_LEVELS
      ensures Adds(e, l, f) <==> l == 0 && f in added
    {
      if l == 0 && f in added {
        var i :| 0 <= i < |added| && added[i] == f;
        assert e.added[i] == (0, f);
      }
    }
  }

  lemma RecoveredFiles(names: Catalogue, tables: map<nat, File>, v: Version, added: Level, low: nat, high: nat,
          w: Version)
    requires Installs(names, v, RecoveryEdit(added), w) && FilesIn(tables, v) && NumbersBelow(v, low) && low < high
    requires AddedOk(tables, v, added, low, high)
    ensures FilesIn(tables, w) && NumbersBelow(w, high)
    ensures VersionEntries(w) == VersionEntries(v) + EntriesOf(added)
  {
    RecoveryEditMeans(names, v, added, w);
    forall f | f in added
      ensures f.number in tables && tables[f.number] == f && f.number < high
    {
      var i :| 0 <= i < |added| && added[i] == f;
    }
    forall e | e in VersionEntries(w)
      ensures e in VersionEntries(v) + EntriesOf(added)
    {
      var l, g := Home(w, e);
      if g in v[l] {
        InVersion(v, l, g, e);
      }
    }
    forall e | e in VersionEntries(v)
      ensures e in VersionEntries(w)
    {
      var l, g := Home(v, e);
      InVersion(w, l, g, e);
    }
    forall e | e in EntriesOf(added)
      ensures e in VersionEntries(w)
    {
      var f :| f in added && e in f.entries;
      InVersion(w, 0, f, e);
    }
  }

  lemma WriteManifestKeeps(a: World, b: World, w: Version)
    requires Inv(a) && WriteManifest(a, b, w)
    ensures Inv(b)
  {
    hide Meaning, Agree, Counted, LogsOrdered, AddedOk, TodoOk, TreeOk, FilesIn, NumbersBelow, Installs, RecoveryEdit,
      VersionOk;
    var r := a.state.r;
    var mf := a.disk.manifests[a.disk.current];
    var names :| Installs(names, r.version, RecoveryEdit(r.added), w);
    assert TodoEntries([]) == {};
    assert EntriesOf(r.added) == LogEntries(a.disk.logs, mf.logNumber);
    RecoveryKeepsTree(names, a.disk.tables, r.version, r.added, mf.nextFile, r.nextFile, w);
    RecoveredFiles(names, a.disk.tables, r.version, r.added, mf.nextFile, r.nextFile, w);
    InstallsCatalogued(names, r.version, RecoveryEdit(r.added), w);
  }

  lemma InstallsCatalogued(names: Catalogue, v: Version, e: Edit, w: Version)
    requires Installs(names, v, e, w)
    ensures Catalogued(w)
  {
    assert VersionOk(names, w);
  }

  // ----- opening -----

  /** Every accepted write is counted by the sequence number recovery found. */
  lemma AllCounted(d: Disk, r: Recovery, accepted: set<Entry>, horizon: nat)
    requires DiskOk(d, accepted, horizon) && RecoveringOk(d, r) && r.todo == []
    ensures UpTo(accepted, r.lastSequence)
  {
    hide Agree, LogsOk, ManifestOk, AddedOk, PhaseOk, TodoOk;
    assert TodoEntries([]) == {};
  }

  lemma OpenedDisk(d: Disk, r: Recovery, accepted: set<Entry>, horizon: nat)
    requires DiskOk(d, accepted, horizon) && RecoveringOk(d, r) && r.phase.Written?
    ensures DiskOk(d.(current := r.manifest), accepted, if horizon <= r.lastSequence then horizon else r.lastSequence)
    ensures DiskEntries(d.(current := r.manifest)) == VersionEntries(r.phase.w)
  {
    hide Agree, ManifestOk, AddedOk, TodoOk;
    var e := d.(current := r.manifest);
    var mf := e.manifests[e.current];
    LastLog(d.logs, r.phase.log);
    assert BatchEntries([]) == {} && TodoEntries([]) == {};
    AllCounted(d, r, accepted, horizon);
    assert DiskEntries(e) == DiskEntries(d);
    if horizon > r.lastSequence {
      AgreeBeyond(DiskEntries(d), accepted, horizon, r.lastSequence);
    }
    assert LogsOrdered(e.logs, r.phase.log);
  }

  lemma OpenKeeps(a: World, b: World)
    requires Inv(a) && Open(a, b)
    ensures Inv(b)
  {
    hide Meaning, Agree, Counted, LogsOrdered, AddedOk, TodoOk, VersionGood, FilesIn, NumbersBelow;
    var r, m := a.state.r, b.state.m;
    OpenedDisk(a.disk, r, a.acked, a.horizon);
    AllCounted(a.disk, r, a.acked, a.horizon);
    LastLog(a.disk.logs, r.phase.log);
    assert BatchEntries([]) == {};
    assert VersionEntries(m.version) + (m.imm + m.mem) == VersionEntries(m.version);
    assert a.acked + Inserting(m) == a.acked;
    assert GroupBatch(m) == [];
    NotApplying(b.disk.tables, b.disk.manifests[b.disk.current].lastSequence, m);
  }
}
