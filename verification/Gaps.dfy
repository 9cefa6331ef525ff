/** Compactions whose inputs leave a gap: when a flush that runs meanwhile can break the output level, and when not. */
module Gaps {
  import opened Keys
  import opened Versions
  import opened Overlap
  import opened Picking
  import opened Builders
  import opened Installing
  import opened CompactionWork
  import opened CompactionReads

  // ----- flushes during a compaction -----

  /** One flush: a file newer than the version, put where PickLevelForMemTableOutput says. */
  ghost predicate Flushes(names: Catalogue, v: seq<Level>, f: File, limit: nat, level: nat, w: seq<Level>) {
    && ShapeOk(v) && f.Ok() && NewerThan(SetOf(f.entries), VersionEntries(v))
      && (forall g :: g in v[0] ==> g.number < f.number)
    && Picks(v, f.Smallest().user, f.Largest().user, limit, level)
    && Installs(names, v, FlushEdit(level, f), w)
  }

  /** Versions that follow one another by flushes. */
  ghost predicate FlushRun(names: Catalogue, vs: seq<seq<Level>>, limit: nat) {
    vs != [] && forall i :: 0 <= i < |vs| - 1 ==> FlushAt(names, vs, limit, i)
  }

  ghost predicate FlushAt(names: Catalogue, vs: seq<seq<Level>>, limit: nat, i: nat)
    requires i + 1 < |vs|
  {
    FlushedTo(names, vs[i], limit, vs[i + 1])
  }

  ghost predicate FlushedTo(names: Catalogue, v: seq<Level>, limit: nat, w: seq<Level>) {
    exists f, level :: Flushes(names, v, f, limit, level, w)
  }

  /** Some flushes while the compaction runs, and some cut into files of what its loop keeps, leave the tree out of
      order. */
  ghost predicate Breaks(names: Catalogue, v: seq<Level>, c: Compaction, ss: nat, limit: nat, vs: seq<seq<Level>>,
          outs: Level, w: seq<Level>)
  {
    && FlushRun(names, vs, limit) && vs[0] == v && Made(c, outs) && Keeps(c, outs, DeeperLevels(v, c), ss)
    && c.level + 1 < NUM_LEVELS && |vs[|vs| - 1]| == NUM_LEVELS
    && (forall o, g :: o in outs && g in vs[|vs| - 1][c.level + 1] ==> o.number != g.number)
    && Installs(names, vs[|vs| - 1], CompactionEdit(c, outs), w) && !TreeOk(w)
  }

  // ----- nothing exposed: nothing breaks -----

  /** One flush keeps the tree in order and, if nothing was exposed at the start, the compaction's view of it. */
  lemma FlushIsSafe(names: Catalogue, v0: seq<Level>, c: Compaction, kept: set<Entry>, v: seq<Level>, f: File,
          limit: nat, level: nat, w: seq<Level>)
    requires Since(v0, c, kept, v) && TreeOk(v) && Flushes(names, v, f, limit, level, w)
    requires kept <= EntriesOf(Inputs(c)) && forall x :: !Exposed(v0, c, kept, x, limit)
    ensures Since(v0, c, kept, w) && TreeOk(w)
  {
    hide Exposed, Since, NewerByNumber, Layered, Picks, Installs, FlushedDuring;
    PickedPromises(v, f.Smallest().user, f.Largest().user, limit, level);
    assert Flushable(v, level, f);
    FlushKeepsTree(names, v, level, f, w);
    ShapeStart(v0, c, kept, v);
    forall x
      ensures !Exposed(v, c, kept, x, limit)
    {
      if Exposed(v, c, kept, x, limit) {
        StillExposed(v0, c, kept, v, x, limit);
      }
    }
    FlushKeepsClear(v0, c, kept, v, limit, level, f);
    SinceFlush(names, v0, c, kept, v, level, f, w);
  }

  lemma {:induction false} RunIsSafe(names: Catalogue, v0: seq<Level>, c: Compaction, kept: set<Entry>,
          vs: seq<seq<Level>>, limit: nat, n: nat)
    requires FlushRun(names, vs, limit) && vs[0] == v0 && TreeOk(v0) && Chosen(v0, c) && n < |vs|
    requires kept <= EntriesOf(Inputs(c)) && forall x :: !Exposed(v0, c, kept, x, limit)
    ensures Since(v0, c, kept, vs[n]) && TreeOk(vs[n])
  {
    hide Exposed, TreeOk, Flushes, Since;
    if n == 0 {
      SinceStart(v0, c, kept);
    } else {
      RunIsSafe(names, v0, c, kept, vs, limit, n - 1);
      var i := n - 1;
      assert FlushAt(names, vs, limit, i);
      var f, level :| Flushes(names, vs[i], f, limit, level, vs[i + 1]);
      FlushIsSafe(names, v0, c, kept, vs[i], f, limit, level, vs[n]);
    }
  }

  /** With no user key exposed, nothing breaks. */
  lemma NothingBreaks(names: Catalogue, v: seq<Level>, c: Compaction, ss: nat, limit: nat, vs: seq<seq<Level>>,
          outs: Level, w: seq<Level>)
    requires TreeOk(v) && Chosen(v, c) && forall x :: !Exposed(v, c, KeptBy(v, c, ss), x, limit)
    ensures !Breaks(names, v, c, ss, limit, vs, outs, w)
  {
    hide Exposed, Since, NewerByNumber, Layered, Made, KeptOf;
    if Breaks(names, v, c, ss, limit, vs, outs, w) {
      var n := |vs| - 1;
      KeptWithin(v, c, ss);
      RunIsSafe(names, v, c, KeptBy(v, c, ss), vs, limit, n);
      CompactionKeepsTree(names, v, c, KeptBy(v, c, ss), vs[n], outs, w);
      assert false;
    }
  }

  lemma KeptWithin(v: seq<Level>, c: Compaction, ss: nat)
    ensures KeptBy(v, c, ss) <= EntriesOf(Inputs(c))
  {
  }

  // ----- something exposed: two flushes and one output break the tree -----

  /** The file put in its place. */
  function Insert(fs: Level, f: File): (r: Level)
    requires FilesOk(fs) && f.Ok()
    ensures forall g :: g in r <==> g in fs || g == f
  {
    if fs == [] || Before(f, fs[0]) then [f] + fs
    else
      assert fs == [fs[0]] + fs[1..];
      [fs[0]] + Insert(fs[1..], f)
  }

  /** The files but those with the numbers. */
  function Without(fs: Level, gone: set<nat>): (r: Level)
    ensures forall g :: g in r <==> g in fs && g.number !in gone
  {
    if fs == [] then []
    else
      assert fs == [fs[0]] + fs[1..];
      (if fs[0].number in gone then [] else [fs[0]]) + Without(fs[1..], gone)
  }

  lemma {:induction false} InsertListed(fs: Level, f: File)
    requires FilesOk(fs) && Listed(fs) && f.Ok() && forall g :: g in fs ==> g.number != f.number
    ensures FilesOk(Insert(fs, f)) && Listed(Insert(fs, f))
  {
    if fs != [] && !Before(f, fs[0]) {
      assert fs[0] in fs;
      InsertListed(fs[1..], f);
      var rest := Insert(fs[1..], f);
      forall i | 0 <= i < |rest|
        ensures Before(fs[0], rest[i])
      {
        assert rest[i] in rest;
        if rest[i] in fs[1..] {
          var j := Position(fs[1..], rest[i]);
          assert fs[j + 1] == rest[i];
        }
      }
      Ahead(fs[0], rest);
    } else {
      assert forall i :: 0 < i < |fs| ==> Before(fs[0], fs[i]);
      Ahead(f, fs);
    }
  }

  lemma {:induction false} WithoutListed(fs: Level, gone: set<nat>)
    requires FilesOk(fs) && Listed(fs)
    ensures FilesOk(Without(fs, gone)) && Listed(Without(fs, gone))
  {
    if fs != [] {
      WithoutListed(fs[1..], gone);
      var rest := Without(fs[1..], gone);
      if fs[0].number !in gone {
        forall i | 0 <= i < |rest|
          ensures Before(fs[0], rest[i])
        {
          assert rest[i] in fs[1..];
          var j := Position(fs[1..], rest[i]);
          assert fs[j + 1] == rest[i];
        }
        Ahead(fs[0], rest);
      }
    }
  }

  lemma Ahead(f: File, fs: Level)
    requires f.Ok() && FilesOk(fs) && Listed(fs) && forall i :: 0 <= i < |fs| ==> Before(f, fs[i])
    ensures FilesOk([f] + fs) && Listed([f] + fs)
  {
  }

  /** A number no file has. */
  lemma {:induction false} FreshNumber(used: set<nat>) returns (n: nat)
    ensures forall k :: k in used ==> k < n
  {
    if used == {} {
      n := 0;
    } else {
      var k :| k in used;
      var m := FreshNumber(used - {k});
      n := if k < m then m else k + 1;
      assert forall j :: j in used ==> j == k || j in used - {k};
    }
  }

  /** A version with one file more on a level is what a flush of it makes. */
  lemma InsertInstalls(names: Catalogue, v: seq<Level>, level: nat, f: File)
    requires VersionOk(names, v) && level < NUM_LEVELS && f.Ok() && f.number in names && names[f.number] == f
    requires forall g :: g in v[level] ==> g.number != f.number
    ensures FilesOk(v[level]) && Installs(names, v, FlushEdit(level, f), v[level := Insert(v[level], f)])
  {
    hide Insert, Listed;
    var w := v[level := Insert(v[level], f)];
    InsertListed(v[level], f);
    forall l | 0 <= l < NUM_LEVELS
      ensures FilesOk(w[l]) && Listed(w[l]) && Known(names, w[l])
    {
      assert Known(names, v[l]);
    }
    assert forall l, g :: Adds(FlushEdit(level, f), l, g) <==> l == level && g == f;
  }

  lemma MoreNames(names: Catalogue, v: seq<Level>, n: nat, f: File)
    requires VersionOk(names, v) && n !in names
    ensures VersionOk(names[n := f], v)
  {
  }

  /** A file of one pair. */
  function One(n: nat, x: UserKey, sn: nat): File {
    File(n, 0, [Entry(InternalKey(x, sn, Value), [])])
  }

  /** Nothing at a user key means no bytes there. */
  lemma {:induction false} NoBytes(fs: Level, x: UserKey)
    requires FilesOk(fs) && !HoldsKey(fs, x)
    ensures OverlapBytes(fs, x, x) == 0 && !MeetsLevel(fs, x, x)
  {
  }

  lemma {:induction false} InsertBytes(fs: Level, f: File, x: UserKey)
    requires FilesOk(fs) && f.Ok() && f.size == 0
    ensures FilesOk(Insert(fs, f)) && OverlapBytes(Insert(fs, f), x, x) == OverlapBytes(fs, x, x)
  {
    hide OverlapBytes, Before;
    if fs == [] || Before(f, fs[0]) {
      FrontBytes(f, fs, x);
    } else {
      InsertBytes(fs[1..], f, x);
      FrontBytes(fs[0], Insert(fs[1..], f), x);
      FrontBytes(fs[0], fs[1..], x);
      assert fs == [fs[0]] + fs[1..];
    }
  }

  lemma {:induction false} FrontBytes(f: File, fs: Level, x: UserKey)
    requires FilesOk(fs) && f.Ok()
    ensures FilesOk([f] + fs)
    ensures OverlapBytes([f] + fs, x, x) == (if Touches(f, At(x), At(x)) then f.size else 0) + OverlapBytes(fs, x, x)
  {
    var all := [f] + fs;
    TouchingMore(all, x, x);
    if fs != [] {
      var n := |fs| - 1;
      assert all[..n + 1] == [f] + fs[..n];
      FrontBytes(f, fs[..n], x);
      TouchingMore(fs, x, x);
    } else {
      assert all[..0] == fs;
    }
  }

  /** Where a flush of one exposed user key goes, from any version the exposed one has grown to. */
  lemma PicksOutput(v: seq<Level>, c: Compaction, kept: set<Entry>, x: UserKey, limit: nat)
    returns (level: nat)
    requires ShapeOk(v) && Exposed(v, c, kept, x, limit)
    ensures Picks(v, x, x, limit, level)
    ensures (level == c.level + 1 || (c.level == 0 && level == 2 && MayDescend(v, x, x, limit, 1)))
  {
    hide OverlapBytes, MeetsLevel, HoldsKey;
    forall l | 0 <= l <= c.level + 1
      ensures OverlapBytes(v[l], x, x) == 0 && !MeetsLevel(v[l], x, x)
    {
      NoBytes(v[l], x);
    }
    assert c.level == 0 || c.level == 1;
    assert MayDescend(v, x, x, limit, 0);
    level := if c.level == 0 && !MayDescend(v, x, x, limit, 1) then 1 else 2;
  }

  /** All sequence numbers leave room for two more. */
  ghost predicate RoomForTwo(v: seq<Level>) {
    forall e :: e in VersionEntries(v) ==> e.key.sn + 2 <= MAX_SEQUENCE
  }

  lemma OneFlushes(names: Catalogue, v: seq<Level>, x: UserKey, limit: nat, level: nat, n: nat, sn: nat)
    requires VersionOk(names, v) && ShapeOk(v) && Picks(v, x, x, limit, level) && sn <= MAX_SEQUENCE
    requires n in names && names[n] == One(n, x, sn) && forall l, g :: 0 <= l < NUM_LEVELS && g in v[l] ==> g.number < n
    requires forall e :: e in VersionEntries(v) ==> e.key.sn < sn
    ensures FilesOk(v[level]) && One(n, x, sn).Ok()
    ensures Flushes(names, v, One(n, x, sn), limit, level, v[level := Insert(v[level], One(n, x, sn))])
  {
    hide Insert, Picks, VersionOk, Installs;
    var f := One(n, x, sn);
    LevelBelow(v, x, limit, level);
    assert f.Ok();
    InsertInstalls(names, v, level, f);
    assert NewerThan(SetOf(f.entries), VersionEntries(v));
  }

  lemma LevelBelow(v: seq<Level>, x: UserKey, limit: nat, level: nat)
    requires ShapeOk(v) && Picks(v, x, x, limit, level)
    ensures level < NUM_LEVELS
  {
  }

  lemma FlushedTree(names: Catalogue, v: seq<Level>, f: File, limit: nat, level: nat, w: seq<Level>)
    requires TreeOk(v) && Flushes(names, v, f, limit, level, w)
    ensures TreeOk(w) && VersionOk(names, w) && level < NUM_LEVELS
  {
    hide NewerByNumber, Layered, Picks;
    PickedPromises(v, f.Smallest().user, f.Largest().user, limit, level);
    assert Flushable(v, level, f);
    FlushKeepsTree(names, v, level, f, w);
  }

  /** The entries in order. */
  lemma {:induction false} InKeyOrder(es: set<Entry>) returns (s: seq<Entry>)
    requires Unique(es)
    ensures Sorted(s) && SetOf(s) == es
  {
    if es == {} {
      s := [];
    } else {
      var e :| e in es;
      var rest := InKeyOrder(es - {e});
      forall i | 0 <= i < |rest|
        ensures rest[i].key != e.key
      {
        assert rest[i] in SetOf(rest);
      }
      s := Placed(rest, e);
    }
  }

  lemma {:induction false} Placed(s: seq<Entry>, e: Entry) returns (t: seq<Entry>)
    requires Sorted(s) && forall i :: 0 <= i < |s| ==> s[i].key != e.key
    ensures Sorted(t) && SetOf(t) == SetOf(s) + {e}
  {
    if s == [] || Less(e.key, s[0].key) {
      t := [e] + s;
    } else {
      var rest := Placed(s[1..], e);
      t := [s[0]] + rest;
      if e.key.user == s[0].key.user && Tag(e.key) == Tag(s[0].key) {
        SameTag(e.key, s[0].key);
      }
      forall i | 0 <= i < |rest|
        ensures Less(s[0].key, rest[i].key)
      {
        assert rest[i] in SetOf(rest);
      }
    }
  }

  /** One output with everything the compaction keeps. */
  lemma OneOutput(v: seq<Level>, c: Compaction, ss: nat, n: nat) returns (o: File)
    requires TreeOk(v) && Chosen(v, c) && KeptBy(v, c, ss) != {}
    ensures o.number == n && o.Ok() && SetOf(o.entries) == KeptBy(v, c, ss)
    ensures Made(c, [o]) && Keeps(c, [o], DeeperLevels(v, c), ss)
  {
    hide TreeOk, KeptOf, Sorted, Chosen;
    var kept := KeptBy(v, c, ss);
    TreeUnique(v);
    KeptWithin(v, c, ss);
    forall x | x in EntriesOf(Inputs(c))
      ensures x in VersionEntries(v) && x.key.sn <= MAX_SEQUENCE
    {
      InputEntryOk(v, c, x);
    }
    var s := InKeyOrder(kept);
    o := File(n, 0, s);
    forall i | 0 <= i < |s|
      ensures s[i] in kept
    {
      assert s[i] in SetOf(s);
    }
    assert EntriesOf([o]) == SetOf(s);
  }

  lemma InputEntryOk(v: seq<Level>, c: Compaction, x: Entry)
    requires TreeOk(v) && Chosen(v, c) && x in EntriesOf(Inputs(c))
    ensures x in VersionEntries(v) && x.key.sn <= MAX_SEQUENCE
  {
    hide NewerByNumber, Layered;
    var f := InputHome(v, c, x);
    InVersion(v, if f in c.inputs0 then c.level else c.level + 1, f, x);
    assert f.Ok();
  }

  function Numbers(fs: Level): set<nat> {
    set f | f in fs :: f.number
  }

  /** The version after the compaction with one output. */
  ghost function After(u: seq<Level>, c: Compaction, o: File): seq<Level>
    requires |u| == NUM_LEVELS && c.level + 1 < NUM_LEVELS && o.Ok()
    requires FilesOk(Without(u[c.level + 1], Numbers(c.inputs1)))
  {
    u[c.level := Without(u[c.level], Numbers(c.inputs0))]
     [c.level + 1 := Insert(Without(u[c.level + 1], Numbers(c.inputs1)), o)]
  }

  lemma AfterListed(names: Catalogue, u: seq<Level>, c: Compaction, o: File)
    requires VersionOk(names, u) && c.level + 1 < NUM_LEVELS && o.Ok() && o.number in names && names[o.number] == o
    requires forall l, g :: 0 <= l < NUM_LEVELS && g in u[l] ==> g.number != o.number
    ensures FilesOk(Without(u[c.level + 1], Numbers(c.inputs1))) && VersionOk(names, After(u, c, o))
  {
    hide Listed, Insert, Without, Numbers;
    WithoutListed(u[c.level], Numbers(c.inputs0));
    WithoutListed(u[c.level + 1], Numbers(c.inputs1));
    InsertListed(Without(u[c.level + 1], Numbers(c.inputs1)), o);
    var w := After(u, c, o);
    forall l | 0 <= l < NUM_LEVELS
      ensures FilesOk(w[l]) && Listed(w[l]) && Known(names, w[l])
    {
      assert Known(names, u[l]);
    }
  }

  /** The files of the version after it are those the edit means. */
  lemma AfterInstalls(names: Catalogue, u: seq<Level>, c: Compaction, o: File)
    requires VersionOk(names, u) && c.level + 1 < NUM_LEVELS && o.Ok() && o.number in names && names[o.number] == o
    requires forall l, g :: 0 <= l < NUM_LEVELS && g in u[l] ==> g.number != o.number
    ensures FilesOk(Without(u[c.level + 1], Numbers(c.inputs1)))
    ensures Installs(names, u, CompactionEdit(c, [o]), After(u, c, o))
  {
    hide Listed, Insert, Without, VersionOk;
    AfterListed(names, u, c, o);
    Levels(names, u);
    Levels(names, After(u, c, o));
    var e, w := CompactionEdit(c, [o]), After(u, c, o);
    assert e.added == [(c.level + 1, o)];
    forall l, f | 0 <= l < NUM_LEVELS && f in u[l]
      ensures Removes(e, l, f) <==>
        ((l == c.level && f.number in Numbers(c.inputs0)) || (l == c.level + 1 && f.number in Numbers(c.inputs1)))
    {
      assert f.number != o.number;
    }
    assert forall l, f :: Adds(e, l, f) <==> l == c.level + 1 && f == o;
  }

  lemma Levels(names: Catalogue, v: seq<Level>)
    requires VersionOk(names, v)
    ensures |v| == NUM_LEVELS
  {
  }

  /** An output that spans a flushed file on its level breaks the tree. */
  lemma SpanBreaks(w: seq<Level>, l: nat, f: File, o: File, x: UserKey)
    requires |w| == NUM_LEVELS && 1 <= l < NUM_LEVELS && f in w[l] && o in w[l] && f.Ok() && o.Ok()
    requires f.Smallest().user == x == f.Largest().user && o.Smallest().user < x < o.Largest().user
    ensures !TreeOk(w)
  {
  }

  /** After one flush of the exposed user key onto the output level, an output astride it breaks the tree. */
  lemma LastStep(names: Catalogue, c: Compaction, u: seq<Level>, f: File, o: File, x: UserKey) returns (w: seq<Level>)
    requires VersionOk(names, u) && c.level + 1 < NUM_LEVELS && o.Ok() && Astride(SetOf(o.entries), x)
    requires f in u[c.level + 1] && f.number !in Numbers(Inputs(c))
    requires f.Ok() && f.Smallest().user == x == f.Largest().user
    requires o.number in names && names[o.number] == o
    requires forall l, g :: 0 <= l < NUM_LEVELS && g in u[l] ==> g.number != o.number
    ensures Installs(names, u, CompactionEdit(c, [o]), w) && !TreeOk(w)
  {
    hide VersionOk, Installs, Insert, Without, TreeOk;
    Levels(names, u);
    AfterInstalls(names, u, c, o);
    w := After(u, c, o);
    assert f.number !in Numbers(c.inputs1);
    assert f in Without(u[c.level + 1], Numbers(c.inputs1));
    var d, e :| d in SetOf(o.entries) && e in SetOf(o.entries) && d.key.user < x < e.key.user;
    InRange(o, d);
    InRange(o, e);
    SpanBreaks(w, c.level + 1, f, o, x);
  }

  lemma Uncovers(v: seq<Level>, c: Compaction, x: UserKey)
    requires ShapeOk(v) && Chosen(v, c) && Uncovered(v, c, x)
    ensures Astride(InputEntries(c), x)
  {
    hide ShapeOk, Chosen, HoldsKey;
    InputsOk(v, c);
    var a, b :| a in Inputs(c) && b in Inputs(c) && a.Smallest().user <= x <= b.Largest().user;
    var d, e := a.entries[0], b.entries[|b.entries| - 1];
    EndHeld(v, c, a, d);
    EndHeld(v, c, b, e);
    assert d in InputEntries(c) && e in InputEntries(c);
  }

  lemma EndHeld(v: seq<Level>, c: Compaction, f: File, d: Entry)
    requires ShapeOk(v) && Chosen(v, c) && f in Inputs(c) && d in f.entries
    ensures c.level + 1 < NUM_LEVELS && (HoldsKey(v[c.level], d.key.user) || HoldsKey(v[c.level + 1], d.key.user))
  {
    InputsOk(v, c);
    assert f.Ok();
    InRange(f, d);
  }

  /** Entries of the version with one file more. */
  lemma InsertedEntries(v: seq<Level>, level: nat, f: File, e: Entry)
    requires level < |v| && FilesOk(v[level]) && f.Ok() && e in VersionEntries(v[level := Insert(v[level], f)])
    ensures e in VersionEntries(v) || e in f.entries
  {
    var w := v[level := Insert(v[level], f)];
    var l :| 0 <= l < |w| && e in EntriesOf(w[l]);
    var g: File :| g in w[l] && e in g.entries;
    if g in v[l] {
      assert e in EntriesOf(v[l]);
    }
  }

  /** When the flush goes below the output level, the next one cannot: it comes to lie on the output level. */
  lemma SecondPicks(v: seq<Level>, x: UserKey, limit: nat, f: File, w: seq<Level>)
    requires ShapeOk(v) && ShapeOk(w) && Picks(v, x, x, limit, 2) && f.Ok() && f.size == 0
    requires f.Smallest().user == x == f.Largest().user
    requires w == v[2 := Insert(v[2], f)]
    ensures Picks(w, x, x, limit, 1)
  {
    hide OverlapBytes, Insert;
    assert MayDescend(v, x, x, limit, 0) && MayDescend(v, x, x, limit, 1);
    InsertBytes(v[2], f, x);
    assert w[0] == v[0] && w[1] == v[1];
    assert MayDescend(w, x, x, limit, 0);
    assert f in w[2] && Touches(f, At(x), At(x));
    assert MeetsLevel(w[2], x, x);
  }

  ghost predicate Below(v: seq<Level>, n: nat) {
    |v| == NUM_LEVELS && forall l, g :: 0 <= l < NUM_LEVELS && g in v[l] ==> g.number < n
  }

  ghost predicate Lower(v: seq<Level>, sn: nat) {
    forall e :: e in VersionEntries(v) ==> e.key.sn < sn
  }

  /** One flush of one pair, and what it leaves for the next. */
  lemma FlushOne(names: Catalogue, v: seq<Level>, x: UserKey, limit: nat, level: nat, n: nat, sn: nat)
    returns (f: File, w: seq<Level>)
    requires TreeOk(v) && VersionOk(names, v) && Picks(v, x, x, limit, level) && sn <= MAX_SEQUENCE && Lower(v, sn)
    requires Below(v, n)
    requires n in names && names[n] == One(n, x, sn)
    ensures f == One(n, x, sn) && f.Ok() && level < NUM_LEVELS && FilesOk(v[level])
    ensures w == v[level := Insert(v[level], f)]
    ensures FlushedTo(names, v, limit, w) && TreeOk(w) && VersionOk(names, w) && Lower(w, sn + 1) && Below(w, n + 1)
  {
    hide Insert, VersionOk, NewerByNumber, Layered, Picks, Flushes;
    f := One(n, x, sn);
    OneFlushes(names, v, x, limit, level, n, sn);
    LevelBelow(v, x, limit, level);
    w := v[level := Insert(v[level], f)];
    FlushedTree(names, v, f, limit, level, w);
    forall e | e in VersionEntries(w)
      ensures e.key.sn < sn + 1
    {
      InsertedEntries(v, level, f, e);
    }
  }

  /** One or two flushes of the exposed user key put a file on the output level. */
  lemma FlushesArrive(names: Catalogue, v: seq<Level>, c: Compaction, kept: set<Entry>, x: UserKey, limit: nat, n: nat)
    returns (vs: seq<seq<Level>>, u: seq<Level>, f: File)
    requires TreeOk(v) && Chosen(v, c) && VersionOk(names, v) && Lower(v, MAX_SEQUENCE - 1)
    requires Exposed(v, c, kept, x, limit) && Below(v, n)
    requires n in names && names[n] == One(n, x, MAX_SEQUENCE - 1) && n + 1 in names
    requires names[n + 1] == One(n + 1, x, MAX_SEQUENCE)
    ensures FlushRun(names, vs, limit) && vs[0] == v && u == vs[|vs| - 1] && VersionOk(names, u) && Below(u, n + 2)
    ensures c.level + 1 < NUM_LEVELS && f in u[c.level + 1] && f.number >= n && f.Ok()
    ensures f.Smallest().user == x == f.Largest().user
  {
    hide Insert, VersionOk, TreeOk, OverlapBytes, Picks, Exposed, Lower, FlushedTo, Chosen, ShapeOk, MayDescend;
    Shapes(v);
    var level := PicksOutput(v, c, kept, x, limit);
    f, u := FlushOne(names, v, x, limit, level, n, MAX_SEQUENCE - 1);
    vs := [v, u];
    assert FlushAt(names, vs, limit, 0);
    if level != c.level + 1 {
      Shapes(u);
      SecondPicks(v, x, limit, f, u);
      var w := u;
      f, u := FlushOne(names, w, x, limit, 1, n + 1, MAX_SEQUENCE);
      vs := [v, w, u];
      assert FlushAt(names, vs, limit, 0) && FlushAt(names, vs, limit, 1);
    }
  }

  lemma Shapes(v: seq<Level>)
    requires TreeOk(v)
    ensures ShapeOk(v)
  {
  }

  /** With a user key exposed, at most two flushes of it and one file of all that is kept break the tree. */
  lemma ExposedBreaks(names: Catalogue, v: seq<Level>, c: Compaction, ss: nat, x: UserKey, limit: nat)
    returns (more: Catalogue, vs: seq<seq<Level>>, outs: Level, w: seq<Level>)
    requires TreeOk(v) && Chosen(v, c) && VersionOk(names, v) && RoomForTwo(v)
    requires Exposed(v, c, KeptBy(v, c, ss), x, limit)
    ensures Breaks(more, v, c, ss, limit, vs, outs, w)
  {
    hide VersionOk, Installs, TreeOk, Exposed, Made, Keeps, FlushRun, RoomForTwo, Chosen, Below, ShapeOk, Lower, One,
      KeptOf, Numbers;
    Shapes(v);
    var n := FreshNumber(names.Keys);
    NumbersBelowFresh(names, v, n);
    var kept := KeptBy(v, c, ss);
    assert Astride(kept, x) by {
      ExposedParts(v, c, kept, x, limit);
    }
    var o := OneOutput(v, c, ss, n + 2);
    more := ThreeMore(names, v, n, One(n, x, MAX_SEQUENCE - 1), One(n + 1, x, MAX_SEQUENCE), o);
    RoomLower(v);
    var u, f;
    vs, u, f := FlushesArrive(more, v, c, kept, x, limit, n);
    InputNumbers(v, c, n, f.number);
    outs := [o];
    NumbersOf(u, n + 2);
    w := LastStep(more, c, u, f, o, x);
  }

  lemma ExposedParts(v: seq<Level>, c: Compaction, kept: set<Entry>, x: UserKey, limit: nat)
    requires Exposed(v, c, kept, x, limit)
    ensures Astride(kept, x)
  {
  }

  lemma ThreeMore(names: Catalogue, v: seq<Level>, n: nat, f: File, g: File, o: File) returns (more: Catalogue)
    requires VersionOk(names, v) && forall k :: k in names.Keys ==> k < n
    ensures VersionOk(more, v) && n in more && more[n] == f && n + 1 in more && more[n + 1] == g && n + 2 in more
    ensures more[n + 2] == o
  {
    hide VersionOk;
    MoreNames(names, v, n, f);
    MoreNames(names[n := f], v, n + 1, g);
    MoreNames(names[n := f][n + 1 := g], v, n + 2, o);
    more := names[n := f][n + 1 := g][n + 2 := o];
  }

  lemma InputNumbers(v: seq<Level>, c: Compaction, n: nat, k: nat)
    requires ShapeOk(v) && Chosen(v, c) && Below(v, n) && k >= n
    ensures k !in Numbers(Inputs(c))
  {
  }

  lemma NumbersOf(v: seq<Level>, n: nat)
    requires Below(v, n)
    ensures |v| == NUM_LEVELS && forall l, g :: 0 <= l < NUM_LEVELS && g in v[l] ==> g.number != n
  {
  }

  lemma RoomLower(v: seq<Level>)
    requires RoomForTwo(v)
    ensures Lower(v, MAX_SEQUENCE - 1)
  {
  }

  lemma NumbersBelowFresh(names: Catalogue, v: seq<Level>, n: nat)
    requires VersionOk(names, v) && forall k :: k in names.Keys ==> k < n
    ensures Below(v, n)
  {
  }

  /** Some flushes while a compaction runs, and some cut into files of what its loop keeps, leave the tree out of order
      exactly when a user key between kept ones is exposed. */
  lemma GapExactly(names: Catalogue, v: seq<Level>, c: Compaction, ss: nat, limit: nat)
    requires TreeOk(v) && Chosen(v, c) && VersionOk(names, v) && RoomForTwo(v)
    ensures (exists x :: Exposed(v, c, KeptBy(v, c, ss), x, limit))
      <==> exists more, vs, outs, w :: Breaks(more, v, c, ss, limit, vs, outs, w)
  {
    hide Exposed, Breaks, TreeOk, Chosen, VersionOk, RoomForTwo, KeptOf;
    if x :| Exposed(v, c, KeptBy(v, c, ss), x, limit) {
      var more, vs, outs, w := ExposedBreaks(names, v, c, ss, x, limit);
    } else {
      forall more, vs, outs, w
        ensures !Breaks(more, v, c, ss, limit, vs, outs, w)
      {
        NothingBreaks(more, v, c, ss, limit, vs, outs, w);
      }
    }
  }

  /** A guarded compaction is safe whatever its loop keeps and whatever the limit; and only a guarded one is so when its
      loop keeps everything. */
  lemma GuardedExactly(v: seq<Level>, c: Compaction)
    requires ShapeOk(v) && Chosen(v, c)
    ensures Guarded(v, c) <==> forall x, limit :: !Exposed(v, c, InputEntries(c), x, limit)
    ensures Guarded(v, c) ==> forall kept, x, limit :: !Exposed(v, c, kept, x, limit)
  {
    hide OverlapBytes, ShapeOk, Chosen, HoldsKey, InHull, Astride;
    if !Guarded(v, c) {
      assert FilesOk(v[c.level + 2]) by {
        LevelsOk(v);
      }
      var x :| Uncovered(v, c, x);
      Uncovers(v, c, x);
      assert Exposed(v, c, InputEntries(c), x, OverlapBytes(v[c.level + 2], x, x));
    }
  }

  lemma LevelsOk(v: seq<Level>)
    requires ShapeOk(v)
    ensures |v| == NUM_LEVELS && forall l :: 0 <= l < NUM_LEVELS ==> FilesOk(v[l])
  {
  }

  // ----- the smallest case -----

  // A manual compaction of two level-1 files with a gap between them, and a flush into the gap.

  const GAP_LEFT := File(5, 1, [Put(1.0, 1)])
  const GAP_RIGHT := File(6, 1, [Put(5.0, 2)])
  const GAP_FLUSHED := File(7, 1, [Put(3.0, 3)])
  const GAP_OUTPUT := File(8, 1, [Put(1.0, 1), Put(5.0, 2)])
  const GAP_START: seq<Level> := [[], [GAP_LEFT, GAP_RIGHT], [], [], [], [], []]
  const GAP_FLUSH: seq<Level> := [[], [GAP_LEFT, GAP_RIGHT], [GAP_FLUSHED], [], [], [], []]
  const GAP_END: seq<Level> := [[], [], [GAP_OUTPUT, GAP_FLUSHED], [], [], [], []]
  const GAP_CHOICE := Compaction(1, [GAP_LEFT, GAP_RIGHT], [], [])
  const GAP_NAMES: Catalogue := map[5 := GAP_LEFT, 6 := GAP_RIGHT, 7 := GAP_FLUSHED, 8 := GAP_OUTPUT]

  lemma GapFiles()
    ensures GAP_LEFT.Ok() && GAP_RIGHT.Ok() && GAP_FLUSHED.Ok() && GAP_OUTPUT.Ok()
  {
  }

  lemma GapTree()
    ensures TreeOk(GAP_START)
  {
  }

  /** The two files are what meets the range asked for by hand, and make a choice, far apart as they are. */
  lemma GapChosen()
    ensures Touching([GAP_LEFT, GAP_RIGHT], At(1.0), At(5.0)) == [GAP_LEFT, GAP_RIGHT]
    ensures ShapeOk(GAP_START) && Chosen(GAP_START, GAP_CHOICE)
  {
    GapFiles();
    GapTree();
    var both := [GAP_LEFT, GAP_RIGHT];
    assert both[..1] == [GAP_LEFT] && [GAP_LEFT][..0] == [];
    assert Touching([GAP_LEFT], At(1.0), At(5.0)) == [GAP_LEFT];
    assert GAP_CHOICE.inputs0 == GAP_START[1] && GAP_START[2] == [];
  }

  lemma GapPicks(limit: nat)
    ensures ShapeOk(GAP_START) && Picks(GAP_START, 3.0, 3.0, limit, 2)
  {
  }

  lemma GapNewer()
    ensures NewerThan(SetOf(GAP_FLUSHED.entries), VersionEntries(GAP_START))
  {
  }

  /** A flush of the one user key between them meets no file at all, so it goes to their output level. */
  lemma GapFlushes(limit: nat)
    ensures Flushes(GAP_NAMES, GAP_START, GAP_FLUSHED, limit, 2, GAP_FLUSH)
  {
    hide Picks, Installs, NewerThan;
    GapFiles();
    GapPicks(limit);
    GapNewer();
    GapInstalls();
    assert GAP_START[0] == [];
  }

  lemma GapVersions()
    ensures VersionOk(GAP_NAMES, GAP_START) && VersionOk(GAP_NAMES, GAP_FLUSH)
  {
    GapFiles();
    forall l | 0 <= l < NUM_LEVELS
      ensures FilesOk(GAP_FLUSH[l]) && Listed(GAP_FLUSH[l]) && Known(GAP_NAMES, GAP_FLUSH[l])
      ensures FilesOk(GAP_START[l]) && Listed(GAP_START[l]) && Known(GAP_NAMES, GAP_START[l])
    {
    }
  }

  lemma GapInstalls()
    ensures Installs(GAP_NAMES, GAP_START, FlushEdit(2, GAP_FLUSHED), GAP_FLUSH)
  {
    GapVersions();
    var e := FlushEdit(2, GAP_FLUSHED);
    assert forall l, f :: Adds(e, l, f) <==> l == 2 && f == GAP_FLUSHED;
    forall l, f | 0 <= l < NUM_LEVELS
      ensures f in GAP_FLUSH[l] <==> f in GAP_START[l] || (l == 2 && f == GAP_FLUSHED)
    {
    }
  }

  /** The compaction keeps both entries. */
  lemma GapKeeps()
    ensures Made(GAP_CHOICE, [GAP_OUTPUT]) && Keeps(GAP_CHOICE, [GAP_OUTPUT], DeeperLevels(GAP_START, GAP_CHOICE), 10)
  {
    GapFiles();
    var inputs := InputEntries(GAP_CHOICE);
    assert Inputs(GAP_CHOICE) == [GAP_LEFT, GAP_RIGHT];
    assert Put(1.0, 1) in GAP_LEFT.entries && Put(5.0, 2) in GAP_RIGHT.entries;
    assert GAP_LEFT in Inputs(GAP_CHOICE) && GAP_RIGHT in Inputs(GAP_CHOICE);
    assert inputs == {Put(1.0, 1), Put(5.0, 2)};
    assert GAP_OUTPUT in [GAP_OUTPUT] && Put(1.0, 1) in GAP_OUTPUT.entries && Put(5.0, 2) in GAP_OUTPUT.entries;
    assert EntriesOf([GAP_OUTPUT]) == {Put(1.0, 1), Put(5.0, 2)};
  }

  lemma GapCompacts()
    ensures Installs(GAP_NAMES, GAP_FLUSH, CompactionEdit(GAP_CHOICE, [GAP_OUTPUT]), GAP_END)
  {
    GapFiles();
    GapVersions();
    var e := CompactionEdit(GAP_CHOICE, [GAP_OUTPUT]);
    assert e.added == [(2, GAP_OUTPUT)];
    assert Before(GAP_OUTPUT, GAP_FLUSHED);
    forall l | 0 <= l < NUM_LEVELS
      ensures FilesOk(GAP_END[l]) && Listed(GAP_END[l]) && Known(GAP_NAMES, GAP_END[l])
    {
    }
    assert GAP_LEFT in GAP_CHOICE.inputs0 && GAP_RIGHT in GAP_CHOICE.inputs0;
    assert (1, 5) in e.deleted && (1, 6) in e.deleted && (2, 7) !in e.deleted;
    forall l, f | 0 <= l < NUM_LEVELS
      ensures f in GAP_END[l] <==> Adds(e, l, f) || (f in GAP_FLUSH[l] && !Removes(e, l, f))
    {
    }
  }

  /** The fault is real: a choice CompactRange makes, on a tree in order; a flush while it runs; and what the loop
      makes of the inputs. The one output spans the flushed file on its level. */
  lemma GapBreaksLevel(limit: nat)
    ensures TreeOk(GAP_START) && Touching(GAP_START[1], At(1.0), At(5.0)) == GAP_CHOICE.inputs0
    ensures Chosen(GAP_START, GAP_CHOICE)
    ensures Flushes(GAP_NAMES, GAP_START, GAP_FLUSHED, limit, 2, GAP_FLUSH)
    ensures Keeps(GAP_CHOICE, [GAP_OUTPUT], DeeperLevels(GAP_START, GAP_CHOICE), 10)
    ensures Breaks(GAP_NAMES, GAP_START, GAP_CHOICE, 10, limit, [GAP_START, GAP_FLUSH], [GAP_OUTPUT], GAP_END)
  {
    hide Flushes, Keeps, Installs, Touching, Chosen;
    GapTree();
    GapChosen();
    GapFlushes(limit);
    GapKeeps();
    GapCompacts();
    GapFiles();
    assert FlushAt(GAP_NAMES, [GAP_START, GAP_FLUSH], limit, 0);
    SpanBreaks(GAP_END, 2, GAP_FLUSHED, GAP_OUTPUT, 3.0);
  }
}
