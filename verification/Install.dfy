/** Every version edit keeps the order of the tree, also when memtable flushes run during a compaction. */
module Installing {
  import opened Keys
  import opened Versions
  import opened Overlap
  import opened Picking
  import opened Builders

  // ----- the tree order, file by file -----

  ghost predicate NewerFile(f: File, g: File) {
    NewerThan(SetOf(f.entries), SetOf(g.entries))
  }

  predicate Apart(f: File, g: File)
    requires f.entries != [] && g.entries != []
  {
    Less(f.Largest(), g.Smallest()) || Less(g.Largest(), f.Smallest())
  }

  ghost predicate BothApart(f: File, g: File) {
    f.Ok() && g.Ok() && Apart(f, g)
  }

  /** The user-key ranges of the files do not meet. */
  predicate UserApart(f: File, g: File)
    requires f.entries != [] && g.entries != []
  {
    f.Largest().user < g.Smallest().user || g.Largest().user < f.Smallest().user
  }

  lemma UserApartNewer(f: File, g: File)
    requires f.Ok() && g.Ok() && UserApart(f, g)
    ensures NewerFile(f, g) && NewerFile(g, f)
  {
  }

  lemma ListedApartDisjoint(fs: Level)
    requires FilesOk(fs) && Listed(fs)
    requires forall f, g :: f in fs && g in fs && f != g ==> BothApart(f, g)
    ensures Disjoint(fs)
  {
    forall i, j | 0 <= i < j < |fs|
      ensures Less(fs[i].Largest(), fs[j].Smallest())
    {
      assert Before(fs[i], fs[j]);
      assert fs[i].Ok() && fs[j].Ok();
      InRange(fs[j], fs[j].entries[|fs[j].entries| - 1]);
      InRange(fs[i], fs[i].entries[|fs[i].entries| - 1]);
      assert fs[i] in fs && fs[j] in fs;
    }
  }

  lemma LayeredFile(v: seq<Level>, a: nat, b: nat, f: File, g: File)
    requires Layered(v) && a < b < |v| && f in v[a] && g in v[b]
    ensures NewerFile(f, g)
  {
  }

  lemma LayeredByFiles(v: seq<Level>)
    requires forall a, b, f, g :: 0 <= a < b < |v| && f in v[a] && g in v[b] ==> NewerFile(f, g)
    ensures Layered(v)
  {
    forall a, b, x, y | 0 <= a < b < |v| && x in EntriesOf(v[a]) && y in EntriesOf(v[b]) && x.key.user == y.key.user
      ensures Tag(x.key) > Tag(y.key)
    {
      var f :| f in v[a] && x in f.entries;
      var g :| g in v[b] && y in g.entries;
      assert NewerFile(f, g);
    }
  }

  lemma NewerThanFile(es: set<Entry>, v: seq<Level>, l: nat, g: File)
    requires NewerThan(es, VersionEntries(v)) && l < |v| && g in v[l]
    ensures NewerThan(es, SetOf(g.entries))
  {
    forall y | y in g.entries
      ensures y in VersionEntries(v)
    {
      assert y in EntriesOf(v[l]);
    }
  }

  /** What makes a listed version a tree. */
  ghost predicate FileOrder(v: seq<Level>)
    requires |v| == NUM_LEVELS && forall l :: 0 <= l < |v| ==> FilesOk(v[l])
  {
    && (forall l, f, g :: 1 <= l < |v| && f in v[l] && g in v[l] && f != g ==> BothApart(f, g))
    && (forall f, g :: f in v[0] && g in v[0] && f != g ==>
      f.number != g.number && (f.number > g.number ==> NewerFile(f, g)))
    && forall a, b, f, g :: 0 <= a < b < |v| && f in v[a] && g in v[b] ==> NewerFile(f, g)
  }

  lemma TreeIsFileOrder(v: seq<Level>)
    requires TreeOk(v)
    ensures FileOrder(v)
  {
    forall l, f, g | 1 <= l < |v| && f in v[l] && g in v[l] && f != g
      ensures BothApart(f, g)
    {
      InOrder(v[l], f, g);
    }
    forall f, g | f in v[0] && g in v[0] && f != g
      ensures f.number != g.number
    {
      SameNumber(v[0], f, g);
    }
    forall a, b, f, g | 0 <= a < b < |v| && f in v[a] && g in v[b]
      ensures NewerFile(f, g)
    {
      LayeredFile(v, a, b, f, g);
    }
  }

  lemma FileOrderIsTree(names: Catalogue, v: seq<Level>)
    requires VersionOk(names, v) && FileOrder(v)
    ensures TreeOk(v)
  {
    forall l | 1 <= l < |v|
      ensures Disjoint(v[l])
    {
      ListedApartDisjoint(v[l]);
    }
    forall i, j | 0 <= i < |v[0]| && 0 <= j < |v[0]| && i != j
      ensures v[0][i].number != v[0][j].number
    {
      assert v[0][i] in v[0] && v[0][j] in v[0];
      if i < j {
        assert Before(v[0][i], v[0][j]);
      } else {
        assert Before(v[0][j], v[0][i]);
      }
    }
    LayeredByFiles(v);
  }

  // ----- flushes -----

  /** What a flush knows of its file: newer than the whole version, and placed by PickLevelForMemTableOutput. */
  ghost predicate Flushable(v: seq<Level>, level: nat, f: File)
    requires ShapeOk(v)
  {
    && f.Ok() && level < NUM_LEVELS
    && NewerThan(SetOf(f.entries), VersionEntries(v))
    && (forall g :: g in v[0] ==> g.number < f.number)
    && (level > 0 ==> forall l :: 0 <= l <= level ==> !MeetsLevel(v[l], f.Smallest().user, f.Largest().user))
    && (forall l :: 0 < l < |v| && MeetsLevel(v[l], f.Smallest().user, f.Largest().user) ==> level < l)
    && (MeetsLevel(v[0], f.Smallest().user, f.Largest().user) ==> level == 0)
  }

  function FlushEdit(level: nat, f: File): Edit {
    Edit({}, [(level, f)])
  }

  lemma NotMetIsApart(v: seq<Level>, l: nat, f: File, g: File)
    requires ShapeOk(v) && l < |v| && f.Ok() && g in v[l] && !MeetsLevel(v[l], f.Smallest().user, f.Largest().user)
    ensures g.Ok() && UserApart(f, g)
  {
  }

  /** A memtable flush keeps the tree in order. */
  lemma FlushKeepsTree(names: Catalogue, v: seq<Level>, level: nat, f: File, w: seq<Level>)
    requires TreeOk(v) && Flushable(v, level, f) && Installs(names, v, FlushEdit(level, f), w)
    ensures TreeOk(w)
  {
    TreeIsFileOrder(v);
    var e := FlushEdit(level, f);
    assert forall l, g :: 0 <= l < NUM_LEVELS && g in w[l] ==> g in v[l] || (l == level && g == f);
    forall l, g, h | 1 <= l < |w| && g in w[l] && h in w[l] && g != h
      ensures BothApart(g, h)
    {
      if g !in v[l] {
        NotMetIsApart(v, l, f, h);
      } else if h !in v[l] {
        NotMetIsApart(v, l, f, g);
      }
    }
    forall a, b, g, h | 0 <= a < b < |w| && g in w[a] && h in w[b]
      ensures NewerFile(g, h)
    {
      if h !in v[b] {
        NotMetIsApart(v, a, f, g);
        UserApartNewer(f, g);
      } else if g !in v[a] {
        NewerThanFile(SetOf(f.entries), v, b, h);
      }
    }
    forall g | g in v[0]
      ensures NewerFile(f, g)
    {
      NewerThanFile(SetOf(f.entries), v, 0, g);
    }
    FileOrderIsTree(names, w);
  }

  // ----- compactions -----

  /** Some of the entries have user keys below `x`, and some above. */
  ghost predicate Astride(kept: set<Entry>, x: UserKey) {
    exists d, e :: d in kept && e in kept && d.key.user < x < e.key.user
  }

  /** `f` reached level `l` by a flush while the compaction `c` of version `v0` was running, which keeps the entries
      `kept`. */
  ghost predicate FlushedDuring(v0: seq<Level>, c: Compaction, kept: set<Entry>, l: nat, f: File)
    requires ShapeOk(v0) && Chosen(v0, c)
  {
    && f.Ok() && NewerThan(SetOf(f.entries), VersionEntries(v0))
    && (l > c.level ==> forall g :: g in Inputs(c) ==> BothUserApart(f, g))
    && (l == c.level + 1 ==> !Astride(kept, f.Smallest().user))
  }

  ghost predicate BothUserApart(f: File, g: File) {
    f.Ok() && g.Ok() && UserApart(f, g)
  }

  function Inputs(c: Compaction): Level {
    c.inputs0 + c.inputs1
  }

  /** `v` is `v0` and what was flushed since the compaction of `v0` began. */
  ghost predicate Since(v0: seq<Level>, c: Compaction, kept: set<Entry>, v: seq<Level>) {
    && TreeOk(v0) && Chosen(v0, c) && |v| == NUM_LEVELS
    && (forall l, f :: 0 <= l < NUM_LEVELS && f in v0[l] ==> f in v[l])
    && forall l, f :: 0 <= l < NUM_LEVELS && f in v[l] && f !in v0[l] ==> FlushedDuring(v0, c, kept, l, f)
  }

  lemma HullApart(f: File, fs: Level, lo: InternalKey, hi: InternalKey)
    requires f.Ok() && FilesOk(fs) && IsRange(fs, lo, hi) && !MeetsHull(f, fs)
    ensures f.Largest().user < lo.user || hi.user < f.Smallest().user
  {
  }

  lemma InputsOk(v0: seq<Level>, c: Compaction)
    requires ShapeOk(v0) && Chosen(v0, c)
    ensures FilesOk(Inputs(c)) && Inputs(c) != []
    ensures forall f :: f in Inputs(c) ==> if f in c.inputs0 then f in v0[c.level] else f in v0[c.level + 1]
  {
  }

  /** The user key lies between the least and the greatest of the files, in their hull. */
  ghost predicate InHull(fs: Level, x: UserKey)
    requires FilesOk(fs)
  {
    exists a, b :: a in fs && b in fs && a.Smallest().user <= x <= b.Largest().user
  }

  /** A user key inside the hull of the inputs that no file holds down to their output level. */
  ghost predicate Uncovered(v: seq<Level>, c: Compaction, x: UserKey) {
    && |v| == NUM_LEVELS && c.level + 1 < NUM_LEVELS && FilesOk(Inputs(c)) && InHull(Inputs(c), x)
    && forall l :: 0 <= l <= c.level + 1 ==> !HoldsKey(v[l], x)
  }

  /** No flush can come to lie between the inputs on their output level, whatever the sizes of the files: the
      compaction is too deep for flushes, or no user key inside the hull is uncovered. */
  ghost predicate Guarded(v: seq<Level>, c: Compaction) {
    c.level < MAX_MEM_COMPACT_LEVEL ==> forall x: UserKey :: !Uncovered(v, c, x)
  }

  lemma NoGapHolds(fs: Level, x: UserKey)
    requires FilesOk(fs) && NoGap(fs) && InHull(fs, x)
    ensures HoldsKey(fs, x)
  {
  }

  lemma InputHolds(v: seq<Level>, c: Compaction, x: UserKey)
    requires ShapeOk(v) && Chosen(v, c) && HoldsKey(Inputs(c), x)
    ensures c.level + 1 < NUM_LEVELS && (HoldsKey(v[c.level], x) || HoldsKey(v[c.level + 1], x))
  {
  }

  /** Inputs without gaps are guarded: they cover their hull themselves. */
  lemma NoGapGuards(v: seq<Level>, c: Compaction)
    requires ShapeOk(v) && Chosen(v, c) && FilesOk(Inputs(c)) && NoGap(Inputs(c))
    ensures Guarded(v, c)
  {
    hide ShapeOk, Chosen, FilesOk, NoGap, HoldsKey, InHull;
    forall x: UserKey
      ensures !Uncovered(v, c, x)
    {
      if FilesOk(Inputs(c)) && InHull(Inputs(c), x) {
        NoGapHolds(Inputs(c), x);
        InputHolds(v, c, x);
      }
    }
  }

  /** A user key between those of kept entries that no file holds down to the output level, and that few enough bytes
      overlap one level below that for a flush of it to get there. */
  ghost predicate Exposed(v: seq<Level>, c: Compaction, kept: set<Entry>, x: UserKey, limit: nat) {
    && Astride(kept, x) && Uncovered(v, c, x) && c.level < MAX_MEM_COMPACT_LEVEL
    && FilesOk(v[c.level + 2]) && OverlapBytes(v[c.level + 2], x, x) <= limit
  }

  /** A part of a range overlaps no more bytes than the range. */
  lemma {:induction false} BytesWithin(fs: Level, lo: UserKey, hi: UserKey, x: UserKey)
    requires FilesOk(fs) && lo <= x <= hi
    ensures OverlapBytes(fs, x, x) <= OverlapBytes(fs, lo, hi)
  {
    if fs != [] {
      var n := |fs| - 1;
      BytesWithin(fs[..n], lo, hi, x);
      TouchingMore(fs, lo, hi);
      TouchingMore(fs, x, x);
    }
  }

  lemma TouchingMore(fs: Level, lo: UserKey, hi: UserKey)
    requires FilesOk(fs) && fs != []
    ensures var n := |fs| - 1;
      OverlapBytes(fs, lo, hi) == OverlapBytes(fs[..n], lo, hi) + if Touches(fs[n], At(lo), At(hi)) then fs[n].size
        else 0
  {
    var n := |fs| - 1;
    var t := Touching(fs[..n], At(lo), At(hi));
    assert (t + [fs[n]])[..|t|] == t;
    assert t + [] == t;
  }

  /** More files overlap no fewer bytes. */
  lemma {:induction false} FewerBytes(fs: Level, gs: Level, x: UserKey)
    requires FilesOk(fs) && FilesOk(gs) && Listed(fs) && Listed(gs) && forall f :: f in fs ==> f in gs
    ensures OverlapBytes(fs, x, x) <= OverlapBytes(gs, x, x)
    decreases |gs|
  {
    if fs == [] {
      assert OverlapBytes(fs, x, x) == 0;
    }
    hide OverlapBytes, Listed;
    if fs != [] {
      var f := fs[|fs| - 1];
      assert f in fs && f in gs;
      ListedPart(gs);
      var g := gs[|gs| - 1];
      TouchingMore(gs, x, x);
      LastOfMore(fs, gs);
      if f == g {
        TouchingMore(fs, x, x);
        ListedPart(fs);
        FewerBytes(fs[..|fs| - 1], gs[..|gs| - 1], x);
      } else {
        FewerBytes(fs, gs[..|gs| - 1], x);
      }
    }
  }

  lemma ListedPart(fs: Level)
    requires FilesOk(fs) && Listed(fs) && fs != []
    ensures FilesOk(fs[..|fs| - 1]) && Listed(fs[..|fs| - 1])
  {
  }

  lemma LastOfMore(fs: Level, gs: Level)
    requires FilesOk(fs) && FilesOk(gs) && Listed(fs) && Listed(gs) && fs != [] && gs != []
    requires forall f :: f in fs ==> f in gs
    ensures var m, n := |fs| - 1, |gs| - 1;
      if fs[m] == gs[n] then forall f :: f in fs[..m] ==> f in gs[..n] else forall f :: f in fs ==> f in gs[..n]
  {
    var m, n := |fs| - 1, |gs| - 1;
    var j := Position(gs, fs[m]);
    forall i | 0 <= i < m
      ensures fs[i] in gs[..n]
    {
      var k := Position(gs, fs[i]);
      assert Before(fs[i], fs[m]);
      InPlace(gs, k, j);
    }
    if j < n {
      assert gs[..n][j] == fs[m];
    }
  }

  lemma InPlace(gs: Level, k: nat, j: nat)
    requires FilesOk(gs) && Listed(gs) && k < |gs| && j < |gs| && Before(gs[k], gs[j])
    ensures k < j
  {
  }

  lemma Position(gs: Level, f: File) returns (k: nat)
    requires f in gs
    ensures k < |gs| && gs[k] == f
  {
    k :| 0 <= k < |gs| && gs[k] == f;
  }

  /** While a compaction runs, a flush deeper than its level keeps clear of every input; and if no user key is
      exposed, a flush to its output level starts at a user key that is not between those the compaction keeps. */
  lemma FlushKeepsClear(v0: seq<Level>, c: Compaction, kept: set<Entry>, v: seq<Level>, limit: nat, level: nat, f: File)
    requires Since(v0, c, kept, v) && ShapeOk(v) && Flushable(v, level, f) && kept <= EntriesOf(Inputs(c))
    requires Picks(v, f.Smallest().user, f.Largest().user, limit, level)
    requires forall x :: !Exposed(v, c, kept, x, limit)
    ensures FlushedDuring(v0, c, kept, level, f)
  {
    hide Exposed, Picks, NewerByNumber, Layered;
    StaysNewer(v0, v, f);
    InputsOk(v0, c);
    if level > c.level {
      forall g | g in Inputs(c)
        ensures BothUserApart(f, g)
      {
        NotMetIsApart(v, if g in c.inputs0 then c.level else c.level + 1, f, g);
      }
      if level == c.level + 1 && Astride(kept, f.Smallest().user) {
        FlushExposes(v, c, kept, f, limit);
        assert false;
      }
    }
  }

  lemma StaysNewer(v0: seq<Level>, v: seq<Level>, f: File)
    requires NewerThan(SetOf(f.entries), VersionEntries(v)) && |v0| <= |v|
    requires forall l, g :: 0 <= l < |v0| && g in v0[l] ==> g in v[l]
    ensures NewerThan(SetOf(f.entries), VersionEntries(v0))
  {
    forall x, y | x in f.entries && y in VersionEntries(v0) && x.key.user == y.key.user
      ensures Tag(x.key) > Tag(y.key)
    {
      var l :| 0 <= l < |v0| && y in EntriesOf(v0[l]);
      var g :| g in v0[l] && y in g.entries;
      assert y in EntriesOf(v[l]) && y in VersionEntries(v);
    }
  }

  /** A flush onto the output level that starts between kept entries starts at an exposed user key. */
  lemma FlushExposes(v: seq<Level>, c: Compaction, kept: set<Entry>, f: File, limit: nat)
    requires ShapeOk(v) && f.Ok() && FilesOk(Inputs(c)) && kept <= EntriesOf(Inputs(c))
    requires Picks(v, f.Smallest().user, f.Largest().user, limit, c.level + 1) && Astride(kept, f.Smallest().user)
    ensures Exposed(v, c, kept, f.Smallest().user, limit)
  {
    hide OverlapBytes;
    var lo, hi := f.Smallest().user, f.Largest().user;
    PickedPromises(v, lo, hi, limit, c.level + 1);
    InRange(f, f.entries[0]);
    AstrideInHull(Inputs(c), kept, lo);
    forall l | 0 <= l <= c.level + 1
      ensures !HoldsKey(v[l], lo)
    {
      NothingHolds(v[l], lo, hi);
    }
    assert MayDescend(v, lo, hi, limit, c.level);
    BytesWithin(v[c.level + 2], lo, hi, lo);
  }

  lemma NothingHolds(fs: Level, lo: UserKey, hi: UserKey)
    requires FilesOk(fs) && lo <= hi && !MeetsLevel(fs, lo, hi)
    ensures !HoldsKey(fs, lo)
  {
    forall g | g in fs && g.entries != [] && g.Smallest().user <= lo <= g.Largest().user
      ensures false
    {
      assert Touches(g, At(lo), At(hi));
    }
  }

  lemma AstrideInHull(fs: Level, kept: set<Entry>, x: UserKey)
    requires FilesOk(fs) && kept <= EntriesOf(fs) && Astride(kept, x)
    ensures InHull(fs, x)
  {
    var d, e :| d in kept && e in kept && d.key.user < x < e.key.user;
    var a :| a in fs && d in a.entries;
    var b :| b in fs && e in b.entries;
    InRange(a, d);
    InRange(b, e);
  }

  /** Flushes expose nothing new: what is exposed now was so at the start. */
  lemma StillExposed(v0: seq<Level>, c: Compaction, kept: set<Entry>, v: seq<Level>, x: UserKey, limit: nat)
    requires Since(v0, c, kept, v) && ShapeOk(v) && Exposed(v, c, kept, x, limit)
    ensures Exposed(v0, c, kept, x, limit)
  {
    hide OverlapBytes, FlushedDuring, NewerByNumber, Layered;
    DisjointIsListed(v0[c.level + 2]);
    DisjointIsListed(v[c.level + 2]);
    FewerBytes(v0[c.level + 2], v[c.level + 2], x);
  }

  lemma DisjointIsListed(fs: Level)
    requires FilesOk(fs) && Disjoint(fs)
    ensures Listed(fs)
  {
    forall i, j | 0 <= i < j < |fs|
      ensures Before(fs[i], fs[j])
    {
      assert fs[i].Ok() && fs[j].Ok();
      InRange(fs[i], fs[i].entries[|fs[i].entries| - 1]);
    }
  }

  /** What the compaction loop makes: sorted disjoint files of entries taken from the inputs. */
  ghost predicate Made(c: Compaction, outs: Level) {
    && FilesOk(outs) && Disjoint(outs)
    && forall o, x :: o in outs && x in o.entries ==> exists f :: f in Inputs(c) && x in f.entries
  }

  /** InstallCompactionResults, and a trivial move: delete the inputs, add the outputs one level down. */
  function CompactionEdit(c: Compaction, outs: Level): Edit {
    Edit((set f | f in c.inputs0 :: (c.level, f.number)) + (set f | f in c.inputs1 :: (c.level + 1, f.number)),
         seq(|outs|, i requires 0 <= i < |outs| => (c.level + 1, outs[i])))
  }

  /** A left-out file of the compaction's level is newer than its inputs wherever they share a user key. */
  lemma LeftOutNewer(v0: seq<Level>, c: Compaction, g: File, f: File)
    requires ShapeOk(v0) && Chosen(v0, c) && g in v0[c.level] && g !in c.inputs0 && f in c.inputs0
    ensures NewerFile(g, f)
  {
  }

  /** Every file of the version above the outputs is newer than every input, and inputs are newer than what lies
      below. */
  lemma AroundInputs(v0: seq<Level>, c: Compaction, kept: set<Entry>, v: seq<Level>, l: nat, g: File, f: File)
    requires Since(v0, c, kept, v) && TreeOk(v) && l < NUM_LEVELS && g in v[l] && f in Inputs(c)
    ensures l <= c.level && g !in c.inputs0 ==> NewerFile(g, f)
    ensures l > c.level + 1 ==> NewerFile(f, g)
  {
    InputsOk(v0, c);
    var m := if f in c.inputs0 then c.level else c.level + 1;
    assert f in v[m];
    if l < m {
      LayeredFile(v, l, m, g, f);
    }
    if m < l {
      LayeredFile(v, m, l, f, g);
    }
    if l == c.level && g !in c.inputs0 && f in c.inputs0 {
      if g in v0[l] {
        LeftOutNewer(v0, c, g, f);
      } else {
        NewerThanFile(SetOf(g.entries), v0, l, f);
      }
    }
  }

  lemma OutputsNewer(c: Compaction, outs: Level, g: File, o: File)
    requires Made(c, outs) && o in outs
    ensures (forall f :: f in Inputs(c) ==> NewerFile(g, f)) ==> NewerFile(g, o)
    ensures (forall f :: f in Inputs(c) ==> NewerFile(f, g)) ==> NewerFile(o, g)
  {
  }

  /** A left-out file of the output level lies left or right of every input. */
  lemma LeftOutBeside(v0: seq<Level>, c: Compaction, g: File, f: File, x: Entry, lo: InternalKey, hi: InternalKey)
    requires ShapeOk(v0) && Chosen(v0, c) && IsRange(c.inputs0, lo, hi)
    requires g in v0[c.level + 1] && g !in c.inputs1 && f in Inputs(c) && x in f.entries
    ensures g.Ok()
    ensures g.Largest().user < lo.user || hi.user < g.Smallest().user
    ensures g.Largest().user < lo.user ==> Less(g.Largest(), x.key)
    ensures hi.user < g.Smallest().user ==> Less(x.key, g.Smallest())
  {
    assert g.Ok();
    InputsOk(v0, c);
    HullApart(g, c.inputs0, lo, hi);
    InRange(f, x);
    InRange(g, g.entries[0]);
    if f in c.inputs1 {
      HullIsRange(c.inputs0, lo, hi, f);
      InOrder(v0[c.level + 1], g, f);
    }
  }

  /** Both ends of an output come from inputs. */
  lemma OutputEnds(c: Compaction, outs: Level, o: File) returns (f1: File, f2: File)
    requires Made(c, outs) && o in outs
    ensures o.Ok() && f1 in Inputs(c) && f2 in Inputs(c)
    ensures o.entries[0] in f1.entries && o.entries[|o.entries| - 1] in f2.entries
  {
    assert o.entries[0] in o.entries && o.entries[|o.entries| - 1] in o.entries;
    f1 :| f1 in Inputs(c) && o.entries[0] in f1.entries;
    f2 :| f2 in Inputs(c) && o.entries[|o.entries| - 1] in f2.entries;
  }

  lemma LeftOutApart(v0: seq<Level>, c: Compaction, g: File, o: File, f1: File, f2: File)
    requires ShapeOk(v0) && Chosen(v0, c) && g in v0[c.level + 1] && g !in c.inputs1
    requires o.Ok() && f1 in Inputs(c) && f2 in Inputs(c)
    requires o.entries[0] in f1.entries && o.entries[|o.entries| - 1] in f2.entries
    ensures BothApart(g, o)
  {
    var lo, hi := RangeOf(c.inputs0);
    LeftOutBeside(v0, c, g, f1, o.entries[0], lo, hi);
    LeftOutBeside(v0, c, g, f2, o.entries[|o.entries| - 1], lo, hi);
  }

  /** A file flushed to the output level lies beside every output: it meets no input, and starts at no user key between
      kept entries. */
  lemma FlushedApart(v0: seq<Level>, c: Compaction, kept: set<Entry>, g: File, o: File, f1: File, f2: File)
    requires ShapeOk(v0) && Chosen(v0, c) && FlushedDuring(v0, c, kept, c.level + 1, g)
    requires o.Ok() && f1 in Inputs(c) && f2 in Inputs(c) && SetOf(o.entries) <= kept
    requires o.entries[0] in f1.entries && o.entries[|o.entries| - 1] in f2.entries
    ensures BothApart(g, o)
  {
    hide ShapeOk, Chosen, NewerThan;
    var d, e := o.entries[0], o.entries[|o.entries| - 1];
    assert d in SetOf(o.entries) && e in SetOf(o.entries);
    assert BothUserApart(g, f1) && BothUserApart(g, f2);
    InRange(f1, d);
    InRange(f2, e);
    InRange(g, g.entries[0]);
    assert !(d.key.user < g.Smallest().user < e.key.user);
  }

  /** The files of `w` are the outputs, and the files of `v` other than the inputs. */
  ghost predicate Compacted(v: seq<Level>, c: Compaction, outs: Level, w: seq<Level>) {
    && |v| == |w| == NUM_LEVELS
    && forall l, f :: 0 <= l < NUM_LEVELS ==> (f in w[l] <==>
         (l == c.level + 1 && f in outs)
           || (f in v[l] && !(l == c.level && f in c.inputs0) && !(l == c.level + 1 && f in c.inputs1)))
  }

  /** The edit of a compaction takes out the inputs and puts in the outputs. */
  lemma CompactionEditMeans(names: Catalogue, v: seq<Level>, c: Compaction, outs: Level, w: seq<Level>)
    requires Installs(names, v, CompactionEdit(c, outs), w) && c.level + 1 < NUM_LEVELS
    requires (forall f :: f in c.inputs0 ==> f in v[c.level]) && forall f :: f in c.inputs1 ==> f in v[c.level + 1]
    requires forall o, g :: o in outs && g in v[c.level + 1] ==> o.number != g.number
    ensures Compacted(v, c, outs, w)
  {
    var e := CompactionEdit(c, outs);
    forall l, f | 0 <= l < NUM_LEVELS
      ensures Adds(e, l, f) <==> l == c.level + 1 && f in outs
    {
      if l == c.level + 1 && f in outs {
        var i :| 0 <= i < |outs| && outs[i] == f;
        assert e.added[i] == (l, f);
      }
    }
    forall l, f | 0 <= l < NUM_LEVELS && f in v[l]
      ensures Removes(e, l, f) <==> (l == c.level && f in c.inputs0) || (l == c.level + 1 && f in c.inputs1)
    {
      assert Known(names, v[l]);
      if (l, f.number) in e.deleted {
        if l == c.level {
          var g :| g in c.inputs0 && g.number == f.number;
          assert g in v[l];
        } else {
          var g :| g in c.inputs1 && g.number == f.number;
          assert g in v[l];
        }
      }
    }
  }

  /** A file of the output level that was no input lies beside every output. */
  lemma OutputApart(v0: seq<Level>, c: Compaction, kept: set<Entry>, v: seq<Level>, outs: Level, g: File, o: File)
    requires Since(v0, c, kept, v) && Made(c, outs) && o in outs && g in v[c.level + 1] && g !in c.inputs1
    requires EntriesOf(outs) <= kept
    ensures BothApart(g, o)
  {
    var f1, f2 := OutputEnds(c, outs, o);
    if g in v0[c.level + 1] {
      LeftOutApart(v0, c, g, o, f1, f2);
    } else {
      assert SetOf(o.entries) <= EntriesOf(outs);
      FlushedApart(v0, c, kept, g, o, f1, f2);
    }
  }

  lemma CompactedApart(v0: seq<Level>, c: Compaction, kept: set<Entry>, v: seq<Level>, outs: Level, w: seq<Level>,
          l: nat, g: File,
          h: File)
    requires Since(v0, c, kept, v) && ShapeOk(v) && FileOrder(v) && Made(c, outs) && Compacted(v, c, outs, w)
    requires EntriesOf(outs) <= kept
    requires 1 <= l < NUM_LEVELS && g in w[l] && h in w[l] && g != h
    ensures BothApart(g, h)
  {
    if l == c.level + 1 && g in outs && h in outs {
      InOrder(outs, g, h);
    } else if l == c.level + 1 && g in outs {
      OutputApart(v0, c, kept, v, outs, h, g);
    } else if l == c.level + 1 && h in outs {
      OutputApart(v0, c, kept, v, outs, g, h);
    }
  }

  lemma CompactedNewer(v0: seq<Level>, c: Compaction, kept: set<Entry>, v: seq<Level>, outs: Level, w: seq<Level>,
          a: nat, b: nat,
          g: File, h: File)
    requires Since(v0, c, kept, v) && TreeOk(v) && Made(c, outs) && Compacted(v, c, outs, w)
    requires a < b < NUM_LEVELS && g in w[a] && h in w[b]
    ensures NewerFile(g, h)
  {
    if b == c.level + 1 && h in outs {
      forall f | f in Inputs(c)
        ensures NewerFile(g, f)
      {
        AroundInputs(v0, c, kept, v, a, g, f);
      }
      OutputsNewer(c, outs, g, h);
    } else if a == c.level + 1 && g in outs {
      forall f | f in Inputs(c)
        ensures NewerFile(f, h)
      {
        AroundInputs(v0, c, kept, v, b, h, f);
      }
      OutputsNewer(c, outs, h, g);
    } else {
      LayeredFile(v, a, b, g, h);
    }
  }

  lemma CompactedOrder(v0: seq<Level>, c: Compaction, kept: set<Entry>, v: seq<Level>, outs: Level, w: seq<Level>)
    requires Since(v0, c, kept, v) && TreeOk(v) && Made(c, outs) && Compacted(v, c, outs, w)
    requires EntriesOf(outs) <= kept && forall l :: 0 <= l < |w| ==> FilesOk(w[l])
    ensures FileOrder(w)
  {
    TreeIsFileOrder(v);
    forall l, g, h | 1 <= l < |w| && g in w[l] && h in w[l] && g != h
      ensures BothApart(g, h)
    {
      CompactedApart(v0, c, kept, v, outs, w, l, g, h);
    }
    forall a, b, g, h | 0 <= a < b < |w| && g in w[a] && h in w[b]
      ensures NewerFile(g, h)
    {
      CompactedNewer(v0, c, kept, v, outs, w, a, b, g, h);
    }
  }

  /** Installing a compaction, or a trivial move, keeps the tree in order, whatever was flushed while it ran. */
  lemma CompactionKeepsTree(names: Catalogue, v0: seq<Level>, c: Compaction, kept: set<Entry>, v: seq<Level>,
          outs: Level, w: seq<Level>)
    requires Since(v0, c, kept, v) && TreeOk(v) && Made(c, outs) && Installs(names, v, CompactionEdit(c, outs), w)
    requires EntriesOf(outs) <= kept
    requires forall o, g :: o in outs && g in v[c.level + 1] ==> o.number != g.number
    ensures TreeOk(w)
  {
    hide VersionOk, Made, TreeOk, CompactionEdit, Compacted, FileOrder;
    InputsPlaced(v0, c, kept, v);
    CompactionEditMeans(names, v, c, outs, w);
    FilesOf(names, w);
    CompactedOrder(v0, c, kept, v, outs, w);
    FileOrderIsTree(names, w);
  }

  lemma InputsPlaced(v0: seq<Level>, c: Compaction, kept: set<Entry>, v: seq<Level>)
    requires Since(v0, c, kept, v)
    ensures |v| == NUM_LEVELS && c.level + 1 < NUM_LEVELS
    ensures (forall f :: f in c.inputs0 ==> f in v[c.level]) && forall f :: f in c.inputs1 ==> f in v[c.level + 1]
  {
  }

  lemma FilesOf(names: Catalogue, v: seq<Level>)
    requires VersionOk(names, v)
    ensures |v| == NUM_LEVELS && forall l :: 0 <= l < |v| ==> FilesOk(v[l])
  {
  }

  /** The compaction's view of the version survives a flush that kept clear of it. */
  lemma SinceFlush(names: Catalogue, v0: seq<Level>, c: Compaction, kept: set<Entry>, v: seq<Level>, level: nat,
          f: File, w: seq<Level>)
    requires Since(v0, c, kept, v) && FlushedDuring(v0, c, kept, level, f) && Installs(names, v, FlushEdit(level, f), w)
    ensures Since(v0, c, kept, w)
  {
  }
}
