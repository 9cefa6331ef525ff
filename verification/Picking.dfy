/** Choosing the inputs of a compaction. */
module Picking {
  import opened Keys
  import opened Versions
  import opened Overlap

  datatype Compaction = Compaction(level: nat, inputs0: Level, inputs1: Level, grandparents: Level)

  // ----- ranges -----

  /** `lo` and `hi` are the least and greatest keys of the files. */
  ghost predicate IsRange(fs: Level, lo: InternalKey, hi: InternalKey)
    requires FilesOk(fs)
  {
    && (exists f :: f in fs && f.Smallest() == lo)
    && (exists f :: f in fs && f.Largest() == hi)
    && forall f :: f in fs ==> AtMost(lo, f.Smallest()) && AtMost(f.Largest(), hi)
  }

  lemma FilesOkTogether(fs: Level, gs: Level)
    requires FilesOk(fs) && FilesOk(gs)
    ensures FilesOk(fs + gs)
  {
  }

  lemma RangeGrows(fs: Level, lo: InternalKey, hi: InternalKey, f: File)
    requires FilesOk(fs) && IsRange(fs, lo, hi) && f.Ok()
    ensures FilesOk(fs + [f])
    ensures IsRange(fs + [f], if Less(f.Smallest(), lo) then f.Smallest() else lo,
      if Less(hi, f.Largest()) then f.Largest() else hi)
  {
  }

  lemma {:induction false} RangeOf(fs: Level) returns (lo: InternalKey, hi: InternalKey)
    requires FilesOk(fs) && fs != []
    ensures IsRange(fs, lo, hi)
  {
    var n := |fs| - 1;
    if n == 0 {
      lo, hi := fs[0].Smallest(), fs[0].Largest();
      assert fs[0] in fs;
    } else {
      lo, hi := RangeOf(fs[..n]);
      RangeGrows(fs[..n], lo, hi, fs[n]);
      assert fs == fs[..n] + [fs[n]];
      lo := if Less(fs[n].Smallest(), lo) then fs[n].Smallest() else lo;
      hi := if Less(hi, fs[n].Largest()) then fs[n].Largest() else hi;
    }
  }

  method GetRange(fs: Level) returns (lo: InternalKey, hi: InternalKey)
    requires FilesOk(fs) && fs != []
    ensures IsRange(fs, lo, hi)
  {
    lo, hi := fs[0].Smallest(), fs[0].Largest();
    for i := 1 to |fs|
      invariant IsRange(fs[..i], lo, hi)
    {
      assert fs[..i + 1] == fs[..i] + [fs[i]];
      RangeGrows(fs[..i], lo, hi, fs[i]);
      if Less(fs[i].Smallest(), lo) {
        lo := fs[i].Smallest();
      }
      if Less(hi, fs[i].Largest()) {
        hi := fs[i].Largest();
      }
    }
    assert fs[..|fs|] == fs;
  }

  // ----- boundary files -----

  /** `f` begins right of `key` with the same user key. */
  predicate Continues(key: InternalKey, f: File)
    requires f.entries != []
  {
    Less(key, f.Smallest()) && f.Smallest().user == key.user
  }

  /** No left-out file of the level continues a chosen one. */
  ghost predicate BoundaryClosed(fs: Level, inputs: Level)
    requires FilesOk(fs) && FilesOk(inputs)
  {
    forall g, f :: g in inputs && f in fs && Continues(g.Largest(), f) ==> f in inputs
  }

  ghost predicate LeastContinuing(fs: Level, b: File, key: InternalKey)
    requires FilesOk(fs) && b.entries != []
  {
    Continues(key, b) && forall f :: f in fs && Continues(key, f) ==> AtMost(b.Smallest(), f.Smallest())
  }

  /** FindSmallestBoundaryFile: the least file of the level that continues `largest`, or -1. */
  method FindSmallestBoundaryFile(fs: Level, largest: InternalKey) returns (index: int)
    requires FilesOk(fs)
    ensures -1 <= index < |fs|
    ensures index < 0 ==> forall f :: f in fs ==> !Continues(largest, f)
    ensures index >= 0 ==> LeastContinuing(fs, fs[index], largest)
  {
    index := -1;
    for i := 0 to |fs|
      invariant -1 <= index < i
      invariant index < 0 ==> forall f :: f in fs[..i] ==> !Continues(largest, f)
      invariant index >= 0 ==> LeastContinuing(fs[..i], fs[index], largest)
    {
      assert fs[..i + 1] == fs[..i] + [fs[i]];
      if Continues(largest, fs[i]) {
        if index < 0 || Less(fs[i].Smallest(), fs[index].Smallest()) {
          index := i;
        }
      }
    }
    assert fs[..|fs|] == fs;
  }

  /** How many files of the level begin right of `key`. */
  ghost function Beyond(fs: Level, key: InternalKey): nat
    requires forall i :: 0 <= i < |fs| ==> fs[i].entries != []
  {
    if fs == [] then 0 else Beyond(fs[1..], key) + if Less(key, fs[0].Smallest()) then 1 else 0
  }

  lemma {:induction false} BeyondShrinks(fs: Level, a: InternalKey, b: InternalKey)
    requires FilesOk(fs) && Less(a, b)
    ensures Beyond(fs, b) <= Beyond(fs, a)
    ensures forall f :: f in fs && Less(a, f.Smallest()) && AtMost(f.Smallest(), b) ==> Beyond(fs, b) < Beyond(fs, a)
  {
    if fs != [] {
      BeyondShrinks(fs[1..], a, b);
      assert fs == [fs[0]] + fs[1..];
      assert fs[0].Ok();
    }
  }

  ghost predicate IsLargest(fs: Level, hi: InternalKey)
    requires FilesOk(fs)
  {
    (exists f :: f in fs && f.Largest() == hi) && forall f :: f in fs ==> AtMost(f.Largest(), hi)
  }

  /** The file begins right of every one of the others. */
  ghost predicate RightOfAll(fs: Level, f: File)
    requires FilesOk(fs) && f.entries != []
  {
    forall t :: t in fs ==> Less(t.Largest(), f.Smallest())
  }

  /** A left-out file of the level that continues a chosen one begins right of all of them. */
  ghost predicate StartClosed(fs: Level, inputs: Level)
    requires FilesOk(fs) && FilesOk(inputs)
  {
    forall g, f :: g in inputs && f in fs && Continues(g.Largest(), f) ==> f in inputs || RightOfAll(inputs, f)
  }

  method FindLargestKey(fs: Level) returns (hi: InternalKey)
    requires FilesOk(fs) && fs != []
    ensures IsLargest(fs, hi)
  {
    hi := fs[0].Largest();
    for i := 1 to |fs|
      invariant IsLargest(fs[..i], hi)
    {
      assert fs[..i + 1] == fs[..i] + [fs[i]];
      if Less(hi, fs[i].Largest()) {
        hi := fs[i].Largest();
      }
    }
    assert fs[..|fs|] == fs;
  }

  /** Between any two of the files, no user key escapes the range of every file. */
  ghost predicate NoGap(fs: Level)
    requires FilesOk(fs)
  {
    forall a, b :: a in fs && b in fs ==> Covered(fs, a.Smallest().user, b.Largest().user)
  }

  /** A file that meets the hull of gapless files leaves them gapless. */
  lemma NoGapExtends(fs: Level, f: File, a: File, b: File)
    requires FilesOk(fs) && NoGap(fs) && a in fs && b in fs && f.Ok()
    requires Touches(f, At(a.Smallest().user), At(b.Largest().user))
    ensures NoGap(fs + [f])
  {
    var all := fs + [f];
    forall c, d, x: UserKey | c in all && d in all && c.Smallest().user <= x <= d.Largest().user
      ensures HoldsKey(all, x)
    {
      assert f in all && a in all && b in all;
      if f.Smallest().user <= x <= f.Largest().user {
      } else {
        var lo := if c in fs then c else a;
        var hi := if d in fs then d else b;
        assert lo.Smallest().user <= x <= hi.Largest().user;
        assert HoldsKey(fs, x);
      }
    }
  }

  /** What the boundary search keeps: `inputs` grew from `files`, its greatest key is `hi`,
      together with `base` it has no gap if it had none, and it is as closed as it started. */
  ghost predicate Chain(fs: Level, files: Level, inputs: Level, hi: InternalKey, base: Level)
    requires FilesOk(fs) && FilesOk(files) && FilesOk(inputs) && FilesOk(base)
  {
    && files <= inputs && (forall f :: f in inputs ==> f in fs) && IsLargest(inputs, hi)
    && (NoGap(base + files) ==> NoGap(base + inputs))
    && (BoundaryClosed(fs, files) ==> inputs == files)
    && (Disjoint(fs) && StartClosed(fs, files) ==> StartClosed(fs, inputs))
  }

  lemma ChainNoGap(inputs: Level, hi: InternalKey, base: Level, b: File)
    requires FilesOk(inputs) && FilesOk(base) && IsLargest(inputs, hi) && b.Ok() && Continues(hi, b)
    ensures NoGap(base + inputs) ==> NoGap(base + (inputs + [b]))
  {
    if NoGap(base + inputs) {
      var g :| g in inputs && g.Largest() == hi;
      InRange(b, b.entries[|b.entries| - 1]);
      InRange(g, g.entries[|g.entries| - 1]);
      NoGapExtends(base + inputs, b, g, g);
      assert base + (inputs + [b]) == base + inputs + [b];
    }
  }

  lemma NotYetClosed(fs: Level, inputs: Level, hi: InternalKey, b: File)
    requires FilesOk(fs) && FilesOk(inputs) && IsLargest(inputs, hi) && b in fs && b.Ok() && Continues(hi, b)
    ensures !BoundaryClosed(fs, inputs)
  {
  }

  lemma BoundaryIsLargest(inputs: Level, hi: InternalKey, b: File)
    requires FilesOk(inputs) && IsLargest(inputs, hi) && b.Ok() && Continues(hi, b)
    ensures FilesOk(inputs + [b]) && IsLargest(inputs + [b], b.Largest()) && Less(hi, b.Largest())
  {
  }

  lemma ChainStep(fs: Level, files: Level, inputs: Level, hi: InternalKey, base: Level, index: nat)
    requires FilesOk(fs) && FilesOk(files) && FilesOk(inputs) && FilesOk(base) && Chain(fs, files, inputs, hi, base)
    requires index < |fs| && LeastContinuing(fs, fs[index], hi)
    ensures FilesOk(inputs + [fs[index]]) && Chain(fs, files, inputs + [fs[index]], fs[index].Largest(), base)
    ensures Beyond(fs, fs[index].Largest()) < Beyond(fs, hi)
  {
    var b := fs[index];
    assert b in fs && b.Ok();
    BoundaryIsLargest(inputs, hi, b);
    BeyondShrinks(fs, hi, b.Largest());
    InRange(b, b.entries[|b.entries| - 1]);
    ChainNoGap(inputs, hi, base, b);
    NotYetClosed(fs, inputs, hi, b);
    if Disjoint(fs) && StartClosed(fs, files) {
      NextBoundary(fs, inputs, hi, index);
    }
  }

  lemma ChainEnds(fs: Level, files: Level, inputs: Level, hi: InternalKey, base: Level)
    requires FilesOk(fs) && FilesOk(files) && FilesOk(inputs) && FilesOk(base) && Chain(fs, files, inputs, hi, base)
    requires forall f :: f in fs ==> !Continues(hi, f)
    ensures Disjoint(fs) && StartClosed(fs, files) ==> BoundaryClosed(fs, inputs)
  {
    if Disjoint(fs) && StartClosed(fs, files) {
      var top :| top in inputs && top.Largest() == hi;
      forall g, f | g in inputs && f in fs && Continues(g.Largest(), f)
        ensures f in inputs
      {
        assert f !in inputs ==> RightOfAll(inputs, f);
      }
    }
  }

  /** AddBoundaryInputs. The chain of boundary files ends, and no file of the level that was left
      out continues the last user key of the inputs. */
  method AddBoundaryInputs(fs: Level, files: Level, ghost base: Level) returns (inputs: Level, ghost hi: InternalKey)
    requires FilesOk(fs) && FilesOk(files) && FilesOk(base) && files != [] && forall f :: f in files ==> f in fs
    ensures FilesOk(inputs) && Chain(fs, files, inputs, hi, base) && forall f :: f in fs ==> !Continues(hi, f)
    ensures Disjoint(fs) && StartClosed(fs, files) ==> BoundaryClosed(fs, inputs)
  {
    inputs := files;
    var largest := FindLargestKey(files);
    var searching := true;
    while searching
      invariant FilesOk(inputs) && Chain(fs, files, inputs, largest, base)
      invariant !searching ==> forall f :: f in fs ==> !Continues(largest, f)
      decreases Beyond(fs, largest), searching
    {
      var index := FindSmallestBoundaryFile(fs, largest);
      if index >= 0 {
        ChainStep(fs, files, inputs, largest, base, index);
        inputs := inputs + [fs[index]];
        largest := fs[index].Largest();
      } else {
        searching := false;
      }
    }
    hi := largest;
    ChainEnds(fs, files, inputs, hi, base);
  }

  lemma NextBoundary(fs: Level, inputs: Level, largest: InternalKey, index: nat)
    requires FilesOk(fs) && FilesOk(inputs) && Disjoint(fs) && index < |fs| && IsLargest(inputs, largest)
    requires LeastContinuing(fs, fs[index], largest) && StartClosed(fs, inputs)
    ensures StartClosed(fs, inputs + [fs[index]])
  {
    var b := fs[index];
    InRange(b, b.entries[|b.entries| - 1]);
    forall g, f | g in inputs + [b] && f in fs && Continues(g.Largest(), f) && f !in inputs && f != b
      ensures RightOfAll(inputs + [b], f)
    {
      var i :| 0 <= i < |fs| && fs[i] == f;
      InRange(f, f.entries[|f.entries| - 1]);
      if g in inputs {
        assert RightOfAll(inputs, f);
      }
      assert index < i;
    }
  }

  // ----- the other inputs -----

  /** `f` meets the user-key hull of the files. */
  ghost predicate MeetsHull(f: File, fs: Level)
    requires FilesOk(fs) && f.entries != []
  {
    exists g, h :: g in fs && h in fs && Touches(f, At(g.Smallest().user), At(h.Largest().user))
  }

  lemma HullIsRange(fs: Level, lo: InternalKey, hi: InternalKey, f: File)
    requires FilesOk(fs) && IsRange(fs, lo, hi) && f.entries != []
    ensures MeetsHull(f, fs) <==> Touches(f, At(lo.user), At(hi.user))
  {
  }

  /** What a compaction may rely on about its inputs. */
  ghost predicate Chosen(v: seq<Level>, c: Compaction)
    requires ShapeOk(v)
  {
    ChosenInputs(v, c.level, c.inputs0, c.inputs1)
  }

  ghost predicate ChosenInputs(v: seq<Level>, level: nat, inputs0: Level, inputs1: Level)
    requires ShapeOk(v)
  {
    && level + 1 < NUM_LEVELS
    && inputs0 != [] && FilesOk(inputs0) && (forall f :: f in inputs0 ==> f in v[level])
    && FilesOk(inputs1)
    && (forall f :: f in inputs1 <==> f in v[level + 1] && f.entries != [] && MeetsHull(f, inputs0))
    && LevelClosed(v, level, inputs0)
  }

  /** What the left-out files of the level may not do: in level 0, meet the hull of the chosen ones;
      deeper, continue one of them. */
  ghost predicate LevelClosed(v: seq<Level>, level: nat, inputs0: Level)
    requires ShapeOk(v) && level < NUM_LEVELS && FilesOk(inputs0)
  {
    if level == 0 then ZeroClosed(v[0], inputs0) else BoundaryClosed(v[level], inputs0)
  }

  /** No left-out level-0 file meets the hull of the chosen ones. */
  ghost predicate ZeroClosed(fs: Level, inputs: Level)
    requires FilesOk(fs) && FilesOk(inputs)
  {
    forall f :: f in fs && MeetsHull(f, inputs) ==> f in inputs
  }

  /** What the choice starts from: one file, or the files that meet a range. */
  ghost predicate Startable(v: seq<Level>, level: nat, picked: Level)
    requires ShapeOk(v)
  {
    && level + 1 < NUM_LEVELS && picked != [] && FilesOk(picked) && (forall f :: f in picked ==> f in v[level])
    && (if level == 0 then ZeroClosed(v[0], picked)
        else StartClosed(v[level], picked))
  }

  /** Among disjoint files, one that meets a range is continued outside it only from the right. */
  lemma TouchingStartClosed(fs: Level, b: Bound, e: Bound)
    requires FilesOk(fs) && Disjoint(fs)
    ensures FilesOk(Touching(fs, b, e)) && StartClosed(fs, Touching(fs, b, e))
  {
    var inputs := Touching(fs, b, e);
    forall i | 0 <= i < |inputs|
      ensures inputs[i].Ok()
    {
      assert inputs[i] in fs;
    }
    forall g, f, t | g in inputs && f in fs && Continues(g.Largest(), f) && f !in inputs && t in inputs
      ensures Less(t.Largest(), f.Smallest())
    {
      InRange(f, f.entries[|f.entries| - 1]);
      InRange(t, t.entries[|t.entries| - 1]);
      InOrder(fs, t, f);
    }
  }

  /** Two files of a level of disjoint files come one after the other. */
  lemma InOrder(fs: Level, f: File, g: File)
    requires FilesOk(fs) && Disjoint(fs) && f in fs && g in fs && f != g
    ensures Less(f.Largest(), g.Smallest()) || Less(g.Largest(), f.Smallest())
  {
  }

  lemma TouchingZeroClosed(fs: Level, b: Bound, e: Bound)
    requires FilesOk(fs) && Closed(fs, b, e)
    ensures FilesOk(Touching(fs, b, e)) && ZeroClosed(fs, Touching(fs, b, e))
  {
    var inputs := Touching(fs, b, e);
    forall i | 0 <= i < |inputs|
      ensures inputs[i].Ok()
    {
      assert inputs[i] in fs;
    }
    forall f | f in fs && MeetsHull(f, inputs)
      ensures f in inputs
    {
      var g, h :| g in inputs && h in inputs && Touches(f, At(g.Smallest().user), At(h.Largest().user));
    }
  }

  lemma {:induction false} NoGapAll(fs: Level, gs: Level)
    requires FilesOk(fs) && NoGap(fs) && FilesOk(gs)
    requires forall g :: g in gs ==> MeetsHull(g, fs)
    ensures NoGap(fs + gs)
    decreases |gs|
  {
    if gs == [] {
      assert fs + gs == fs;
    } else {
      var g := gs[0];
      assert g in gs;
      var a, b :| a in fs && b in fs && Touches(g, At(a.Smallest().user), At(b.Largest().user));
      assert g.Ok();
      NoGapExtends(fs, g, a, b);
      forall h | h in gs[1..]
        ensures MeetsHull(h, fs + [g])
      {
        assert h in gs;
        var c, d :| c in fs && d in fs && Touches(h, At(c.Smallest().user), At(d.Largest().user));
        assert c in fs + [g] && d in fs + [g];
      }
      NoGapAll(fs + [g], gs[1..]);
      assert fs + gs == fs + [g] + gs[1..];
    }
  }

  lemma NoGapSameFiles(fs: Level, gs: Level)
    requires FilesOk(fs) && FilesOk(gs) && NoGap(fs)
    requires forall f :: f in fs <==> f in gs
    ensures NoGap(gs)
  {
    forall a, b, x: UserKey | a in gs && b in gs && a.Smallest().user <= x <= b.Largest().user
      ensures HoldsKey(gs, x)
    {
      assert HoldsKey(fs, x);
    }
  }

  lemma NoGapRegrouped(inputs0: Level, inputs1: Level, expanded0: Level)
    requires FilesOk(inputs0) && FilesOk(inputs1) && FilesOk(expanded0)
    requires forall f :: f in inputs0 ==> f in expanded0
    ensures NoGap(inputs0 + inputs1 + expanded0) ==> NoGap(expanded0 + inputs1)
  {
    if NoGap(inputs0 + inputs1 + expanded0) {
      NoGapSameFiles(inputs0 + inputs1 + expanded0, expanded0 + inputs1);
    }
  }

  /** When a closed range is covered, the files that meet it cover it without gaps. */
  lemma NoGapTouching(fs: Level, base: Level, b: UserKey, e: UserKey)
    requires FilesOk(fs) && FilesOk(base) && Closed(fs, At(b), At(e)) && Covered(base + fs, b, e)
    requires forall f :: f in base ==> b <= f.Smallest().user && f.Largest().user <= e
    ensures FilesOk(Touching(fs, At(b), At(e))) && NoGap(base + Touching(fs, At(b), At(e)))
  {
    TouchingZeroClosed(fs, At(b), At(e));
    var t := Touching(fs, At(b), At(e));
    var all := base + t;
    forall c, d, x: UserKey | c in all && d in all && c.Smallest().user <= x <= d.Largest().user
      ensures HoldsKey(all, x)
    {
      assert HoldsKey(base + fs, x);
      var f :| f in base + fs && f.entries != [] && f.Smallest().user <= x <= f.Largest().user;
      assert f in fs ==> f in t;
    }
  }

  lemma ZeroBoundaryClosed(fs: Level, picked: Level)
    requires FilesOk(fs) && FilesOk(picked) && ZeroClosed(fs, picked)
    ensures BoundaryClosed(fs, picked)
  {
  }

  /** The level + 1 files that meet the hull of the chosen ones complete the choice. */
  lemma CompletesChoice(v: seq<Level>, level: nat, inputs0: Level, inputs1: Level, lo: InternalKey, hi: InternalKey)
    requires ShapeOk(v) && level + 1 < NUM_LEVELS && inputs0 != [] && FilesOk(inputs0)
    requires forall f :: f in inputs0 ==> f in v[level]
    requires LevelClosed(v, level, inputs0)
    requires IsRange(inputs0, lo, hi) && inputs1 == Touching(v[level + 1], At(lo.user), At(hi.user))
    ensures ChosenInputs(v, level, inputs0, inputs1) && Matched(v[level + 1], inputs0, inputs1)
    ensures NoGap(inputs0) ==> NoGap(inputs0 + inputs1)
  {
    forall i | 0 <= i < |inputs1|
      ensures inputs1[i].Ok()
    {
      assert inputs1[i] in v[level + 1];
    }
    forall f | f in v[level + 1]
      ensures f in inputs1 <==> f.entries != [] && MeetsHull(f, inputs0)
    {
      HullIsRange(inputs0, lo, hi, f);
    }
    if NoGap(inputs0) {
      NoGapAll(inputs0, inputs1);
    }
  }

  /** The range of more files is wider. */
  lemma RangeWidens(fs: Level, lo: InternalKey, hi: InternalKey, gs: Level, lo': InternalKey, hi': InternalKey)
    requires FilesOk(fs) && FilesOk(gs) && IsRange(fs, lo, hi) && IsRange(gs, lo', hi')
    requires forall f :: f in fs ==> f in gs
    ensures Widens(At(lo.user), At(hi.user), At(lo'.user), At(hi'.user))
  {
  }

  /** AddBoundaryInputs at a level: a start becomes a set of inputs the level is closed under. */
  method CloseLevel(v: seq<Level>, level: nat, picked: Level, ghost base: Level) returns (inputs0: Level)
    requires ShapeOk(v) && Startable(v, level, picked) && FilesOk(base)
    ensures FilesOk(inputs0) && inputs0 != [] && picked <= inputs0 && (forall f :: f in inputs0 ==> f in v[level])
    ensures LevelClosed(v, level, inputs0)
    ensures NoGap(base + picked) ==> NoGap(base + inputs0)
  {
    if level == 0 {
      ZeroBoundaryClosed(v[0], picked);
    }
    ghost var top;
    inputs0, top := AddBoundaryInputs(v[level], picked, base);
  }

  /** The inputs at the next level are its files that meet the hull of the inputs at this one. */
  ghost predicate Matched(next: Level, inputs0: Level, inputs1: Level)
    requires FilesOk(next) && FilesOk(inputs0)
  {
    exists lo, hi :: IsRange(inputs0, lo, hi) && inputs1 == Touching(next, At(lo.user), At(hi.user))
  }

  /** If more files of a level bring in no more files of the next, by count, they bring in the same ones. */
  lemma SameNextLevel(next: Level, inputs0: Level, inputs1: Level, expanded0: Level, expanded1: Level)
    requires FilesOk(next) && FilesOk(inputs0) && FilesOk(expanded0)
    requires Matched(next, inputs0, inputs1) && Matched(next, expanded0, expanded1) && |expanded1| == |inputs1|
    requires forall f :: f in inputs0 ==> f in expanded0
    ensures expanded1 == inputs1
  {
    var lo, hi :| IsRange(inputs0, lo, hi) && inputs1 == Touching(next, At(lo.user), At(hi.user));
    var lo', hi' :| IsRange(expanded0, lo', hi') && expanded1 == Touching(next, At(lo'.user), At(hi'.user));
    RangeWidens(inputs0, lo, hi, expanded0, lo', hi');
    EqualCountsSameFiles(next, At(lo.user), At(hi.user), At(lo'.user), At(hi'.user));
  }

  lemma {:induction false} SameTouching(fs: Level, b: Bound, e: Bound, b': Bound, e': Bound)
    requires forall i :: 0 <= i < |fs| ==> fs[i].entries != [] && (Touches(fs[i], b, e) <==> Touches(fs[i], b', e'))
    ensures Touching(fs, b, e) == Touching(fs, b', e')
  {
    if fs != [] {
      SameTouching(fs[..|fs| - 1], b, e, b', e');
    }
  }

  /** All files of the level that meet the hull of the inputs, with what they need to be complete. */
  ghost predicate Wider(v: seq<Level>, level: nat, inputs0: Level, inputs1: Level, wider: Level)
    requires ShapeOk(v) && level < |v| && FilesOk(inputs0 + inputs1)
  {
    && FilesOk(wider) && (forall f :: f in wider ==> f in v[level])
    && LevelClosed(v, level, wider)
    && forall f :: f in v[level] && f.entries != [] && MeetsHull(f, inputs0 + inputs1) ==> f in wider
  }

  /** There is something to gain, within the limit, and it drags in no further file of the next level. */
  ghost predicate WorthGrowing(next: Level, inputs0: Level, inputs1: Level, wider: Level, limit: nat)
    requires FilesOk(wider)
  {
    && |wider| > |inputs0| && TotalFileSize(inputs1) + TotalFileSize(wider) < limit
    && forall f :: f in next && f.entries != [] && MeetsHull(f, wider) ==> f in inputs1
  }

  /** Counting tells whether more files of a level drag in more files of the next. */
  lemma CountTells(next: Level, inputs0: Level, inputs1: Level, wider: Level, expanded1: Level, lo: InternalKey,
                   hi: InternalKey)
    requires FilesOk(next) && FilesOk(inputs0) && FilesOk(wider) && Matched(next, inputs0, inputs1)
    requires IsRange(wider, lo, hi) && expanded1 == Touching(next, At(lo.user), At(hi.user))
    requires forall f :: f in inputs0 ==> f in wider
    ensures |expanded1| == |inputs1| <==>
      forall f :: f in next && f.entries != [] && MeetsHull(f, wider) ==> f in inputs1
  {
    forall f | f in next && f.entries != []
      ensures MeetsHull(f, wider) <==> f in expanded1
    {
      HullIsRange(wider, lo, hi, f);
    }
    if |expanded1| == |inputs1| {
      SameNextLevel(next, inputs0, inputs1, wider, expanded1);
    } else if forall f :: f in next && f.entries != [] && MeetsHull(f, wider) ==> f in inputs1 {
      var lo0, hi0 :| IsRange(inputs0, lo0, hi0) && inputs1 == Touching(next, At(lo0.user), At(hi0.user));
      RangeWidens(inputs0, lo0, hi0, wider, lo, hi);
      forall i | 0 <= i < |next|
        ensures Touches(next[i], At(lo0.user), At(hi0.user)) <==> Touches(next[i], At(lo.user), At(hi.user))
      {
        assert next[i] in inputs1 <==> Touches(next[i], At(lo0.user), At(hi0.user));
        assert next[i] in expanded1 <==> Touches(next[i], At(lo.user), At(hi.user));
      }
      SameTouching(next, At(lo0.user), At(hi0.user), At(lo.user), At(hi.user));
    }
  }

  lemma WiderHolds(v: seq<Level>, level: nat, inputs0: Level, inputs1: Level, allLo: InternalKey, allHi: InternalKey,
                   b: Bound, e: Bound, overlapping: Level, wider: Level)
    requires ShapeOk(v) && level < |v| && FilesOk(inputs0 + inputs1) && IsRange(inputs0 + inputs1, allLo, allHi)
    requires FilesOk(v[level]) && overlapping == Touching(v[level], b, e)
    requires if level == 0 then LeastClosed(v[0], At(allLo.user), At(allHi.user), b, e)
             else b == At(allLo.user) && e == At(allHi.user)
    requires FilesOk(wider) && overlapping <= wider && (forall f :: f in wider ==> f in v[level])
    requires LevelClosed(v, level, wider)
    ensures Wider(v, level, inputs0, inputs1, wider)
  {
    forall f | f in v[level] && f.entries != [] && MeetsHull(f, inputs0 + inputs1)
      ensures f in wider
    {
      HullIsRange(inputs0 + inputs1, allLo, allHi, f);
      assert f in overlapping;
    }
  }

  /** The search for more `level` files that bring in no more `level` + 1 files: it takes the wider choice exactly when
      that is worth it. */
  method Expand(v: seq<Level>, level: nat, inputs0: Level, inputs1: Level, expandedLimit: nat)
    returns (expanded0: Level, ghost wider: Level)
    requires ShapeOk(v) && ChosenInputs(v, level, inputs0, inputs1) && Matched(v[level + 1], inputs0, inputs1)
    ensures ChosenInputs(v, level, expanded0, inputs1) && forall f :: f in inputs0 ==> f in expanded0
    ensures NoGap(inputs0 + inputs1) ==> NoGap(expanded0 + inputs1)
    ensures FilesOk(inputs0 + inputs1) && Wider(v, level, inputs0, inputs1, wider)
    ensures expanded0 ==
      if WorthGrowing(v[level + 1], inputs0, inputs1, wider, expandedLimit) then wider else inputs0
  {
    hide Wider, MeetsHull, NoGap, LevelClosed, IsRange, LeastClosed, Startable, CoveredBounds, Touches, Touching,
      Matched;
    ghost var all := inputs0 + inputs1;
    FilesOkTogether(inputs0, inputs1);
    FilesOkTogether(all, v[level]);
    var allLo, allHi := GetRange(inputs0 + inputs1);
    var overlapping, b, e := GetOverlappingInputs(level, v[level], At(allLo.user), At(allHi.user), all + v[level]);
    OverlapStarts(v, level, inputs0, inputs1, allLo, allHi, b, e, overlapping);
    expanded0 := CloseLevel(v, level, overlapping, all);
    wider := expanded0;
    WiderHolds(v, level, inputs0, inputs1, allLo, allHi, b, e, overlapping, wider);
    var inputs0Size := SumFileSize(inputs0);
    var inputs1Size := SumFileSize(inputs1);
    var expanded0Size := SumFileSize(expanded0);
    if |expanded0| > |inputs0| && inputs1Size + expanded0Size < expandedLimit {
      var lo, hi := GetRange(expanded0);
      var expanded1, _, _ := GetOverlappingInputs(level + 1, v[level + 1], At(lo.user), At(hi.user), v[level + 1]);
      CountTells(v[level + 1], inputs0, inputs1, expanded0, expanded1, lo, hi);
      if |expanded1| == |inputs1| {
        CompletesChoice(v, level, expanded0, expanded1, lo, hi);
        SameNextLevel(v[level + 1], inputs0, inputs1, expanded0, expanded1);
        NoGapRegrouped(inputs0, inputs1, expanded0);
        return;
      }
    }
    expanded0 := inputs0;
  }

  lemma OverlapTakesAll(fs: Level, all: Level, inputs0: Level, lo: InternalKey, hi: InternalKey, b: Bound, e: Bound)
    requires FilesOk(fs) && FilesOk(all) && IsRange(all, lo, hi) && Widens(At(lo.user), At(hi.user), b, e)
    requires forall f :: f in inputs0 ==> f in fs && f in all
    ensures forall f :: f in inputs0 ==> f in Touching(fs, b, e)
  {
  }

  lemma OverlapZeroGapless(fs: Level, all: Level, lo: InternalKey, hi: InternalKey, b: UserKey, e: UserKey)
    requires FilesOk(fs) && FilesOk(all) && IsRange(all, lo, hi) && NoGap(all)
    requires LeastClosed(fs, At(lo.user), At(hi.user), At(b), At(e))
    requires CoveredBounds(all + fs, At(lo.user), At(hi.user)) ==> CoveredBounds(all + fs, At(b), At(e))
    ensures FilesOk(Touching(fs, At(b), At(e))) && NoGap(all + Touching(fs, At(b), At(e)))
  {
    var g :| g in all && g.Smallest() == lo;
    var h :| h in all && h.Largest() == hi;
    assert Covered(all, lo.user, hi.user);
    CoveredByMore(all, fs, lo.user, hi.user);
    NoGapTouching(fs, all, b, e);
  }

  lemma OverlapGapless(fs: Level, all: Level, lo: InternalKey, hi: InternalKey)
    requires FilesOk(fs) && FilesOk(all) && IsRange(all, lo, hi) && NoGap(all)
    requires FilesOk(Touching(fs, At(lo.user), At(hi.user)))
    ensures NoGap(all + Touching(fs, At(lo.user), At(hi.user)))
  {
    forall f | f in Touching(fs, At(lo.user), At(hi.user))
      ensures MeetsHull(f, all)
    {
      HullIsRange(all, lo, hi, f);
    }
    NoGapAll(all, Touching(fs, At(lo.user), At(hi.user)));
  }

  /** The files of the level that meet the hull of all inputs are a start, and leave no gap. */
  lemma OverlapStarts(v: seq<Level>, level: nat, inputs0: Level, inputs1: Level, allLo: InternalKey, allHi: InternalKey,
                      b: Bound, e: Bound, overlapping: Level)
    requires ShapeOk(v) && ChosenInputs(v, level, inputs0, inputs1) && IsRange(inputs0 + inputs1, allLo, allHi)
    requires overlapping == Touching(v[level], b, e)
    requires if level == 0 then LeastClosed(v[0], At(allLo.user), At(allHi.user), b, e) && b.At? && e.At?
             else b == At(allLo.user) && e == At(allHi.user)
    requires CoveredBounds(inputs0 + inputs1 + v[level], At(allLo.user), At(allHi.user)) ==>
      CoveredBounds(inputs0 + inputs1 + v[level], b, e)
    ensures Startable(v, level, overlapping) && forall f :: f in inputs0 ==> f in overlapping
    ensures NoGap(inputs0 + inputs1) ==> NoGap(inputs0 + inputs1 + overlapping)
  {
    var all, fs := inputs0 + inputs1, v[level];
    OverlapTakesAll(fs, all, inputs0, allLo, allHi, b, e);
    assert inputs0[0] in overlapping;
    if level == 0 {
      TouchingZeroClosed(fs, b, e);
      if NoGap(all) {
        OverlapZeroGapless(fs, all, allLo, allHi, b.user, e.user);
      }
    } else {
      TouchingStartClosed(fs, b, e);
      if NoGap(all) {
        OverlapGapless(fs, all, allLo, allHi);
      }
    }
  }

  lemma CoveredByMore(fs: Level, gs: Level, lo: UserKey, hi: UserKey)
    requires Covered(fs, lo, hi)
    ensures Covered(fs + gs, lo, hi)
  {
    forall x: UserKey | lo <= x <= hi
      ensures HoldsKey(fs + gs, x)
    {
      assert HoldsKey(fs, x);
    }
  }

  /** SetupOtherInputs: the rest of the inputs, given the files picked at `level`. */
  method SetupOtherInputs(v: seq<Level>, level: nat, picked: Level, expandedLimit: nat) returns (c: Compaction)
    requires ShapeOk(v) && Startable(v, level, picked)
    ensures c.level == level && Chosen(v, c) && forall f :: f in picked ==> f in c.inputs0
    ensures NoGap(picked) ==> NoGap(c.inputs0 + c.inputs1)
  {
    hide Wider, WorthGrowing, NoGap, LevelClosed, Touches, Touching, MeetsHull, CoveredBounds, LeastClosed;
    assert [] + picked == picked;
    var inputs0 := CloseLevel(v, level, picked, []);
    assert [] + inputs0 == inputs0;
    var lo, hi := GetRange(inputs0);
    var inputs1, _, _ := GetOverlappingInputs(level + 1, v[level + 1], At(lo.user), At(hi.user), v[level + 1]);
    CompletesChoice(v, level, inputs0, inputs1, lo, hi);
    if inputs1 != [] {
      ghost var wider;
      inputs0, wider := Expand(v, level, inputs0, inputs1, expandedLimit);
    }
    var grandparents := Grandparents(v, level, inputs0, inputs1);
    c := Compaction(level, inputs0, inputs1, grandparents);
  }

  /** The files two levels down that meet the compaction. */
  method Grandparents(v: seq<Level>, level: nat, inputs0: Level, inputs1: Level) returns (grandparents: Level)
    requires ShapeOk(v) && inputs0 != [] && FilesOk(inputs0) && FilesOk(inputs1)
    ensures forall f :: f in grandparents <==>
      (level + 2 < NUM_LEVELS && f in v[level + 2] && f.entries != [] && MeetsHull(f, inputs0 + inputs1))
  {
    grandparents := [];
    if level + 2 < NUM_LEVELS {
      FilesOkTogether(inputs0, inputs1);
      var allLo, allHi := GetRange(inputs0 + inputs1);
      ghost var b, e;
      grandparents, b, e := GetOverlappingInputs(level + 2, v[level + 2], At(allLo.user), At(allHi.user), v[level + 2]);
      forall f | f in v[level + 2]
        ensures f in grandparents <==> MeetsHull(f, inputs0 + inputs1)
      {
        HullIsRange(inputs0 + inputs1, allLo, allHi, f);
      }
    }
  }

  // ----- automatic and manual picks -----

  ghost predicate FirstPast(fs: Level, hasPointer: bool, pointer: InternalKey, i: nat)
    requires FilesOk(fs) && i < |fs|
  {
    && (hasPointer ==> Less(pointer, fs[i].Largest()))
    && forall j :: 0 <= j < i ==> hasPointer && AtMost(fs[j].Largest(), pointer)
  }

  /** The first file past the compaction pointer, or the first file of the level. */
  method FirstPastPointer(fs: Level, hasPointer: bool, pointer: InternalKey) returns (f: File)
    requires FilesOk(fs) && fs != []
    ensures f in fs
    ensures if hasPointer && forall g :: g in fs ==> AtMost(g.Largest(), pointer) then f == fs[0]
            else exists i :: 0 <= i < |fs| && f == fs[i] && FirstPast(fs, hasPointer, pointer, i)
  {
    for i := 0 to |fs|
      invariant forall j :: 0 <= j < i ==> hasPointer && AtMost(fs[j].Largest(), pointer)
    {
      if !hasPointer || Less(pointer, fs[i].Largest()) {
        assert FirstPast(fs, hasPointer, pointer, i);
        f := fs[i];
        return;
      }
    }
    return fs[0];
  }

  /** PickCompaction, for a picked file: the first past the compaction pointer, or the one that
      seeks were charged to. The inputs leave no gap in their user-key hull. */
  method PickCompaction(v: seq<Level>, level: nat, file: File, expandedLimit: nat) returns (c: Compaction)
    requires ShapeOk(v) && level + 1 < NUM_LEVELS && file in v[level]
    ensures c.level == level && Chosen(v, c) && file in c.inputs0
    ensures NoGap(c.inputs0 + c.inputs1)
  {
    hide ShapeOk, Chosen, NoGap, Startable, Touching, Closed, CoveredBounds;
    var picked := [file];
    OneFile(v, level, file);
    if level == 0 {
      ghost var b, e;
      picked, b, e := GetOverlappingInputs(0, v[0], At(file.Smallest().user), At(file.Largest().user), v[0]);
      OneFileZero(v, file, b, e);
    }
    c := SetupOtherInputs(v, level, picked, expandedLimit);
  }

  /** One file of a level of disjoint files makes a start. */
  lemma OneFile(v: seq<Level>, level: nat, file: File)
    requires ShapeOk(v) && level + 1 < NUM_LEVELS && file in v[level]
    ensures |v| == NUM_LEVELS && FilesOk(v[level]) && file.Ok() && FilesOk([file]) && NoGap([file])
    ensures (level > 0 ==> Startable(v, level, [file]))
    ensures CoveredBounds(v[level], At(file.Smallest().user), At(file.Largest().user))
  {
  }

  /** In level 0 the files that meet the least closed range around one make a start. */
  lemma OneFileZero(v: seq<Level>, file: File, b: Bound, e: Bound)
    requires ShapeOk(v) && file in v[0]
    requires LeastClosed(v[0], At(file.Smallest().user), At(file.Largest().user), b, e) && b.At? && e.At?
    requires CoveredBounds(v[0], At(file.Smallest().user), At(file.Largest().user)) ==> CoveredBounds(v[0], b, e)
    ensures FilesOk(Touching(v[0], b, e)) && NoGap(Touching(v[0], b, e)) && Startable(v, 0, Touching(v[0], b, e))
  {
    hide Touching, NoGap, HoldsKey;
    OneFile(v, 0, file);
    var picked := Touching(v[0], b, e);
    assert file in picked;
    TouchingZeroClosed(v[0], b, e);
    assert [] + v[0] == v[0];
    NoGapTouching(v[0], [], b.user, e.user);
    assert [] + picked == picked;
  }

  lemma TouchingInit(fs: Level, b: Bound, e: Bound)
    requires FilesOk(fs) && fs != []
    ensures Touching(fs[..|fs| - 1], b, e) <= Touching(fs, b, e)
    ensures |Touching(fs, b, e)| <= |Touching(fs[..|fs| - 1], b, e)| + 1
  {
  }

  lemma {:induction false} TouchingPrefix(fs: Level, b: Bound, e: Bound, n: nat) returns (m: nat)
    requires FilesOk(fs) && n <= |Touching(fs, b, e)|
    ensures m <= |fs| && Touching(fs[..m], b, e) == Touching(fs, b, e)[..n]
  {
    hide Touching;
    m := |fs|;
    assert fs[..m] == fs;
    if n < |Touching(fs, b, e)| {
      NothingTouches(b, e);
      TouchingInit(fs, b, e);
      var init := fs[..|fs| - 1];
      assert FilesOk(init);
      m := TouchingPrefix(init, b, e, n);
      SameStart(Touching(init, b, e), Touching(fs, b, e), n);
      assert init[..m] == fs[..m];
    }
  }

  lemma SameStart(s: Level, t: Level, n: nat)
    requires s <= t && n <= |s|
    ensures s[..n] == t[..n]
  {
  }

  lemma NothingTouches(b: Bound, e: Bound)
    ensures Touching([], b, e) == []
  {
  }

  /** A run of disjoint files from the left can be continued only from the right. */
  lemma PrefixStartClosed(fs: Level, b: Bound, e: Bound, n: nat)
    requires FilesOk(fs) && Disjoint(fs) && n <= |Touching(fs, b, e)|
    ensures FilesOk(Touching(fs, b, e)[..n]) && StartClosed(fs, Touching(fs, b, e)[..n])
  {
    hide Touching;
    var m := TouchingPrefix(fs, b, e, n);
    var inputs := Touching(fs[..m], b, e);
    TouchingStartClosed(fs[..m], b, e);
    forall g, f | g in inputs && f in fs && Continues(g.Largest(), f) && f !in inputs
      ensures RightOfAll(inputs, f)
    {
      if f !in fs[..m] {
        LaterIsRight(fs, m, inputs, f);
      }
    }
  }

  lemma LaterIsRight(fs: Level, m: nat, inputs: Level, f: File)
    requires FilesOk(fs) && Disjoint(fs) && m <= |fs| && FilesOk(inputs) && f in fs && f !in fs[..m]
    requires forall t :: t in inputs ==> t in fs[..m]
    ensures RightOfAll(inputs, f)
  {
  }

  /** The first `n` of the files, as many as it takes to reach the size limit, or all of them. */
  ghost predicate UpToLimit(fs: Level, sizeLimit: nat, n: nat) {
    && 0 < n <= |fs| && (forall k :: 0 < k < n ==> TotalFileSize(fs[..k]) < sizeLimit)
    && (n < |fs| ==> TotalFileSize(fs[..n]) >= sizeLimit)
  }

  lemma SizeOfMore(fs: Level, i: nat)
    requires i < |fs|
    ensures TotalFileSize(fs[..i + 1]) == TotalFileSize(fs[..i]) + fs[i].size
  {
    assert fs[..i + 1][..i] == fs[..i];
  }

  /** The loop that cuts a manual compaction's inputs down. */
  method CountToLimit(fs: Level, sizeLimit: nat) returns (n: nat)
    requires fs != []
    ensures UpToLimit(fs, sizeLimit, n)
  {
    var total := 0;
    for i := 0 to |fs|
      invariant total == TotalFileSize(fs[..i]) && forall k :: 0 < k <= i ==> TotalFileSize(fs[..k]) < sizeLimit
    {
      SizeOfMore(fs, i);
      total := total + fs[i].size;
      if total >= sizeLimit {
        return i + 1;
      }
    }
    n := |fs|;
  }

  /** The files of the level that meet the range; below level 0, only as many from the left as reach the limit. */
  method FilesInRange(v: seq<Level>, level: nat, begin: Bound, end: Bound, sizeLimit: nat)
    returns (inputs: Level, ghost n: nat)
    requires ShapeOk(v) && level + 1 < NUM_LEVELS
    ensures inputs == [] ==> forall f :: f in v[level] ==> !Touches(f, begin, end)
    ensures inputs != [] ==> Startable(v, level, inputs)
    ensures inputs != [] && level == 0 ==> forall f :: f in v[0] && Touches(f, begin, end) ==> f in inputs
    ensures inputs != [] && level > 0 ==>
      var all := Touching(v[level], begin, end); UpToLimit(all, sizeLimit, n) && inputs == all[..n]
  {
    hide UpToLimit, Touching, TotalFileSize;
    ghost var b, e;
    inputs, b, e := GetOverlappingInputs(level, v[level], begin, end, v[level]);
    n := |inputs|;
    if inputs == [] {
    } else if level > 0 {
      TouchingStartClosed(v[level], b, e);
      var count := CountToLimit(inputs, sizeLimit);
      assert 0 < count <= |inputs| by {
        LimitInside(inputs, sizeLimit, count);
      }
      PrefixStartClosed(v[level], b, e, count);
      n := count;
      inputs := inputs[..count];
    } else {
      TouchingZeroClosed(v[0], b, e);
    }
  }

  lemma LimitInside(fs: Level, sizeLimit: nat, n: nat)
    requires UpToLimit(fs, sizeLimit, n)
    ensures 0 < n <= |fs|
  {
  }

  /** CompactRange: the files that meet the range asked for, all of them in level 0, and below it as many from the left
      as reach the size limit, with what completes the choice. Nothing is promised about gaps. */
  method CompactRange(v: seq<Level>, level: nat, begin: Bound, end: Bound, sizeLimit: nat, expandedLimit: nat)
    returns (found: bool, c: Compaction, ghost n: nat)
    requires ShapeOk(v) && level + 1 < NUM_LEVELS
    ensures found ==> c.level == level && Chosen(v, c)
    ensures found && level == 0 ==> forall f :: f in v[0] && Touches(f, begin, end) ==> f in c.inputs0
    ensures found && level > 0 ==> var all := Touching(v[level], begin, end);
      UpToLimit(all, sizeLimit, n) && forall f :: f in all[..n] ==> f in c.inputs0
    ensures !found ==> forall f :: f in v[level] ==> !Touches(f, begin, end)
  {
    c := Compaction(level, [], [], []);
    var inputs;
    inputs, n := FilesInRange(v, level, begin, end, sizeLimit);
    found := inputs != [];
    if found {
      c := SetupOtherInputs(v, level, inputs, expandedLimit);
    }
  }
}
