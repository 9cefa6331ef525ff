/** Which files of a level meet a user-key range, and where a flushed memtable may go. */
module Overlap {
  import opened Keys
  import opened Versions

  /** One end of a user-key range; an open end lies beyond every key. */
  datatype Bound = Open | At(user: UserKey)

  predicate BeginsBy(b: Bound, k: UserKey) {
    b.At? ==> b.user <= k
  }

  predicate EndsFrom(e: Bound, k: UserKey) {
    e.At? ==> k <= e.user
  }

  /** The file's user-key range meets the range from `b` to `e`. */
  predicate Touches(f: File, b: Bound, e: Bound)
    requires f.entries != []
  {
    BeginsBy(b, f.Largest().user) && EndsFrom(e, f.Smallest().user)
  }

  function Touching(fs: Level, b: Bound, e: Bound): (r: Level)
    requires forall i :: 0 <= i < |fs| ==> fs[i].entries != []
    ensures forall f :: f in r <==> f in fs && Touches(f, b, e)
  {
    if fs == [] then []
    else
      var last := fs[|fs| - 1];
      assert fs == fs[..|fs| - 1] + [last];
      Touching(fs[..|fs| - 1], b, e) + if Touches(last, b, e) then [last] else []
  }

  // ----- overlap tests -----

  /** SomeFileOverlapsRange: scan level 0; binary search where files are disjoint and sorted. */
  method SomeFileOverlapsRange(disjoint: bool, fs: Level, lo: Bound, hi: Bound) returns (r: bool)
    requires FilesOk(fs) && (disjoint ==> Disjoint(fs))
    ensures r <==> exists f :: f in fs && Touches(f, lo, hi)
  {
    if !disjoint {
      for i := 0 to |fs|
        invariant forall j :: 0 <= j < i ==> !Touches(fs[j], lo, hi)
      {
        if !BeginsBy(lo, fs[i].Largest().user) || !EndsFrom(hi, fs[i].Smallest().user) {
          // no overlap
        } else {
          assert Touches(fs[i], lo, hi);
          return true;
        }
      }
      return false;
    }
    var index := 0;
    if lo.At? {
      index := FindFile(fs, SeekKey(lo.user, MAX_SEQUENCE));
    }
    forall i | 0 <= i < |fs|
      ensures BeginsBy(lo, fs[i].Largest().user) <==> index <= i
    {
      assert fs[i].Ok();
    }
    if index >= |fs| {
      return false;
    }
    forall i | index < i < |fs|
      ensures fs[index].Smallest().user <= fs[i].Smallest().user
    {
      InRange(fs[index], fs[index].entries[|fs[index].entries| - 1]);
    }
    r := EndsFrom(hi, fs[index].Smallest().user);
    if r {
      assert Touches(fs[index], lo, hi);
    }
  }

  // ----- GetOverlappingInputs -----

  /** `b` to `e` is at least as wide as `b0` to `e0`. */
  predicate Widens(b0: Bound, e0: Bound, b: Bound, e: Bound) {
    && (b0.Open? ==> b.Open?) && (b0.At? ==> BeginsBy(b, b0.user))
    && (e0.Open? ==> e.Open?) && (e0.At? ==> EndsFrom(e, e0.user))
  }

  predicate Inside(f: File, b: Bound, e: Bound)
    requires f.entries != []
  {
    BeginsBy(b, f.Smallest().user) && EndsFrom(e, f.Largest().user)
  }

  /** Every file that meets the range lies inside it. */
  ghost predicate Closed(fs: Level, b: Bound, e: Bound)
    requires FilesOk(fs)
  {
    forall f :: f in fs && Touches(f, b, e) ==> Inside(f, b, e)
  }

  /** `b` to `e` is the least closed range that holds `b0` to `e0`. */
  ghost predicate LeastClosed(fs: Level, b0: Bound, e0: Bound, b: Bound, e: Bound)
    requires FilesOk(fs)
  {
    && Widens(b0, e0, b, e) && Closed(fs, b, e)
    && forall c, d :: Widens(b0, e0, c, d) && Closed(fs, c, d) ==> Widens(b, e, c, d)
  }

  /** How many files start before `b`, and how many end after `e`. */
  ghost function Outside(fs: Level, b: Bound, e: Bound): nat
    requires forall i :: 0 <= i < |fs| ==> fs[i].entries != []
  {
    if fs == [] then 0
    else
      var f := fs[0];
      Outside(fs[1..], b, e) + (if BeginsBy(b, f.Smallest().user) then 0 else 1)
        + (if EndsFrom(e, f.Largest().user) then 0 else 1)
  }

  /** The wider range takes in an end of the file that lay outside. */
  predicate TakesIn(f: File, b: Bound, e: Bound, c: Bound, d: Bound)
    requires f.entries != []
  {
    (!BeginsBy(b, f.Smallest().user) && BeginsBy(c, f.Smallest().user))
    || (!EndsFrom(e, f.Largest().user) && EndsFrom(d, f.Largest().user))
  }

  lemma {:induction false} OutsideShrinks(fs: Level, b: Bound, e: Bound, c: Bound, d: Bound)
    requires FilesOk(fs) && Widens(b, e, c, d)
    ensures Outside(fs, c, d) <= Outside(fs, b, e)
    ensures forall f :: f in fs && TakesIn(f, b, e, c, d) ==> Outside(fs, c, d) < Outside(fs, b, e)
  {
    if fs != [] {
      OutsideShrinks(fs[1..], b, e, c, d);
      assert fs == [fs[0]] + fs[1..];
      assert fs[0].Ok();
    }
  }

  /** The user key lies in the range of some file. */
  ghost predicate HoldsKey(fs: Level, x: UserKey) {
    exists f :: f in fs && f.entries != [] && f.Smallest().user <= x <= f.Largest().user
  }

  /** Every user key of the range lies in the range of some file. */
  ghost predicate Covered(fs: Level, lo: UserKey, hi: UserKey) {
    forall x: UserKey :: lo <= x <= hi ==> HoldsKey(fs, x)
  }

  ghost predicate CoveredBounds(fs: Level, b: Bound, e: Bound) {
    b.At? && e.At? ==> Covered(fs, b.user, e.user)
  }

  /** Every closed range that holds `b0` to `e0` holds `b` to `e`. */
  ghost predicate Forced(fs: Level, b0: Bound, e0: Bound, b: Bound, e: Bound)
    requires FilesOk(fs)
  {
    && Widens(b0, e0, b, e) && b0.At? == b.At? && e0.At? == e.At?
    && forall c, d :: Widens(b0, e0, c, d) && Closed(fs, c, d) ==> Widens(b, e, c, d)
  }

  /** A file that meets a forced range, and sticks out of it, forces a wider range. */
  lemma ForcedByFile(fs: Level, b0: Bound, e0: Bound, f: File, b: Bound, e: Bound)
    requires FilesOk(fs) && f in fs && Touches(f, b, e) && Forced(fs, b0, e0, b, e)
    ensures !BeginsBy(b, f.Smallest().user) ==> Forced(fs, b0, e0, At(f.Smallest().user), e)
    ensures !EndsFrom(e, f.Largest().user) ==> Forced(fs, b0, e0, b, At(f.Largest().user))
  {
  }

  lemma CoveredByFile(fs: Level, f: File, b: Bound, e: Bound)
    requires f in fs && f.entries != [] && Touches(f, b, e) && CoveredBounds(fs, b, e)
    ensures !BeginsBy(b, f.Smallest().user) ==> CoveredBounds(fs, At(f.Smallest().user), e)
    ensures !EndsFrom(e, f.Largest().user) ==> CoveredBounds(fs, b, At(f.Largest().user))
  {
  }

  /** Restarts end: each leaves fewer file ends outside the range. The wider range is still forced, and still covered.
      */
  lemma Restarts(fs: Level, b0: Bound, e0: Bound, f: File, b: Bound, e: Bound, c: Bound, d: Bound, base: Level)
    requires FilesOk(fs) && f in fs && f in base && f.Ok() && Touches(f, b, e) && Forced(fs, b0, e0, b, e)
    requires (c == At(f.Smallest().user) && d == e && !BeginsBy(b, f.Smallest().user))
      || (c == b && d == At(f.Largest().user) && !EndsFrom(e, f.Largest().user))
    ensures Forced(fs, b0, e0, c, d)
    ensures CoveredBounds(base, b, e) ==> CoveredBounds(base, c, d)
    ensures Outside(fs, c, d) < Outside(fs, b, e)
  {
    ForcedByFile(fs, b0, e0, f, b, e);
    if CoveredBounds(base, b, e) {
      CoveredByFile(base, f, b, e);
    }
    OutsideShrinks(fs, b, e, c, d);
  }

  /** What scanning one more file does. */
  lemma OneMore(fs: Level, i: nat, b: Bound, e: Bound)
    requires FilesOk(fs) && i < |fs|
    ensures fs[i].Ok() && fs[i] in fs
    ensures Touching(fs[..i + 1], b, e) == Touching(fs[..i], b, e) + if Touches(fs[i], b, e) then [fs[i]] else []
    ensures Closed(fs[..i + 1], b, e) <==> Closed(fs[..i], b, e) && (Touches(fs[i], b, e) ==> Inside(fs[i], b, e))
    ensures Inside(fs[i], b, e) <==> BeginsBy(b, fs[i].Smallest().user) && EndsFrom(e, fs[i].Largest().user)
  {
    assert fs[..i + 1] == fs[..i] + [fs[i]] && fs[..i + 1][..i] == fs[..i];
  }

  /** GetOverlappingInputs. In level 0, where files may overlap each other, a file that widens the
      range restarts the search. If the files of `base` cover the range asked for, they cover the
      range it grows to. */
  method GetOverlappingInputs(level: nat, fs: Level, begin: Bound, end: Bound, ghost base: Level)
    returns (inputs: Level, ghost b: Bound, ghost e: Bound)
    requires FilesOk(fs) && forall f :: f in fs ==> f in base
    ensures inputs == Touching(fs, b, e)
    ensures level > 0 ==> b == begin && e == end
    ensures level == 0 ==> LeastClosed(fs, begin, end, b, e)
    ensures begin.At? == b.At? && end.At? == e.At?
    ensures CoveredBounds(base, begin, end) ==> CoveredBounds(base, b, e)
  {
    hide Forced, Closed, CoveredBounds, Touching, LeastClosed, Outside, Inside;
    var userBegin, userEnd := begin, end;
    inputs := [];
    var i := 0;
    NoneYet(fs, begin, end, begin, end);
    while i < |fs|
      invariant 0 <= i <= |fs|
      invariant inputs == Touching(fs[..i], userBegin, userEnd)
      invariant level > 0 ==> userBegin == begin && userEnd == end
      invariant Forced(fs, begin, end, userBegin, userEnd)
      invariant level == 0 ==> Closed(fs[..i], userBegin, userEnd)
      invariant CoveredBounds(base, begin, end) ==> CoveredBounds(base, userBegin, userEnd)
      decreases Outside(fs, userBegin, userEnd), |fs| - i
    {
      var f := fs[i];
      OneMore(fs, i, userBegin, userEnd);
      i := i + 1;
      if !BeginsBy(userBegin, f.Largest().user) || !EndsFrom(userEnd, f.Smallest().user) {
        // completely before or after the range
      } else {
        inputs := inputs + [f];
        if level == 0 {
          if !BeginsBy(userBegin, f.Smallest().user) {
            Restarts(fs, begin, end, f, userBegin, userEnd, At(f.Smallest().user), userEnd, base);
            NoneYet(fs, begin, end, At(f.Smallest().user), userEnd);
            userBegin := At(f.Smallest().user);
            inputs := [];
            i := 0;
          } else if !EndsFrom(userEnd, f.Largest().user) {
            Restarts(fs, begin, end, f, userBegin, userEnd, userBegin, At(f.Largest().user), base);
            NoneYet(fs, begin, end, userBegin, At(f.Largest().user));
            userEnd := At(f.Largest().user);
            inputs := [];
            i := 0;
          }
        }
      }
    }
    assert fs[..|fs|] == fs;
    b, e := userBegin, userEnd;
    AllScanned(fs, begin, end, b, e);
  }

  lemma NoneYet(fs: Level, b0: Bound, e0: Bound, b: Bound, e: Bound)
    requires FilesOk(fs)
    ensures Forced(fs, b0, e0, b0, e0) && Touching(fs[..0], b, e) == [] && Closed(fs[..0], b, e)
  {
  }

  lemma AllScanned(fs: Level, b0: Bound, e0: Bound, b: Bound, e: Bound)
    requires FilesOk(fs) && Forced(fs, b0, e0, b, e)
    ensures Closed(fs, b, e) ==> LeastClosed(fs, b0, e0, b, e)
    ensures b0.At? == b.At? && e0.At? == e.At?
  {
  }

  /** Files that meet a wider range, if there are no more of them, are the same files. */
  lemma {:induction false} EqualCountsSameFiles(fs: Level, b: Bound, e: Bound, c: Bound, d: Bound)
    requires FilesOk(fs) && Widens(b, e, c, d)
    ensures |Touching(fs, b, e)| <= |Touching(fs, c, d)|
    ensures |Touching(fs, b, e)| == |Touching(fs, c, d)| ==> Touching(fs, b, e) == Touching(fs, c, d)
  {
    if fs != [] {
      var last := fs[|fs| - 1];
      assert last.Ok();
      EqualCountsSameFiles(fs[..|fs| - 1], b, e, c, d);
    }
  }

  // ----- PickLevelForMemTableOutput -----

  function TotalFileSize(fs: Level): nat {
    if fs == [] then 0 else TotalFileSize(fs[..|fs| - 1]) + fs[|fs| - 1].size
  }

  method SumFileSize(fs: Level) returns (sum: nat)
    ensures sum == TotalFileSize(fs)
  {
    sum := 0;
    for i := 0 to |fs|
      invariant sum == TotalFileSize(fs[..i])
    {
      assert fs[..i + 1][..i] == fs[..i];
      sum := sum + fs[i].size;
    }
    assert fs[..|fs|] == fs;
  }

  ghost predicate MeetsLevel(fs: Level, lo: UserKey, hi: UserKey)
    requires FilesOk(fs)
  {
    exists f :: f in fs && Touches(f, At(lo), At(hi))
  }

  /** The size of the files of a level that meet the range. */
  function OverlapBytes(fs: Level, lo: UserKey, hi: UserKey): nat
    requires FilesOk(fs)
  {
    TotalFileSize(Touching(fs, At(lo), At(hi)))
  }

  /** A flush may go from level `l` to the next: there is nothing in its range there, and not too much one level below
      that. */
  ghost predicate MayDescend(v: seq<Level>, lo: UserKey, hi: UserKey, limit: nat, l: nat)
    requires ShapeOk(v) && l < MAX_MEM_COMPACT_LEVEL
  {
    !MeetsLevel(v[l + 1], lo, hi) && OverlapBytes(v[l + 2], lo, hi) <= limit
  }

  /** The level a flush of the range goes to: as deep as it may. */
  ghost predicate Picks(v: seq<Level>, lo: UserKey, hi: UserKey, limit: nat, level: nat)
    requires ShapeOk(v)
  {
    && level <= MAX_MEM_COMPACT_LEVEL
    && (level > 0 ==> !MeetsLevel(v[0], lo, hi))
    && (forall l :: 0 <= l < level ==> MayDescend(v, lo, hi, limit, l))
    && (level < MAX_MEM_COMPACT_LEVEL && !MeetsLevel(v[0], lo, hi) ==> !MayDescend(v, lo, hi, limit, level))
  }

  /** PickLevelForMemTableOutput. The level found has no overlap with the range, nor has any level
      above it, unless it is level 0; and whatever the range meets at a level keeps it above that level. */
  method PickLevelForMemTableOutput(v: seq<Level>, lo: UserKey, hi: UserKey, maxGrandParentOverlap: nat)
    returns (level: nat)
    requires ShapeOk(v)
    ensures Picks(v, lo, hi, maxGrandParentOverlap, level)
  {
    hide Touching, TotalFileSize;
    level := 0;
    var overlap := SomeFileOverlapsRange(false, v[0], At(lo), At(hi));
    if !overlap {
      while level < MAX_MEM_COMPACT_LEVEL
        invariant level <= MAX_MEM_COMPACT_LEVEL
        invariant forall l :: 0 <= l < level ==> MayDescend(v, lo, hi, maxGrandParentOverlap, l)
      {
        overlap := SomeFileOverlapsRange(true, v[level + 1], At(lo), At(hi));
        if overlap {
          break;
        }
        if level + 2 < NUM_LEVELS {
          var overlaps, _, _ := GetOverlappingInputs(level + 2, v[level + 2], At(lo), At(hi), v[level + 2]);
          var sum := SumFileSize(overlaps);
          if sum > maxGrandParentOverlap {
            break;
          }
        }
        level := level + 1;
      }
    }
  }

  /** What the version order needs of the level picked. */
  lemma PickedPromises(v: seq<Level>, lo: UserKey, hi: UserKey, limit: nat, level: nat)
    requires ShapeOk(v) && Picks(v, lo, hi, limit, level)
    ensures level <= MAX_MEM_COMPACT_LEVEL
    ensures level > 0 ==> forall l :: 0 <= l <= level ==> !MeetsLevel(v[l], lo, hi)
    ensures forall l :: 0 < l < |v| && MeetsLevel(v[l], lo, hi) ==> level < l
    ensures MeetsLevel(v[0], lo, hi) ==> level == 0
  {
    hide OverlapBytes, MeetsLevel;
    forall l | 1 <= l <= level
      ensures !MeetsLevel(v[l], lo, hi)
    {
      assert MayDescend(v, lo, hi, limit, l - 1);
    }
  }
}
