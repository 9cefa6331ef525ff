/** Applying version edits: the builder that merges added files into sorted levels, and the replay
    of a whole manifest through one builder. */
module Builders {
  import opened Keys
  import opened Versions

  /** The file part of a version edit: deletions and additions, by level. */
  datatype Edit = Edit(deleted: set<(nat, nat)>, added: seq<(nat, File)>)

  ghost predicate EditOk(e: Edit) {
    && (forall d :: d in e.deleted ==> d.0 < NUM_LEVELS)
    && forall i :: 0 <= i < |e.added| ==> e.added[i].0 < NUM_LEVELS && e.added[i].1.Ok()
  }

  /** BySmallestKey: smallest keys ascending, ties broken by file number. */
  predicate Before(f: File, g: File)
    requires f.entries != [] && g.entries != []
  {
    Less(f.Smallest(), g.Smallest()) || (!Less(g.Smallest(), f.Smallest()) && f.number < g.number)
  }

  ghost predicate Listed(fs: Level)
    requires FilesOk(fs)
  {
    forall i, j :: 0 <= i < j < |fs| ==> Before(fs[i], fs[j])
  }

  /** A strictly sorted listing is determined by its files. */
  lemma {:induction false} ListingIsUnique(fs: Level, gs: Level)
    requires FilesOk(fs) && FilesOk(gs) && Listed(fs) && Listed(gs)
    requires forall f :: f in fs <==> f in gs
    ensures fs == gs
  {
    assert (fs != [] ==> fs[0] in fs) && (gs != [] ==> gs[0] in gs);
    if fs != [] && gs != [] {
      assert fs[0] in gs;
      assert gs[0] in fs;
      var j :| 0 <= j < |gs| && gs[j] == fs[0];
      var i :| 0 <= i < |fs| && fs[i] == gs[0];
      assert i == 0;
      forall f
        ensures f in fs[1..] <==> f in gs[1..]
      {
        if f in fs[1..] {
          var p :| 0 <= p < |fs[1..]| && fs[1..][p] == f;
          assert fs[p + 1] == f && Before(fs[0], f);
          assert f in fs && f in gs;
          var q :| 0 <= q < |gs| && gs[q] == f;
          assert q != 0;
          assert gs[1..][q - 1] == f;
        }
        if f in gs[1..] {
          var p :| 0 <= p < |gs[1..]| && gs[1..][p] == f;
          assert gs[p + 1] == f && Before(gs[0], f);
          assert f in gs && f in fs;
          var q :| 0 <= q < |fs| && fs[q] == f;
          assert q != 0;
          assert fs[1..][q - 1] == f;
        }
      }
      ListingIsUnique(fs[1..], gs[1..]);
    }
  }

  // ----- what an edit means -----

  /** Which file each number names; numbers are never given to two files. */
  type Catalogue = map<nat, File>

  ghost predicate Known(names: Catalogue, fs: Level) {
    forall f :: f in fs ==> f.number in names && names[f.number] == f
  }

  predicate Adds(e: Edit, l: nat, f: File) {
    (l, f) in e.added
  }

  predicate AddsNumber(e: Edit, l: nat, number: nat) {
    exists i :: 0 <= i < |e.added| && e.added[i].0 == l && e.added[i].1.number == number
  }

  /** The edit takes the file out of the level. A number both deleted and added stays. */
  predicate Removes(e: Edit, l: nat, f: File) {
    (l, f.number) in e.deleted && !AddsNumber(e, l, f.number)
  }

  ghost predicate KnownEdit(names: Catalogue, e: Edit) {
    EditOk(e) && forall i :: 0 <= i < |e.added| ==> Known(names, [e.added[i].1])
  }

  ghost predicate VersionOk(names: Catalogue, v: seq<Level>) {
    |v| == NUM_LEVELS && forall l :: 0 <= l < NUM_LEVELS ==> FilesOk(v[l]) && Listed(v[l]) && Known(names, v[l])
  }

  /** `w` is the version that `e` makes of `v`. */
  ghost predicate Installs(names: Catalogue, v: seq<Level>, e: Edit, w: seq<Level>) {
    && VersionOk(names, v) && VersionOk(names, w)
    && forall l, f :: 0 <= l < NUM_LEVELS ==> (f in w[l] <==> Adds(e, l, f) || (f in v[l] && !Removes(e, l, f)))
  }

  /** No file is added to a level that already holds it. */
  ghost predicate AddsNew(v: seq<Level>, e: Edit)
    requires |v| == NUM_LEVELS
  {
    forall l, f :: 0 <= l < NUM_LEVELS && Adds(e, l, f) ==> f !in v[l]
  }

  const EMPTY_VERSION: seq<Level> := [[], [], [], [], [], [], []]

  // ----- one level -----

  /** std::set insertion under Before. */
  method InsertFile(fs: Level, f: File, ghost names: Catalogue) returns (r: Level)
    requires FilesOk(fs) && Listed(fs) && f.Ok() && Known(names, fs + [f])
    ensures FilesOk(r) && Listed(r) && forall g :: g in r <==> g in fs || g == f
  {
    var p := 0;
    while p < |fs| && Before(fs[p], f)
      invariant 0 <= p <= |fs|
      invariant forall i :: 0 <= i < p ==> Before(fs[i], f)
    {
      p := p + 1;
    }
    if p < |fs| && !Before(f, fs[p]) {
      assert fs[p] in fs + [f] && f in fs + [f] && fs[p] in fs;
      r := fs;
    } else {
      ListedSplit(fs, p);
      BeforeRest(fs, p, f);
      ListedJoin(fs[..p], [f]);
      ListedJoin(fs[..p] + [f], fs[p..]);
      r := fs[..p] + [f] + fs[p..];
      assert fs == fs[..p] + fs[p..];
    }
  }

  lemma BeforeRest(fs: Level, p: nat, f: File)
    requires FilesOk(fs) && Listed(fs) && f.Ok() && p <= |fs| && (p < |fs| ==> Before(f, fs[p]))
    requires forall i :: 0 <= i < p ==> Before(fs[i], f)
    ensures AllBefore(fs[..p], [f]) && AllBefore(fs[..p] + [f], fs[p..])
  {
    forall i | p < i < |fs|
      ensures Before(f, fs[i])
    {
      assert Before(fs[p], fs[i]);
    }
  }

  /** The first index of a listing whose file comes after `f`. */
  method UpperBound(fs: Level, from: nat, f: File) returns (p: nat)
    requires FilesOk(fs) && Listed(fs) && f.entries != [] && from <= |fs|
    ensures from <= p <= |fs|
    ensures forall i :: from <= i < p ==> !Before(f, fs[i])
    ensures forall i :: p <= i < |fs| ==> Before(f, fs[i])
  {
    var left, right := from, |fs|;
    while left < right
      invariant from <= left <= right <= |fs|
      invariant forall i :: from <= i < left ==> !Before(f, fs[i])
      invariant forall i :: right <= i < |fs| ==> Before(f, fs[i])
    {
      var mid := (left + right) / 2;
      if Before(f, fs[mid]) {
        right := mid;
        forall i | mid < i < |fs|
          ensures Before(f, fs[i])
        {
          assert Before(fs[mid], fs[i]);
        }
      } else {
        left := mid + 1;
        forall i | from <= i < mid
          ensures !Before(f, fs[i])
        {
          assert Before(fs[i], fs[mid]);
        }
      }
    }
    p := right;
  }

  ghost predicate AllBefore(xs: Level, ys: Level)
    requires FilesOk(xs) && FilesOk(ys)
  {
    forall f, g :: f in xs && g in ys ==> Before(f, g)
  }

  lemma ListedJoin(xs: Level, ys: Level)
    requires FilesOk(xs) && FilesOk(ys) && Listed(xs) && Listed(ys) && AllBefore(xs, ys)
    ensures FilesOk(xs + ys) && Listed(xs + ys)
  {
  }

  lemma ListedSplit(fs: Level, p: nat)
    requires FilesOk(fs) && Listed(fs) && p <= |fs|
    ensures FilesOk(fs[..p]) && FilesOk(fs[p..]) && Listed(fs[..p]) && Listed(fs[p..]) && AllBefore(fs[..p], fs[p..])
  {
  }

  /** MaybeAddFile for a run of files that come after all that is listed already. */
  method AddUndeleted(r: Level, fs: Level, deleted: set<nat>) returns (s: Level)
    requires FilesOk(r) && FilesOk(fs) && Listed(r) && Listed(fs) && AllBefore(r, fs)
    ensures FilesOk(s) && Listed(s)
    ensures forall f :: f in s <==> f in r || (f in fs && f.number !in deleted)
  {
    s := r;
    for i := 0 to |fs|
      invariant FilesOk(s) && Listed(s) && AllBefore(s, fs[i..])
      invariant forall f :: f in s <==> f in r || (f in fs[..i] && f.number !in deleted)
    {
      assert fs[..i + 1] == fs[..i] + [fs[i]] && fs[i..] == [fs[i]] + fs[i + 1..];
      if fs[i].number !in deleted {
        ListedJoin(s, [fs[i]]);
        ListedSplit(fs[i..], 1);
        s := s + [fs[i]];
      }
    }
    assert fs[..|fs|] == fs;
  }

  /** With distinct numbers, two files are ordered one way or the other. */
  lemma OneBefore(names: Catalogue, fs: Level, f: File, g: File)
    requires Known(names, fs) && f in fs && g in fs && f != g && f.entries != [] && g.entries != []
    ensures Before(f, g) || Before(g, f)
  {
  }

  /** SaveTo, for one level: merge the added files into the base files and leave out the deleted. */
  method SaveLevel(base: Level, added: Level, deleted: set<nat>, ghost names: Catalogue) returns (r: Level)
    requires FilesOk(base) && FilesOk(added) && Listed(base) && Listed(added) && Known(names, base + added)
    requires forall f :: f in added ==> f !in base
    ensures FilesOk(r) && Listed(r)
    ensures forall f :: f in r <==> (f in base || f in added) && f.number !in deleted
  {
    r := [];
    var b := 0;
    for a := 0 to |added|
      invariant 0 <= b <= |base| && FilesOk(r) && Listed(r)
      invariant forall f :: f in r <==> (f in base[..b] || f in added[..a]) && f.number !in deleted
      invariant AllBefore(r, base[b..]) && AllBefore(r, added[a..])
    {
      var p := UpperBound(base, b, added[a]);
      MergeStep(base, added, names, a, b, p);
      ghost var was := r;
      r := AddUndeleted(r, base[b..p] + [added[a]], deleted);
      forall f, g | f in r && (g in base[p..] || g in added[a + 1..])
        ensures Before(f, g)
      {
        assert g in base[p..] ==> g in base[b..];
        assert g in added[a + 1..] ==> g in added[a..];
        if f !in was {
          assert f in base[b..p] + [added[a]];
        }
      }
      assert base[..p] == base[..b] + base[b..p];
      assert added[..a + 1] == added[..a] + [added[a]];
      b := p;
    }
    ListedSplit(base, b);
    r := AddUndeleted(r, base[b..], deleted);
    assert base == base[..b] + base[b..] && added[..|added|] == added;
  }

  lemma MergeStep(base: Level, added: Level, names: Catalogue, a: nat, b: nat, p: nat)
    requires FilesOk(base) && FilesOk(added) && Listed(base) && Listed(added) && Known(names, base + added)
    requires a < |added| && added[a] !in base && b <= p <= |base|
    requires forall i :: b <= i < p ==> !Before(added[a], base[i])
    requires forall i :: p <= i < |base| ==> Before(added[a], base[i])
    ensures FilesOk(base[b..p] + [added[a]]) && Listed(base[b..p] + [added[a]])
    ensures AllBefore(base[b..p] + [added[a]], base[p..]) && AllBefore(base[b..p] + [added[a]], added[a + 1..])
  {
    forall i | b <= i < p
      ensures Before(base[i], added[a])
    {
      assert base[i] in base + added && added[a] in base + added && base[i] in base;
      OneBefore(names, base + added, base[i], added[a]);
    }
  }

  // ----- the builder -----

  /** The numbers marked deleted after the edit, at one level. */
  ghost predicate MarkedAfter(was: set<nat>, e: Edit, l: nat, n: nat) {
    (n in was || (l, n) in e.deleted) && !AddsNumber(e, l, n)
  }

  class Builder {
    const base: seq<Level>
    ghost const names: Catalogue
    var deletedFiles: seq<set<nat>>
    var addedFiles: seq<Level>  // per level, in order

    ghost predicate Ok()
      reads this
    {
      && VersionOk(names, base) && VersionOk(names, addedFiles) && |deletedFiles| == NUM_LEVELS
    }

    /** What SaveTo will list at level `l`. */
    ghost predicate Holds(l: nat, f: File)
      requires Ok() && l < NUM_LEVELS
      reads this
    {
      (f in base[l] || f in addedFiles[l]) && f.number !in deletedFiles[l]
    }

    constructor (base: seq<Level>, ghost names: Catalogue)
      requires VersionOk(names, base)
      ensures Ok() && this.base == base && this.names == names && addedFiles == EMPTY_VERSION
      ensures forall l :: 0 <= l < NUM_LEVELS ==> deletedFiles[l] == {}
    {
      this.base := base;
      this.names := names;
      deletedFiles := [{}, {}, {}, {}, {}, {}, {}];
      addedFiles := EMPTY_VERSION;
    }

    /** Apply: mark the deletions, then insert the additions; adding a number clears its mark. */
    method Apply(e: Edit)
      requires Ok() && KnownEdit(names, e)
      modifies this
      ensures Ok()
      ensures forall l, n :: 0 <= l < NUM_LEVELS ==>
        (n in deletedFiles[l] <==> MarkedAfter(old(deletedFiles)[l], e, l, n))
      ensures forall l, f :: 0 <= l < NUM_LEVELS ==> (f in addedFiles[l] <==> f in old(addedFiles)[l] || Adds(e, l, f))
    {
      var deletions := e.deleted;
      ghost var was := deletedFiles;
      while deletions != {}
        invariant Ok() && deletions <= e.deleted && addedFiles == old(addedFiles)
        invariant forall l, n :: 0 <= l < NUM_LEVELS ==>
          (n in deletedFiles[l] <==> n in was[l] || (l, n) in e.deleted - deletions)
      {
        var d :| d in deletions;
        deletedFiles := deletedFiles[d.0 := deletedFiles[d.0] + {d.1}];
        deletions := deletions - {d};
      }
      ghost var marked := deletedFiles;
      for i := 0 to |e.added|
        invariant Ok()
        invariant forall l, n :: 0 <= l < NUM_LEVELS ==>
          (n in deletedFiles[l] <==> n in marked[l] && forall j :: 0 <= j < i ==>
            e.added[j].0 != l || e.added[j].1.number != n)
        invariant forall l, f :: 0 <= l < NUM_LEVELS ==>
          (f in addedFiles[l] <==> f in old(addedFiles)[l] || (l, f) in e.added[..i])
      {
        var l, f := e.added[i].0, e.added[i].1;
        deletedFiles := deletedFiles[l := deletedFiles[l] - {f.number}];
        var files := InsertFile(addedFiles[l], f, names);
        addedFiles := addedFiles[l := files];
        assert e.added[..i + 1] == e.added[..i] + [(l, f)];
      }
      assert e.added[..|e.added|] == e.added;
    }

    /** SaveTo */
    method SaveTo() returns (v: seq<Level>)
      requires Ok()
      requires forall l, f :: 0 <= l < NUM_LEVELS && f in addedFiles[l] ==> f !in base[l]
      ensures VersionOk(names, v)
      ensures forall l, f :: 0 <= l < NUM_LEVELS ==> (f in v[l] <==> Holds(l, f))
    {
      v := [];
      for l := 0 to NUM_LEVELS
        invariant |v| == l
        invariant forall m :: 0 <= m < l ==> FilesOk(v[m]) && Listed(v[m]) && Known(names, v[m])
        invariant forall m, f :: 0 <= m < l ==> (f in v[m] <==> Holds(m, f))
      {
        var files := SaveLevel(base[l], addedFiles[l], deletedFiles[l], names);
        v := v + [files];
      }
    }
  }

  /** LogAndApply's new version: one edit over the current version. */
  method InstallEdit(v: seq<Level>, e: Edit, ghost names: Catalogue) returns (w: seq<Level>)
    requires VersionOk(names, v) && KnownEdit(names, e) && AddsNew(v, e)
    ensures Installs(names, v, e, w)
  {
    var builder := new Builder(v, names);
    builder.Apply(e);
    w := builder.SaveTo();
  }

  // ----- replay -----

  /** `vs` are the versions a run of edits goes through, each installed over the one before. */
  ghost predicate History(names: Catalogue, es: seq<Edit>, vs: seq<seq<Level>>) {
    && |vs| == |es| + 1 && vs[0] == EMPTY_VERSION
    && (forall i :: 0 <= i < |es| ==> KnownEdit(names, es[i]))
    && (forall i :: 0 <= i < |vs| ==> VersionOk(names, vs[i]))
    && forall i :: 0 <= i < |es| ==> Installs(names, vs[i], es[i], vs[i + 1])
  }

  /** Recover: one builder takes every edit of the manifest and saves once. The version recovered is
      the one the edits led to when they were installed one at a time. */
  method ReplayManifest(es: seq<Edit>, ghost vs: seq<seq<Level>>, ghost names: Catalogue) returns (v: seq<Level>)
    requires History(names, es, vs)
    ensures v == vs[|es|]
  {
    var builder := new Builder(EMPTY_VERSION, names);
    for i := 0 to |es|
      invariant builder.Ok() && builder.base == EMPTY_VERSION && builder.names == names
      invariant forall l, f :: 0 <= l < NUM_LEVELS ==> (builder.Holds(l, f) <==> f in vs[i][l])
      modifies builder
    {
      assert Installs(names, vs[i], es[i], vs[i + 1]);
      builder.Apply(es[i]);
    }
    v := builder.SaveTo();
    SameListings(names, v, vs[|es|]);
  }

  lemma SameListings(names: Catalogue, v: seq<Level>, w: seq<Level>)
    requires VersionOk(names, v) && VersionOk(names, w)
    requires forall l, f :: 0 <= l < NUM_LEVELS ==> (f in v[l] <==> f in w[l])
    ensures v == w
  {
    forall l | 0 <= l < NUM_LEVELS
      ensures v[l] == w[l]
    {
      ListingIsUnique(v[l], w[l]);
    }
  }
}
