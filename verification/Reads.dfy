/** What a compaction does to reads of the whole database, and an input for which the code falls short. */
module CompactionReads {
  import opened Keys
  import opened Versions
  import opened Overlap
  import opened Picking
  import opened Builders
  import opened Installing
  import opened CompactionWork

  /** Levels a tombstone may not be dropped over. */
  function DeeperLevels(v: seq<Level>, c: Compaction): seq<Level> {
    if c.level + 2 <= |v| then v[c.level + 2..] else []
  }

  /** No left-out file of the output level has a user key of a chosen one. */
  ghost predicate NextLevelClosed(v0: seq<Level>, c: Compaction)
    requires ShapeOk(v0) && Chosen(v0, c)
  {
    forall g, f :: g in v0[c.level + 1] && g !in c.inputs1 && f in c.inputs1 ==> NoSharedUser(g, f)
  }

  ghost predicate NoSharedUser(g: File, f: File) {
    forall x, y :: x in g.entries && y in f.entries ==> x.key.user != y.key.user
  }

  /** An entry of the version has one place in it. */
  lemma OneHome(v: seq<Level>, l: nat, f: File, m: nat, g: File, x: Entry)
    requires TreeOk(v) && l < |v| && m < |v| && f in v[l] && g in v[m] && x in f.entries && x in g.entries
    ensures l == m && f == g
  {
  }

  /** No two entries of a tree have the same key. */
  lemma TreeUnique(v: seq<Level>)
    requires TreeOk(v)
    ensures Unique(VersionEntries(v))
  {
    hide VersionEntries, EntriesOf, TreeOk;
    forall x, y | x in VersionEntries(v) && y in VersionEntries(v) && x.key == y.key
      ensures x == y
    {
      var l, f := Home(v, x);
      var m, g := Home(v, y);
      OneKeyOneHome(v, l, f, m, g, x, y);
      SameFile(f, x, y);
    }
  }

  lemma OneKeyOneHome(v: seq<Level>, l: nat, f: File, m: nat, g: File, x: Entry, y: Entry)
    requires TreeOk(v) && l < |v| && m < |v| && f in v[l] && g in v[m] && x in f.entries && y in g.entries
    requires x.key == y.key
    ensures f == g && f.Ok()
  {
    hide NewerByNumber, Layered, Disjoint;
    TreeIsFileOrder(v);
    assert f.Ok() && g.Ok();
    InRange(f, x);
    InRange(g, y);
    assert l < m ==> NewerFile(f, g);
    assert m < l ==> NewerFile(g, f);
    assert l == m == 0 && f != g ==> NewerFile(f, g) || NewerFile(g, f);
    assert l == m > 0 && f != g ==> BothApart(f, g);
  }

  lemma SameFile(f: File, x: Entry, y: Entry)
    requires f.Ok()
    ensures x in f.entries && y in f.entries && x.key == y.key ==> x == y
  {
  }

  // ----- the compaction and the rest of the database -----

  ghost function InputEntries(c: Compaction): set<Entry> {
    EntriesOf(Inputs(c))
  }

  /** Everything outside the compaction's inputs: memtables, and the other files of the version. */
  ghost function Rest(upper: set<Entry>, v: seq<Level>, c: Compaction): set<Entry> {
    upper + (VersionEntries(v) - InputEntries(c))
  }

  /** An entry outside the inputs lives in the memtables or in a file that is no input. */
  lemma RestHome(upper: set<Entry>, v: seq<Level>, c: Compaction, o: Entry) returns (l: nat, g: File)
    requires o in Rest(upper, v, c) && o !in upper
    ensures l < |v| && g in v[l] && o in g.entries && g !in Inputs(c)
  {
    l :| 0 <= l < |v| && o in EntriesOf(v[l]);
    g :| g in v[l] && o in g.entries;
  }

  lemma SharesNone(v0: seq<Level>, c: Compaction, g: File, f: File, x: Entry, y: Entry)
    requires ShapeOk(v0) && Chosen(v0, c) && NextLevelClosed(v0, c)
    requires g in v0[c.level + 1] && g !in c.inputs1 && f in Inputs(c) && x in g.entries && y in f.entries
    ensures x.key.user != y.key.user
  {
    if f in c.inputs0 {
      assert g.Ok() && f.Ok();
      InRange(f, y);
      InRange(g, x);
      assert !MeetsHull(g, c.inputs0);
      assert !Touches(g, At(f.Smallest().user), At(f.Largest().user));
    } else {
      assert NoSharedUser(g, f);
    }
  }

  lemma SeenDeeper(v0: seq<Level>, c: Compaction, l: nat, g: File, o: Entry)
    requires ShapeOk(v0) && c.level + 1 < l < NUM_LEVELS && g in v0[l] && o in g.entries
    ensures InDeeper(DeeperLevels(v0, c), o.key.user)
  {
  }

  lemma UpperNewer(upper: set<Entry>, v: seq<Level>, l: nat, f: File, e: Entry, o: Entry)
    requires NewerThan(upper, VersionEntries(v)) && l < |v| && f in v[l] && e in f.entries
    requires o in upper && o.key.user == e.key.user
    ensures Tag(o.key) > Tag(e.key)
  {
    assert e in EntriesOf(v[l]);
    assert e in VersionEntries(v);
  }

  /** Below the compaction's level, a file that is no input and shares a user key with one would have been seen. */
  lemma SharedIsDeeper(v0: seq<Level>, c: Compaction, l: nat, g: File, f: File, o: Entry, e: Entry)
    requires ShapeOk(v0) && Chosen(v0, c) && NextLevelClosed(v0, c) && c.level < l < NUM_LEVELS && g !in Inputs(c)
    requires g in v0[l] && f in Inputs(c) && o in g.entries && e in f.entries && o.key.user == e.key.user
    ensures InDeeper(DeeperLevels(v0, c), e.key.user)
  {
    if l == c.level + 1 {
      SharesNone(v0, c, g, f, o, e);
    } else {
      SeenDeeper(v0, c, l, g, o);
    }
  }

  /** Nothing of the version outside the inputs is older than one of their obsolete tombstones, if the output level was
      closed: newer levels are newer, the output level shares no user key, deeper files would have been seen. */
  lemma NothingOlder(v0: seq<Level>, c: Compaction, e: Entry, o: Entry)
    requires TreeOk(v0) && Chosen(v0, c) && NextLevelClosed(v0, c)
    requires e in InputEntries(c) && !InDeeper(DeeperLevels(v0, c), e.key.user)
    requires o in Rest({}, v0, c) && o.key.user == e.key.user
    ensures Tag(o.key) > Tag(e.key)
  {
    hide NewerThan, Layered, NewerByNumber, Chosen, NextLevelClosed, InDeeper, EntriesOf;
    var f := InputHome(v0, c, e);
    var l, g := RestHome({}, v0, c, o);
    if l <= c.level {
      SinceStart(v0, c, {});
      AroundInputs(v0, c, {}, v0, l, g, f);
      NewerHere(g, f, o, e);
    } else {
      SharedIsDeeper(v0, c, l, g, f, o, e);
    }
  }

  lemma NewerHere(g: File, f: File, o: Entry, e: Entry)
    requires NewerFile(g, f) && o in g.entries && e in f.entries && o.key.user == e.key.user
    ensures Tag(o.key) > Tag(e.key)
  {
  }

  lemma InputHome(v0: seq<Level>, c: Compaction, e: Entry) returns (f: File)
    requires ShapeOk(v0) && Chosen(v0, c) && e in InputEntries(c)
    ensures f in Inputs(c) && e in f.entries && f in v0[if f in c.inputs0 then c.level else c.level + 1]
  {
    InputsOk(v0, c);
    f :| f in Inputs(c) && e in f.entries;
  }

  /** The compaction brings the user key back: the newest entry of the version is an obsolete tombstone of the inputs,
      the newest one outside them a value. */
  ghost predicate Revived(v0: seq<Level>, c: Compaction, ss: nat, k: UserKey) {
    Resurrected(Rest({}, v0, c), InputEntries(c), DeeperLevels(v0, c), ss, k)
  }

  /** With the output level closed, the compaction brings no user key back. */
  lemma ClosedRevivesNone(v0: seq<Level>, c: Compaction, ss: nat, k: UserKey)
    requires TreeOk(v0) && Chosen(v0, c) && NextLevelClosed(v0, c)
    ensures !Revived(v0, c, ss, k)
  {
    hide TreeOk, Chosen, NextLevelClosed;
    var rest := Rest({}, v0, c);
    forall e, o | e in InputEntries(c) && Newest(rest + InputEntries(c), ss, e) && e.key.user == k
      && Obsolete(DeeperLevels(v0, c), ss, e) && o in rest && o.key.user == k
      ensures o.key.sn > ss
    {
      NothingOlder(v0, c, e, o);
      assert o in rest + InputEntries(c);
    }
  }

  /** What would be brought back from all there is by the time the compaction ends, it brings back from the version it
      started on. */
  lemma NoneResurrected(upper: set<Entry>, v0: seq<Level>, c: Compaction, kept: set<Entry>, v: seq<Level>, ss: nat,
          k: UserKey)
    requires Since(v0, c, kept, v) && TreeOk(v) && NewerThan(upper, VersionEntries(v))
    ensures Resurrected(Rest(upper, v, c), InputEntries(c), DeeperLevels(v0, c), ss, k) ==> Revived(v0, c, ss, k)
  {
    hide Obsolete, TreeOk, Chosen;
    var rest, inputs, deeper := Rest(upper, v, c), InputEntries(c), DeeperLevels(v0, c);
    if Resurrected(rest, inputs, deeper, ss, k) {
      var e, o :| e in inputs && Newest(rest + inputs, ss, e) && e.key.user == k && Obsolete(deeper, ss, e)
        && Newest(rest, ss, o) && o.key.user == k && o.key.kind == Value;
      assert o in rest + inputs;
      OlderWasThere(upper, v0, c, kept, v, e, o);
      VersionGrows(v0, c, kept, v);
      assert Rest({}, v0, c) + inputs <= rest + inputs && e in Rest({}, v0, c) + inputs;
      assert Newest(Rest({}, v0, c) + inputs, ss, e) && Newest(Rest({}, v0, c), ss, o);
    }
  }

  /** Entries older than one of the inputs, outside the inputs, were in the version from the start. */
  lemma OlderWasThere(upper: set<Entry>, v0: seq<Level>, c: Compaction, kept: set<Entry>, v: seq<Level>, e: Entry,
          o: Entry)
    requires Since(v0, c, kept, v) && TreeOk(v) && NewerThan(upper, VersionEntries(v))
    requires e in InputEntries(c) && o in Rest(upper, v, c) && o.key.user == e.key.user && Tag(o.key) <= Tag(e.key)
    ensures o in Rest({}, v0, c)
  {
    hide TreeOk, Chosen;
    ShapeStart(v0, c, kept, v);
    var f := InputHome(v0, c, e);
    var m := if f in c.inputs0 then c.level else c.level + 1;
    InVersion(v0, m, f, e);
    if o in upper {
      UpperNewer(upper, v, m, f, e, o);
    } else {
      var l, g := RestHome(upper, v, c, o);
      if g in v0[l] {
        InVersion(v0, l, g, o);
      } else {
        FlushedNewer(v0, c, kept, l, g, o, e);
      }
    }
  }

  lemma FlushedNewer(v0: seq<Level>, c: Compaction, kept: set<Entry>, l: nat, g: File, o: Entry, e: Entry)
    requires ShapeOk(v0) && Chosen(v0, c) && FlushedDuring(v0, c, kept, l, g) && o in g.entries
    requires e in VersionEntries(v0) && o.key.user == e.key.user
    ensures Tag(o.key) > Tag(e.key)
  {
  }

  lemma ShapeStart(v0: seq<Level>, c: Compaction, kept: set<Entry>, v: seq<Level>)
    requires Since(v0, c, kept, v)
    ensures TreeOk(v0) && ShapeOk(v0) && Chosen(v0, c) && |v| == NUM_LEVELS && c.level + 1 < NUM_LEVELS
  {
  }

  lemma VersionGrows(v0: seq<Level>, c: Compaction, kept: set<Entry>, v: seq<Level>)
    requires Since(v0, c, kept, v)
    ensures VersionEntries(v0) <= VersionEntries(v)
  {
    forall x | x in VersionEntries(v0)
      ensures x in VersionEntries(v)
    {
      var l, g := Home(v0, x);
      InVersion(v, l, g, x);
    }
  }

  /** What the compaction keeps of its inputs. */
  ghost function KeptBy(v0: seq<Level>, c: Compaction, ss: nat): set<Entry> {
    KeptOf(InputEntries(c), DeeperLevels(v0, c), ss)
  }

  /** What the outputs hold: exactly the kept entries. */
  ghost predicate Keeps(c: Compaction, outs: Level, deeper: seq<Level>, ss: nat) {
    EntriesOf(outs) == KeptOf(InputEntries(c), deeper, ss)
  }

  lemma InVersion(v: seq<Level>, l: nat, f: File, x: Entry)
    requires l < |v| && f in v[l] && x in f.entries
    ensures x in VersionEntries(v)
  {
    assert x in EntriesOf(v[l]);
  }

  lemma Home(v: seq<Level>, x: Entry) returns (l: nat, f: File)
    requires x in VersionEntries(v)
    ensures l < |v| && f in v[l] && x in f.entries
  {
    l :| 0 <= l < |v| && x in EntriesOf(v[l]);
    f :| f in v[l] && x in f.entries;
  }

  /** After the install, the version holds the kept entries and all that was outside the inputs. */
  lemma InstalledEntries(v0: seq<Level>, c: Compaction, kept: set<Entry>, v: seq<Level>, outs: Level, w: seq<Level>)
    requires Since(v0, c, kept, v) && TreeOk(v) && Compacted(v, c, outs, w)
    ensures VersionEntries(w) == (VersionEntries(v) - InputEntries(c)) + EntriesOf(outs)
    ensures InputEntries(c) <= VersionEntries(v)
  {
    forall x | x in InputEntries(c)
      ensures x in VersionEntries(v)
    {
      var f := InputHome(v0, c, x);
      InVersion(v, if f in c.inputs0 then c.level else c.level + 1, f, x);
    }
    forall x | x in VersionEntries(w)
      ensures x in (VersionEntries(v) - InputEntries(c)) + EntriesOf(outs)
    {
      var l, g := Home(w, x);
      if !(l == c.level + 1 && g in outs) {
        InVersion(v, l, g, x);
        NotInput(v0, c, kept, v, l, g, x);
      }
    }
    forall x | x in VersionEntries(v) - InputEntries(c)
      ensures x in VersionEntries(w)
    {
      var l, g := Home(v, x);
      assert g !in Inputs(c);
      InVersion(w, l, g, x);
    }
    forall x | x in EntriesOf(outs)
      ensures x in VersionEntries(w)
    {
      var o :| o in outs && x in o.entries;
      InVersion(w, c.level + 1, o, x);
    }
  }

  lemma NotInput(v0: seq<Level>, c: Compaction, kept: set<Entry>, v: seq<Level>, l: nat, g: File, x: Entry)
    requires Since(v0, c, kept, v) && TreeOk(v) && l < NUM_LEVELS && g in v[l] && x in g.entries
    requires !(l == c.level && g in c.inputs0) && !(l == c.level + 1 && g in c.inputs1)
    ensures x !in InputEntries(c)
  {
    InputsOk(v0, c);
    forall f | f in Inputs(c) && x in f.entries
      ensures false
    {
      OneHome(v, if f in c.inputs0 then c.level else c.level + 1, f, l, g, x);
    }
  }

  /** The whole story of a compaction that brings no user key back: once installed, with whatever was written
      and flushed meanwhile, every snapshot from the smallest one on reads as before. */
  lemma CompactionIsInvisible(upper: set<Entry>, v0: seq<Level>, c: Compaction, kept: set<Entry>, v: seq<Level>,
          outs: Level, w: seq<Level>, ss: nat, s: nat)
    requires Since(v0, c, kept, v) && TreeOk(v) && NewerThan(upper, VersionEntries(v))
    requires forall k :: !Revived(v0, c, ss, k)
    requires Unique(upper + VersionEntries(v)) && upper !! VersionEntries(v)
    requires Keeps(c, outs, DeeperLevels(v0, c), ss) && Compacted(v, c, outs, w) && ss <= s
    ensures View(upper + VersionEntries(w), s) == View(upper + VersionEntries(v), s)
  {
    var rest, inputs, deeper := Rest(upper, v, c), InputEntries(c), DeeperLevels(v0, c);
    InstalledEntries(v0, c, kept, v, outs, w);
    assert rest + inputs == upper + VersionEntries(v);
    assert rest + KeptOf(inputs, deeper, ss) == upper + VersionEntries(w);
    forall k
      ensures !Resurrected(rest, inputs, deeper, ss, k)
    {
      NoneResurrected(upper, v0, c, kept, v, ss, k);
    }
    CompactionPreservesViews(rest, inputs, deeper, ss);
  }

  lemma SinceStart(v: seq<Level>, c: Compaction, kept: set<Entry>)
    requires TreeOk(v) && Chosen(v, c)
    ensures Since(v, c, kept, v)
  {
  }

  /** And it is so exactly then: with nothing else in the database, every snapshot from the smallest on reads as
      before if and only if no user key is brought back. */
  lemma InvisibleExactly(v0: seq<Level>, c: Compaction, outs: Level, w: seq<Level>, ss: nat)
    requires TreeOk(v0) && Chosen(v0, c) && Keeps(c, outs, DeeperLevels(v0, c), ss) && Compacted(v0, c, outs, w)
    ensures (forall s: nat :: ss <= s ==> View(VersionEntries(w), s) == View(VersionEntries(v0), s))
      <==> forall k :: !Revived(v0, c, ss, k)
  {
    hide TreeOk, Chosen, KeptOf, Resurrected, Compacted, Since, VersionEntries, View, Unique, EntriesOf;
    SinceStart(v0, c, {});
    TreeUnique(v0);
    InstalledEntries(v0, c, {}, v0, outs, w);
    var rest, inputs, deeper := Rest({}, v0, c), InputEntries(c), DeeperLevels(v0, c);
    var kept := KeptOf(inputs, deeper, ss);
    assert rest + inputs == VersionEntries(v0) && rest + kept == VersionEntries(w) && rest !! inputs;
    CompactionPreservesViews(rest, inputs, deeper, ss);
    assert forall k :: Revived(v0, c, ss, k) <==> Resurrected(rest, inputs, deeper, ss, k);
  }

  // ----- from the loop's outputs to files -----

  /** Cutting a sorted run into nonempty pieces gives sorted pieces, each before the next. */
  lemma {:induction false} PiecesInOrder(pieces: seq<seq<Entry>>)
    requires Sorted(Concat(pieces)) && NoneEmpty(pieces)
    ensures forall i :: 0 <= i < |pieces| ==> Sorted(pieces[i]) && forall x :: x in pieces[i] ==> x in Concat(pieces)
    ensures forall i, j :: 0 <= i < j < |pieces| ==> Less(pieces[i][|pieces[i]| - 1].key, pieces[j][0].key)
  {
    if pieces != [] {
      var n := |pieces| - 1;
      var init, last, all := pieces[..n], pieces[n], Concat(pieces);
      assert all == Concat(init) + last;
      assert Sorted(Concat(init)) by {
        assert forall i :: 0 <= i < |Concat(init)| ==> all[i] == Concat(init)[i];
      }
      assert Sorted(last) by {
        assert forall i :: 0 <= i < |last| ==> all[|Concat(init)| + i] == last[i];
      }
      PiecesInOrder(init);
      forall i | 0 <= i < n
        ensures Less(pieces[i][|pieces[i]| - 1].key, last[0].key)
      {
        assert pieces[i] == init[i];
        var x := init[i][|init[i]| - 1];
        assert x in init[i];
        var m :| 0 <= m < |Concat(init)| && Concat(init)[m] == x;
        assert all[m] == x && all[|Concat(init)|] == last[0];
      }
    }
  }

  lemma EntriesOfPieces(pieces: seq<seq<Entry>>, outs: Level)
    requires |outs| == |pieces| && forall i :: 0 <= i < |outs| ==> outs[i].entries == pieces[i]
    ensures EntriesOf(outs) == SetOf(Concat(pieces))
  {
    PiecesHoldAll(pieces);
    forall x
      ensures x in EntriesOf(outs) <==> x in Concat(pieces)
    {
      if x in Concat(pieces) {
        var i :| 0 <= i < |pieces| && x in pieces[i];
        assert outs[i] in outs;
      }
    }
  }

  lemma FilesOfPieces(pieces: seq<seq<Entry>>, outs: Level)
    requires Sorted(Concat(pieces)) && NoneEmpty(pieces)
    requires forall x :: x in Concat(pieces) ==> x.key.sn <= MAX_SEQUENCE
    requires |outs| == |pieces| && forall i :: 0 <= i < |outs| ==> outs[i].entries == pieces[i]
    ensures FilesOk(outs) && Disjoint(outs)
  {
    hide Sorted, Concat, Less;
    PiecesInOrder(pieces);
    forall i | 0 <= i < |outs|
      ensures outs[i].Ok()
    {
      assert forall j :: 0 <= j < |pieces[i]| ==> pieces[i][j] in pieces[i];
    }
  }

  /** The files written by the compaction loop over the merged inputs are fit to install. */
  lemma LoopOutputsInstallable(v0: seq<Level>, c: Compaction, input: seq<Entry>, ss: nat, pieces: seq<seq<Entry>>,
          outs: Level)
    requires ShapeOk(v0) && Chosen(v0, c) && Sorted(input) && SetOf(input) == InputEntries(c)
    requires Concat(pieces) == Kept(input, DeeperLevels(v0, c), ss, |input|) && NoneEmpty(pieces)
    requires |outs| == |pieces| && forall i :: 0 <= i < |outs| ==> outs[i].entries == pieces[i]
    ensures Made(c, outs) && Keeps(c, outs, DeeperLevels(v0, c), ss)
  {
    var deeper := DeeperLevels(v0, c);
    KeptSorted(input, deeper, ss, |input|);
    KeptIsKeptOf(input, deeper, ss);
    EntriesOfPieces(pieces, outs);
    forall x | x in EntriesOf(outs)
      ensures exists f :: f in Inputs(c) && x in f.entries
      ensures x.key.sn <= MAX_SEQUENCE
    {
      var f := InputHome(v0, c, x);
      assert f.Ok();
    }
    assert forall x :: x in Concat(pieces) ==> x in SetOf(Concat(pieces));
    FilesOfPieces(pieces, outs);
    forall o, x | o in outs && x in o.entries
      ensures x in EntriesOf(outs)
    {
    }
  }

  lemma {:induction false} PiecesHoldAll(pieces: seq<seq<Entry>>)
    ensures forall x :: x in Concat(pieces) <==> exists i :: 0 <= i < |pieces| && x in pieces[i]
  {
    if pieces != [] {
      var n := |pieces| - 1;
      PiecesHoldAll(pieces[..n]);
      forall x | x in Concat(pieces)
        ensures exists i :: 0 <= i < |pieces| && x in pieces[i]
      {
        if x in Concat(pieces[..n]) {
          var i :| 0 <= i < n && x in pieces[..n][i];
          assert x in pieces[i];
        } else {
          assert x in pieces[n];
        }
      }
      forall x, i | 0 <= i < |pieces| && x in pieces[i]
        ensures x in Concat(pieces)
      {
        assert i < n ==> x in pieces[..n][i];
      }
    }
  }

  // ----- where the code falls short -----

  function Put(user: UserKey, sn: nat): Entry {
    Entry(InternalKey(user, sn, Value), [])
  }

  function Del(user: UserKey, sn: nat): Entry {
    Entry(InternalKey(user, sn, Deletion), [])
  }

  // Two output-level files split user key 2.0: its deletion in the first, an older value in the second.

  const SPLIT_NEW := File(7, 1, [Put(1.0, 5)])
  const SPLIT_LEFT := File(5, 1, [Put(1.0, 3), Del(2.0, 4)])
  const SPLIT_RIGHT := File(6, 1, [Put(2.0, 1)])
  const SPLIT_OUTPUT := File(8, 1, [Put(1.0, 5)])
  const SPLIT_BEFORE: seq<Level> := [[], [SPLIT_NEW], [SPLIT_LEFT, SPLIT_RIGHT], [], [], [], []]
  const SPLIT_AFTER: seq<Level> := [[], [], [SPLIT_RIGHT, SPLIT_OUTPUT], [], [], [], []]
  const SPLIT_CHOICE := Compaction(1, [SPLIT_NEW], [SPLIT_LEFT], [])

  lemma SplitShape()
    ensures ShapeOk(SPLIT_BEFORE)
  {
  }

  lemma SplitTree()
    ensures TreeOk(SPLIT_BEFORE)
  {
    SplitShape();
    forall a, b, f, g | 0 <= a < b < NUM_LEVELS && f in SPLIT_BEFORE[a] && g in SPLIT_BEFORE[b]
      ensures NewerFile(f, g)
    {
      assert f == SPLIT_NEW && (g == SPLIT_LEFT || g == SPLIT_RIGHT);
    }
    LayeredByFiles(SPLIT_BEFORE);
  }

  lemma SplitChosen()
    ensures ShapeOk(SPLIT_BEFORE) && Chosen(SPLIT_BEFORE, SPLIT_CHOICE)
  {
    SplitShape();
    assert SPLIT_NEW.Ok() && SPLIT_LEFT.Ok();
    assert Touches(SPLIT_LEFT, At(1.0), At(1.0)) && SPLIT_NEW.Smallest().user == SPLIT_NEW.Largest().user == 1.0;
    assert MeetsHull(SPLIT_LEFT, [SPLIT_NEW]);
    assert !MeetsHull(SPLIT_RIGHT, [SPLIT_NEW]);
  }

  /** Nor do its inputs leave a gap. */
  lemma SplitNoGap()
    ensures FilesOk(Inputs(SPLIT_CHOICE)) && NoGap(Inputs(SPLIT_CHOICE))
  {
    assert SPLIT_NEW.Ok() && SPLIT_LEFT.Ok();
    assert Inputs(SPLIT_CHOICE) == [SPLIT_NEW, SPLIT_LEFT];
    forall x: UserKey | 1.0 <= x <= 2.0
      ensures HoldsKey(Inputs(SPLIT_CHOICE), x)
    {
      assert SPLIT_LEFT in Inputs(SPLIT_CHOICE);
    }
  }

  lemma SplitViews()
    ensures 2.0 !in View(VersionEntries(SPLIT_BEFORE), 10)
    ensures 2.0 in View(VersionEntries(SPLIT_AFTER), 10)
  {
    var before, after := VersionEntries(SPLIT_BEFORE), VersionEntries(SPLIT_AFTER);
    InVersion(SPLIT_BEFORE, 2, SPLIT_LEFT, Del(2.0, 4));
    InVersion(SPLIT_AFTER, 2, SPLIT_RIGHT, Put(2.0, 1));
    forall x | x in before
      ensures x in {Put(1.0, 5), Put(1.0, 3), Del(2.0, 4), Put(2.0, 1)}
    {
      var l, f := Home(SPLIT_BEFORE, x);
    }
    forall x | x in after
      ensures x in {Put(1.0, 5), Put(2.0, 1)}
    {
      var l, f := Home(SPLIT_AFTER, x);
    }
    assert Newest(after, 10, Put(2.0, 1));
    forall e | Newest(before, 10, e) && e.key.user == 2.0
      ensures e.key.kind == Deletion
    {
    }
  }

  lemma SplitKeeps()
    ensures ShapeOk(SPLIT_BEFORE)
    ensures Keeps(SPLIT_CHOICE, [SPLIT_OUTPUT], DeeperLevels(SPLIT_BEFORE, SPLIT_CHOICE), 10)
  {
    SplitShape();
    var inputs, deeper := InputEntries(SPLIT_CHOICE), DeeperLevels(SPLIT_BEFORE, SPLIT_CHOICE);
    assert Inputs(SPLIT_CHOICE) == [SPLIT_NEW, SPLIT_LEFT];
    assert forall f :: f in Inputs(SPLIT_CHOICE) <==> f == SPLIT_NEW || f == SPLIT_LEFT;
    assert Put(1.0, 5) in SPLIT_NEW.entries && Put(1.0, 3) in SPLIT_LEFT.entries && Del(2.0, 4) in SPLIT_LEFT.entries;
    assert inputs == {Put(1.0, 5), Put(1.0, 3), Del(2.0, 4)};
    forall k
      ensures !InDeeper(deeper, k)
    {
    }
    assert Hidden(inputs, 10, Put(1.0, 3));
    assert Obsolete(deeper, 10, Del(2.0, 4));
    assert !Hidden(inputs, 10, Put(1.0, 5));
    assert Put(1.0, 5) in SPLIT_OUTPUT.entries;
    assert EntriesOf([SPLIT_OUTPUT]) == {Put(1.0, 5)};
  }

  lemma SplitCompacted()
    ensures Compacted(SPLIT_BEFORE, SPLIT_CHOICE, [SPLIT_OUTPUT], SPLIT_AFTER)
  {
  }

  /** The fault is real: a choice the code makes, on a tree in order, brings a deleted user key back. */
  lemma SplitKeyResurrects()
    ensures TreeOk(SPLIT_BEFORE) && Chosen(SPLIT_BEFORE, SPLIT_CHOICE)
    ensures FilesOk(Inputs(SPLIT_CHOICE)) && NoGap(Inputs(SPLIT_CHOICE))
    ensures Keeps(SPLIT_CHOICE, [SPLIT_OUTPUT], DeeperLevels(SPLIT_BEFORE, SPLIT_CHOICE), 10)
    ensures Compacted(SPLIT_BEFORE, SPLIT_CHOICE, [SPLIT_OUTPUT], SPLIT_AFTER)
    ensures 2.0 !in View(VersionEntries(SPLIT_BEFORE), 10) && 2.0 in View(VersionEntries(SPLIT_AFTER), 10)
  {
    SplitTree();
    SplitChosen();
    SplitNoGap();
    SplitKeeps();
    SplitCompacted();
    SplitViews();
  }
}
