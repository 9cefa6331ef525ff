/** The compaction loop: which entries it drops, how it cuts its output files, and when that
    leaves every later read as it was. */
module CompactionWork {
  import opened Keys
  import opened Versions

  // ----- deeper levels -----

  /** Some file of the levels below the compaction's output level has `k` in its user-key range. */
  ghost predicate InDeeper(deeper: seq<Level>, k: UserKey) {
    exists l, i :: 0 <= l < |deeper| && 0 <= i < |deeper[l]| && HasInRange(deeper[l][i], k)
  }

  ghost predicate HasInRange(f: File, k: UserKey) {
    f.entries != [] && f.Smallest().user <= k <= f.Largest().user
  }

  ghost predicate DeeperOk(deeper: seq<Level>) {
    forall l :: 0 <= l < |deeper| ==> FilesOk(deeper[l]) && Disjoint(deeper[l])
  }

  // ----- the drop rules -----

  /** Rule (A): a newer entry of the same user key is already visible at the smallest snapshot. */
  ghost predicate Hidden(inputs: set<Entry>, ss: nat, e: Entry) {
    exists h :: h in inputs && h.key.user == e.key.user && Tag(h.key) > Tag(e.key) && h.key.sn <= ss
  }

  /** The tombstone rule: a deletion every reader sees, with no data in deeper levels. */
  ghost predicate Obsolete(deeper: seq<Level>, ss: nat, e: Entry) {
    e.key.kind == Deletion && e.key.sn <= ss && !InDeeper(deeper, e.key.user)
  }

  ghost predicate Drops(inputs: set<Entry>, deeper: seq<Level>, ss: nat, e: Entry) {
    Hidden(inputs, ss, e) || Obsolete(deeper, ss, e)
  }

  ghost function KeptOf(inputs: set<Entry>, deeper: seq<Level>, ss: nat): set<Entry> {
    set e | e in inputs && !Drops(inputs, deeper, ss, e)
  }

  /** The entries the loop passes on, in order. */
  ghost function Kept(input: seq<Entry>, deeper: seq<Level>, ss: nat, n: nat): (r: seq<Entry>)
    requires n <= |input|
    ensures forall e :: e in r <==> e in input[..n] && !Drops(SetOf(input), deeper, ss, e)
  {
    if n == 0 then []
    else
      assert input[..n] == input[..n - 1] + [input[n - 1]];
      Kept(input, deeper, ss, n - 1) + if Drops(SetOf(input), deeper, ss, input[n - 1]) then [] else [input[n - 1]]
  }

  lemma {:induction false} KeptSorted(input: seq<Entry>, deeper: seq<Level>, ss: nat, n: nat)
    requires Sorted(input) && n <= |input|
    ensures Sorted(Kept(input, deeper, ss, n))
  {
    if n > 0 {
      KeptSorted(input, deeper, ss, n - 1);
      var before := Kept(input, deeper, ss, n - 1);
      forall i | 0 <= i < |before|
        ensures Less(before[i].key, input[n - 1].key)
      {
        assert before[i] in input[..n - 1];
      }
    }
  }

  /** What a compaction has to keep: all that some snapshot may still tell apart, and of the rest the newest entry of a
      user key if it is a value, or a tombstone that may cover something in a deeper file. */
  ghost predicate Needed(inputs: set<Entry>, deeper: seq<Level>, ss: nat, e: Entry) {
    || e.key.sn > ss
    || (Newest(inputs, ss, e) && (e.key.kind == Value || exists l, f :: Spans(deeper, l, f, e.key.user)))
  }

  /** File `f` is in one of the deeper levels and has `k` between its ends. */
  ghost predicate Spans(deeper: seq<Level>, l: int, f: File, k: UserKey) {
    0 <= l < |deeper| && f in deeper[l] && f.entries != [] && f.Smallest().user <= k <= f.Largest().user
  }

  lemma SpansInDeeper(deeper: seq<Level>, k: UserKey)
    ensures InDeeper(deeper, k) <==> exists l, f :: Spans(deeper, l, f, k)
  {
    if l, f :| Spans(deeper, l, f, k) {
      var i :| 0 <= i < |deeper[l]| && deeper[l][i] == f;
      assert HasInRange(deeper[l][i], k);
    }
    if InDeeper(deeper, k) {
      var l, i :| 0 <= l < |deeper| && 0 <= i < |deeper[l]| && HasInRange(deeper[l][i], k);
      assert Spans(deeper, l, deeper[l][i], k);
    }
  }

  /** The two rules together drop exactly what is not needed. */
  lemma DropsUnneeded(inputs: set<Entry>, deeper: seq<Level>, ss: nat, e: Entry)
    requires e in inputs
    ensures Drops(inputs, deeper, ss, e) <==> !Needed(inputs, deeper, ss, e)
  {
    SpansInDeeper(deeper, e.key.user);
    if e.key.sn <= ss && !Hidden(inputs, ss, e) {
      assert Newest(inputs, ss, e);
    }
  }

  /** A tombstone every reader sees is kept only over a deeper file that may have its user key. */
  lemma KeptTombstone(input: seq<Entry>, deeper: seq<Level>, ss: nat, e: Entry)
    requires e in Kept(input, deeper, ss, |input|) && e.key.kind == Deletion && e.key.sn <= ss
    ensures Newest(SetOf(input), ss, e)
    ensures exists l, f ::
      0 <= l < |deeper| && f in deeper[l] && f.entries != [] && f.Smallest().user <= e.key.user <= f.Largest().user
  {
    assert input[..|input|] == input;
    DropsUnneeded(SetOf(input), deeper, ss, e);
    var l, f :| Spans(deeper, l, f, e.key.user);
  }

  /** Where nothing lies deeper and every reader sees all the inputs, what is kept is the visible map itself: one
      value for every user key that reads as something, in order, and not a single tombstone. */
  lemma KeptIsView(input: seq<Entry>, deeper: seq<Level>, ss: nat, k: UserKey, v: Bytes)
    requires Sorted(input) && forall e :: e in input ==> e.key.sn <= ss
    requires forall e, l, f :: e in input && 0 <= l < |deeper| && f in deeper[l] && f.entries != [] ==>
      e.key.user < f.Smallest().user || f.Largest().user < e.key.user
    ensures var out := Kept(input, deeper, ss, |input|);
      && (forall i, j :: 0 <= i < j < |out| ==> out[i].key.user < out[j].key.user)
      && (forall e :: e in out ==> e.key.kind == Value)
      && ((exists e :: e in out && e.key.user == k && e.value == v)
        <==> (k in View(SetOf(input), ss) && View(SetOf(input), ss)[k] == v))
  {
    var out, all := Kept(input, deeper, ss, |input|), SetOf(input);
    assert input[..|input|] == input;
    SortedIsUnique(input);
    ViewShows(all, ss, k, v);
    KeptSorted(input, deeper, ss, |input|);
    forall e | e in input
      ensures e in out <==> Newest(all, ss, e) && e.key.kind == Value
    {
      DropsUnneeded(all, deeper, ss, e);
    }
    forall i, j | 0 <= i < j < |out|
      ensures out[i].key.user < out[j].key.user
    {
      assert out[i] in out && out[j] in out && Less(out[i].key, out[j].key);
    }
  }

  lemma SortedIsUnique(input: seq<Entry>)
    requires Sorted(input)
    ensures Unique(SetOf(input))
  {
  }

  function Concat(files: seq<seq<Entry>>): seq<Entry> {
    if files == [] then [] else Concat(files[..|files| - 1]) + files[|files| - 1]
  }

  ghost predicate NoneEmpty(files: seq<seq<Entry>>) {
    forall i :: 0 <= i < |files| ==> files[i] != []
  }

  /** Add an entry to the open output file, or to a new one. */
  method AddToOutput(files: seq<seq<Entry>>, open: bool, e: Entry) returns (r: seq<seq<Entry>>)
    requires open ==> files != []
    requires NoneEmpty(files)
    ensures NoneEmpty(r) && r != [] && Concat(r) == Concat(files) + [e]
  {
    if !open {
      r := files + [[e]];
      assert r[..|files|] == files;
    } else {
      var last := |files| - 1;
      r := files[last := files[last] + [e]];
      assert r[..last] == files[..last];
      assert Concat(r) == Concat(files[..last]) + (files[last] + [e]);
    }
  }

  // ----- the loop -----

  /** The mutable part of a compaction. */
  class Cursor {
    const deeper: seq<Level>
    const grandparents: Level
    const maxOverlap: nat
    var levelPtrs: array<nat>
    var grandparentIndex: nat
    var seenKey: bool
    var overlappedBytes: nat

    ghost predicate Ok()
      reads this, levelPtrs
    {
      && DeeperOk(deeper) && FilesOk(grandparents)
      && levelPtrs.Length == |deeper|
      && (forall l :: 0 <= l < |deeper| ==> levelPtrs[l] <= |deeper[l]|)
      && grandparentIndex <= |grandparents|
    }

    /** Every file the cursors have passed ends before `k`. */
    ghost predicate PassedBefore(k: UserKey)
      requires Ok()
      reads this, levelPtrs
    {
      forall l, i :: 0 <= l < |deeper| && 0 <= i < levelPtrs[l] ==> deeper[l][i].Largest().user < k
    }

    constructor (deeper: seq<Level>, grandparents: Level, maxOverlap: nat)
      requires DeeperOk(deeper) && FilesOk(grandparents)
      ensures Ok() && fresh(levelPtrs) && forall k :: PassedBefore(k)
      ensures this.deeper == deeper && this.grandparents == grandparents
    {
      this.deeper := deeper;
      this.grandparents := grandparents;
      this.maxOverlap := maxOverlap;
      levelPtrs := new nat[|deeper|](_ => 0);
      grandparentIndex := 0;
      seenKey := false;
      overlappedBytes := 0;
    }

    /** IsBaseLevelForKey: asked for keys in ascending order, the cursors only move forward. */
    method IsBaseLevelForKey(k: UserKey) returns (base: bool)
      requires Ok() && PassedBefore(k)
      modifies levelPtrs
      ensures Ok() && PassedBefore(k)
      ensures base <==> !InDeeper(deeper, k)
    {
      for l := 0 to |deeper|
        invariant Ok() && PassedBefore(k)
        invariant forall m, i :: 0 <= m < l && 0 <= i < |deeper[m]| ==> !HasInRange(deeper[m][i], k)
      {
        var files := deeper[l];
        while levelPtrs[l] < |files|
          invariant Ok() && PassedBefore(k)
          decreases |files| - levelPtrs[l]
        {
          var f := files[levelPtrs[l]];
          if k <= f.Largest().user {
            if k >= f.Smallest().user {
              assert HasInRange(deeper[l][levelPtrs[l]], k);
              return false;
            }
            break;
          }
          levelPtrs[l] := levelPtrs[l] + 1;
        }
        NoneInRange(files, levelPtrs[l], k);
      }
      base := true;
    }

    /** The two drop rules, given the sequence number of the previous entry of the user key. */
    method ShouldDrop(e: Entry, lastSequenceForKey: nat, ss: nat, ghost inputs: set<Entry>) returns (drop: bool)
      requires Ok() && PassedBefore(e.key.user) && e in inputs
      requires lastSequenceForKey <= ss <==> Hidden(inputs, ss, e)
      modifies levelPtrs
      ensures Ok() && PassedBefore(e.key.user)
      ensures drop <==> Drops(inputs, deeper, ss, e)
      ensures drop <==> !Needed(inputs, deeper, ss, e)
    {
      DropsUnneeded(inputs, deeper, ss, e);
      drop := false;
      if lastSequenceForKey <= ss {
        drop := true;
      } else if e.key.kind == Deletion && e.key.sn <= ss {
        drop := IsBaseLevelForKey(e.key.user);
      }
    }

    /** ShouldStopBefore: true when the current output overlaps too many grandparent bytes. */
    method ShouldStopBefore(key: InternalKey) returns (stop: bool)
      requires Ok()
      modifies this`grandparentIndex, this`overlappedBytes, this`seenKey
      ensures Ok() && forall k :: PassedBefore(k) <==> old(PassedBefore(k))
    {
      while grandparentIndex < |grandparents| && Less(grandparents[grandparentIndex].Largest(), key)
        invariant Ok()
        decreases |grandparents| - grandparentIndex
      {
        if seenKey {
          overlappedBytes := overlappedBytes + grandparents[grandparentIndex].size;
        }
        grandparentIndex := grandparentIndex + 1;
      }
      seenKey := true;
      if overlappedBytes > maxOverlap {
        overlappedBytes := 0;
        stop := true;
      } else {
        stop := false;
      }
    }
  }

  /** Where the cursor of a level stops, no file of the level holds the key in its range. */
  lemma NoneInRange(files: Level, p: nat, k: UserKey)
    requires FilesOk(files) && Disjoint(files) && p <= |files|
    requires forall i :: 0 <= i < p ==> files[i].Largest().user < k
    requires p < |files| ==> k < files[p].Smallest().user
    ensures forall i :: 0 <= i < |files| ==> !HasInRange(files[i], k)
  {
    forall i | p < i < |files|
      ensures k < files[i].Smallest().user
    {
      assert files[p].Ok();
      InRange(files[p], files[p].entries[|files[p].entries| - 1]);
    }
  }

  /** DoCompactionWork, over the merged inputs. `full` says after which entries the output file is
      big enough to close. The outputs hold exactly the kept entries, in order, and none is empty. */
  method DoCompactionWork(input: seq<Entry>, run: Cursor, ss: nat, full: seq<bool>) returns (outputs: seq<seq<Entry>>)
    requires Sorted(input) && |full| == |input| && run.Ok() && ss < MAX_SEQUENCE
    requires forall k :: run.PassedBefore(k)
    requires forall i :: 0 <= i < |input| ==> input[i].key.sn <= MAX_SEQUENCE
    modifies run, run.levelPtrs
    ensures Concat(outputs) == Kept(input, run.deeper, ss, |input|)
    ensures Sorted(Concat(outputs)) && NoneEmpty(outputs)
    ensures forall e :: e in Concat(outputs) <==> e in input && Needed(SetOf(input), run.deeper, ss, e)
  {
    outputs := [];
    var building := false;  // whether the last output is still open
    var hasCurrentUserKey, currentUserKey := false, 0.0;
    var lastSequenceForKey := MAX_SEQUENCE;
    ghost var ptrs, deeper := run.levelPtrs, run.deeper;
    var i := 0;
    while i < |input|
      invariant 0 <= i <= |input| && run.Ok() && run.levelPtrs == ptrs
      invariant i < |input| ==> run.PassedBefore(input[i].key.user)
      invariant hasCurrentUserKey <==> i > 0
      invariant i > 0 ==> currentUserKey == input[i - 1].key.user && lastSequenceForKey == input[i - 1].key.sn
      invariant building ==> outputs != []
      invariant NoneEmpty(outputs)
      invariant Concat(outputs) == Kept(input, deeper, ss, i)
    {
      var e := input[i];
      var stop := run.ShouldStopBefore(e.key);
      if stop && building {
        building := false;
      }
      if !hasCurrentUserKey || e.key.user != currentUserKey {
        currentUserKey := e.key.user;
        hasCurrentUserKey := true;
        lastSequenceForKey := MAX_SEQUENCE;
      }
      HiddenByLast(input, ss, i);
      var drop := run.ShouldDrop(e, lastSequenceForKey, ss, SetOf(input));
      lastSequenceForKey := e.key.sn;
      if !drop {
        outputs := AddToOutput(outputs, building, e);
        building := !full[i];
      }
      NextUser(input, i);
      i := i + 1;
    }
    LoopKeeps(input, deeper, ss);
  }

  lemma LoopKeeps(input: seq<Entry>, deeper: seq<Level>, ss: nat)
    requires Sorted(input)
    ensures Sorted(Kept(input, deeper, ss, |input|))
    ensures forall e ::
      e in Kept(input, deeper, ss, |input|) <==> e in input && Needed(SetOf(input), deeper, ss, e)
  {
    KeptSorted(input, deeper, ss, |input|);
    assert input[..|input|] == input;
    forall e | e in input
      ensures e in Kept(input, deeper, ss, |input|) <==> Needed(SetOf(input), deeper, ss, e)
    {
      DropsUnneeded(SetOf(input), deeper, ss, e);
    }
  }

  /** All the entries the loop passes on are all the entries the rules keep. */
  lemma KeptIsKeptOf(input: seq<Entry>, deeper: seq<Level>, ss: nat)
    ensures SetOf(Kept(input, deeper, ss, |input|)) == KeptOf(SetOf(input), deeper, ss)
  {
    assert input[..|input|] == input;
  }

  lemma NextUser(input: seq<Entry>, i: nat)
    requires Sorted(input) && i < |input|
    ensures i + 1 < |input| ==> input[i].key.user <= input[i + 1].key.user
  {
  }

  /** The entry just before decides whether a newer entry of the user key is visible at `ss`. */
  lemma HiddenByLast(input: seq<Entry>, ss: nat, i: nat)
    requires Sorted(input) && i < |input|
    ensures Hidden(SetOf(input), ss, input[i]) <==>
      i > 0 && input[i - 1].key.user == input[i].key.user && input[i - 1].key.sn <= ss
  {
    if i > 0 && input[i - 1].key.user == input[i].key.user && input[i - 1].key.sn <= ss {
      assert Less(input[i - 1].key, input[i].key) && input[i - 1] in SetOf(input);
    }
    if Hidden(SetOf(input), ss, input[i]) {
      var h :| h in SetOf(input) && h.key.user == input[i].key.user && Tag(h.key) > Tag(input[i].key) && h.key.sn <= ss;
      var j :| 0 <= j < |input| && input[j] == h;
      assert j < i;
      assert j < i - 1 ==> Less(input[j].key, input[i - 1].key) && Less(input[i - 1].key, input[i].key);
    }
  }

  // ----- what the drops do to reads -----

  /** A user key the drops would bring back: its newest entry is an obsolete tombstone of the inputs, and
      the newest entry outside the inputs is a value. */
  ghost predicate Resurrected(rest: set<Entry>, inputs: set<Entry>, deeper: seq<Level>, ss: nat, k: UserKey) {
    exists e, o ::
      && e in inputs && Newest(rest + inputs, ss, e) && e.key.user == k && Obsolete(deeper, ss, e)
      && Newest(rest, ss, o) && o.key.user == k && o.key.kind == Value
  }

  /** Entries outside the inputs, and kept entries, answer as before. */
  lemma NewestSurvives(rest: set<Entry>, inputs: set<Entry>, deeper: seq<Level>, ss: nat, s: nat, e: Entry)
    requires Newest(rest + inputs, s, e) && ss <= s
    ensures e in rest + KeptOf(inputs, deeper, ss) ==> Newest(rest + KeptOf(inputs, deeper, ss), s, e)
    ensures e !in rest + KeptOf(inputs, deeper, ss) ==> Obsolete(deeper, ss, e)
  {
    assert KeptOf(inputs, deeper, ss) <= inputs;
    forall h | h in inputs && h.key.user == e.key.user && h.key.sn <= ss
      ensures Tag(h.key) <= Tag(e.key)
    {
      assert h in rest + inputs;
    }
  }

  /** Under a dropped tombstone nothing older of the inputs shows. */
  lemma UnderTombstone(rest: set<Entry>, inputs: set<Entry>, deeper: seq<Level>, ss: nat, s: nat, e: Entry, o: Entry)
    requires Newest(rest + inputs, s, e) && ss <= s && e in inputs && e.key.sn <= ss
    requires e !in rest + KeptOf(inputs, deeper, ss)
    requires o.key.user == e.key.user
    ensures Newest(rest + KeptOf(inputs, deeper, ss), s, o) <==> Newest(rest, s, o)
  {
    var after := rest + KeptOf(inputs, deeper, ss);
    forall x | x in after && x.key.user == e.key.user && x.key.sn <= s
      ensures x in rest
    {
      SameTagOrLess(x, e);
    }
  }

  lemma SameTagOrLess(x: Entry, e: Entry)
    requires x.key.user == e.key.user
    ensures x.key == e.key || Tag(x.key) != Tag(e.key)
  {
  }

  lemma {:induction false} NewestExists(es: set<Entry>, s: nat, k: UserKey) returns (e: Entry)
    requires Sees(es, s, k)
    ensures Newest(es, s, e) && e.key.user == k
  {
    var o :| o in es && o.key.user == k && o.key.sn <= s;
    var others := es - {o};
    if Sees(others, s, k) {
      var m := NewestExists(others, s, k);
      e := if Tag(o.key) > Tag(m.key) then o else m;
      forall x | x in es && x.key.user == k && x.key.sn <= s
        ensures Tag(x.key) <= Tag(e.key)
      {
        assert x == o || x in others;
      }
    } else {
      e := o;
      forall x | x in es && x.key.user == k && x.key.sn <= s
        ensures x == o
      {
        assert x == o || x in others;
      }
    }
  }

  lemma SameReads(a: set<Entry>, b: set<Entry>, s: nat)
    requires Unique(a) && Unique(b)
    requires forall k, v :: Shows(a, s, k, v) <==> Shows(b, s, k, v)
    ensures View(a, s) == View(b, s)
  {
    ReadsWithin(a, b, s);
    ReadsWithin(b, a, s);
    var m, n := View(a, s), View(b, s);
    assert m.Keys == n.Keys;
  }

  lemma ReadsWithin(a: set<Entry>, b: set<Entry>, s: nat)
    requires Unique(a) && Unique(b)
    requires forall k, v :: Shows(a, s, k, v) ==> Shows(b, s, k, v)
    ensures forall k :: k in View(a, s) ==> k in View(b, s) && View(b, s)[k] == View(a, s)[k]
  {
    forall k | k in View(a, s)
      ensures k in View(b, s) && View(b, s)[k] == View(a, s)[k]
    {
      ViewShows(a, s, k, View(a, s)[k]);
      ViewShows(b, s, k, View(a, s)[k]);
    }
  }

  /** What shows after the drops showed before, unless it was resurrected; and nothing that showed is lost. */
  lemma ShowsAfter(rest: set<Entry>, inputs: set<Entry>, deeper: seq<Level>, ss: nat, s: nat, k: UserKey, v: Bytes)
    requires Unique(rest + inputs) && ss <= s
    ensures Shows(rest + inputs, s, k, v) ==> Shows(rest + KeptOf(inputs, deeper, ss), s, k, v)
    ensures Shows(rest + KeptOf(inputs, deeper, ss), s, k, v) ==>
      Shows(rest + inputs, s, k, v) || Resurrected(rest, inputs, deeper, ss, k)
  {
    var before, after := rest + inputs, rest + KeptOf(inputs, deeper, ss);
    if Shows(before, s, k, v) {
      var e :| Newest(before, s, e) && e.key.user == k && e.key.kind == Value && e.value == v;
      NewestSurvives(rest, inputs, deeper, ss, s, e);
    }
    if Shows(after, s, k, v) {
      var n :| Newest(after, s, n) && n.key.user == k && n.key.kind == Value && n.value == v;
      assert n in before;
      var e := NewestExists(before, s, k);
      NewestSurvives(rest, inputs, deeper, ss, s, e);
      if e in after {
        SameTag(e.key, n.key);
      } else {
        UnderTombstone(rest, inputs, deeper, ss, s, e, n);
        assert Newest(before, ss, e) && Newest(rest, ss, n);
      }
    }
  }

  /** Replacing the inputs of a compaction by what its loop keeps leaves every snapshot from the
      smallest on as it was, exactly when no user key is resurrected. */
  lemma CompactionPreservesViews(rest: set<Entry>, inputs: set<Entry>, deeper: seq<Level>, ss: nat)
    requires Unique(rest + inputs) && rest !! inputs
    ensures (forall s: nat :: ss <= s ==> View(rest + KeptOf(inputs, deeper, ss), s) == View(rest + inputs, s))
      <==> !exists k :: Resurrected(rest, inputs, deeper, ss, k)
  {
    var before, after := rest + inputs, rest + KeptOf(inputs, deeper, ss);
    if k :| Resurrected(rest, inputs, deeper, ss, k) {
      var e, o :| e in inputs && Newest(before, ss, e) && e.key.user == k && Obsolete(deeper, ss, e)
        && Newest(rest, ss, o) && o.key.user == k && o.key.kind == Value;
      UnderTombstone(rest, inputs, deeper, ss, ss, e, o);
      assert Shows(after, ss, k, o.value);
      forall v
        ensures !Shows(before, ss, k, v)
      {
        if Shows(before, ss, k, v) {
          var f :| Newest(before, ss, f) && f.key.user == k && f.key.kind == Value && f.value == v;
          SameTag(e.key, f.key);
        }
      }
      ViewShows(after, ss, k, o.value);
      ViewShows(before, ss, k, o.value);
      assert View(after, ss) != View(before, ss);
    } else {
      forall s: nat | ss <= s
        ensures View(after, s) == View(before, s)
      {
        forall k, v
          ensures Shows(after, s, k, v) <==> Shows(before, s, k, v)
        {
          ShowsAfter(rest, inputs, deeper, ss, s, k, v);
        }
        SameReads(after, before, s);
      }
    }
  }
}
