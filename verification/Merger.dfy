/** The merging iterator: children walked together in key order, in both directions. */
module Merger {
  import opened Keys
  import opened Cursors

  // ----- what is merged -----

  /** `merged` lists the entries of all runs in key order, and no key occurs in two runs. */
  ghost predicate IsMerge(runs: seq<seq<Entry>>, merged: seq<Entry>) {
    && Sorted(merged)
    && (forall i :: 0 <= i < |runs| ==> Sorted(runs[i]))
    && (forall e :: e in merged <==> exists i :: 0 <= i < |runs| && e in runs[i])
    && forall i, j, p, q :: 0 <= i < j < |runs| && 0 <= p < |runs[i]| && 0 <= q < |runs[j]| ==>
         runs[i][p].key != runs[j][q].key
  }

  /** The first `n` entries of a run lie below position `b` of the merged list, the others at or above it. */
  ghost predicate SplitsAt(run: seq<Entry>, n: nat, merged: seq<Entry>, b: nat) {
    && n <= |run| && b <= |merged|
    && (forall j :: 0 <= j < n ==> run[j] in merged[..b])
    && forall j :: n <= j < |run| ==> run[j] in merged[b..]
  }

  /** Where a key falls in a run decides where it falls in the merged list. */
  lemma SplitByKey(run: seq<Entry>, n: nat, merged: seq<Entry>, b: nat, target: InternalKey)
    requires n <= |run| && b <= |merged| && forall e :: e in run ==> e in merged
    requires forall j :: 0 <= j < n ==> Less(run[j].key, target)
    requires forall j :: n <= j < |run| ==> AtMost(target, run[j].key)
    requires forall j :: 0 <= j < b ==> Less(merged[j].key, target)
    requires forall j :: b <= j < |merged| ==> AtMost(target, merged[j].key)
    ensures SplitsAt(run, n, merged, b)
  {
    forall j | 0 <= j < |run|
      ensures if j < n then run[j] in merged[..b] else run[j] in merged[b..]
    {
      assert run[j] in run;
      var m :| 0 <= m < |merged| && merged[m] == run[j];
      assert j < n ==> merged[..b][m] == run[j];
      assert j >= n ==> merged[b..][m - b] == run[j];
    }
  }

  /** Some run holds entry `m` of the merged list, on the side of the split where `m` lies. */
  lemma Holder(runs: seq<seq<Entry>>, merged: seq<Entry>, ns: seq<nat>, b: nat, m: nat) returns (i: nat, j: nat)
    requires IsMerge(runs, merged) && |ns| == |runs| && b <= |merged| && m < |merged|
    requires forall i :: 0 <= i < |runs| ==> SplitsAt(runs[i], ns[i], merged, b)
    ensures i < |runs| && j < |runs[i]| && runs[i][j] == merged[m] && ns[i] <= |runs[i]|
    ensures j < ns[i] <==> m < b
  {
    assert merged[m] in merged;
    i :| 0 <= i < |runs| && merged[m] in runs[i];
    j :| 0 <= j < |runs[i]| && runs[i][j] == merged[m];
    assert SplitsAt(runs[i], ns[i], merged, b);
    if j < ns[i] {
      var p :| 0 <= p < b && merged[..b][p] == runs[i][j];
      assert merged[p] == merged[m];
    } else {
      var p :| 0 <= p < |merged| - b && merged[b..][p] == runs[i][j];
      assert merged[b + p] == merged[m];
    }
  }

  /** When every run is split at `b`, the least of the heads is entry `b` of the merged list. */
  lemma LeastHead(runs: seq<seq<Entry>>, merged: seq<Entry>, ns: seq<nat>, b: nat, c: int)
    requires IsMerge(runs, merged) && |ns| == |runs| && b <= |merged|
    requires forall i :: 0 <= i < |runs| ==> SplitsAt(runs[i], ns[i], merged, b)
    requires -1 <= c < |runs| && (c >= 0 ==> ns[c] < |runs[c]|)
    requires forall i :: 0 <= i < |runs| && ns[i] < |runs[i]| ==>
      c >= 0 && AtMost(runs[c][ns[c]].key, runs[i][ns[i]].key)
    ensures c < 0 <==> b == |merged|
    ensures c >= 0 ==> runs[c][ns[c]] == merged[b]
  {
    if c >= 0 {
      assert SplitsAt(runs[c], ns[c], merged, b);
      assert runs[c][ns[c]] in merged[b..];
      var m :| 0 <= m < |merged| - b && merged[b..][m] == runs[c][ns[c]];
      var i, j := Holder(runs, merged, ns, b, b);
      assert Sorted(runs[i]) && AtMost(runs[i][ns[i]].key, merged[b].key);
    } else if b < |merged| {
      var i, j := Holder(runs, merged, ns, b, b);
    }
  }

  /** When every run is split at `b`, the greatest of the entries just below is entry `b - 1`. */
  lemma GreatestTail(runs: seq<seq<Entry>>, merged: seq<Entry>, ns: seq<nat>, b: nat, c: int)
    requires IsMerge(runs, merged) && |ns| == |runs| && b <= |merged|
    requires forall i :: 0 <= i < |runs| ==> SplitsAt(runs[i], ns[i], merged, b)
    requires -1 <= c < |runs| && (c >= 0 ==> 0 < ns[c] <= |runs[c]|)
    requires forall i :: 0 <= i < |runs| && 0 < ns[i] <= |runs[i]| ==>
      c >= 0 && AtMost(runs[i][ns[i] - 1].key, runs[c][ns[c] - 1].key)
    ensures c < 0 <==> b == 0
    ensures c >= 0 ==> b > 0 && runs[c][ns[c] - 1] == merged[b - 1]
  {
    if c >= 0 {
      assert SplitsAt(runs[c], ns[c], merged, b);
      assert runs[c][ns[c] - 1] in merged[..b];
      var m :| 0 <= m < b && merged[..b][m] == runs[c][ns[c] - 1];
      var i, j := Holder(runs, merged, ns, b, b - 1);
      assert Sorted(runs[i]) && AtMost(merged[b - 1].key, runs[i][ns[i] - 1].key);
    } else if b > 0 {
      var i, j := Holder(runs, merged, ns, b, b - 1);
    }
  }

  // ----- the iterator -----

  datatype Direction = Forward | Reverse

  class MergingIterator {
    const children: seq<InternalIterator>
    ghost const merged: seq<Entry>
    var current: int  // index of the current child, -1 for none
    var direction: Direction
    ghost var at: nat  // position in `merged`

    ghost function Runs(): seq<seq<Entry>> {
      seq(|children|, i requires 0 <= i < |children| => children[i].entries)
    }

    /** How many entries of a child lie at or before its position, an invalid one counting as before all. */
    ghost function Upto(c: InternalIterator): nat
      reads c
    {
      if c.pos < |c.entries| then c.pos + 1 else 0
    }

    ghost predicate Basic()
      reads children
    {
      && (forall i :: 0 <= i < |children| ==> children[i].Ok())
      && (forall i, j :: 0 <= i < j < |children| ==> children[i] != children[j])
      && IsMerge(Runs(), merged)
    }

    /** Every child other than the current one stands on its first entry after the current key when
        moving forward, and on its last entry before the current key when moving backward. */
    ghost predicate Ok()
      reads this, children
    {
      && Basic()
      && -1 <= current < |children|
      && (current < 0 ==> at == |merged|)
      && (current >= 0 ==>
            && at < |merged| && children[current].Valid()
            && children[current].entries[children[current].pos] == merged[at]
            && forall i :: 0 <= i < |children| ==>
                 if direction == Forward then SplitsAt(children[i].entries, children[i].pos, merged, at)
                 else SplitsAt(children[i].entries, Upto(children[i]), merged, at + 1))
    }

    predicate Valid()
      reads this
    {
      current >= 0
    }

    /** key() and value() */
    function Current(): Entry
      reads this, children
      requires Ok() && Valid()
      ensures Current() == merged[at]
    {
      children[current].entries[children[current].pos]
    }

    constructor (children: seq<InternalIterator>, ghost merged: seq<Entry>)
      requires forall i :: 0 <= i < |children| ==> children[i].Ok()
      requires forall i, j :: 0 <= i < j < |children| ==> children[i] != children[j]
      requires IsMerge(seq(|children|, i requires 0 <= i < |children| => children[i].entries), merged)
      ensures Ok() && !Valid() && this.children == children && this.merged == merged
    {
      this.children := children;
      this.merged := merged;
      current := -1;
      direction := Forward;
      at := |merged|;
    }

    method FindSmallest(ghost b: nat)
      requires Basic() && b <= |merged|
      requires forall i :: 0 <= i < |children| ==> SplitsAt(children[i].entries, children[i].pos, merged, b)
      modifies this
      ensures Basic() && -1 <= current < |children| && at == b && direction == old(direction)
      ensures direction == Forward ==> Ok()
      ensures Valid() <==> b < |merged|
    {
      var smallest := -1;
      for i := 0 to |children|
        invariant -1 <= smallest < i
        invariant smallest >= 0 ==> children[smallest].Valid()
        invariant forall j :: 0 <= j < i && children[j].Valid() ==>
          smallest >= 0 && AtMost(children[smallest].Key(), children[j].Key())
      {
        var child := children[i];
        if child.Valid() {
          if smallest < 0 {
            smallest := i;
          } else if Less(child.Key(), children[smallest].Key()) {
            smallest := i;
          }
        }
      }
      current := smallest;
      at := b;
      LeastHead(Runs(), merged, seq(|children|, i requires 0 <= i < |children| reads children => children[i].pos), b,
        current);
    }

    method FindLargest(ghost b: nat)
      requires Basic() && b <= |merged|
      requires forall i :: 0 <= i < |children| ==> SplitsAt(children[i].entries, Upto(children[i]), merged, b)
      modifies this
      ensures Basic() && -1 <= current < |children| && direction == old(direction)
      ensures at == if b == 0 then |merged| else b - 1
      ensures direction == Reverse ==> Ok()
      ensures Valid() <==> b > 0
    {
      hide Sorted, Tag, SplitsAt;
      var largest := -1;
      var i := |children| - 1;
      while i >= 0
        invariant -1 <= i < |children| && -1 <= largest < |children| && (largest >= 0 ==> i < largest)
        invariant largest >= 0 ==> children[largest].Valid()
        invariant forall j :: i < j < |children| && children[j].Valid() ==>
          largest >= 0 && AtMost(children[j].Key(), children[largest].Key())
      {
        var child := children[i];
        if child.Valid() {
          if largest < 0 {
            largest := i;
          } else if Less(children[largest].Key(), child.Key()) {
            largest := i;
          }
        }
        i := i - 1;
      }
      current := largest;
      at := if b == 0 then |merged| else b - 1;
      GreatestTail(Runs(), merged, seq(|children|,
        i requires 0 <= i < |children| reads children => Upto(children[i])), b, current);
    }

    method SeekToFirst()
      requires Ok()
      modifies this, children
      ensures Ok() && at == 0 && (Valid() <==> at < |merged|)
    {
      for i := 0 to |children|
        invariant Basic()
        invariant forall j :: 0 <= j < i ==> children[j].pos == 0
      {
        children[i].SeekToFirst();
      }
      forall i | 0 <= i < |children|
        ensures SplitsAt(children[i].entries, 0, merged, 0)
      {
        assert Runs()[i] == children[i].entries && merged[0..] == merged;
      }
      direction := Forward;
      FindSmallest(0);
    }

    method SeekToLast()
      requires Ok()
      modifies this, children
      ensures Ok() && (Valid() <==> merged != []) && (Valid() ==> at == |merged| - 1)
    {
      for i := 0 to |children|
        invariant Basic()
        invariant forall j :: 0 <= j < i ==> Upto(children[j]) == |children[j].entries|
      {
        children[i].SeekToLast();
      }
      forall i | 0 <= i < |children|
        ensures SplitsAt(children[i].entries, |children[i].entries|, merged, |merged|)
      {
        assert Runs()[i] == children[i].entries && merged[..|merged|] == merged;
      }
      direction := Reverse;
      FindLargest(|merged|);
    }

    /** Lands on the first merged entry at or after `target`. */
    method Seek(target: InternalKey)
      requires Ok()
      modifies this, children
      ensures Ok() && at <= |merged| && (Valid() <==> at < |merged|)
      ensures forall j :: 0 <= j < at ==> Less(merged[j].key, target)
      ensures forall j :: at <= j < |merged| ==> AtMost(target, merged[j].key)
    {
      ghost var b := LowerBound(merged, target);
      for i := 0 to |children|
        invariant Basic()
        invariant forall j :: 0 <= j < i ==> SplitsAt(children[j].entries, children[j].pos, merged, b)
      {
        children[i].Seek(target);
        assert Runs()[i] == children[i].entries;
        SplitByKey(children[i].entries, children[i].pos, merged, b, target);
      }
      direction := Forward;
      FindSmallest(b);
    }

    method Next()
      requires Ok() && Valid()
      modifies this, children
      ensures Ok() && at == old(at) + 1 && (Valid() <==> at < |merged|)
    {
      hide SplitsAt;
      ghost var b := at;
      var key := Current().key;
      if direction != Forward {
        for i := 0 to |children|
          invariant Basic() && 0 <= current < |children| && current == old(current) && at == b
          invariant children[current].pos == old(children[current].pos)
          invariant forall j :: 0 <= j < i && j != current ==>
            SplitsAt(children[j].entries, children[j].pos, merged, b + 1)
        {
          if i != current {
            var child := children[i];
            child.Seek(key);
            assert Runs()[i] == child.entries && Runs()[current] == children[current].entries;
            SplitByKey(child.entries, child.pos, merged, b, key);
            NotAtBoundary(child.entries, child.pos, merged, b);
            if child.Valid() && key == child.Key() {
              assert false;  // keys are distinct, so there is nothing to step over
            }
          }
        }
        direction := Forward;
      } else {
        forall i | 0 <= i < |children| && i != current
          ensures SplitsAt(children[i].entries, children[i].pos, merged, b + 1)
        {
          assert Runs()[i] == children[i].entries && Runs()[current] == children[current].entries;
          NotAtBoundary(children[i].entries, children[i].pos, merged, b);
        }
      }
      StepOver(children[current].entries, children[current].pos, merged, b);
      children[current].Next();
      FindSmallest(b + 1);
    }

    /** Put a child on its last entry before `key`, or make it invalid. */
    method PutBefore(child: InternalIterator, key: InternalKey, ghost b: nat)
      requires child.Ok() && Sorted(merged) && b < |merged| && merged[b].key == key
      requires forall e :: e in child.entries ==> e in merged
      modifies child
      ensures child.Ok() && SplitsAt(child.entries, Upto(child), merged, b)
    {
      child.Seek(key);
      SplitByKey(child.entries, child.pos, merged, b, key);
      if child.Valid() {
        child.Prev();
      } else {
        child.SeekToLast();
      }
    }

    method Prev()
      requires Ok() && Valid()
      modifies this, children
      ensures Ok()
      ensures if old(at) == 0 then !Valid() && at == |merged| else Valid() && at == old(at) - 1
    {
      hide SplitsAt;
      ghost var b := at;
      var key := Current().key;
      if direction != Reverse {
        for i := 0 to |children|
          invariant Basic() && 0 <= current < |children| && current == old(current) && at == b
          invariant children[current].pos == old(children[current].pos)
          invariant forall j :: 0 <= j < i && j != current ==>
            SplitsAt(children[j].entries, Upto(children[j]), merged, b)
        {
          if i != current {
            assert Runs()[i] == children[i].entries;
            PutBefore(children[i], key, b);
          }
        }
        direction := Reverse;
      } else {
        forall i | 0 <= i < |children| && i != current
          ensures SplitsAt(children[i].entries, Upto(children[i]), merged, b)
        {
          assert Runs()[i] == children[i].entries && Runs()[current] == children[current].entries;
          NotAtBoundary(children[i].entries, Upto(children[i]), merged, b);
        }
        StepBack(children[current].entries, children[current].pos, merged, b);
      }
      assert SplitsAt(children[current].entries, children[current].pos, merged, b);
      children[current].Prev();
      FindLargest(b);
    }
  }

  ghost function LowerBound(merged: seq<Entry>, target: InternalKey): (b: nat)
    requires Sorted(merged)
    ensures b <= |merged|
    ensures forall j :: 0 <= j < b ==> Less(merged[j].key, target)
    ensures forall j :: b <= j < |merged| ==> AtMost(target, merged[j].key)
  {
    if merged == [] || AtMost(target, merged[0].key) then 0
    else 1 + LowerBound(merged[1..], target)
  }

  /** A run without entry `b` of the merged list is split alike at `b` and at `b + 1`. */
  lemma NotAtBoundary(run: seq<Entry>, n: nat, merged: seq<Entry>, b: nat)
    requires b < |merged| && merged[b] !in run
    ensures SplitsAt(run, n, merged, b) <==> SplitsAt(run, n, merged, b + 1)
  {
  }

  /** Stepping a run over entry `b` of the merged list moves its split to `b + 1`. */
  lemma StepOver(run: seq<Entry>, n: nat, merged: seq<Entry>, b: nat)
    requires Sorted(run) && n < |run| && b < |merged| && run[n] == merged[b]
    requires SplitsAt(run, n, merged, b) || SplitsAt(run, n + 1, merged, b + 1)
    ensures SplitsAt(run, n + 1, merged, b + 1)
  {
  }

  /** Stepping a run back from entry `b` of the merged list moves its split to `b`. */
  lemma StepBack(run: seq<Entry>, n: nat, merged: seq<Entry>, b: nat)
    requires Sorted(run) && n < |run| && b < |merged| && run[n] == merged[b] && Sorted(merged)
    requires SplitsAt(run, n + 1, merged, b + 1)
    ensures SplitsAt(run, n, merged, b)
  {
  }
}
