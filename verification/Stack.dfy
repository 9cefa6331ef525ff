/** The iterators of the stack, from the memtable and the tables up to the merged run: over the same keys, none can be
    told from another. */
module IteratorStack {
  import opened Keys
  import opened Cursors
  import Blocks
  import Merger
  import Separators
  import SkipLists
  import TwoLevels

  // ----- what iterators over internal keys do -----

  /** The calls on an iterator over internal keys. `ToNext` and `ToPrev` may be called only on a key. */
  datatype Step = ToFirst | ToLast | ToNext | ToPrev | To(target: InternalKey)

  /** The keys before place `q` are before the target, the others are not. */
  ghost predicate SplitsAt(keys: seq<InternalKey>, t: InternalKey, q: nat) {
    && q <= |keys| && (forall i :: 0 <= i < q ==> Less(keys[i], t))
    && forall i :: q <= i < |keys| ==> AtMost(t, keys[i])
  }

  /** One call takes an iterator over the ascending keys from place `p` to place `q`; off the keys is the place past
      their end. */
  ghost predicate Steps(keys: seq<InternalKey>, p: nat, s: Step, q: nat) {
    match s
    case ToFirst => q == 0
    case ToLast => q == if keys == [] then 0 else |keys| - 1
    case ToNext => p < |keys| && q == p + 1
    case ToPrev => p < |keys| && q == if p == 0 then |keys| else p - 1
    case To(t) => SplitsAt(keys, t, q)
  }

  /** A call determines where it leads. */
  lemma StepsAgree(keys: seq<InternalKey>, p: nat, s: Step, q: nat, r: nat)
    requires Steps(keys, p, s, q) && Steps(keys, p, s, r)
    ensures q == r
  {
    if s.To? {
      assert q < |keys| ==> AtMost(s.target, keys[q]);
      assert r < |keys| ==> AtMost(s.target, keys[r]);
    }
  }

  function KeysIn(es: seq<Entry>): (r: seq<InternalKey>)
    ensures |r| == |es| && forall i :: 0 <= i < |r| ==> r[i] == es[i].key
  {
    seq(|es|, i requires 0 <= i < |es| => es[i].key)
  }

  // ----- arrays and merged runs -----

  method StepArray(it: InternalIterator, s: Step)
    requires it.Ok() && (s == ToNext || s == ToPrev ==> it.Valid())
    modifies it
    ensures it.Ok() && Steps(KeysIn(it.entries), old(it.pos), s, it.pos)
  {
    match s {
      case ToFirst => it.SeekToFirst();
      case ToLast => it.SeekToLast();
      case ToNext => it.Next();
      case ToPrev => it.Prev();
      case To(target) => it.Seek(target);
    }
  }

  method StepMerged(it: Merger.MergingIterator, s: Step)
    requires it.Ok() && (s == ToNext || s == ToPrev ==> it.Valid())
    modifies it, it.children
    ensures it.Ok() && Steps(KeysIn(it.merged), old(it.at), s, it.at)
  {
    match s {
      case ToFirst => it.SeekToFirst();
      case ToLast => it.SeekToLast();
      case ToNext => it.Next();
      case ToPrev => it.Prev();
      case To(target) => it.Seek(target);
    }
  }

  // ----- the memtable's skip list -----

  /** The keys of the list in order. */
  ghost function ListKeys(l: SkipLists.List): (r: seq<InternalKey>)
    requires SkipLists.Ok(l)
    ensures |r| == |SkipLists.Walk(l, 0, 0)|
    ensures forall i :: 0 <= i < |r| ==> r[i] == l.nodes[SkipLists.Walk(l, 0, 0)[i]].key
  {
    var w := SkipLists.Walk(l, 0, 0);
    seq(|w|, i requires 0 <= i < |w| => l.nodes[w[i]].key)
  }

  /** `p` is the node's place among them. */
  ghost predicate AtPlace(l: SkipLists.List, node: int, p: nat)
    requires SkipLists.Ok(l)
  {
    var w := SkipLists.Walk(l, 0, 0);
    if node == SkipLists.NULL then p == |w| else p < |w| && w[p] == node
  }

  lemma HasPlace(l: SkipLists.List, node: int) returns (p: nat)
    requires SkipLists.Ok(l) && (node == SkipLists.NULL || SkipLists.On(l, 0, node))
    ensures AtPlace(l, node, p)
  {
    var w := SkipLists.Walk(l, 0, 0);
    if node == SkipLists.NULL {
      p := |w|;
    } else {
      var n: nat := node;
      assert n in w;
      p :| 0 <= p < |w| && w[p] == n;
    }
  }

  /** The list's keys are in order, and every node of its lowest level is one of them. */
  lemma WalkedInOrder(l: SkipLists.List)
    requires SkipLists.Ok(l)
    ensures var w := SkipLists.Walk(l, 0, 0); forall i, j :: 0 <= i < j < |w| ==>
      Less(l.nodes[w[i]].key, l.nodes[w[j]].key)
    ensures forall x: nat :: SkipLists.On(l, 0, x) <==> x in SkipLists.Walk(l, 0, 0)
  {
  }

  lemma FollowsIsNext(l: SkipLists.List, n: nat, m: int, p: nat, q: nat)
    requires SkipLists.Ok(l) && SkipLists.On(l, 0, n) && SkipLists.Follows(l, 0, n, m)
    requires AtPlace(l, n, p) && AtPlace(l, m, q)
    ensures q == p + 1
  {
    WalkedInOrder(l);
    var w := SkipLists.Walk(l, 0, 0);
    assert p + 1 < |w| ==> w[p + 1] in w && SkipLists.After(l, n, w[p + 1]);
    assert m != SkipLists.NULL ==> w[q] in w;
  }

  lemma FirstFollowsHead(l: SkipLists.List, m: int, q: nat)
    requires SkipLists.Ok(l) && SkipLists.Follows(l, 0, 0, m) && AtPlace(l, m, q)
    ensures q == 0
  {
    WalkedInOrder(l);
    var w := SkipLists.Walk(l, 0, 0);
    if w != [] {
      assert w[0] in w && SkipLists.After(l, 0, w[0]);
    }
  }

  lemma BelowIsBefore(l: SkipLists.List, n: nat, m: int, p: nat, q: nat)
    requires SkipLists.Ok(l) && SkipLists.On(l, 0, n) && AtPlace(l, n, p) && AtPlace(l, m, q)
    requires SkipLists.IsLastBelow(l, 0, l.nodes[n].key, if m == SkipLists.NULL then 0 else m)
    requires m == SkipLists.NULL || SkipLists.On(l, 0, m)
    ensures q == if p == 0 then |SkipLists.Walk(l, 0, 0)| else p - 1
  {
    WalkedInOrder(l);
    var w := SkipLists.Walk(l, 0, 0);
    if p > 0 {
      assert w[p - 1] in w && Less(l.nodes[w[p - 1]].key, l.nodes[n].key);
    }
    if m != SkipLists.NULL {
      assert w[q] in w;
    }
  }

  lemma LastIsLast(l: SkipLists.List, m: int, q: nat)
    requires SkipLists.Ok(l) && AtPlace(l, m, q) && SkipLists.IsLast(l, if m == SkipLists.NULL then 0 else m)
    requires m == SkipLists.NULL || SkipLists.On(l, 0, m)
    ensures q == if SkipLists.Walk(l, 0, 0) == [] then 0 else |SkipLists.Walk(l, 0, 0)| - 1
  {
    WalkedInOrder(l);
    var w := SkipLists.Walk(l, 0, 0);
    if w != [] {
      assert w[|w| - 1] in w;
    }
  }

  lemma FirstAtLeastSplits(l: SkipLists.List, key: InternalKey, m: int, q: nat)
    requires SkipLists.Ok(l) && AtPlace(l, m, q) && SkipLists.IsFirstAtLeast(l, key, m)
    ensures Steps(ListKeys(l), 0, To(key), q)
  {
    WalkedInOrder(l);
    var w := SkipLists.Walk(l, 0, 0);
    forall i | 0 <= i < |w|
      ensures if i < q then Less(l.nodes[w[i]].key, key) else AtMost(key, l.nodes[w[i]].key)
    {
      assert w[i] in w;
    }
  }

  method StepList(it: SkipLists.Iterator, s: Step) returns (ghost p: nat, ghost q: nat)
    requires it.Ok() && (s == ToNext || s == ToPrev ==> it.node != SkipLists.NULL)
    modifies it
    ensures it.Ok() && AtPlace(it.list.Now(), old(it.node), p) && AtPlace(it.list.Now(), it.node, q)
    ensures Steps(ListKeys(it.list.Now()), p, s, q)
  {
    hide SkipLists.Ok, SkipLists.Follows, SkipLists.IsLast, SkipLists.IsLastBelow, SkipLists.IsFirstAtLeast, AtPlace;
    ghost var l, was := it.list.Now(), it.node;
    p := HasPlace(l, was);
    match s {
      case ToFirst => it.SeekToFirst();
      case ToLast => it.SeekToLast();
      case ToNext => it.Next();
      case ToPrev => it.Prev();
      case To(target) => it.Seek(target);
    }
    q := HasPlace(l, it.node);
    PlaceInside(l, was, p);
    match s {
      case ToFirst => FirstFollowsHead(l, it.node, q);
      case ToLast => LastIsLast(l, it.node, q);
      case ToNext => FollowsIsNext(l, was, it.node, p, q);
      case ToPrev => BelowIsBefore(l, was, it.node, p, q);
      case To(target) => FirstAtLeastSplits(l, target, it.node, q);
    }
  }

  lemma PlaceInside(l: SkipLists.List, node: int, p: nat)
    requires SkipLists.Ok(l) && AtPlace(l, node, p)
    ensures node != SkipLists.NULL ==> p < |SkipLists.Walk(l, 0, 0)|
  {
  }

  // ----- tables -----

  /** The pairs' keys stand for the internal keys. */
  ghost predicate AreKeys(pairs: seq<Blocks.Pair>, keys: seq<InternalKey>) {
    |pairs| == |keys| && forall i :: 0 <= i < |keys| ==>
      Separators.StandsFor(pairs[i].key, keys[i]) && keys[i].sn < 0x100_0000_0000_0000
  }

  lemma TotalOrder(a: InternalKey, b: InternalKey)
    ensures !Less(a, b) <==> AtMost(b, a)
  {
  }

  lemma FoundInTable(pairs: seq<Blocks.Pair>, keys: seq<InternalKey>, raw: Bytes, t: InternalKey, q: nat)
    requires AreKeys(pairs, keys) && Separators.StandsFor(raw, t) && t.sn < 0x100_0000_0000_0000
    requires Blocks.IsFirstAtOrAfter(pairs, Separators.RawLess, raw, q)
    ensures Steps(keys, 0, To(t), q)
  {
    hide Separators.RawLess, Separators.StandsFor, Less, AtMost;
    forall i | 0 <= i < |keys|
      ensures Separators.RawLess(pairs[i].key, raw) <==> Less(keys[i], t)
      ensures !Less(keys[i], t) <==> AtMost(t, keys[i])
    {
      Separators.StandInOrder(pairs[i].key, keys[i], raw, t);
      TotalOrder(keys[i], t);
    }
  }

  /** A step of a table's iterator; `raw` is the target of a seek as bytes. */
  method StepTable(it: TwoLevels.TwoLevelIterator, s: Step, raw: Bytes, ghost keys: seq<InternalKey>)
    requires it.Valid() && (s == ToNext || s == ToPrev ==> it.IsValid()) && AreKeys(it.Pairs(), keys)
    requires s.To? ==> Separators.StandsFor(raw, s.target) && s.target.sn < 0x100_0000_0000_0000
    modifies it, it.index, it.data
    ensures it.Valid() && AreKeys(it.Pairs(), keys) && Steps(keys, old(it.Pos()), s, it.Pos())
  {
    hide AreKeys, Separators.RawLess, Separators.StandsFor;
    TwoLevels.ShowsPair(it);
    assert |keys| == |it.Pairs()| by {
      SameNumber(it.Pairs(), keys);
    }
    match s {
      case ToFirst => it.SeekToFirst();
      case ToLast => it.SeekToLast();
      case ToNext => it.Next();
      case ToPrev => it.Prev();
      case To(target) =>
        it.Seek(raw);
        FoundInTable(it.Pairs(), keys, raw, target, it.Pos());
    }
  }

  lemma SameNumber(pairs: seq<Blocks.Pair>, keys: seq<InternalKey>)
    requires AreKeys(pairs, keys)
    ensures |pairs| == |keys|
  {
  }
}
