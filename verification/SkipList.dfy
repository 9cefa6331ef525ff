/** The memtable's skip list. One writer inserts by single link stores while readers search: the order
    of every level holds after each store, so a search interleaved with them is still right. */
module SkipLists {
  import opened Keys

  const MAX_HEIGHT: nat := 12
  const NULL := -1

  /** A node and its links, lowest level first. Pointers are places in the arena; the head is at place 0. */
  datatype Node = Node(key: InternalKey, next: seq<int>)

  /** The arena, and how many levels each node has been linked into so far. */
  datatype List = List(nodes: seq<Node>, linked: seq<nat>)

  // ----- the order of every level -----

  ghost predicate Shape(l: List) {
    && |l.nodes| == |l.linked| >= 1
    && |l.nodes[0].next| == l.linked[0] == MAX_HEIGHT
    && (forall n :: 0 <= n < |l.nodes| ==> l.linked[n] <= |l.nodes[n].next| <= MAX_HEIGHT)
    && forall n, m :: On(l, 0, n) && On(l, 0, m) && l.nodes[n].key == l.nodes[m].key ==> n == m
  }

  /** Node `n` is linked into level `i`. */
  predicate On(l: List, i: nat, n: int) {
    1 <= n < |l.nodes| && n < |l.linked| && i < l.linked[n]
  }

  /** A place where a search of level `i` may stand: the head, or a node of the level. */
  predicate Stands(l: List, i: nat, n: int) {
    i < MAX_HEIGHT && (n == 0 || On(l, i, n))
  }

  /** Node `x` lies after place `n`. */
  predicate After(l: List, n: int, x: int)
    requires 0 <= n < |l.nodes| && 0 <= x < |l.nodes|
  {
    x != 0 && (n == 0 || Less(l.nodes[n].key, l.nodes[x].key))
  }

  /** `m` is the first node of level `i` after `n`, or NULL. */
  ghost predicate Follows(l: List, i: nat, n: int, m: int)
    requires 0 <= n < |l.nodes|
  {
    if m == NULL then forall x :: On(l, i, x) ==> !After(l, n, x)
    else
      && On(l, i, m) && After(l, n, m)
      && forall x :: On(l, i, x) && After(l, n, x) ==> AtMost(l.nodes[m].key, l.nodes[x].key)
  }

  ghost predicate Ok(l: List) {
    Shape(l) && forall i: nat, n: nat :: Stands(l, i, n) ==> Follows(l, i, n, l.nodes[n].next[i])
  }

  /** The keys a reader may find. */
  ghost function KeysOf(l: List): set<InternalKey> {
    set n | 1 <= n < |l.nodes| && On(l, 0, n) :: l.nodes[n].key
  }

  /** Places after `n`: what a search has ahead of it. */
  ghost function Ahead(l: List, n: int): set<int>
    requires 0 <= n < |l.nodes|
  {
    set x | 0 <= x < |l.nodes| && After(l, n, x)
  }

  lemma AheadShrinks(l: List, n: int, m: int)
    requires 0 <= n < |l.nodes| && 0 <= m < |l.nodes| && After(l, n, m)
    ensures Ahead(l, m) < Ahead(l, n)
  {
    assert m in Ahead(l, n) && m !in Ahead(l, m);
  }

  // ----- what searches find -----

  /** `m` is the first node at or after the key. */
  ghost predicate IsFirstAtLeast(l: List, key: InternalKey, m: int) {
    if m == NULL then forall x :: On(l, 0, x) ==> Less(l.nodes[x].key, key)
    else
      && On(l, 0, m) && AtMost(key, l.nodes[m].key)
      && forall x :: On(l, 0, x) && AtMost(key, l.nodes[x].key) ==> AtMost(l.nodes[m].key, l.nodes[x].key)
  }

  /** `n` is the last place of level `i` before the key, the head if no node is. */
  ghost predicate IsLastBelow(l: List, i: nat, key: InternalKey, n: int) {
    && Stands(l, i, n) && n < |l.nodes| && (n != 0 ==> Less(l.nodes[n].key, key))
    && forall x :: On(l, i, x) && Less(l.nodes[x].key, key) ==> n != 0 && AtMost(l.nodes[x].key, l.nodes[n].key)
  }

  ghost predicate IsLast(l: List, n: int) {
    && Stands(l, 0, n) && n < |l.nodes|
    && forall x :: On(l, 0, x) ==> n != 0 && AtMost(l.nodes[x].key, l.nodes[n].key)
  }

  /** Where the next node is not before the key, the search of the level is over. */
  lemma LevelDone(l: List, i: nat, key: InternalKey, n: int)
    requires Ok(l) && Stands(l, i, n) && (n != 0 ==> Less(l.nodes[n].key, key))
    requires var m := l.nodes[n].next[i]; m != NULL ==> On(l, i, m) && AtMost(key, l.nodes[m].key)
    ensures IsLastBelow(l, i, key, n)
    ensures i == 0 ==> IsFirstAtLeast(l, key, l.nodes[n].next[i])
  {
    var m := l.nodes[n].next[i];
    assert Follows(l, i, n, m);
    forall x | On(l, i, x) && Less(l.nodes[x].key, key)
      ensures n != 0 && AtMost(l.nodes[x].key, l.nodes[n].key)
    {
      assert !After(l, n, x);
    }
    if i == 0 {
      forall x | On(l, 0, x) && AtMost(key, l.nodes[x].key)
        ensures m != NULL && AtMost(l.nodes[m].key, l.nodes[x].key)
      {
        assert After(l, n, x);
      }
    }
  }

  // ----- the list -----

  class SkipList {
    var nodes: seq<Node>
    ghost var linked: seq<nat>
    var maxHeight: nat

    ghost function Now(): List
      reads this
    {
      List(nodes, linked)
    }

    ghost predicate Valid()
      reads this
    {
      Ok(Now()) && 1 <= maxHeight <= MAX_HEIGHT && forall n :: !On(Now(), maxHeight, n)
    }

    constructor ()
      ensures Valid() && KeysOf(Now()) == {}
    {
      nodes := [Node(SeekKey(0.0, 0), seq(MAX_HEIGHT, _ => NULL))];
      linked := [MAX_HEIGHT];
      maxHeight := 1;
    }

    /** FindGreaterOrEqual, with the last place before the key at every level searched. */
    method FindGreaterOrEqual(key: InternalKey) returns (node: int, prev: seq<int>)
      requires Valid()
      ensures IsFirstAtLeast(Now(), key, node)
      ensures |prev| == MAX_HEIGHT && forall i :: 0 <= i < maxHeight ==> IsLastBelow(Now(), i, key, prev[i])
    {
      prev := seq(MAX_HEIGHT, _ => 0);
      var x, level := 0, maxHeight - 1;
      while true
        invariant 0 <= level < maxHeight && Stands(Now(), level, x) && 0 <= x < |nodes|
        invariant x != 0 ==> Less(nodes[x].key, key)
        invariant |prev| == MAX_HEIGHT && forall i :: level < i < maxHeight ==> IsLastBelow(Now(), i, key, prev[i])
        decreases level, Ahead(Now(), x)
      {
        var next := nodes[x].next[level];
        assert Follows(Now(), level, x, next);
        if next != NULL && Less(nodes[next].key, key) {
          AheadShrinks(Now(), x, next);
          x := next;
        } else {
          LevelDone(Now(), level, key, x);
          prev := prev[level := x];
          if level == 0 {
            return next, prev;
          }
          level := level - 1;
        }
      }
    }

    /** FindLessThan */
    method FindLessThan(key: InternalKey) returns (node: int)
      requires Valid()
      ensures IsLastBelow(Now(), 0, key, node)
    {
      var x, level := 0, maxHeight - 1;
      while true
        invariant 0 <= level < maxHeight && Stands(Now(), level, x) && 0 <= x < |nodes|
        invariant x != 0 ==> Less(nodes[x].key, key)
        decreases level, Ahead(Now(), x)
      {
        var next := nodes[x].next[level];
        assert Follows(Now(), level, x, next);
        if next == NULL || !Less(nodes[next].key, key) {
          LevelDone(Now(), level, key, x);
          if level == 0 {
            return x;
          }
          level := level - 1;
        } else {
          AheadShrinks(Now(), x, next);
          x := next;
        }
      }
    }

    /** FindLast */
    method FindLast() returns (node: int)
      requires Valid()
      ensures IsLast(Now(), node)
    {
      var x, level := 0, maxHeight - 1;
      while true
        invariant 0 <= level < maxHeight && Stands(Now(), level, x) && 0 <= x < |nodes|
        decreases level, Ahead(Now(), x)
      {
        var next := nodes[x].next[level];
        assert Follows(Now(), level, x, next);
        if next == NULL {
          if level == 0 {
            return x;
          }
          level := level - 1;
        } else {
          AheadShrinks(Now(), x, next);
          x := next;
        }
      }
    }

    /** Contains */
    method Contains(key: InternalKey) returns (r: bool)
      requires Valid()
      ensures r <==> key in KeysOf(Now())
    {
      var node, _ := FindGreaterOrEqual(key);
      r := node != NULL && nodes[node].key == key;
      forall n | On(Now(), 0, n) && nodes[n].key == key
        ensures r
      {
        SameTag(key, nodes[node].key);
      }
    }

    /** Insert a key that is not there, in a node of the given height, by one link store a level from the bottom up.
        `stores` are the states a reader may meet: before, after the node is made, and after each store. */
    method Insert(key: InternalKey, height: nat) returns (ghost stores: seq<List>)
      requires Valid() && key !in KeysOf(Now()) && 1 <= height <= MAX_HEIGHT
      modifies this
      ensures Valid() && KeysOf(Now()) == old(KeysOf(Now())) + {key}
      ensures Recorded(stores, old(Now()), key, Now())
    {
      var node, prev := FindGreaterOrEqual(key);
      ghost var start, top := Now(), maxHeight;
      if height > maxHeight {
        for i := maxHeight to height
          invariant |prev| == MAX_HEIGHT && Now() == start && maxHeight == top
          invariant forall j :: 0 <= j < i ==> IsLastBelow(start, j, key, prev[j])
        {
          EmptyLevel(start, top, i, key);
          prev := prev[i := 0];
        }
        maxHeight := height;
      }
      var x := |nodes|;
      nodes := nodes + [Node(key, seq(height, _ => NULL))];
      linked := linked + [0];
      MakeNode(start, key, height, Now());
      KeepPrev(start, Now(), key, prev, 0, height);
      assert forall n :: On(Now(), maxHeight, n) ==> On(start, top, n);
      stores := LinkLevels(x, key, height, prev, start);
    }

    /** The loop of link stores. */
    method LinkLevels(x: nat, key: InternalKey, height: nat, prev: seq<int>, ghost start: List)
      returns (ghost stores: seq<List>)
      requires Linking(Now(), x, key, height, 0) && height <= maxHeight <= MAX_HEIGHT
      requires forall n :: !On(Now(), maxHeight, n)
      requires |prev| == MAX_HEIGHT && forall j :: 0 <= j < height ==> IsLastBelow(Now(), j, key, prev[j])
      requires IsGrowth([start, Now()]) && KeysOf(Now()) == KeysOf(start) && 1 <= height
      modifies this`nodes, this`linked
      ensures Ok(Now()) && forall n :: !On(Now(), maxHeight, n)
      ensures Recorded(stores, start, key, Now()) && KeysOf(Now()) == KeysOf(start) + {key}
    {
      hide Ok, KeysOf, IsLastBelow, Grows, On, SameAbove;
      stores := [start, Now()];
      for i := 0 to height
        invariant Linking(Now(), x, key, height, i) && forall n :: !On(Now(), maxHeight, n)
        invariant forall j :: i <= j < height ==> IsLastBelow(Now(), j, key, prev[j])
        invariant KeysOf(Now()) == if i == 0 then KeysOf(start) else KeysOf(start) + {key}
        invariant Recorded(stores, start, key, Now())
      {
        ghost var before := Now();
        ghost var ready := Link(x, key, height, i, prev[i]);
        KeepPrev(before, ready, key, prev, i, height);
        KeepPrev(ready, Now(), key, prev, i + 1, height);
        Record(stores, start, key, before, ready);
        Record(stores + [ready], start, key, ready, Now());
        SameTop(before, ready, Now(), i, maxHeight);
        stores := stores + [ready] + [Now()];
      }
    }

    /** Link the node into one level: its own link first, where no reader looks yet, then the link that leads to it. */
    method Link(x: nat, key: InternalKey, height: nat, i: nat, p: int) returns (ghost ready: List)
      requires Linking(Now(), x, key, height, i) && i < height && IsLastBelow(Now(), i, key, p)
      modifies this`nodes, this`linked
      ensures Linking(ready, x, key, height, i) && SameAbove(old(Now()), ready, 0)
      ensures KeysOf(ready) == old(KeysOf(Now()))
      ensures Linking(Now(), x, key, height, i + 1) && SameAbove(ready, Now(), i + 1)
      ensures Grows(old(Now()), ready) && Grows(ready, Now())
      ensures KeysOf(Now()) == if i == 0 then KeysOf(ready) + {key} else KeysOf(ready)
    {
      ghost var before := Now();
      nodes := nodes[x := nodes[x].(next := nodes[x].next[i := nodes[p].next[i]])];
      ready := Now();
      SetOwnLink(before, x, key, height, i, p, ready);
      nodes := nodes[p := nodes[p].(next := nodes[p].next[i := x])];
      linked := linked[x := i + 1];
      Publish(ready, x, key, height, i, p, Now());
    }
  }

  // ----- the iterator -----

  class Iterator {
    const list: SkipList
    var node: int

    ghost predicate Ok()
      reads this, list
    {
      list.Valid() && (node == NULL || On(list.Now(), 0, node))
    }

    constructor (list: SkipList)
      requires list.Valid()
      ensures Ok() && this.list == list && node == NULL
    {
      this.list := list;
      node := NULL;
    }

    method Next()
      requires Ok() && node != NULL
      modifies this
      ensures Ok() && Follows(list.Now(), 0, old(node), node)
    {
      assert Stands(list.Now(), 0, node);
      assert Follows(list.Now(), 0, node, list.nodes[node].next[0]);
      node := list.nodes[node].next[0];
    }

    /** A search from the top, since nodes have no link backward. */
    method Prev()
      requires Ok() && node != NULL
      modifies this
      ensures Ok() && IsLastBelow(list.Now(), 0, list.nodes[old(node)].key, if node == NULL then 0 else node)
    {
      node := list.FindLessThan(list.nodes[node].key);
      if node == 0 {
        node := NULL;
      }
    }

    method Seek(target: InternalKey)
      requires Ok()
      modifies this
      ensures Ok() && IsFirstAtLeast(list.Now(), target, node)
    {
      var found, _ := list.FindGreaterOrEqual(target);
      node := found;
    }

    method SeekToFirst()
      requires Ok()
      modifies this
      ensures Ok() && Follows(list.Now(), 0, 0, node)
    {
      assert Follows(list.Now(), 0, 0, list.nodes[0].next[0]);
      node := list.nodes[0].next[0];
    }

    method SeekToLast()
      requires Ok()
      modifies this
      ensures Ok() && IsLast(list.Now(), if node == NULL then 0 else node)
    {
      node := list.FindLast();
      if node == 0 {
        node := NULL;
      }
    }
  }

  /** Prev leads back to where Next came from. */
  lemma PrevUndoesNext(l: List, n: nat, m: int)
    requires Ok(l) && Stands(l, 0, n) && Follows(l, 0, n, m) && m != NULL
    ensures forall p: nat :: IsLastBelow(l, 0, l.nodes[m].key, p) <==> p == n
  {
    forall p: nat | IsLastBelow(l, 0, l.nodes[m].key, p)
      ensures p == n
    {
      if p != n {
        assert n != 0 ==> On(l, 0, n) && Less(l.nodes[n].key, l.nodes[m].key);
        assert p != 0 && (n != 0 ==> AtMost(l.nodes[n].key, l.nodes[p].key));
        if n != 0 {
          SameTagOrMore(l.nodes[n].key, l.nodes[p].key);
        }
        assert After(l, n, p);
      }
    }
    forall x | On(l, 0, x) && Less(l.nodes[x].key, l.nodes[m].key)
      ensures n != 0 && AtMost(l.nodes[x].key, l.nodes[n].key)
    {
      assert !After(l, n, x);
    }
  }

  // ----- one insertion, store by store -----

  lemma EmptyLevel(l: List, top: nat, i: nat, key: InternalKey)
    requires Ok(l) && top <= i < MAX_HEIGHT && forall n :: !On(l, top, n)
    ensures IsLastBelow(l, i, key, 0)
  {
    assert forall n :: On(l, i, n) ==> On(l, top, n);
  }

  /** Node `x` holds the key and is linked into the lowest `i` levels. */
  ghost predicate Linking(l: List, x: nat, key: InternalKey, height: nat, i: nat) {
    && Ok(l) && x == |l.nodes| - 1 && x >= 1 && height <= MAX_HEIGHT
    && l.nodes[x].key == key && |l.nodes[x].next| == height && l.linked[x] == i <= height
    && (i == 0 ==> key !in KeysOf(l))
  }

  /** Nodes keep their keys, and every level from `i` on its nodes. */
  ghost predicate SameAbove(a: List, b: List, i: nat) {
    && |a.nodes| <= |b.nodes| && (forall n :: 0 <= n < |a.nodes| ==> a.nodes[n].key == b.nodes[n].key)
    && |a.linked| == |a.nodes| && |b.linked| == |b.nodes|
    && forall j: nat, n :: i <= j ==> (On(a, j, n) <==> On(b, j, n))
  }

  lemma KeepPrev(a: List, b: List, key: InternalKey, prev: seq<int>, i: nat, height: nat)
    requires SameAbove(a, b, i) && |prev| == MAX_HEIGHT && height <= MAX_HEIGHT
    requires forall j :: i <= j < height ==> IsLastBelow(a, j, key, prev[j])
    ensures forall j :: i <= j < height ==> IsLastBelow(b, j, key, prev[j])
  {
  }

  /** The states a reader may have met, from `start` to `now`: each has the old keys, or the new one too. */
  ghost predicate Recorded(ls: seq<List>, start: List, key: InternalKey, now: List) {
    && IsGrowth(ls) && ls[0] == start && ls[|ls| - 1] == now
    && forall s :: s in ls ==> KeysOf(s) == KeysOf(start) || KeysOf(s) == KeysOf(start) + {key}
  }

  lemma Record(ls: seq<List>, start: List, key: InternalKey, now: List, next: List)
    requires Recorded(ls, start, key, now) && Ok(next) && Grows(now, next)
    requires KeysOf(next) == KeysOf(start) || KeysOf(next) == KeysOf(start) + {key}
    ensures Recorded(ls + [next], start, key, next)
  {
    hide Ok, Grows, KeysOf;
    GrowthExtends(ls, next);
  }

  lemma SameTop(a: List, b: List, c: List, i: nat, top: nat)
    requires SameAbove(a, b, 0) && SameAbove(b, c, i + 1) && i < top && forall n :: !On(a, top, n)
    ensures forall n :: !On(c, top, n)
  {
  }

  lemma GrowthExtends(ls: seq<List>, l: List)
    requires IsGrowth(ls) && Ok(l) && Grows(ls[|ls| - 1], l)
    ensures IsGrowth(ls + [l])
  {
    hide Ok, Grows;
  }

  lemma MakeNode(a: List, key: InternalKey, height: nat, b: List)
    requires Ok(a) && key !in KeysOf(a) && 1 <= height <= MAX_HEIGHT
    requires b == List(a.nodes + [Node(key, seq(height, _ => NULL))], a.linked + [0])
    ensures Linking(b, |a.nodes|, key, height, 0) && SameAbove(a, b, 0) && KeysOf(b) == KeysOf(a)
    ensures Grows(a, b) && IsGrowth([a, b])
  {
    assert forall i: nat, n :: On(a, i, n) <==> On(b, i, n);
    forall i: nat, n: nat | Stands(b, i, n)
      ensures Follows(b, i, n, b.nodes[n].next[i])
    {
      assert Stands(a, i, n) && Follows(a, i, n, a.nodes[n].next[i]);
    }
  }

  /** Setting the new node's own link shows no reader anything. */
  lemma SetOwnLink(a: List, x: nat, key: InternalKey, height: nat, i: nat, p: int, b: List)
    requires Linking(a, x, key, height, i) && i < height && IsLastBelow(a, i, key, p)
    requires b == a.(nodes := a.nodes[x := a.nodes[x].(next := a.nodes[x].next[i := a.nodes[p].next[i]])])
    ensures Linking(b, x, key, height, i) && SameAbove(a, b, 0) && KeysOf(b) == KeysOf(a) && Grows(a, b)
    ensures b.nodes[x].next[i] == b.nodes[p].next[i]
  {
    assert forall j: nat, n :: On(a, j, n) <==> On(b, j, n);
    forall j: nat, n: nat | Stands(b, j, n)
      ensures Follows(b, j, n, b.nodes[n].next[j])
    {
      assert Stands(a, j, n) && Follows(a, j, n, a.nodes[n].next[j]);
    }
  }

  /** After the store, every place of the level still leads to the first node after it. */
  lemma PublishedLevel(a: List, x: nat, key: InternalKey, height: nat, i: nat, p: int, b: List, n: nat)
    requires Linking(a, x, key, height, i) && i < height && IsLastBelow(a, i, key, p)
    requires a.nodes[x].next[i] == a.nodes[p].next[i]
    requires b == List(a.nodes[p := a.nodes[p].(next := a.nodes[p].next[i := x])], a.linked[x := i + 1])
    requires forall m :: On(b, i, m) <==> On(a, i, m) || m == x
    requires Stands(b, i, n)
    ensures Follows(b, i, n, b.nodes[n].next[i])
  {
    assert Stands(a, i, p) && Follows(a, i, p, a.nodes[p].next[i]);
    forall m | On(a, i, m)
      ensures a.nodes[m].key != key
    {
      if i == 0 {
        assert a.nodes[m].key in KeysOf(a);
      } else {
        assert On(a, 0, m) && On(a, 0, x);
      }
    }
    if n != p && n != x {
      assert Stands(a, i, n) && Follows(a, i, n, a.nodes[n].next[i]);
    }
  }

  /** The store that links the node into level `i`. */
  lemma Publish(a: List, x: nat, key: InternalKey, height: nat, i: nat, p: int, b: List)
    requires Linking(a, x, key, height, i) && i < height && IsLastBelow(a, i, key, p)
    requires a.nodes[x].next[i] == a.nodes[p].next[i]
    requires b == List(a.nodes[p := a.nodes[p].(next := a.nodes[p].next[i := x])], a.linked[x := i + 1])
    ensures Linking(b, x, key, height, i + 1) && SameAbove(a, b, i + 1) && Grows(a, b)
    ensures KeysOf(b) == if i == 0 then KeysOf(a) + {key} else KeysOf(a)
  {
    assert forall j: nat, n :: On(b, j, n) <==> On(a, j, n) || (j == i && n == x);
    forall j: nat, n: nat | Stands(b, j, n)
      ensures Follows(b, j, n, b.nodes[n].next[j])
    {
      if j == i {
        PublishedLevel(a, x, key, height, i, p, b, n);
      } else {
        assert Stands(a, j, n) && Follows(a, j, n, a.nodes[n].next[j]);
      }
    }
    PublishedKeys(a, x, key, i, b);
  }

  lemma PublishedKeys(a: List, x: nat, key: InternalKey, i: nat, b: List)
    requires |a.nodes| == |b.nodes| && 1 <= x < |a.nodes| && a.nodes[x].key == key
    requires forall n :: 0 <= n < |a.nodes| ==> a.nodes[n].key == b.nodes[n].key
    requires forall j: nat, n :: On(b, j, n) <==> On(a, j, n) || (j == i && n == x)
    requires i > 0 ==> On(a, 0, x)
    ensures KeysOf(b) == if i == 0 then KeysOf(a) + {key} else KeysOf(a)
  {
    forall k
      ensures k in KeysOf(b) <==> k in KeysOf(a) || (i == 0 && k == key)
    {
      if i == 0 && k == key {
        assert On(b, 0, x);
      }
      if k in KeysOf(a) {
        var n :| 1 <= n < |a.nodes| && On(a, 0, n) && a.nodes[n].key == k;
        assert On(b, 0, n) && b.nodes[n].key == k;
      }
    }
  }

  // ----- growth -----

  /** No node goes away, moves or is unlinked from a level. */
  ghost predicate Grows(a: List, b: List) {
    && |a.nodes| <= |b.nodes| && |a.linked| == |a.nodes| && |b.linked| == |b.nodes|
    && forall n :: 0 <= n < |a.nodes| ==> a.nodes[n].key == b.nodes[n].key && a.linked[n] <= b.linked[n]
  }

  ghost predicate IsGrowth(ls: seq<List>) {
    && ls != [] && (forall i :: 0 <= i < |ls| ==> Ok(ls[i]))
    && forall i :: 0 <= i < |ls| - 1 ==> Grows(ls[i], ls[i + 1])
  }

  // ----- readers -----

  /** A search with no lock held: at a place of a level, or done. */
  datatype Search = Searching(at: int, level: nat) | Found(node: int)

  ghost predicate SearchOk(l: List, key: InternalKey, r: Search) {
    r.Searching? ==> Stands(l, r.level, r.at) && 0 <= r.at < |l.nodes| && (r.at != 0 ==> Less(l.nodes[r.at].key, key))
  }

  /** One load of a link, and what FindGreaterOrEqual does with it. */
  ghost predicate Loads(l: List, key: InternalKey, r: Search, t: Search)
    requires Ok(l) && SearchOk(l, key, r)
  {
    && r.Searching?
    && var next := l.nodes[r.at].next[r.level];
    && (next == NULL || 1 <= next < |l.nodes|)
    && t == if next != NULL && Less(l.nodes[next].key, key) then Searching(next, r.level)
            else if r.level == 0 then Found(next)
            else Searching(r.at, r.level - 1)
  }

  lemma LoadKeeps(l: List, key: InternalKey, r: Search, t: Search)
    requires Ok(l) && SearchOk(l, key, r) && Loads(l, key, r, t)
    ensures SearchOk(l, key, t) && (t.Found? ==> IsFirstAtLeast(l, key, t.node))
  {
    var next := l.nodes[r.at].next[r.level];
    assert Follows(l, r.level, r.at, next);
    if t == Found(next) {
      LevelDone(l, 0, key, r.at);
    }
  }

  lemma GrowthKeeps(a: List, b: List, key: InternalKey, r: Search)
    requires Ok(a) && Ok(b) && Grows(a, b) && SearchOk(a, key, r)
    ensures SearchOk(b, key, r)
  {
  }

  /** Steps of a search and of writers, in any order: at each moment either the search loads a link, or the list
      grows. */
  ghost predicate Interleaved(ls: seq<List>, rs: seq<Search>, key: InternalKey) {
    && |ls| == |rs| >= 1 && IsGrowth(ls) && (exists level: nat :: level < MAX_HEIGHT && rs[0] == Searching(0, level))
    && forall i :: 0 <= i < |rs| - 1 ==>
         || rs[i + 1] == rs[i]
         || (ls[i + 1] == ls[i] && SearchOk(ls[i], key, rs[i]) && Loads(ls[i], key, rs[i], rs[i + 1]))
  }

  lemma {:induction false} SearchStaysOk(ls: seq<List>, rs: seq<Search>, key: InternalKey, n: nat)
    requires Interleaved(ls, rs, key) && n < |rs|
    ensures SearchOk(ls[n], key, rs[n])
  {
    hide Ok, Grows, Loads;
    if n == 0 {
      assert Ok(ls[0]);
      HeadStands(ls[0], key, rs[0]);
    } else {
      SearchStaysOk(ls, rs, key, n - 1);
      assert Ok(ls[n - 1]) && Ok(ls[n]) && Grows(ls[n - 1], ls[n]);
      assert rs[n - 1 + 1] == rs[n];
      if rs[n] == rs[n - 1] {
        GrowthKeeps(ls[n - 1], ls[n], key, rs[n]);
      } else {
        LoadKeeps(ls[n - 1], key, rs[n - 1], rs[n]);
      }
    }
  }

  lemma HeadStands(l: List, key: InternalKey, r: Search)
    requires Ok(l) && r.Searching? && r.at == 0 && r.level < MAX_HEIGHT
    ensures SearchOk(l, key, r)
  {
  }

  /** A search that runs while keys are inserted finds what was there at the moment of its last load: the first
      key at or after its target, with every key inserted before it began among those considered. */
  lemma SearchIsAtomic(ls: seq<List>, rs: seq<Search>, key: InternalKey)
    requires Interleaved(ls, rs, key) && rs[|rs| - 1].Found?
    ensures exists i :: 0 <= i < |ls| && IsFirstAtLeast(ls[i], key, rs[|rs| - 1].node) && KeysOf(ls[0]) <= KeysOf(ls[i])
  {
    hide Ok, Grows, Loads;
    var n := LastLoad(ls, rs, key, |rs| - 1);
    SearchStaysOk(ls, rs, key, n);
    assert Ok(ls[n]);
    LoadKeeps(ls[n], key, rs[n], rs[n + 1]);
    KeysGrow(ls, n);
  }

  /** The load that ended the search. */
  lemma {:induction false} LastLoad(ls: seq<List>, rs: seq<Search>, key: InternalKey, m: nat) returns (n: nat)
    requires Interleaved(ls, rs, key) && m < |rs| && rs[m].Found?
    ensures n < m && ls[n + 1] == ls[n] && rs[n + 1] == rs[m] && rs[n + 1] != rs[n] && Ok(ls[n])
    ensures SearchOk(ls[n], key, rs[n])
    ensures Loads(ls[n], key, rs[n], rs[n + 1])
  {
    hide Ok, Grows, Loads;
    assert m > 0;
    assert Ok(ls[m - 1]);
    assert rs[m - 1 + 1] == rs[m];
    if rs[m - 1] == rs[m] {
      n := LastLoad(ls, rs, key, m - 1);
    } else {
      n := m - 1;
    }
  }

  lemma {:induction false} KeysGrow(ls: seq<List>, n: nat)
    requires IsGrowth(ls) && n < |ls|
    ensures KeysOf(ls[0]) <= KeysOf(ls[n])
  {
    if n > 0 {
      KeysGrow(ls, n - 1);
      assert Grows(ls[n - 1], ls[n - 1 + 1]);
      forall k | k in KeysOf(ls[n - 1])
        ensures k in KeysOf(ls[n])
      {
        var x :| 1 <= x < |ls[n - 1].nodes| && On(ls[n - 1], 0, x) && ls[n - 1].nodes[x].key == k;
        assert On(ls[n], 0, x) && ls[n].nodes[x].key == k;
      }
    }
  }

  // ----- levels as lists -----

  /** The nodes met by walking a level from a place. */
  ghost function Walk(l: List, i: nat, n: nat): (r: seq<nat>)
    requires Ok(l) && Stands(l, i, n)
    ensures forall x: nat :: x in r <==> On(l, i, x) && After(l, n, x)
    ensures forall j :: 0 <= j < |r| ==> On(l, i, r[j])
    ensures forall j, k :: 0 <= j < k < |r| ==> Less(l.nodes[r[j]].key, l.nodes[r[k]].key)
    decreases Ahead(l, n)
  {
    var m := l.nodes[n].next[i];
    assert Follows(l, i, n, m);
    if m == NULL then []
    else
      AheadShrinks(l, n, m);
      WalkOn(l, i, n, m);
      [m] + Walk(l, i, m)
  }

  lemma WalkOn(l: List, i: nat, n: nat, m: nat)
    requires Ok(l) && Stands(l, i, n) && l.nodes[n].next[i] == m && Stands(l, i, m)
    ensures forall x: nat :: On(l, i, x) && After(l, n, x) <==> x == m || (On(l, i, x) && After(l, m, x))
  {
    assert Follows(l, i, n, m);
    forall x: nat | On(l, i, x) && After(l, n, x) && x != m
      ensures After(l, m, x)
    {
      assert On(l, 0, x) && On(l, 0, m);
      SameTagOrMore(l.nodes[m].key, l.nodes[x].key);
    }
  }

  lemma SameTagOrMore(a: InternalKey, b: InternalKey)
    requires AtMost(a, b) && a != b
    ensures Less(a, b)
  {
    if a.user == b.user && Tag(a) == Tag(b) {
      SameTag(a, b);
    }
  }

  /** Every level is a sorted list of nodes of the level below, and the lowest holds every key. */
  lemma LevelsNest(l: List, i: nat)
    requires Ok(l) && i + 1 < MAX_HEIGHT
    ensures forall x :: x in Walk(l, i + 1, 0) ==> x in Walk(l, i, 0)
    ensures KeysOf(l) == set x | x in Walk(l, 0, 0) :: l.nodes[x].key
  {
  }
}
