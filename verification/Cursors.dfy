/** What an iterator is for: positions in a sorted map, and the array-backed internal iterator. */
module Cursors {
  import opened Keys

  // ----- cursors over a map -----

  /** A cursor over a map is off it, or on one of its pairs. */
  datatype Position = Off | On(key: UserKey, value: Bytes)

  ghost predicate Pair(m: map<UserKey, Bytes>, p: Position) {
    p.On? ==> p.key in m && p.value == m[p.key]
  }

  /** `p` is the pair with the least key at or after `lo` (after `lo` only, when `strict`). */
  ghost predicate IsFirstFrom(m: map<UserKey, Bytes>, lo: UserKey, strict: bool, p: Position) {
    && Pair(m, p)
    && (p.On? ==> if strict then lo < p.key else lo <= p.key)
    && forall k :: k in m && (if strict then lo < k else lo <= k) ==> p.On? && p.key <= k
  }

  ghost predicate IsFirst(m: map<UserKey, Bytes>, p: Position) {
    Pair(m, p) && forall k :: k in m ==> p.On? && p.key <= k
  }

  /** `p` is the pair with the greatest key before `hi`. */
  ghost predicate IsLastBefore(m: map<UserKey, Bytes>, hi: UserKey, p: Position) {
    && Pair(m, p)
    && (p.On? ==> p.key < hi)
    && forall k :: k in m && k < hi ==> p.On? && k <= p.key
  }

  ghost predicate IsLast(m: map<UserKey, Bytes>, p: Position) {
    Pair(m, p) && forall k :: k in m ==> p.On? && k <= p.key
  }

  /** The calls a client makes. `Next` and `Prev` may be called only on a pair. */
  datatype Call = SeekCall(target: UserKey) | SeekToFirstCall | SeekToLastCall | NextCall | PrevCall

  /** One call moves a cursor over `m` from `p` to `q`. */
  ghost predicate Moves(m: map<UserKey, Bytes>, p: Position, c: Call, q: Position) {
    match c
    case SeekCall(t) => IsFirstFrom(m, t, false, q)
    case SeekToFirstCall => IsFirst(m, q)
    case SeekToLastCall => IsLast(m, q)
    case NextCall => p.On? && IsFirstFrom(m, p.key, true, q)
    case PrevCall => p.On? && IsLastBefore(m, p.key, q)
  }

  /** The positions `ps` are what the calls `cs` lead through. */
  ghost predicate Run(m: map<UserKey, Bytes>, ps: seq<Position>, cs: seq<Call>) {
    |ps| == |cs| + 1 && forall i :: 0 <= i < |cs| ==> Moves(m, ps[i], cs[i], ps[i + 1])
  }

  /** A sequence of calls determines every position it leads through: two iterators that both
      move like cursors over `m` cannot be told apart. */
  lemma {:induction false} RunsAgree(m: map<UserKey, Bytes>, ps: seq<Position>, qs: seq<Position>, cs: seq<Call>)
    requires Run(m, ps, cs) && Run(m, qs, cs) && ps[0] == qs[0]
    ensures ps == qs
  {
    if cs != [] {
      var last := |cs| - 1;
      RunsAgree(m, ps[..|cs|], qs[..|cs|], cs[..last]);
      assert ps[last] == ps[..|cs|][last] == qs[..|cs|][last] == qs[last];
      assert Moves(m, ps[last], cs[last], ps[|cs|]) && Moves(m, qs[last], cs[last], qs[|cs|]);
      assert ps == ps[..|cs|] + [ps[|cs|]] && qs == qs[..|cs|] + [qs[|cs|]];
    }
  }

  // ----- the internal iterator -----

  /** An iterator over a sorted run of entries; one index past the end marks it invalid. */
  class InternalIterator {
    const entries: seq<Entry>
    var pos: nat

    ghost predicate Ok()
      reads this
    {
      Sorted(entries) && pos <= |entries|
    }

    predicate Valid()
      reads this
    {
      pos < |entries|
    }

    function Key(): InternalKey
      reads this
      requires Valid()
    {
      entries[pos].key
    }

    constructor (entries: seq<Entry>)
      requires Sorted(entries)
      ensures Ok() && !Valid() && this.entries == entries
    {
      this.entries := entries;
      pos := |entries|;
    }

    method SeekToFirst()
      requires Ok()
      modifies this
      ensures Ok() && pos == 0
    {
      pos := 0;
    }

    method SeekToLast()
      requires Ok()
      modifies this
      ensures Ok() && pos == if entries == [] then 0 else |entries| - 1
    {
      pos := if entries == [] then 0 else |entries| - 1;
    }

    method Next()
      requires Ok() && Valid()
      modifies this
      ensures Ok() && pos == old(pos) + 1
    {
      pos := pos + 1;
    }

    method Prev()
      requires Ok() && Valid()
      modifies this
      ensures Ok() && pos == if old(pos) == 0 then |entries| else old(pos) - 1
    {
      if pos == 0 {
        pos := |entries|;
      } else {
        pos := pos - 1;
      }
    }

    /** Binary search for the first entry at or after `target`. */
    method Seek(target: InternalKey)
      requires Ok()
      modifies this
      ensures Ok()
      ensures forall i :: 0 <= i < pos ==> Less(entries[i].key, target)
      ensures forall i :: pos <= i < |entries| ==> AtMost(target, entries[i].key)
    {
      var left, right := 0, |entries|;
      while left < right
        invariant 0 <= left <= right <= |entries|
        invariant forall i :: 0 <= i < left ==> Less(entries[i].key, target)
        invariant forall i :: right <= i < |entries| ==> AtMost(target, entries[i].key)
      {
        var mid := (left + right) / 2;
        if Less(entries[mid].key, target) {
          left := mid + 1;
        } else {
          right := mid;
        }
      }
      pos := right;
    }
  }
}
