/** The user-level iterator: one pair per user key visible at a snapshot, in both directions. */
module DbIter {
  import opened Keys
  import opened Cursors

  // ----- visibility by position -----

  /** Entry `i` may be seen at snapshot `s`. */
  predicate SeenAt(es: seq<Entry>, s: nat, i: nat)
    requires i < |es|
  {
    es[i].key.sn <= s
  }

  /** Entry `i` is the one that gives its user key a value at snapshot `s`. */
  ghost predicate ShownAt(es: seq<Entry>, s: nat, i: nat)
    requires i < |es|
  {
    && SeenAt(es, s, i) && es[i].key.kind == Value
    && forall j: nat :: j < i && SeenAt(es, s, j) ==> es[j].key.user < es[i].key.user
  }

  lemma SortedUsers(es: seq<Entry>)
    requires Sorted(es)
    ensures forall i, j :: 0 <= i <= j < |es| ==> es[i].key.user <= es[j].key.user
  {
  }

  lemma ShownIsNewest(es: seq<Entry>, s: nat, i: nat)
    requires Sorted(es) && i < |es|
    ensures ShownAt(es, s, i) <==> (Newest(SetOf(es), s, es[i]) && es[i].key.kind == Value)
  {
  }

  lemma SortedIsUnique(es: seq<Entry>)
    requires Sorted(es)
    ensures Unique(SetOf(es))
  {
  }

  /** `m` holds exactly the pairs that entries of the run give. */
  ghost predicate Given(es: seq<Entry>, s: nat, m: map<UserKey, Bytes>) {
    && (forall i: nat :: i < |es| && ShownAt(es, s, i) ==> es[i].key.user in m && m[es[i].key.user] == es[i].value)
    && forall k :: k in m ==> exists i: nat :: i < |es| && ShownAt(es, s, i) && es[i].key.user == k
  }

  /** The visible map, told by positions in the sorted run. */
  lemma ViewByPosition(es: seq<Entry>, s: nat)
    requires Sorted(es)
    ensures Given(es, s, View(SetOf(es), s))
  {
    SortedIsUnique(es);
    var m := View(SetOf(es), s);
    forall i: nat | i < |es| && ShownAt(es, s, i)
      ensures es[i].key.user in m && m[es[i].key.user] == es[i].value
    {
      ShownIsNewest(es, s, i);
      assert Shows(SetOf(es), s, es[i].key.user, es[i].value);
      ViewShows(SetOf(es), s, es[i].key.user, es[i].value);
    }
    forall k | k in m
      ensures exists i: nat :: i < |es| && ShownAt(es, s, i) && es[i].key.user == k
    {
      ViewShows(SetOf(es), s, k, m[k]);
      var e :| Newest(SetOf(es), s, e) && e.key.user == k && e.key.kind == Value && e.value == m[k];
      var i: nat :| i < |es| && es[i] == e;
      ShownIsNewest(es, s, i);
    }
  }

  /** Entry `i` gives a pair at or after `lo` (after `lo` only, when `strict`). */
  ghost predicate ShownFrom(es: seq<Entry>, s: nat, lo: UserKey, strict: bool, i: nat)
    requires i < |es|
  {
    ShownAt(es, s, i) && if strict then lo < es[i].key.user else lo <= es[i].key.user
  }

  /** The pair entry `i` gives, if `valid`. */
  function PairAt(es: seq<Entry>, valid: bool, i: nat): Position
    requires valid ==> i < |es|
  {
    if valid then On(es[i].key.user, es[i].value) else Off
  }

  /** `i` is the first entry that gives a pair at or after `lo`. */
  ghost predicate IsFirstShown(es: seq<Entry>, s: nat, lo: UserKey, strict: bool, valid: bool, i: nat) {
    && (valid ==> i < |es| && ShownFrom(es, s, lo, strict, i))
    && forall j: nat :: j < |es| && ShownFrom(es, s, lo, strict, j) ==> valid && i <= j
  }

  lemma FirstByPosition(es: seq<Entry>, s: nat, m: map<UserKey, Bytes>, lo: UserKey, strict: bool, valid: bool, i: nat)
    requires Sorted(es) && Given(es, s, m) && IsFirstShown(es, s, lo, strict, valid, i)
    ensures IsFirstFrom(m, lo, strict, PairAt(es, valid, i))
    ensures es != [] && lo == es[0].key.user && !strict ==> IsFirst(m, PairAt(es, valid, i))
  {
    SortedUsers(es);
    var p := PairAt(es, valid, i);
    forall k | k in m && (if strict then lo < k else lo <= k)
      ensures p.On? && p.key <= k
    {
      var j: nat :| j < |es| && ShownAt(es, s, j) && es[j].key.user == k;
      assert ShownFrom(es, s, lo, strict, j);
    }
  }

  /** `i` is the last entry below `end` that gives a pair. */
  ghost predicate IsLastShown(es: seq<Entry>, s: nat, end: nat, valid: bool, i: nat) {
    && (valid ==> i < end && i < |es| && ShownAt(es, s, i))
    && forall j: nat :: j < end && j < |es| && ShownAt(es, s, j) ==> valid && j <= i
  }

  /** The entries below `end` are the ones that can give pairs before `hi`. */
  ghost predicate Splits(es: seq<Entry>, s: nat, end: nat, hi: UserKey) {
    && (forall j: nat :: j < end && j < |es| ==> es[j].key.user < hi)
    && forall j: nat :: end <= j < |es| && SeenAt(es, s, j) ==> hi <= es[j].key.user
  }

  lemma LastByPosition(es: seq<Entry>, s: nat, m: map<UserKey, Bytes>, end: nat, hi: UserKey, valid: bool, i: nat)
    requires Sorted(es) && Given(es, s, m) && end <= |es| && IsLastShown(es, s, end, valid, i)
    ensures end == |es| ==> IsLast(m, PairAt(es, valid, i))
    ensures Splits(es, s, end, hi) ==> IsLastBefore(m, hi, PairAt(es, valid, i))
  {
  }

  lemma FirstInView(es: seq<Entry>, s: nat, lo: UserKey, strict: bool, valid: bool, i: nat)
    requires Sorted(es) && IsFirstShown(es, s, lo, strict, valid, i)
    ensures IsFirstFrom(View(SetOf(es), s), lo, strict, PairAt(es, valid, i))
    ensures es != [] && lo == es[0].key.user && !strict ==> IsFirst(View(SetOf(es), s), PairAt(es, valid, i))
    ensures es == [] ==> IsFirst(View(SetOf(es), s), Off)
  {
    ViewByPosition(es, s);
    FirstByPosition(es, s, View(SetOf(es), s), lo, strict, valid, i);
  }

  lemma LastInView(es: seq<Entry>, s: nat, end: nat, hi: UserKey, valid: bool, i: nat)
    requires Sorted(es) && end <= |es| && IsLastShown(es, s, end, valid, i)
    ensures end == |es| ==> IsLast(View(SetOf(es), s), PairAt(es, valid, i))
    ensures Splits(es, s, end, hi) ==> IsLastBefore(View(SetOf(es), s), hi, PairAt(es, valid, i))
  {
    ViewByPosition(es, s);
    LastByPosition(es, s, View(SetOf(es), s), end, hi, valid, i);
  }

  /** Everything before the seek position is before the target or too new; nothing after it is before the target. */
  lemma SeekSplits(es: seq<Entry>, s: nat, target: UserKey, p: nat)
    requires Sorted(es) && p <= |es|
    requires forall i :: 0 <= i < p ==> Less(es[i].key, SeekKey(target, s))
    requires forall i :: p <= i < |es| ==> AtMost(SeekKey(target, s), es[i].key)
    ensures forall j: nat :: j < p && SeenAt(es, s, j) ==> es[j].key.user < target
    ensures forall j: nat :: p <= j < |es| ==> target <= es[j].key.user
  {
  }

  /** `hidden` is the last user key that entries `from` to `to` settle, or `lo` when the scan skips it. */
  ghost predicate Hides(es: seq<Entry>, s: nat, from: nat, to: nat, lo: UserKey, skipping: bool, hidden: UserKey) {
    && to <= |es| && lo <= hidden
    && ((skipping && hidden == lo)
        || exists d: nat :: from <= d < to && SeenAt(es, s, d) && es[d].key.user == hidden)
    && forall j: nat :: from <= j < to && SeenAt(es, s, j) ==> es[j].key.user <= hidden
  }

  // ----- the iterator -----

  datatype Direction = Forward | Reverse

  class DBIter {
    const iter: InternalIterator
    const sequence: nat
    var direction: Direction
    var valid: bool
    var savedKey: UserKey
    var savedValue: Bytes
    ghost var at: nat  // the entry that gives the current pair, while valid

    /** Moving forward, the internal iterator stands on the entry that gives the current pair.
        Moving backward, it stands before every visible entry of the current key. */
    ghost predicate Ok()
      reads this, iter
    {
      && iter.Ok()
      && (valid ==>
            && at < |iter.entries| && ShownAt(iter.entries, sequence, at)
            && (direction == Forward ==> at == iter.pos)
            && (direction == Reverse ==>
                  && savedKey == iter.entries[at].key.user && savedValue == iter.entries[at].value
                  && Splits(iter.entries, sequence, Upto(), savedKey)))
    }

    ghost function Visible(): map<UserKey, Bytes> {
      View(SetOf(iter.entries), sequence)
    }

    /** How many entries lie at or before the internal position, an invalid one counting as before all. */
    ghost function Upto(): nat
      reads iter
    {
      if iter.pos < |iter.entries| then iter.pos + 1 else 0
    }

    /** What the client sees: Valid(), key() and value(). */
    function Current(): Position
      reads this, iter
      requires Ok()
    {
      if !valid then Off
      else if direction == Forward then On(iter.entries[iter.pos].key.user, iter.entries[iter.pos].value)
      else On(savedKey, savedValue)
    }

    constructor (iter: InternalIterator, sequence: nat)
      requires iter.Ok()
      ensures Ok() && this.iter == iter && this.sequence == sequence && Current() == Off
    {
      this.iter := iter;
      this.sequence := sequence;
      direction := Forward;
      valid := false;
      savedKey := 0.0;
      savedValue := [];
    }

    /** Move to the first entry at or after the internal position that shows a pair, passing over
        the entries of `skip` when skipping. */
    method FindNextUserEntry(skipping: bool, skip: UserKey, ghost lo: UserKey)
      requires iter.Ok() && iter.Valid() && direction == Forward
      requires skipping ==> skip == lo
      requires forall j: nat :: j < iter.pos && SeenAt(iter.entries, sequence, j) ==>
        if skipping then iter.entries[j].key.user <= lo else iter.entries[j].key.user < lo
      requires forall j: nat :: iter.pos <= j < |iter.entries| && SeenAt(iter.entries, sequence, j) ==>
        lo <= iter.entries[j].key.user
      modifies this, iter
      ensures Ok() && direction == Forward
      ensures IsFirstShown(iter.entries, sequence, lo, skipping, valid, at)
    {
      hide Sorted;
      ghost var es, s, start := iter.entries, sequence, iter.pos;
      SortedUsers(es);
      var hiding, hidden := skipping, skip;
      while iter.Valid()
        invariant iter.Ok() && start <= iter.pos && direction == Forward
        invariant skipping ==> hiding
        invariant !hiding ==> forall j: nat :: start <= j < iter.pos ==> !SeenAt(es, s, j)
        invariant hiding ==> Hides(es, s, start, iter.pos, lo, skipping, hidden)
        invariant forall j: nat :: j < iter.pos ==> !ShownFrom(es, s, lo, skipping, j)
        decreases |es| - iter.pos
      {
        var ikey := iter.Key();
        if ikey.sn <= sequence {
          match ikey.kind {
            case Deletion =>
              hidden := ikey.user;
              hiding := true;
            case Value =>
              if hiding && ikey.user <= hidden {
                // hidden by a newer entry
              } else {
                valid := true;
                savedKey := 0.0;
                at := iter.pos;
                return;
              }
          }
        }
        iter.Next();
      }
      savedKey := 0.0;
      valid := false;
    }

    /** Move to the last pair given by entries at or before the internal position. */
    method FindPrevUserEntry()
      requires iter.Ok() && direction == Reverse
      modifies this, iter
      ensures Ok() && (valid ==> direction == Reverse)
      ensures IsLastShown(iter.entries, sequence, old(Upto()), valid, at)
    {
      hide Sorted;
      var kind := Deletion;
      ghost var es, s, end := iter.entries, sequence, Upto();
      SortedUsers(es);
      if iter.Valid() {
        while true
          invariant iter.Ok() && direction == Reverse && Upto() <= end <= |es|
          invariant kind == Deletion ==> forall j: nat :: Upto() <= j < end ==> !ShownAt(es, s, j)
          invariant kind == Value ==>
            && Upto() <= at < end && SeenAt(es, s, at) && es[at].key.kind == Value
            && es[at].key.user == savedKey && es[at].value == savedValue
            && (forall j: nat :: Upto() <= j < at ==> !SeenAt(es, s, j))
            && forall j: nat :: at < j < end ==> !ShownAt(es, s, j)
          decreases Upto()
        {
          if !iter.Valid() { break; }
          var ikey := iter.Key();
          if ikey.sn <= sequence {
            if kind != Deletion && ikey.user < savedKey {
              break;
            }
            kind := ikey.kind;
            if kind == Deletion {
              savedKey := 0.0;
              savedValue := [];
            } else {
              savedKey := ikey.user;
              savedValue := iter.entries[iter.pos].value;
              at := iter.pos;
            }
          }
          iter.Prev();
        }
      }
      if kind == Deletion {
        valid := false;
        savedKey := 0.0;
        savedValue := [];
        direction := Forward;
      } else {
        valid := true;
      }
    }

    method Seek(target: UserKey)
      requires Ok()
      modifies this, iter
      ensures Ok() && Moves(Visible(), old(Current()), SeekCall(target), Current())
    {
      direction := Forward;
      savedValue := [];
      iter.Seek(SeekKey(target, sequence));
      SeekSplits(iter.entries, sequence, target, iter.pos);
      if iter.Valid() {
        FindNextUserEntry(false, savedKey, target);
      } else {
        valid := false;
      }
      FirstInView(iter.entries, sequence, target, false, valid, at);
    }

    method SeekToFirst()
      requires Ok()
      modifies this, iter
      ensures Ok() && Moves(Visible(), old(Current()), SeekToFirstCall, Current())
    {
      SortedUsers(iter.entries);
      direction := Forward;
      savedValue := [];
      iter.SeekToFirst();
      ghost var lo := if iter.Valid() then iter.Key().user else 0.0;
      if iter.Valid() {
        FindNextUserEntry(false, savedKey, lo);
      } else {
        valid := false;
      }
      FirstInView(iter.entries, sequence, lo, false, valid, at);
    }

    method SeekToLast()
      requires Ok()
      modifies this, iter
      ensures Ok() && Moves(Visible(), old(Current()), SeekToLastCall, Current())
    {
      direction := Reverse;
      savedValue := [];
      iter.SeekToLast();
      FindPrevUserEntry();
      LastInView(iter.entries, sequence, |iter.entries|, 0.0, valid, at);
    }

    method Next()
      requires Ok() && valid
      modifies this, iter
      ensures Ok() && Moves(Visible(), old(Current()), NextCall, Current())
    {
      SortedUsers(iter.entries);
      ghost var key := Current().key;
      if direction == Reverse {
        direction := Forward;
        if !iter.Valid() {
          iter.SeekToFirst();
        } else {
          iter.Next();
        }
        if !iter.Valid() {
          assert false;  // the entries of the current pair lie ahead
        }
      } else {
        savedKey := iter.Key().user;
      }
      FindNextUserEntry(true, savedKey, key);
      FirstInView(iter.entries, sequence, key, true, valid, at);
    }

    method Prev()
      requires Ok() && valid
      modifies this, iter
      ensures Ok() && Moves(Visible(), old(Current()), PrevCall, Current())
    {
      hide Sorted, IsLastShown, View, ShownAt, SeenAt;
      SortedUsers(iter.entries);
      ghost var key := Current().key;
      if direction == Forward {
        savedKey := iter.Key().user;
        while true
          invariant iter.Ok() && iter.Valid() && direction == Forward && valid && at == old(at)
          invariant iter.pos <= old(iter.pos) && savedKey == key
          invariant forall j :: iter.pos <= j < |iter.entries| ==> key <= iter.entries[j].key.user
          decreases iter.pos
        {
          iter.Prev();
          if !iter.Valid() {
            valid := false;
            savedKey := 0.0;
            savedValue := [];
            LastInView(iter.entries, sequence, 0, key, false, at);
            return;
          }
          if iter.Key().user < savedKey {
            break;
          }
        }
        direction := Reverse;
      }
      ghost var end := Upto();
      FindPrevUserEntry();
      LastInView(iter.entries, sequence, end, key, valid, at);
    }
  }

  /** A client's calls, one after another, up to the first that is not allowed, a step from no pair: the positions they
      lead through are those of a cursor over the visible map. */
  method Follow(it: DBIter, cs: seq<Call>) returns (ps: seq<Position>)
    requires it.Ok()
    modifies it, it.iter
    ensures it.Ok() && 0 < |ps| <= |cs| + 1 && ps[0] == old(it.Current()) && ps[|ps| - 1] == it.Current()
    ensures Run(it.Visible(), ps, cs[..|ps| - 1])
    ensures |ps| <= |cs| ==> ps[|ps| - 1] == Off && (cs[|ps| - 1] == NextCall || cs[|ps| - 1] == PrevCall)
  {
    ps := [it.Current()];
    for i := 0 to |cs|
      invariant it.Ok() && |ps| == i + 1 && ps[0] == old(it.Current()) && ps[i] == it.Current()
      invariant forall j :: 0 <= j < i ==> Moves(it.Visible(), ps[j], cs[j], ps[j + 1])
    {
      if (cs[i] == NextCall || cs[i] == PrevCall) && !it.valid {
        return;
      }
      match cs[i] {
        case SeekCall(target) => it.Seek(target);
        case SeekToFirstCall => it.SeekToFirst();
        case SeekToLastCall => it.SeekToLast();
        case NextCall => it.Next();
        case PrevCall => it.Prev();
      }
      ps := ps + [it.Current()];
    }
  }
}
