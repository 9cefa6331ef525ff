/** A version of the tree: files by level, the order it keeps, and point lookups through it. */
module Versions {
  import opened Keys

  const NUM_LEVELS := 7
  const MAX_MEM_COMPACT_LEVEL := 2
  const MAX_SEQUENCE: nat := 0xFF_FFFF_FFFF_FFFF

  /** A table file. Its contents never change, so they are part of it. */
  datatype File = File(number: nat, size: nat, entries: seq<Entry>) {
    ghost predicate Ok() {
      && entries != [] && Sorted(entries)
      && forall i :: 0 <= i < |entries| ==> entries[i].key.sn <= MAX_SEQUENCE
    }

    function Smallest(): InternalKey
      requires entries != []
    {
      entries[0].key
    }

    function Largest(): InternalKey
      requires entries != []
    {
      entries[|entries| - 1].key
    }
  }

  type Level = seq<File>

  ghost predicate FilesOk(fs: Level) {
    forall i :: 0 <= i < |fs| ==> fs[i].Ok()
  }

  /** Levels from 1 down: files ordered and disjoint in internal-key order. */
  ghost predicate Disjoint(fs: Level)
    requires FilesOk(fs)
  {
    forall i, j :: 0 <= i < j < |fs| ==> Less(fs[i].Largest(), fs[j].Smallest())
  }

  ghost function EntriesOf(fs: Level): set<Entry> {
    set f, e | f in fs && e in f.entries :: e
  }

  /** Under every user key, all of `a` is newer than all of `b`. */
  ghost predicate NewerThan(a: set<Entry>, b: set<Entry>) {
    forall x, y :: x in a && y in b && x.key.user == y.key.user ==> Tag(x.key) > Tag(y.key)
  }

  /** In level 0 a higher file number means newer data. */
  ghost predicate NewerByNumber(fs: Level) {
    && (forall i, j :: 0 <= i < |fs| && 0 <= j < |fs| && i != j ==> fs[i].number != fs[j].number)
    && forall f, g :: f in fs && g in fs && f.number > g.number ==> NewerThan(SetOf(f.entries), SetOf(g.entries))
  }

  /** The order every version keeps. */
  ghost predicate TreeOk(v: seq<Level>) {
    ShapeOk(v) && NewerByNumber(v[0]) && Layered(v)
  }

  ghost predicate ShapeOk(v: seq<Level>) {
    && |v| == NUM_LEVELS
    && (forall l :: 0 <= l < |v| ==> FilesOk(v[l]))
    && forall l :: 1 <= l < |v| ==> Disjoint(v[l])
  }

  /** Under every user key, shallower levels hold newer data than deeper ones. */
  ghost predicate Layered(v: seq<Level>) {
    forall a, b :: 0 <= a < b < |v| ==> NewerThan(EntriesOf(v[a]), EntriesOf(v[b]))
  }

  ghost function VersionEntries(v: seq<Level>): set<Entry> {
    set l, e | 0 <= l < |v| && e in EntriesOf(v[l]) :: e
  }

  // ----- answers -----

  /** What one source says about a user key: nothing, a deletion, or a value. */
  datatype Answer = Miss | Gone | Got(value: Bytes)

  ghost predicate Sees(es: set<Entry>, s: nat, k: UserKey) {
    exists e :: e in es && e.key.user == k && e.key.sn <= s
  }

  ghost predicate Answers(es: set<Entry>, s: nat, k: UserKey, r: Answer) {
    match r
    case Miss => !Sees(es, s, k)
    case Gone => exists e :: Newest(es, s, e) && e.key.user == k && e.key.kind == Deletion
    case Got(v) => exists e :: Newest(es, s, e) && e.key.user == k && e.key.kind == Value && e.value == v
  }

  /** Asking newer data first and stopping at the first answer gives the answer of all the data. */
  lemma NewerFirst(a: set<Entry>, b: set<Entry>, s: nat, k: UserKey, r: Answer)
    requires NewerThan(a, b)
    ensures Answers(a, s, k, r) && r != Miss ==> Answers(a + b, s, k, r)
    ensures Answers(a, s, k, Miss) && Answers(b, s, k, r) ==> Answers(a + b, s, k, r)
  {
  }

  /** The answer of all the data is the visible map's. */
  lemma AnswersIsView(es: set<Entry>, s: nat, k: UserKey, r: Answer)
    requires Unique(es) && Answers(es, s, k, r)
    ensures r.Got? <==> k in View(es, s)
    ensures r.Got? ==> View(es, s)[k] == r.value
  {
    match r {
      case Miss =>
        forall v
          ensures !Shows(es, s, k, v)
        {
        }
        if k in View(es, s) {
          ViewShows(es, s, k, View(es, s)[k]);
          assert false;
        }
      case Gone =>
        var e :| Newest(es, s, e) && e.key.user == k && e.key.kind == Deletion;
        if k in View(es, s) {
          ViewShows(es, s, k, View(es, s)[k]);
          var f :| Newest(es, s, f) && f.key.user == k && f.key.kind == Value;
          SameTag(e.key, f.key);
        }
      case Got(v) =>
        ViewShows(es, s, k, v);
    }
  }

  // ----- lookups in one sorted source -----

  /** Seek a sorted run for the lookup key and judge the entry found: memtable lookups, and table
      lookups with their callback, which ignores an entry of another user key. */
  method Lookup(es: seq<Entry>, k: UserKey, s: nat) returns (r: Answer)
    requires Sorted(es)
    ensures Answers(SetOf(es), s, k, r)
  {
    var left, right := 0, |es|;
    while left < right
      invariant 0 <= left <= right <= |es|
      invariant forall i :: 0 <= i < left ==> Less(es[i].key, SeekKey(k, s))
      invariant forall i :: right <= i < |es| ==> AtMost(SeekKey(k, s), es[i].key)
    {
      var mid := (left + right) / 2;
      if Less(es[mid].key, SeekKey(k, s)) {
        left := mid + 1;
      } else {
        right := mid;
      }
    }
    FoundIsNewest(es, k, s, right);
    if right < |es| && es[right].key.user == k {
      r := if es[right].key.kind == Value then Got(es[right].value) else Gone;
    } else {
      r := Miss;
    }
  }

  /** The first entry at or after the lookup key is the newest visible one, if it has the user key. */
  lemma FoundIsNewest(es: seq<Entry>, k: UserKey, s: nat, p: nat)
    requires Sorted(es) && p <= |es|
    requires forall i :: 0 <= i < p ==> Less(es[i].key, SeekKey(k, s))
    requires forall i :: p <= i < |es| ==> AtMost(SeekKey(k, s), es[i].key)
    ensures p < |es| && es[p].key.user == k ==> Newest(SetOf(es), s, es[p])
    ensures !(p < |es| && es[p].key.user == k) ==> !Sees(SetOf(es), s, k)
  {
  }

  // ----- lookups in a level -----

  /** The first file whose largest key is at or after `key`. */
  method FindFile(fs: Level, key: InternalKey) returns (index: nat)
    requires FilesOk(fs) && Disjoint(fs)
    ensures index <= |fs|
    ensures forall i :: 0 <= i < index ==> Less(fs[i].Largest(), key)
    ensures forall i :: index <= i < |fs| ==> AtMost(key, fs[i].Largest())
  {
    var left, right := 0, |fs|;
    while left < right
      invariant 0 <= left <= right <= |fs|
      invariant forall i :: 0 <= i < left ==> Less(fs[i].Largest(), key)
      invariant forall i :: right <= i < |fs| ==> AtMost(key, fs[i].Largest())
    {
      var mid := (left + right) / 2;
      LargestAscend(fs);
      if Less(fs[mid].Largest(), key) {
        left := mid + 1;
      } else {
        right := mid;
      }
    }
    index := right;
  }

  lemma LargestAscend(fs: Level)
    requires FilesOk(fs) && Disjoint(fs)
    ensures forall i, j :: 0 <= i < j < |fs| ==> Less(fs[i].Largest(), fs[j].Largest())
  {
  }

  lemma InRange(f: File, e: Entry)
    requires f.Ok() && e in f.entries
    ensures AtMost(f.Smallest(), e.key) && AtMost(e.key, f.Largest())
  {
  }

  /** The set has an entry of the user key that a reader at `s` sees and that is no older. */
  ghost predicate Bettered(es: set<Entry>, s: nat, e: Entry) {
    exists o :: o in es && o.key.user == e.key.user && o.key.sn <= s && Tag(e.key) <= Tag(o.key)
  }

  lemma NoneAnswers(es: set<Entry>, s: nat, k: UserKey)
    requires forall e :: e in es && e.key.user == k ==> e.key.sn > s
    ensures Answers(es, s, k, Miss)
  {
  }

  /** A part that betters everything answers for the whole. */
  lemma PartAnswers(part: set<Entry>, whole: set<Entry>, s: nat, k: UserKey, r: Answer)
    requires part <= whole && Answers(part, s, k, r)
    requires forall e :: e in whole && e.key.user == k && e.key.sn <= s ==> Bettered(part, s, e)
    ensures Answers(whole, s, k, r)
  {
    hide Newest;
    forall e | Newest(part, s, e) && e.key.user == k
      ensures Newest(whole, s, e)
    {
      NewestOfWhole(part, whole, s, e);
    }
    match r {
      case Miss =>
      case Gone =>
        var e :| Newest(part, s, e) && e.key.user == k && e.key.kind == Deletion;
        assert Newest(whole, s, e);
      case Got(v) =>
        var e :| Newest(part, s, e) && e.key.user == k && e.key.kind == Value && e.value == v;
        assert Newest(whole, s, e);
    }
  }

  lemma NewestOfWhole(part: set<Entry>, whole: set<Entry>, s: nat, e: Entry)
    requires part <= whole && Newest(part, s, e)
    requires forall x :: x in whole && x.key.user == e.key.user && x.key.sn <= s ==> Bettered(part, s, x)
    ensures Newest(whole, s, e)
  {
  }

  /** Whatever the level has for the user key, the file found by binary search has no older. */
  lemma BestInFound(fs: Level, k: UserKey, s: nat, index: nat, e: Entry)
    requires FilesOk(fs) && Disjoint(fs) && index <= |fs|
    requires forall i :: 0 <= i < index ==> Less(fs[i].Largest(), SeekKey(k, s))
    requires forall i :: index <= i < |fs| ==> AtMost(SeekKey(k, s), fs[i].Largest())
    requires e in EntriesOf(fs) && e.key.user == k && e.key.sn <= s
    ensures index < |fs| && fs[index].Smallest().user <= k && Bettered(SetOf(fs[index].entries), s, e)
  {
    var f :| f in fs && e in f.entries;
    var i :| 0 <= i < |fs| && fs[i] == f;
    InRange(f, e);
    assert index <= i;
    var last := fs[index].entries[|fs[index].entries| - 1];
    InRange(fs[index], last);
    if i == index {
      assert e in fs[index].entries;
    } else {
      assert Less(last.key, e.key) && AtMost(SeekKey(k, s), last.key);
      assert last.key.user == k && last.key.sn <= s;
      assert last in SetOf(fs[index].entries);
    }
  }

  /** Only the file the binary search finds can hold a visible entry that is newest in its level,
      even when the user key spans several files. */
  lemma LevelAnswer(fs: Level, k: UserKey, s: nat, index: nat, r: Answer)
    requires FilesOk(fs) && Disjoint(fs) && index <= |fs|
    requires forall i :: 0 <= i < index ==> Less(fs[i].Largest(), SeekKey(k, s))
    requires forall i :: index <= i < |fs| ==> AtMost(SeekKey(k, s), fs[i].Largest())
    ensures index == |fs| || k < fs[index].Smallest().user ==> Answers(EntriesOf(fs), s, k, Miss)
    ensures index < |fs| && Answers(SetOf(fs[index].entries), s, k, r) ==> Answers(EntriesOf(fs), s, k, r)
  {
    hide Disjoint, Less, AtMost, Answers;
    forall e | e in EntriesOf(fs) && e.key.user == k && e.key.sn <= s
      ensures index < |fs| && fs[index].Smallest().user <= k && Bettered(SetOf(fs[index].entries), s, e)
    {
      BestInFound(fs, k, s, index, e);
    }
    if index == |fs| || k < fs[index].Smallest().user {
      NoneAnswers(EntriesOf(fs), s, k);
    }
    if index < |fs| && Answers(SetOf(fs[index].entries), s, k, r) {
      assert SetOf(fs[index].entries) <= EntriesOf(fs) by {
        assert fs[index] in fs;
      }
      PartAnswers(SetOf(fs[index].entries), EntriesOf(fs), s, k, r);
    }
  }

  // ----- lookups in a version -----

  /** The level-0 files whose user-key range holds `k`. */
  method OverlappingZero(fs: Level, k: UserKey) returns (found: Level)
    requires FilesOk(fs)
    ensures forall f :: f in found <==> f in fs && f.Smallest().user <= k <= f.Largest().user
  {
    found := [];
    for i := 0 to |fs|
      invariant forall f :: f in found <==> f in fs[..i] && f.Smallest().user <= k <= f.Largest().user
    {
      if fs[i].Smallest().user <= k && k <= fs[i].Largest().user {
        found := found + [fs[i]];
      }
    }
    assert fs[..|fs|] == fs;
  }

  /** Sort by file number, highest first. */
  method SortNewestFirst(fs: Level) returns (sorted: Level)
    ensures forall f :: f in sorted <==> f in fs
    ensures NewestFirst(sorted)
  {
    sorted := [];
    for n := 0 to |fs|
      invariant forall f :: f in sorted <==> f in fs[..n]
      invariant NewestFirst(sorted)
    {
      sorted := InsertByNumber(sorted, fs[n]);
    }
    assert fs[..|fs|] == fs;
  }

  ghost predicate NewestFirst(fs: Level) {
    forall i, j :: 0 <= i < j < |fs| ==> fs[i].number >= fs[j].number
  }

  method InsertByNumber(fs: Level, f: File) returns (r: Level)
    requires NewestFirst(fs)
    ensures NewestFirst(r) && forall g :: g in r <==> g in fs || g == f
  {
    var p := 0;
    while p < |fs| && fs[p].number >= f.number
      invariant 0 <= p <= |fs|
      invariant forall i :: 0 <= i < p ==> fs[i].number >= f.number
    {
      p := p + 1;
    }
    r := fs[..p] + [f] + fs[p..];
    InsertedInOrder(fs, f, p);
  }

  lemma InsertedInOrder(fs: Level, f: File, p: nat)
    requires NewestFirst(fs) && p <= |fs|
    requires forall i :: 0 <= i < p ==> fs[i].number >= f.number
    requires p < |fs| ==> fs[p].number < f.number
    ensures NewestFirst(fs[..p] + [f] + fs[p..])
    ensures forall g :: g in fs[..p] + [f] + fs[p..] <==> g in fs || g == f
  {
  }

  /** Version::Get: level 0 newest file first, then one file of each deeper level. */
  method Get(v: seq<Level>, k: UserKey, s: nat) returns (r: Answer)
    requires TreeOk(v)
    ensures Answers(VersionEntries(v), s, k, r)
  {
    for level := 0 to NUM_LEVELS
      invariant Answers(EntriesAbove(v, level), s, k, Miss)
    {
      r := GetFromLevel(v[level], level, k, s);
      LevelStep(v, level, k, s, r);
      if r != Miss {
        return;
      }
    }
    assert VersionEntries(v) == EntriesAbove(v, NUM_LEVELS);
    r := Miss;
  }

  method GetFromLevel(fs: Level, level: nat, k: UserKey, s: nat) returns (r: Answer)
    requires FilesOk(fs) && (level == 0 ==> NewerByNumber(fs)) && (level > 0 ==> Disjoint(fs))
    ensures Answers(EntriesOf(fs), s, k, r)
  {
    r := Miss;
    if fs == [] {
    } else if level == 0 {
      r := GetFromZero(fs, k, s);
    } else {
      var index := FindFile(fs, SeekKey(k, s));
      if index < |fs| && fs[index].Smallest().user <= k {
        r := Lookup(fs[index].entries, k, s);
      }
      LevelAnswer(fs, k, s, index, r);
    }
  }

  ghost function EntriesAbove(v: seq<Level>, level: nat): set<Entry> {
    set l, e | 0 <= l < |v| && l < level && e in EntriesOf(v[l]) :: e
  }

  /** Entries never hop over a level, so an answer from a shallower level is final. */
  lemma LevelStep(v: seq<Level>, level: nat, k: UserKey, s: nat, r: Answer)
    requires Layered(v) && level < |v|
    requires Answers(EntriesAbove(v, level), s, k, Miss) && Answers(EntriesOf(v[level]), s, k, r)
    ensures r == Miss ==> Answers(EntriesAbove(v, level + 1), s, k, Miss)
    ensures r != Miss ==> Answers(VersionEntries(v), s, k, r)
  {
  }

  method GetFromZero(fs: Level, k: UserKey, s: nat) returns (r: Answer)
    requires FilesOk(fs) && NewerByNumber(fs)
    ensures Answers(EntriesOf(fs), s, k, r)
  {
    hide Newest, NewerByNumber, EntriesOf, SetOf, Sees;
    var found := OverlappingZero(fs, k);
    found := SortNewestFirst(found);
    FoundHoldsKey(fs, found, k);
    for i := 0 to |found|
      invariant NoneSees(found[..i], s, k)
    {
      ghost var f := found[i];
      assert f in found;
      assert f in fs && f.Ok();
      r := Lookup(found[i].entries, k, s);
      if r != Miss {
        ZeroHit(fs, found, i, k, s, r);
        return;
      }
      assert found[..i + 1] == found[..i] + [f];
    }
    assert found[..|found|] == found;
    ZeroMiss(fs, found, k, s);
    r := Miss;
  }

  lemma ZeroMiss(fs: Level, found: Level, k: UserKey, s: nat)
    requires forall e :: e in EntriesOf(fs) && e.key.user == k ==> InOneOf(found, e)
    requires NoneSees(found, s, k)
    ensures !Sees(EntriesOf(fs), s, k)
  {
  }

  ghost predicate NoneSees(found: Level, s: nat, k: UserKey) {
    forall f :: f in found ==> !Sees(SetOf(f.entries), s, k)
  }

  ghost predicate InOneOf(found: Level, e: Entry) {
    exists i :: 0 <= i < |found| && e in found[i].entries
  }

  lemma FoundHoldsKey(fs: Level, found: Level, k: UserKey)
    requires FilesOk(fs)
    requires forall f :: f in found <==> f in fs && f.Smallest().user <= k <= f.Largest().user
    ensures forall e :: e in EntriesOf(fs) && e.key.user == k ==> InOneOf(found, e)
  {
  }

  /** The first hit in order of file number is the newest entry of the level. */
  lemma ZeroHit(fs: Level, found: Level, i: nat, k: UserKey, s: nat, r: Answer)
    requires NewerByNumber(fs) && NewestFirst(found) && i < |found|
    requires forall j :: 0 <= j < |found| ==> found[j] in fs
    requires forall e :: e in EntriesOf(fs) && e.key.user == k ==> InOneOf(found, e)
    requires NoneSees(found[..i], s, k)
    requires r != Miss && Answers(SetOf(found[i].entries), s, k, r)
    ensures Answers(EntriesOf(fs), s, k, r)
  {
    var f := found[i];
    var e :| Newest(SetOf(f.entries), s, e) && e.key.user == k && (r == Gone ==> e.key.kind == Deletion) &&
      (r.Got? ==> e.key.kind == Value && e.value == r.value);
    assert f in fs && e in EntriesOf(fs);
    forall o | o in EntriesOf(fs) && o.key.user == k && o.key.sn <= s
      ensures Tag(o.key) <= Tag(e.key)
    {
      assert InOneOf(found, o);
      var j :| 0 <= j < |found| && o in found[j].entries;
      assert o in SetOf(found[j].entries);
      LaterIsOlder(fs, found, i, j, e, o);
    }
  }

  /** Among files sorted newest first, what follows holds older data, or is the same file. */
  lemma LaterIsOlder(fs: Level, found: Level, i: nat, j: nat, e: Entry, o: Entry)
    requires NewerByNumber(fs) && NewestFirst(found) && i <= j < |found| && found[i] in fs && found[j] in fs
    requires e in found[i].entries && o in found[j].entries && o.key.user == e.key.user
    ensures found[i] == found[j] || Tag(o.key) < Tag(e.key)
  {
  }

  lemma SameNumber(fs: Level, f: File, g: File)
    requires NewerByNumber(fs) && f in fs && g in fs && f != g
    ensures f.number != g.number
  {
  }

  // ----- lookups in the database -----

  /** DBImpl::Get: the memtable, then the immutable memtable if there is one, then the version. */
  method GetFromDb(mem: seq<Entry>, imm: seq<Entry>, hasImm: bool, v: seq<Level>, k: UserKey, s: nat)
    returns (found: bool, value: Bytes)
    requires Sorted(mem) && Sorted(imm) && TreeOk(v) && (!hasImm ==> imm == [])
    requires NewerThan(SetOf(mem), SetOf(imm) + VersionEntries(v)) && NewerThan(SetOf(imm), VersionEntries(v))
    requires Unique(SetOf(mem) + SetOf(imm) + VersionEntries(v))
    ensures found <==> k in View(SetOf(mem) + SetOf(imm) + VersionEntries(v), s)
    ensures found ==> value == View(SetOf(mem) + SetOf(imm) + VersionEntries(v), s)[k]
  {
    var r := Lookup(mem, k, s);
    ghost var first := r;
    if r == Miss && hasImm {
      r := Lookup(imm, k, s);
    }
    ghost var second := if hasImm then r else Miss;
    if r == Miss {
      r := Get(v, k, s);
    }
    ghost var older := SetOf(imm) + VersionEntries(v);
    if first == Miss {
      NewerFirst(SetOf(imm), VersionEntries(v), s, k, r);
    }
    NewerFirst(SetOf(mem), older, s, k, r);
    assert SetOf(mem) + SetOf(imm) + VersionEntries(v) == SetOf(mem) + older;
    AnswersIsView(SetOf(mem) + older, s, k, r);
    found := r.Got?;
    value := if r.Got? then r.value else [];
  }
}
