/** Byte strings, the default comparator, internal keys and the visible map of a set of entries. */
module Keys {
  type Byte = x: int | 0 <= x < 256
  type Bytes = seq<Byte>

  // ----- the bytewise comparator -----

  /** BytewiseComparator: compare the common prefix, then the shorter string comes first. */
  predicate BytesLess(a: Bytes, b: Bytes)
    decreases |a|
  {
    b != [] && (a == [] || a[0] < b[0] || (a[0] == b[0] && BytesLess(a[1..], b[1..])))
  }

  /** A position on the real line for every byte string: base-257 digits, each digit one more than its byte. */
  function Rank(k: Bytes): (r: real)
    ensures 0.0 <= r < 1.0
  {
    if k == [] then 0.0 else (k[0] as real + 1.0 + Rank(k[1..])) / 257.0
  }

  /** The bytewise order is the order of ranks, so it is total, and everything proved about
      keys on the real line holds of byte strings under that comparator. */
  lemma {:induction false} RankEmbeds(a: Bytes, b: Bytes)
    ensures BytesLess(a, b) <==> Rank(a) < Rank(b)
    ensures a == b <==> Rank(a) == Rank(b)
    decreases |a|
  {
    if a != [] && b != [] {
      RankEmbeds(a[1..], b[1..]);
      assert a == b <==> a[0] == b[0] && a[1..] == b[1..] by {
        assert a == [a[0]] + a[1..] && b == [b[0]] + b[1..];
      }
    }
  }

  // ----- internal keys -----

  /** A user key, given by its place in the comparator's order. */
  type UserKey = real

  datatype ValueType = Deletion | Value

  /** A user key stamped with a sequence number and a type. */
  datatype InternalKey = InternalKey(user: UserKey, sn: nat, kind: ValueType)

  function TypeCode(t: ValueType): nat {
    if t == Value then 1 else 0
  }

  /** The 64-bit trailer of an internal key: sequence number and type packed together. */
  function Tag(k: InternalKey): nat {
    256 * k.sn + TypeCode(k.kind)
  }

  /** InternalKeyComparator: user keys ascending, then trailers descending. */
  predicate Less(a: InternalKey, b: InternalKey) {
    a.user < b.user || (a.user == b.user && Tag(a) > Tag(b))
  }

  predicate AtMost(a: InternalKey, b: InternalKey) {
    !Less(b, a)
  }

  /** The earliest internal key of `user` a reader at sequence `s` may see. */
  function SeekKey(user: UserKey, s: nat): InternalKey {
    InternalKey(user, s, Value)
  }

  datatype Entry = Entry(key: InternalKey, value: Bytes)

  predicate Sorted(es: seq<Entry>) {
    forall i, j :: 0 <= i < j < |es| ==> Less(es[i].key, es[j].key)
  }

  // ----- the visible map -----

  /** No two entries of the set carry the same internal key. */
  ghost predicate Unique(es: set<Entry>) {
    forall a, b :: a in es && b in es && a.key == b.key ==> a == b
  }

  /** `e` is the newest entry for its user key among those a reader at `s` may see. */
  ghost predicate Newest(es: set<Entry>, s: nat, e: Entry) {
    && e in es && e.key.sn <= s
    && forall o :: o in es && o.key.user == e.key.user && o.key.sn <= s ==> Tag(o.key) <= Tag(e.key)
  }

  /** `k` reads as `v` at snapshot `s`. */
  ghost predicate Shows(es: set<Entry>, s: nat, k: UserKey, v: Bytes) {
    exists e :: Newest(es, s, e) && e.key.user == k && e.key.kind == Value && e.value == v
  }

  ghost predicate Has(es: set<Entry>, s: nat, k: UserKey) {
    exists e :: Newest(es, s, e) && e.key.user == k && e.key.kind == Value
  }

  ghost function ValueAt(es: set<Entry>, s: nat, k: UserKey): Bytes
    requires Has(es, s, k)
  {
    var e :| Newest(es, s, e) && e.key.user == k && e.key.kind == Value;
    e.value
  }

  /** The map a reader at snapshot `s` sees: the newest entry of each user key, deletions removed. */
  ghost function View(es: set<Entry>, s: nat): map<UserKey, Bytes> {
    map e | e in es && Has(es, s, e.key.user) :: e.key.user := ValueAt(es, s, e.key.user)
  }

  /** The map comprehension says what the predicate says. */
  lemma ViewShows(es: set<Entry>, s: nat, k: UserKey, v: Bytes)
    requires Unique(es)
    ensures Shows(es, s, k, v) <==> (k in View(es, s) && View(es, s)[k] == v)
  {
  }

  /** The packed trailer loses nothing: keys of one user key with one trailer are one key. */
  lemma SameTag(a: InternalKey, b: InternalKey)
    requires a.user == b.user && Tag(a) == Tag(b)
    ensures a == b
  {
  }

  ghost function SetOf(es: seq<Entry>): set<Entry> {
    set e | e in es
  }
}
