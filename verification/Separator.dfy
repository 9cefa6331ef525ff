/** Internal keys as bytes, their order, and the short keys the table index puts between blocks. */
module Separators {
  import opened Keys
  import opened Wire
  import opened Blocks

  // ----- the bytewise order -----

  lemma BytesTransitive(a: Bytes, b: Bytes, c: Bytes)
    requires BytesLess(a, b) && BytesLess(b, c)
    ensures BytesLess(a, c)
  {
  }

  lemma BytesTotal(a: Bytes, b: Bytes)
    ensures (BytesLess(a, b) && a != b && !BytesLess(b, a)) || (!BytesLess(a, b) && a == b && !BytesLess(b, a))
      || (!BytesLess(a, b) && a != b && BytesLess(b, a))
  {
  }

  /** After a common beginning, the rest decides. */
  lemma {:induction false} LessAfter(p: Bytes, a: Bytes, b: Bytes)
    ensures BytesLess(p + a, p + b) <==> BytesLess(a, b)
  {
    if p == [] {
      assert p + a == a && p + b == b;
    } else {
      LessAfter(p[1..], a, b);
      assert (p + a)[1..] == p[1..] + a && (p + b)[1..] == p[1..] + b;
    }
  }

  // ----- short keys between two keys -----

  /** FindShortestSeparator: the first byte that differs, raised by one, if that stays below the limit. */
  function Separator(start: Bytes, limit: Bytes): Bytes {
    var d := Common(start, limit);
    if d < |start| && d < |limit| && start[d] < 0xFF
      && start[d] as int + 1 < limit[d] then start[..d] + [start[d] + 1] else start
  }

  /** FindShortSuccessor: the first byte that can be raised, raised. */
  function Successor(key: Bytes): Bytes {
    if key == [] then []
    else if key[0] != 0xFF then [key[0] + 1]
    else [key[0]] + Successor(key[1..])
  }

  lemma SeparatorBetween(start: Bytes, limit: Bytes)
    requires BytesLess(start, limit)
    ensures var s := Separator(start, limit);
      |s| <= |start| && (s == start || BytesLess(start, s)) && BytesLess(s, limit)
  {
    var d, s := Common(start, limit), Separator(start, limit);
    if s != start {
      var p := start[..d];
      assert start == p + start[d..] && limit == p + limit[d..] && s == p + [start[d] + 1];
      LessAfter(p, start[d..], [start[d] + 1]);
      LessAfter(p, [start[d] + 1], limit[d..]);
    }
  }

  lemma {:induction false} SuccessorAfter(key: Bytes)
    ensures var s := Successor(key); |s| <= |key| && (s == key || BytesLess(key, s))
  {
    if key != [] && key[0] == 0xFF {
      SuccessorAfter(key[1..]);
    }
  }

  /** A string no longer than a common beginning comes before both continuations of it, or after both. */
  lemma {:induction false} ShortOutside(p: Bytes, a: Bytes, b: Bytes, t: Bytes)
    requires |t| <= |p| && a != [] && b != []
    ensures BytesLess(t, p + a) <==> BytesLess(t, p + b)
    decreases |p|
  {
    if t != [] && t[0] == p[0] {
      ShortOutside(p[1..], a, b, t[1..]);
      assert (p + a)[1..] == p[1..] + a && (p + b)[1..] == p[1..] + b;
    }
  }

  /** Where the keys first differ, at `d`, the byte decides: with room for a byte in between the separator ends there,
      and no key that separates them is shorter; without, the key stays as it is. */
  lemma SeparatorShortens(start: Bytes, limit: Bytes, d: nat, t: Bytes)
    requires d < |start| && d < |limit| && start[..d] == limit[..d] && start[d] < limit[d]
    ensures var s := Separator(start, limit);
      s == (if start[d] as int + 1 < limit[d] then start[..d] + [start[d] + 1] else start)
    ensures !BytesLess(t, start) && BytesLess(t, limit) ==> |t| > d
  {
    var p := start[..d];
    assert start == p + start[d..] && limit == p + limit[d..];
    CommonIs(start, limit, d);
    if |t| <= d {
      ShortOutside(p, start[d..], limit[d..], t);
    }
  }

  lemma {:induction false} CommonIs(a: Bytes, b: Bytes, d: nat)
    requires d < |a| && d < |b| && a[..d] == b[..d] && a[d] != b[d]
    ensures Common(a, b) == d
  {
    if d > 0 {
      assert a[0] == a[..d][0] && b[0] == b[..d][0];
      assert a[1..][..d - 1] == a[..d][1..] && b[1..][..d - 1] == b[..d][1..];
      CommonIs(a[1..], b[1..], d - 1);
    }
  }

  /** No key at or after is shorter. */
  lemma {:induction false} SuccessorShortest(key: Bytes, t: Bytes)
    requires !BytesLess(t, key)
    ensures |Successor(key)| <= |t|
    decreases |key|
  {
    if key != [] && key[0] == 0xFF {
      SuccessorShortest(key[1..], t[1..]);
    }
  }

  method FindShortestSeparator(start: Bytes, limit: Bytes) returns (s: Bytes)
    ensures s == Separator(start, limit)
  {
    s := start;
    var minLength := if |start| < |limit| then |start| else |limit|;
    var diff := CommonLength(start, limit);
    if diff < minLength {
      var byte := start[diff];
      if byte < 0xFF && byte as int + 1 < limit[diff] {
        s := start[..diff] + [byte + 1];
      }
    }
  }

  method FindShortSuccessor(key: Bytes) returns (s: Bytes)
    ensures s == Successor(key)
  {
    for i := 0 to |key|
      invariant forall j :: 0 <= j < i ==> key[j] == 0xFF
      invariant Successor(key) == key[..i] + Successor(key[i..])
    {
      if key[i] != 0xFF {
        return key[..i] + [key[i] + 1];
      }
      assert key[i..][1..] == key[i + 1..];
      assert key[..i] + ([key[i]] + Successor(key[i + 1..])) == key[..i + 1] + Successor(key[i + 1..]);
    }
    assert key[..|key|] + [] == key;
    s := key;
  }

  // ----- internal keys as bytes -----

  /** The user key: all but the last eight bytes. */
  function User(k: Bytes): (u: Bytes)
    ensures |u| == if |k| < 8 then |k| else |k| - 8
  {
    if |k| < 8 then k else k[..|k| - 8]
  }

  function Trailer64(k: Bytes): nat {
    if |k| < 8 then 0 else Number64(k[|k| - 8..])
  }

  /** InternalKeyComparator on bytes. Only strings of eight bytes or more are internal keys. */
  predicate RawLess(a: Bytes, b: Bytes) {
    BytesLess(User(a), User(b)) || (User(a) == User(b) && Trailer64(a) > Trailer64(b))
  }

  predicate IsRawKey(k: Bytes) {
    |k| >= 8
  }

  /** AppendInternalKey */
  function RawKey(user: Bytes, sn: nat, kind: ValueType): Bytes {
    user + Fixed64(256 * sn + TypeCode(kind))
  }

  const MAX_TRAILER: nat := 0xFFFF_FFFF_FFFF_FF01

  lemma RawKeyParts(user: Bytes, n: nat)
    requires n < TWO64
    ensures var k := user + Fixed64(n); IsRawKey(k) && User(k) == user && Trailer64(k) == n
  {
    hide Fixed64, Number64;
    Fixed64RoundTrip(n);
    assert (user + Fixed64(n))[|user|..] == Fixed64(n);
  }

  /** The order of internal keys as bytes is the order of the internal keys they stand for. */
  lemma RawOrder(a: Bytes, x: InternalKey, b: Bytes, y: InternalKey)
    requires x.sn < 0x100_0000_0000_0000 && y.sn < 0x100_0000_0000_0000
    requires x.user == Rank(a) && y.user == Rank(b)
    ensures RawLess(RawKey(a, x.sn, x.kind), RawKey(b, y.sn, y.kind)) <==> Less(x, y)
  {
    hide Fixed64, Rank, BytesLess, Number64, User, Trailer64;
    RawKeyParts(a, Tag(x));
    RawKeyParts(b, Tag(y));
    RankEmbeds(a, b);
    assert RawKey(a, x.sn, x.kind) == a + Fixed64(Tag(x)) && RawKey(b, y.sn, y.kind) == b + Fixed64(Tag(y));
  }

  /** The bytes are those of the internal key. */
  ghost predicate StandsFor(b: Bytes, k: InternalKey) {
    exists user: Bytes :: k.user == Rank(user) && b == RawKey(user, k.sn, k.kind)
  }

  lemma StandInOrder(a: Bytes, x: InternalKey, b: Bytes, y: InternalKey)
    requires StandsFor(a, x) && StandsFor(b, y) && x.sn < 0x100_0000_0000_0000 && y.sn < 0x100_0000_0000_0000
    ensures RawLess(a, b) <==> Less(x, y)
  {
    var u: Bytes :| x.user == Rank(u) && a == RawKey(u, x.sn, x.kind);
    var v: Bytes :| y.user == Rank(v) && b == RawKey(v, y.sn, y.kind);
    RawOrder(u, x, v, y);
  }

  lemma RawTransitive(a: Bytes, b: Bytes, c: Bytes)
    requires RawLess(a, b) && RawLess(b, c)
    ensures RawLess(a, c)
  {
    if BytesLess(User(a), User(b)) && BytesLess(User(b), User(c)) {
      BytesTransitive(User(a), User(b), User(c));
    }
  }

  /** InternalKeyComparator::FindShortestSeparator */
  function RawSeparator(start: Bytes, limit: Bytes): Bytes {
    var tmp := Separator(User(start), User(limit));
    if |tmp| < |User(start)| && BytesLess(User(start), tmp) then tmp + Fixed64(MAX_TRAILER) else start
  }

  /** InternalKeyComparator::FindShortSuccessor */
  function RawSuccessor(key: Bytes): Bytes {
    var tmp := Successor(User(key));
    if |tmp| < |User(key)| && BytesLess(User(key), tmp) then tmp + Fixed64(MAX_TRAILER) else key
  }

  method FindRawSeparator(start: Bytes, limit: Bytes) returns (s: Bytes)
    ensures s == RawSeparator(start, limit)
  {
    var tmp := FindShortestSeparator(User(start), User(limit));
    if |tmp| < |User(start)| && BytesLess(User(start), tmp) {
      tmp := tmp + Fixed64(MAX_TRAILER);
      return tmp;
    }
    s := start;
  }

  method FindRawSuccessor(key: Bytes) returns (s: Bytes)
    ensures s == RawSuccessor(key)
  {
    var tmp := FindShortSuccessor(User(key));
    if |tmp| < |User(key)| && BytesLess(User(key), tmp) {
      tmp := tmp + Fixed64(MAX_TRAILER);
      return tmp;
    }
    s := key;
  }

  /** A separator is at or after the first key and before the second. */
  lemma RawSeparatorBetween(start: Bytes, limit: Bytes)
    requires IsRawKey(start) && IsRawKey(limit) && RawLess(start, limit)
    ensures var s := RawSeparator(start, limit); IsRawKey(s) && (s == start || RawLess(start, s)) && RawLess(s, limit)
    ensures |RawSeparator(start, limit)| <= |start|
  {
    hide Separator, Fixed64, BytesLess, User, Trailer64;
    var tmp := Separator(User(start), User(limit));
    if |tmp| < |User(start)| && BytesLess(User(start), tmp) {
      RawKeyParts(tmp, MAX_TRAILER);
      Fixed64Size(MAX_TRAILER);
      if User(start) == User(limit) {
        SameSeparator(User(start));
        assert false;
      }
      SeparatorBetween(User(start), User(limit));
    }
  }

  /** Where the user keys first differ, at `d`, with room for a byte in between and more of the first key behind: the
      separator ends there, with the trailer that sorts before all others of its user key; else it is the first key. */
  lemma RawSeparatorShortens(start: Bytes, limit: Bytes, d: nat)
    requires d < |User(start)| && d < |User(limit)| && User(start)[..d] == User(limit)[..d]
    requires User(start)[d] < User(limit)[d]
    ensures RawSeparator(start, limit) ==
      if User(start)[d] as int + 1 < User(limit)[d] && d + 1 < |User(start)|
      then User(start)[..d] + [User(start)[d] + 1] + [1, 0xFF, 0xFF, 0xFF, 0xFF, 0xFF, 0xFF, 0xFF]
      else start
  {
    hide Separator, Fixed64;
    var a, b := User(start), User(limit);
    SeparatorShortens(a, b, d, []);
    TrailerBytes();
    if a[d] as int + 1 < b[d] {
      assert a == a[..d] + a[d..];
      LessAfter(a[..d], a[d..], [a[d] + 1]);
    }
  }

  lemma TrailerBytes()
    ensures Fixed64(MAX_TRAILER) == [1, 0xFF, 0xFF, 0xFF, 0xFF, 0xFF, 0xFF, 0xFF]
  {
    assert MAX_TRAILER % TWO32 == 0xFFFF_FF01 && MAX_TRAILER / TWO32 % TWO32 == 0xFFFF_FFFF;
  }

  /** A separator other than the first key has a user key strictly between, so not the second key's. */
  lemma SeparatorUser(start: Bytes, limit: Bytes)
    requires IsRawKey(start) && IsRawKey(limit) && RawLess(start, limit)
    ensures var s := RawSeparator(start, limit); s == start || User(s) != User(limit)
  {
  }

  lemma SameSeparator(k: Bytes)
    ensures Separator(k, k) == k
  {
  }

  lemma Fixed64Size(n: nat)
    ensures |Fixed64(n)| == 8
  {
  }

  lemma RawSuccessorAfter(key: Bytes)
    requires IsRawKey(key)
    ensures var s := RawSuccessor(key); IsRawKey(s) && (s == key || RawLess(key, s)) && |s| <= |key|
  {
  }
}
