/** Bloom filters: bits set for each key, and a test that no such key fails. */
module Bloom {
  import opened Keys
  import opened Wire

  // ----- bits -----

  /** Bit `b` of a number. */
  predicate BitSet(n: nat, b: nat) {
    if b == 0 then n % 2 == 1 else BitSet(n / 2, b - 1)
  }

  /** A bitwise or has the bits of both. */
  lemma {:induction false} OrBits(x: nat, y: nat, b: nat)
    ensures BitSet(Or(x, y), b) <==> BitSet(x, b) || BitSet(y, b)
    decreases b
  {
    if x == 0 || y == 0 {
      NoBits(b);
    } else if b > 0 {
      OrBits(x / 2, y / 2, b - 1);
    }
  }

  lemma {:induction false} NoBits(b: nat)
    ensures !BitSet(0, b)
  {
    if b > 0 {
      NoBits(b - 1);
    }
  }

  lemma {:induction false} OneBit(b: nat, c: nat)
    ensures BitSet(Pow2(b), c) <==> c == b
  {
    if b > 0 && c > 0 {
      OneBit(b - 1, c - 1);
    } else if c > 0 {
      NoBits(c - 1);
    }
  }

  // ----- probes -----

  /** The hash function; nothing here depends on which one it is. */
  type Word = n: int | 0 <= n < TWO32
  type Hash = Bytes -> Word

  /** Rotate right by 17 bits. */
  function Delta(h: Word): Word {
    h / 0x2_0000 + h % 0x2_0000 * 0x8000
  }

  /** The hash value of probe `j`. */
  function Probe(h: Word, j: nat): Word {
    if j == 0 then h else (Probe(h, j - 1) + Delta(h)) % TWO32
  }

  /** The bit of probe `j` in a filter of `bits` bits. */
  function Place(h: Word, j: nat, bits: nat): nat
    requires bits > 0
  {
    Probe(h, j) % bits
  }

  /** The low bits of a sum of two parts are those of the low part, the high ones those of the high part. */
  lemma {:induction false} PartBits(x: nat, y: nat, m: nat, b: nat)
    requires x < Pow2(m)
    ensures BitSet(x + y * Pow2(m), b) <==> if b < m then BitSet(x, b) else BitSet(y, b - m)
    decreases m
  {
    if m > 0 {
      assert y * Pow2(m) == 2 * (y * Pow2(m - 1));
      if b > 0 {
        PartBits(x / 2, y, m - 1, b - 1);
      }
    }
  }

  lemma SmallPowers()
    ensures Pow2(15) == 0x8000 && Pow2(17) == 0x2_0000
  {
    assert Pow2(5) == 32 && Pow2(10) == 1024;
  }

  /** Bit `b` of the rotated number is bit `b + 17` of the number, past the top from the bottom again. */
  lemma RotatesBy17(h: Word, b: nat)
    requires b < 32
    ensures BitSet(Delta(h), b) <==> BitSet(h, (b + 17) % 32)
  {
    hide BitSet, Pow2;
    var high, low := h / 0x2_0000, h % 0x2_0000;
    SmallPowers();
    PartBits(high, low, 15, b);
    PartBits(low, high, 17, (b + 17) % 32);
  }

  predicate Marked(a: Bytes, p: nat) {
    p / 8 < |a| && BitSet(a[p / 8], p % 8)
  }

  /** Probe `j` of a hash value finds its bit marked. */
  predicate ProbeMarked(a: Bytes, h: Word, j: nat) {
    a != [] && Marked(a, Place(h, j, 8 * |a|))
  }

  predicate AllMarked(a: Bytes, h: Word, k: nat) {
    forall j :: 0 <= j < k ==> ProbeMarked(a, h, j)
  }

  // ----- the policy -----

  /** Setting one bit of the array, and no other. */
  method Mark(a: array<Byte>, p: nat)
    requires p / 8 < a.Length
    modifies a
    ensures forall q: nat :: Marked(a[..], q) <==> Marked(old(a[..]), q) || q == p
  {
    hide BitSet, Or, Pow2;
    var was := a[p / 8];
    ghost var before := a[..];
    BitFits(p % 8);
    OrFits(was, Pow2(p % 8), 8);
    a[p / 8] := Or(was, Pow2(p % 8));
    forall q: nat
      ensures Marked(a[..], q) <==> Marked(before, q) || q == p
    {
      OneBit(p % 8, q % 8);
      OrBits(was, Pow2(p % 8), q % 8);
    }
  }

  lemma BitFits(b: nat)
    requires b < 8
    ensures Pow2(b) < Pow2(8) == 256
  {
  }

  lemma {:induction false} PowersGrow(a: nat, b: nat)
    requires a <= b
    ensures Pow2(a) <= Pow2(b)
  {
    if a < b {
      PowersGrow(a, b - 1);
    }
  }

  /** Bit `p` is one of the first `k` probes of the hash value. */
  ghost predicate IsProbe(h: Word, k: nat, bits: nat, p: nat)
    requires bits > 0
  {
    exists j :: 0 <= j < k && p == Place(h, j, bits)
  }

  /** A filter without its last byte, which holds the number of probes; and how many bits that is. */
  function Array(filter: Bytes): Bytes
    requires filter != []
  {
    filter[..|filter| - 1]
  }

  function ArrayBits(filter: Bytes): nat
    requires filter != []
  {
    8 * (|filter| - 1)
  }

  /** Bit `p` is a probe of one of the keys. */
  ghost predicate ProbedBy(hash: Hash, keys: set<Bytes>, k: nat, bits: nat, p: nat)
    requires bits > 0
  {
    exists key :: key in keys && IsProbe(hash(key), k, bits, p)
  }

  ghost function KeySet(keys: seq<Bytes>): set<Bytes> {
    set key | key in keys
  }

  /** The filter has exactly the probes of the keys marked, and says how many probes a key has. */
  ghost predicate MadeFor(hash: Hash, k: nat, filter: Bytes, keys: set<Bytes>) {
    && |filter| >= 2 && filter[|filter| - 1] == k
    && forall p: nat :: Marked(Array(filter), p) <==> ProbedBy(hash, keys, k, ArrayBits(filter), p)
  }

  lemma OneMoreProbe(h: Word, j: nat, bits: nat, p: nat)
    requires bits > 0
    ensures IsProbe(h, j + 1, bits, p) <==> IsProbe(h, j, bits, p) || p == Place(h, j, bits)
  {
  }

  /** The probes of one key: after each the hash value moves on by its rotation. */
  method AddKey(a: array<Byte>, first: Word, k: nat)
    requires a.Length > 0
    modifies a
    ensures forall p: nat :: Marked(a[..], p) <==> Marked(old(a[..]), p) || IsProbe(first, k, 8 * a.Length, p)
    ensures AllMarked(a[..], first, k)
  {
    hide BitSet, Marked, Delta, Place, IsProbe;
    var h := first;
    var delta := Delta(first);
    NoProbes(first, 8 * a.Length);
    for j := 0 to k
      invariant h == Probe(first, j)
      invariant forall p: nat :: Marked(a[..], p) <==> Marked(old(a[..]), p) || IsProbe(first, j, 8 * a.Length, p)
    {
      ghost var before := a[..];
      var bitpos := h % (8 * a.Length);
      PlaceIs(first, j, 8 * a.Length);
      Mark(a, bitpos);
      forall p: nat
        ensures Marked(a[..], p) <==> Marked(old(a[..]), p) || IsProbe(first, j + 1, 8 * a.Length, p)
      {
        OneMoreProbe(first, j, 8 * a.Length, p);
      }
      h := (h + delta) % TWO32;
    }
    ProbesMarked(a[..], first, k);
  }

  lemma NoProbes(h: Word, bits: nat)
    requires bits > 0
    ensures forall p :: !IsProbe(h, 0, bits, p)
  {
  }

  lemma PlaceIs(h: Word, j: nat, bits: nat)
    requires bits > 0
    ensures Place(h, j, bits) == Probe(h, j) % bits
  {
  }

  lemma ProbesMarked(a: Bytes, h: Word, k: nat)
    requires a != [] && forall p: nat :: IsProbe(h, k, 8 * |a|, p) ==> Marked(a, p)
    ensures AllMarked(a, h, k)
  {
    hide Place, Marked;
    forall j | 0 <= j < k
      ensures ProbeMarked(a, h, j)
    {
      assert IsProbe(h, k, 8 * |a|, Place(h, j, 8 * |a|));
    }
  }

  lemma Blank(a: Bytes)
    requires forall i :: 0 <= i < |a| ==> a[i] == 0
    ensures forall p: nat :: !Marked(a, p)
  {
    forall p: nat
      ensures !Marked(a, p)
    {
      NoBits(p % 8);
    }
  }

  class BloomFilterPolicy {
    const hash: Hash
    const bitsPerKey: nat
    const k: nat

    ghost predicate Valid() {
      1 <= k <= 30
    }

    /** The number of probes is 0.69 times the bits per key, rounded down, and between 1 and 30. */
    constructor (hash: Hash, bitsPerKey: nat)
      ensures Valid() && this.hash == hash && this.bitsPerKey == bitsPerKey
      ensures 100 * k <= 69 * bitsPerKey || k == 1
      ensures 69 * bitsPerKey < 100 * (k + 1) || k == 30
    {
      this.hash := hash;
      this.bitsPerKey := bitsPerKey;
      var n := bitsPerKey * 69 / 100;
      k := if n < 1 then 1 else if n > 30 then 30 else n;
    }

    /** CreateFilter: the bytes appended for the keys. The bits set are the probes of the keys and no others. */
    method CreateFilter(keys: seq<Bytes>) returns (filter: Bytes)
      requires Valid()
      ensures |filter| == (if |keys| * bitsPerKey < 64 then 64 else |keys| * bitsPerKey + 7) / 8 + 1
      ensures MadeFor(hash, k, filter, KeySet(keys))
      ensures forall key :: key in keys ==> Matches(hash, key, filter)
    {
      hide BitSet, IsProbe, Marked, AllMarked;
      var bits := |keys| * bitsPerKey;
      if bits < 64 {
        bits := 64;
      }
      var bytes := (bits + 7) / 8;
      bits := bytes * 8;
      var a := new Byte[bytes](_ => 0);
      Blank(a[..]);
      for i := 0 to |keys|
        invariant forall p: nat :: Marked(a[..], p) <==> ProbedBy(hash, KeySet(keys[..i]), k, bits, p)
      {
        AddKey(a, hash(keys[i]), k);
        assert keys[..i + 1] == keys[..i] + [keys[i]];
      }
      assert keys[..|keys|] == keys;
      filter := a[..] + [k];
      assert Array(filter) == a[..];
      forall m | 0 <= m < |keys|
        ensures AllMarked(a[..], hash(keys[m]), k)
      {
        ProbesMarked(a[..], hash(keys[m]), k);
      }
    }

    /** KeyMayMatch: a filter too short matches nothing; more than 30 probes are reserved and match everything. */
    method KeyMayMatch(key: Bytes, filter: Bytes) returns (r: bool)
      ensures r == Matches(hash, key, filter)
    {
      hide BitSet, Delta;
      if |filter| < 2 {
        return false;
      }
      var a := Array(filter);
      var bits := |a| * 8;
      var probes := filter[|filter| - 1];
      if probes > 30 {
        return true;
      }
      var h := hash(key);
      var delta := Delta(h);
      for j := 0 to probes
        invariant h == Probe(hash(key), j) && AllMarked(a, hash(key), j)
      {
        var bitpos := h % bits;
        assert bitpos == Place(hash(key), j, 8 * |a|);
        if !BitSet(a[bitpos / 8], bitpos % 8) {
          assert !ProbeMarked(a, hash(key), j);
          return false;
        }
        h := (h + delta) % TWO32;
      }
      r := true;
    }
  }

  /** What KeyMayMatch answers. */
  predicate Matches(hash: Hash, key: Bytes, filter: Bytes) {
    |filter| >= 2 &&
    var k := filter[|filter| - 1];
    k > 30 || AllMarked(Array(filter), hash(key), k)
  }

  /** Which keys pass a filter made for some keys: those every probe of which is also a probe of one of these. */
  lemma PassesExactly(hash: Hash, k: nat, filter: Bytes, keys: set<Bytes>, other: Bytes)
    requires MadeFor(hash, k, filter, keys) && k <= 30
    ensures Matches(hash, other, filter) <==>
      forall j :: 0 <= j < k ==> ProbedBy(hash, keys, k, ArrayBits(filter), Place(hash(other), j, ArrayBits(filter)))
  {
    hide Place, Marked, ProbedBy;
    forall j | 0 <= j < k
      ensures ProbeMarked(Array(filter), hash(other), j) <==>
        ProbedBy(hash, keys, k, ArrayBits(filter), Place(hash(other), j, ArrayBits(filter)))
    {
    }
  }

  /** These keys themselves pass. */
  lemma MadeMatches(hash: Hash, k: nat, filter: Bytes, keys: set<Bytes>, key: Bytes)
    requires MadeFor(hash, k, filter, keys) && key in keys
    ensures Matches(hash, key, filter)
  {
    hide Place, Marked, IsProbe;
    ProbesMarked(Array(filter), hash(key), k);
  }
}
