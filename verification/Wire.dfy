/** Numbers as bytes: varints and fixed-width numbers, which both libraries write, and how nanopb reads them. */
module Wire {
  import opened Keys

  datatype Option<T> = None | Some(value: T)

  /** What a reader found, and the bytes after it. */
  type Read<T> = Option<(T, Bytes)>

  const TWO31: int := 0x8000_0000
  const TWO32: int := 0x1_0000_0000
  const TWO63: int := 0x8000_0000_0000_0000
  const TWO64: int := 0x1_0000_0000_0000_0000

  // ----- powers of two, and bitwise or -----

  function Pow2(n: nat): (r: nat)
    ensures r >= 1
  {
    if n == 0 then 1 else 2 * Pow2(n - 1)
  }

  lemma {:induction false} Pow2Add(m: nat, n: nat)
    ensures Pow2(m + n) == Pow2(m) * Pow2(n)
    decreases m
  {
    if m > 0 {
      Pow2Add(m - 1, n);
      assert Pow2(m + n) == 2 * Pow2(m - 1 + n);
    }
  }

  lemma Pow2Values()
    ensures Pow2(7) == 128 && Pow2(28) == 0x1000_0000 && Pow2(31) == TWO31 && Pow2(32) == TWO32
    ensures Pow2(63) == TWO63 && Pow2(64) == TWO64 && Pow2(70) == 64 * TWO64
  {
    assert Pow2(3) == 8 && Pow2(4) == 16;
    hide Pow2;
    Pow2Add(4, 3);
    Pow2Add(3, 3);
    assert Pow2(7) == 128 && Pow2(6) == 64;
    Pow2Add(7, 7);
    assert Pow2(14) == 16384;
    Pow2Add(14, 14);
    assert Pow2(28) == 0x1000_0000;
    Pow2Add(28, 3);
    Pow2Add(28, 4);
    assert Pow2(31) == TWO31 && Pow2(32) == TWO32;
    Pow2Add(32, 31);
    Pow2Add(32, 32);
    Pow2Add(64, 6);
  }

  /** A number moved up by some bits. */
  function Shifted(n: nat, k: nat): nat {
    n * Pow2(k)
  }

  function Or(a: nat, b: nat): nat {
    if a == 0 then b
    else if b == 0 then a
    else 2 * Or(a / 2, b / 2) + if a % 2 == 1 || b % 2 == 1 then 1 else 0
  }

  /** Where no bit is set in both, or is a sum. */
  lemma {:induction false} OrIsSum(a: nat, x: nat, k: nat)
    requires a < Pow2(k)
    ensures Or(a, x * Pow2(k)) == a + x * Pow2(k)
    decreases k
  {
    if a != 0 && x != 0 {
      assert k > 0;
      var b := x * Pow2(k);
      assert b == 2 * (x * Pow2(k - 1));
      assert b > 0;
      OrIsSum(a / 2, x, k - 1);
    }
  }

  lemma {:induction false} OrFits(x: nat, y: nat, k: nat)
    requires x < Pow2(k) && y < Pow2(k)
    ensures Or(x, y) < Pow2(k)
    decreases k
  {
    if x != 0 && y != 0 {
      OrFits(x / 2, y / 2, k - 1);
    }
  }

  // ----- varints -----

  /** Base 128, least significant group first, the top bit set on all bytes but the last. */
  function Varint(n: nat): (r: Bytes)
    ensures r != []
  {
    if n < 128 then [n] else [n % 128 + 128] + Varint(n / 128)
  }

  /** pb_encode_varint, up to the call of pb_write. */
  method EncodeVarint(value: nat) returns (bytes: Bytes)
    requires value < TWO64
    ensures bytes == Varint(value) && |bytes| <= 10
  {
    if value <= 0x7F {
      return [value];
    }
    assert Pow2(0) == 1;
    hide Pow2, Varint;
    var v := value;
    var buffer := new Byte[10](_ => 0);
    var i := 0;
    while v != 0
      invariant 0 <= i <= 10 && 0 <= v && v * Pow2(7 * i) <= value
      invariant v != 0 ==> i < 10 && Varint(value) == buffer[..i] + Varint(v)
      invariant v == 0 ==> i > 0 && buffer[i - 1] >= 128 && Varint(value) == buffer[..i - 1] + [buffer[i - 1] - 128]
    {
      ghost var before, was := buffer[..i], v;
      buffer[i] := v % 128 + 128;
      v := v / 128;
      VarintRoom(value, was, i);
      assert buffer[..i + 1] == before + [was % 128 + 128] && buffer[..i] == before;
      GroupWritten(before, was);
      i := i + 1;
    }
    buffer[i - 1] := buffer[i - 1] - 128;
    bytes := buffer[..i];
    assert bytes == buffer[..i - 1] + [buffer[i - 1]];
  }

  lemma GroupWritten(before: Bytes, n: nat)
    ensures n >= 128 ==> before + Varint(n) == before + [n % 128 + 128] + Varint(n / 128)
    ensures n < 128 ==> before + Varint(n) == before + [n] && n % 128 == n
  {
  }

  /** Ten groups of seven bits hold any 64-bit number. */
  lemma VarintRoom(value: nat, v: nat, i: nat)
    requires value < TWO64 && v > 0 && v * Pow2(7 * i) <= value && i < 10
    ensures (v / 128) * Pow2(7 * (i + 1)) <= value && (v / 128 != 0 ==> i + 1 < 10)
  {
    hide Pow2;
    Pow2Values();
    Pow2Add(7 * i, 7);
    assert Pow2(7 * (i + 1)) == Pow2(7 * i) * 128;
    var q := v / 128;
    MulMonotone(q * 128, v, Pow2(7 * i));
    assert q * Pow2(7 * (i + 1)) == (q * 128) * Pow2(7 * i);
    if q != 0 {
      FitsBelow(q, 7 * (i + 1), 64);
    }
  }

  lemma MulMonotone(a: nat, b: nat, c: nat)
    requires a <= b
    ensures a * c <= b * c
  {
  }

  /** pb_decode_varint, from bit position `bitpos` on. */
  function VarintFrom(data: Bytes, bitpos: nat, result: nat): Read<nat>
  {
    if bitpos >= 64 || data == [] then None
    else
      var r := Or(result, Shifted(data[0] % 128, bitpos) % TWO64);
      if data[0] >= 128 then VarintFrom(data[1..], bitpos + 7, r) else Some((r, data[1..]))
  }

  function ReadVarint(data: Bytes): Read<nat> {
    VarintFrom(data, 0, 0)
  }

  /** What reading one group of seven bits does to the number read so far. */
  lemma GroupStep(n: nat, bitpos: nat, result: nat, limit: nat)
    requires result < Pow2(bitpos) && result + Shifted(n, bitpos) < limit
    ensures var r := Or(result, Shifted(n % 128, bitpos) % limit);
      r < Pow2(bitpos + 7) && r + Shifted(n / 128, bitpos + 7) == result + Shifted(n, bitpos)
    ensures n < 128 ==> Or(result, Shifted(n % 128, bitpos) % limit) == result + Shifted(n, bitpos)
  {
    hide Pow2, Or;
    var p, q := Pow2(bitpos), Pow2(bitpos + 7);
    var x := (n % 128) * p;
    assert q == 128 * p by {
      Pow2Values();
      Pow2Add(bitpos, 7);
    }
    GroupArithmetic(n, p, result);
    SmallRemainder(x, limit);
    OrIsSum(result, n % 128, bitpos);
    assert Or(result, x % limit) == result + x;
  }

  lemma SmallRemainder(x: nat, m: nat)
    requires x < m
    ensures x % m == x
  {
  }

  lemma GroupArithmetic(n: nat, p: nat, result: nat)
    requires result < p
    ensures 0 <= (n % 128) * p <= n * p && result + (n % 128) * p < 128 * p
    ensures (n % 128) * p + (n / 128) * (128 * p) == n * p
    ensures n < 128 ==> (n % 128) * p == n * p
  {
    var low, high := n % 128, n / 128;
    assert n == 128 * high + low;
    MulMonotone(low, 127, p);
    MulMonotone(low, n, p);
    assert n * p == high * (128 * p) + low * p;
  }

  lemma FitsBelow(n: nat, bitpos: nat, k: nat)
    requires n > 0 && Shifted(n, bitpos) < Pow2(k)
    ensures bitpos < k
  {
    hide Pow2;
    if bitpos >= k {
      Pow2Add(k, bitpos - k);
      Pow2Add(bitpos - k, 0);
      var a, b := Pow2(k), Pow2(bitpos - k);
      MulMonotone(1, b, a);
      assert a * b == b * a;
      MulMonotone(1, n, Pow2(bitpos));
    }
  }

  lemma {:induction false} VarintBack(n: nat, rest: Bytes, bitpos: nat, result: nat)
    requires result < Pow2(bitpos) && result + Shifted(n, bitpos) < TWO64 && (bitpos == 0 || n > 0)
    ensures VarintFrom(Varint(n) + rest, bitpos, result) == Some((result + Shifted(n, bitpos), rest))
    decreases n
  {
    hide Pow2, Or, Shifted;
    Pow2Values();
    if bitpos > 0 {
      FitsBelow(n, bitpos, 64);
    }
    GroupStep(n, bitpos, result, TWO64);
    var data := Varint(n) + rest;
    if n < 128 {
      assert data[0] == n && data[1..] == rest;
    } else {
      assert data[0] == n % 128 + 128 && data[1..] == Varint(n / 128) + rest;
      VarintBack(n / 128, rest, bitpos + 7, Or(result, Shifted(n % 128, bitpos) % TWO64));
    }
  }

  /** Decoding undoes encoding. */
  lemma VarintRoundTrip(n: nat, rest: Bytes)
    requires n < TWO64
    ensures ReadVarint(Varint(n) + rest) == Some((n, rest))
  {
    assert Shifted(n, 0) == n;
    VarintBack(n, rest, 0, 0);
  }

  /** pb_decode_varint32_eof after its first byte. The bit position is an eight-bit number; past 32 bits only padding,
      or the sign extension of a negative number, is let through. */
  function Varint32From(data: Bytes, bitpos: nat, result: nat): Read<nat>
  {
    if data == [] then None
    else
      var b := data[0];
      var signExtension := if bitpos < 63 then 0xFF else 0x01;
      if bitpos >= 32 && b % 128 != 0 && (result < TWO31 || b != signExtension) then None
      else
        var r := if bitpos >= 32 then result else Or(result, Shifted(b % 128, bitpos) % TWO32);
        var next := (bitpos + 7) % 256;
        if b >= 128 then Varint32From(data[1..], next, r)
        else if next == 35 && (b / 16) % 8 != 0 then None
        else Some((r, data[1..]))
  }

  function ReadVarint32(data: Bytes): Read<nat> {
    if data == [] then None
    else if data[0] < 128 then Some((data[0], data[1..]))
    else Varint32From(data[1..], 7, data[0] % 128)
  }

  lemma {:induction false} Varint32Back(n: nat, rest: Bytes, bitpos: nat, result: nat)
    requires 7 <= bitpos && result < Pow2(bitpos) && result + Shifted(n, bitpos) < TWO32 && n > 0 && bitpos % 7 == 0
    ensures Varint32From(Varint(n) + rest, bitpos, result) == Some((result + Shifted(n, bitpos), rest))
    decreases n
  {
    hide Pow2, Or, Shifted;
    Pow2Values();
    FitsBelow(n, bitpos, 32);
    GroupStep(n, bitpos, result, TWO32);
    var data := Varint(n) + rest;
    if n < 128 {
      assert data[0] == n && data[1..] == rest;
      if bitpos == 28 {
        assert n < 16 by {
          NibbleFits(n, result);
        }
      }
    } else {
      assert data[0] == n % 128 + 128 && data[1..] == Varint(n / 128) + rest;
      Varint32Back(n / 128, rest, bitpos + 7, Or(result, Shifted(n % 128, bitpos) % TWO32));
    }
  }

  lemma NibbleFits(n: nat, result: nat)
    requires result + Shifted(n, 28) < TWO32
    ensures n < 16
  {
    Pow2Values();
  }

  lemma Varint32RoundTrip(n: nat, rest: Bytes)
    requires n < TWO32
    ensures ReadVarint32(Varint(n) + rest) == Some((n, rest))
  {
    hide Pow2, Varint32From, Or;
    var data := Varint(n) + rest;
    if n < 128 {
      assert data[0] == n && data[1..] == rest;
    } else {
      Pow2Values();
      assert data[0] == n % 128 + 128 && data[1..] == Varint(n / 128) + rest;
      assert Shifted(n / 128, 7) == (n / 128) * 128;
      Varint32Back(n / 128, rest, 7, n % 128);
    }
  }

  // ----- signed numbers -----

  predicate IsSigned(n: int, size: nat) {
    (size == 1 && -0x80 <= n < 0x80) || (size == 2 && -0x8000 <= n < 0x8000)
    || (size == 4 && -TWO31 <= n < TWO31) || (size == 8 && -TWO63 <= n < TWO63)
  }

  predicate IsUnsigned(n: int, size: nat) {
    (size == 1 && 0 <= n < 0x100) || (size == 2 && 0 <= n < 0x1_0000)
    || (size == 4 && 0 <= n < TWO32) || (size == 8 && 0 <= n < TWO64)
  }

  function Signed64(u: nat): int {
    if u % TWO64 < TWO63 then u % TWO64 else u % TWO64 - TWO64
  }

  function Signed32(u: nat): int {
    if u % TWO32 < TWO31 then u % TWO32 else u % TWO32 - TWO32
  }

  /** A signed number as 64 bits, which is how it goes on the wire. */
  function Unsigned64(n: int): nat {
    n % TWO64
  }

  lemma SignedBack(n: int, size: nat)
    requires IsSigned(n, size)
    ensures Unsigned64(n) < TWO64
    ensures size == 8 ==> Signed64(Unsigned64(n)) == n
    ensures size != 8 ==> Signed32(Unsigned64(n)) == n
  {
  }

  /** pb_encode_svarint: the sign goes to the lowest bit. */
  function ZigZag(n: int): nat {
    if n < 0 then TWO64 - 1 - (2 * n) % TWO64 else (2 * n) % TWO64
  }

  function UnZigZag(u: nat): int {
    if u % 2 == 1 then Signed64(TWO64 - 1 - (u / 2) % TWO64) else Signed64(u / 2)
  }

  lemma ZigZagRoundTrip(n: int)
    requires IsSigned(n, 8)
    ensures ZigZag(n) < TWO64 && UnZigZag(ZigZag(n)) == n
  {
    if n < 0 {
      if n == -TWO63 {
        assert (2 * n) % TWO64 == 0;
      } else {
        assert (2 * n) % TWO64 == 2 * n + TWO64;
      }
    }
  }

  // ----- fixed-width numbers -----

  function Fixed32(n: nat): Bytes {
    [n % 256, n / 256 % 256, n / 65536 % 256, n / 16777216 % 256]
  }

  function Fixed64(n: nat): Bytes {
    Fixed32(n % TWO32) + Fixed32(n / TWO32 % TWO32)
  }

  function Number32(b: Bytes): nat
    requires |b| == 4
  {
    b[0] as int + 256 * b[1] as int + 65536 * b[2] as int + 16777216 * b[3] as int
  }

  function Number64(b: Bytes): nat
    requires |b| == 8
  {
    Number32(b[..4]) + TWO32 * Number32(b[4..])
  }

  lemma Fixed32RoundTrip(n: nat)
    requires n < TWO32
    ensures |Fixed32(n)| == 4 && Number32(Fixed32(n)) == n
  {
    var a := n / 256;
    var b := a / 256;
    var c := b / 256;
    assert n == 256 * a + n % 256 && a == 256 * b + a % 256 && b == 256 * c + b % 256;
    assert n / 65536 == b && n / 16777216 == c && c < 256;
  }

  /** Four bytes are those of the number they make. */
  lemma Number32Back(b: Bytes)
    requires |b| == 4
    ensures Number32(b) < TWO32 && Fixed32(Number32(b)) == b
  {
    var n := Number32(b);
    var a, c := n / 256, n / 256 / 256;
    assert a == b[1] as int + 256 * b[2] as int + 65536 * b[3] as int;
    assert c == b[2] as int + 256 * b[3] as int;
    assert n / 65536 == c && n / 16777216 == c / 256;
  }

  lemma Fixed64RoundTrip(n: nat)
    requires n < TWO64
    ensures |Fixed64(n)| == 8 && Number64(Fixed64(n)) == n
  {
    hide Number32, Fixed32;
    Fixed32RoundTrip(n % TWO32);
    Fixed32RoundTrip(n / TWO32);
    SmallRemainder(n / TWO32, TWO32);
    assert Fixed64(n)[..4] == Fixed32(n % TWO32) && Fixed64(n)[4..] == Fixed32(n / TWO32);
  }
}
