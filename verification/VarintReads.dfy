/** What nanopb's two readers of numbers make of any varint, padded or overlong. */
module VarintReads {
  import opened Keys
  import opened Wire

  /** The bytes of one varint: all but the last have the top bit set. */
  ghost predicate IsVarint(bs: Bytes) {
    && bs != [] && bs[|bs| - 1] < 128
    && forall i :: 0 <= i < |bs| - 1 ==> bs[i] >= 128
  }

  /** The number they stand for, seven bits a byte, lowest first. */
  function Value(bs: Bytes): nat {
    if bs == [] then 0 else bs[0] % 128 + 128 * Value(bs[1..])
  }

  /** Every byte from place `i` of a varint on is padding; or, with bit 31 set, part of the sign of a 64-bit number. */
  ghost predicate Padding(bs: Bytes, i: nat, negative: bool) {
    forall j :: 0 <= j < |bs| ==> bs[j] % 128 == 0 || (negative && bs[j] == if i + j < 9 then 0xFF else 1)
  }

  // ----- the bytes one by one -----

  lemma NextByte(bs: Bytes, rest: Bytes)
    requires IsVarint(bs)
    ensures bs + rest != [] && (bs + rest)[0] == bs[0] && (bs + rest)[1..] == bs[1..] + rest
    ensures if |bs| == 1 then bs[0] < 128 && bs[1..] == [] else bs[0] >= 128 && IsVarint(bs[1..])
  {
  }

  /** From the sixth byte on nothing is added to the number. */
  lemma {:induction false} UpperBytes(bs: Bytes, rest: Bytes, i: nat, r: nat)
    requires IsVarint(bs) && 5 <= i && i + |bs| <= 10
    ensures Varint32From(bs + rest, 7 * i, r) == if Padding(bs, i, r >= TWO31) then Some((r, rest)) else None
    decreases |bs|
  {
    hide Or, Shifted;
    NextByte(bs, rest);
    if |bs| == 1 {
      assert [] + rest == rest;
    } else {
      UpperBytes(bs[1..], rest, i + 1, r);
      PaddingSplits(bs, i, r >= TWO31);
    }
  }

  lemma PaddingSplits(bs: Bytes, i: nat, negative: bool)
    requires bs != []
    ensures Padding(bs, i, negative) <==>
      (bs[0] % 128 == 0 || (negative && bs[0] == if i < 9 then 0xFF else 1)) && Padding(bs[1..], i + 1, negative)
  {
    if Padding(bs, i, negative) {
      forall j | 0 <= j < |bs[1..]|
        ensures bs[1..][j] % 128 == 0 || (negative && bs[1..][j] == if i + 1 + j < 9 then 0xFF else 1)
      {
        assert bs[1..][j] == bs[j + 1];
      }
    }
    if Padding(bs[1..], i + 1, negative) {
      forall j | 0 < j < |bs|
        ensures bs[j] % 128 == 0 || (negative && bs[j] == if i + j < 9 then 0xFF else 1)
      {
        assert bs[1..][j - 1] == bs[j];
      }
    }
  }

  lemma FifthGroup(g: nat, r: nat)
    requires g < 128 && r < 0x1000_0000
    ensures Or(r, Shifted(g, 28) % TWO32) == r + g % 16 * 0x1000_0000
  {
    hide Or, Pow2;
    Pow2Values();
    DropUpper(g);
    OrIsSum(r, g % 16, 28);
  }

  lemma DropUpper(g: nat)
    ensures g * 0x1000_0000 % TWO32 == g % 16 * 0x1000_0000
  {
  }

  lemma Unfold28(data: Bytes, r: nat)
    requires data != []
    ensures var n := Or(r, Shifted(data[0] % 128, 28) % TWO32);
      Varint32From(data, 28, r) ==
      if data[0] >= 128 then Varint32From(data[1..], 35, n) else if data[0] < 16 then Some((n, data[1..])) else None
  {
    hide Or, Shifted;
  }

  /** The number after the fifth byte. */
  function AfterFifth(b: Byte, r: nat): nat {
    r + b as int % 16 * 0x1000_0000
  }

  /** The fifth byte gives four bits; its other three are looked at only if it is the last. */
  lemma FifthByte(bs: Bytes, rest: Bytes, r: nat)
    requires IsVarint(bs) && |bs| <= 6 && r < 0x1000_0000
    ensures Varint32From(bs + rest, 28, r) ==
      if (if |bs| == 1 then bs[0] < 16 else Padding(bs[1..], 5, AfterFifth(bs[0], r) >= TWO31))
      then Some((AfterFifth(bs[0], r), rest)) else None
  {
    hide Or, Shifted, Varint32From, Padding;
    NextByte(bs, rest);
    Unfold28(bs + rest, r);
    FifthGroup(bs[0] % 128, r);
    LowBits(bs[0]);
    if |bs| == 1 {
      assert [] + rest == rest;
    } else {
      UpperBytes(bs[1..], rest, 5, AfterFifth(bs[0], r));
    }
  }

  lemma LowBits(b: nat)
    requires b < 256
    ensures b % 128 % 16 == b % 16
  {
  }

  lemma LowGroup(g: nat, bitpos: nat, r: nat)
    requires bitpos <= 21 && g < 128 && r < Pow2(bitpos)
    ensures Or(r, Shifted(g, bitpos) % TWO32) == r + g * Pow2(bitpos) < Pow2(bitpos + 7)
  {
    hide Pow2, Or;
    var p := Pow2(bitpos);
    Pow2Values();
    Pow2Add(bitpos, 7);
    MulMonotone(g, 127, p);
    PowersFit(bitpos + 7);
    SmallRemainder(g * p, TWO32);
    OrIsSum(r, g, bitpos);
  }

  lemma PowersFit(k: nat)
    requires k <= 28
    ensures Pow2(k) <= Pow2(28) == 0x1000_0000
  {
    hide Pow2;
    Pow2Values();
    Pow2Add(k, 28 - k);
    MulMonotone(1, Pow2(28 - k), Pow2(k));
  }

  lemma UnfoldLow(data: Bytes, bitpos: nat, r: nat)
    requires data != [] && bitpos <= 21
    ensures var n := Or(r, Shifted(data[0] % 128, bitpos) % TWO32);
      Varint32From(data, bitpos, r) ==
      if data[0] >= 128 then Varint32From(data[1..], bitpos + 7, n) else Some((n, data[1..]))
  {
    hide Or, Shifted;
  }

  /** One of the first bytes. */
  lemma LowByte(bs: Bytes, rest: Bytes, bitpos: nat, r: nat)
    requires IsVarint(bs) && 7 <= bitpos <= 21 && r < Pow2(bitpos)
    ensures var n: nat := r + bs[0] as int % 128 * Pow2(bitpos);
      && n < Pow2(bitpos + 7)
      && Varint32From(bs + rest, bitpos, r) ==
        if |bs| == 1 then Some((n, rest)) else Varint32From(bs[1..] + rest, bitpos + 7, n)
  {
    hide Or, Shifted, Pow2, Varint32From;
    NextByte(bs, rest);
    UnfoldLow(bs + rest, bitpos, r);
    LowGroup(bs[0] % 128, bitpos, r);
    if |bs| == 1 {
      assert [] + rest == rest;
    }
  }

  lemma Regroup(r: nat, g: nat, p: nat, v: nat)
    ensures r + p * (g + 128 * v) == r + g * p + (128 * p) * v
  {
    assert p * (128 * v) == (128 * p) * v;
    assert p * (g + 128 * v) == p * g + p * (128 * v);
  }

  lemma FrontValue(bs: Bytes, k: nat)
    requires 0 < k <= |bs|
    ensures Value(bs[..k]) == bs[0] as int % 128 + 128 * Value(bs[1..][..k - 1])
  {
    assert bs[..k][1..] == bs[1..][..k - 1];
  }

  /** A number with `i` bytes read, and more behind. */
  function Scaled(i: nat, r: nat, v: nat): nat {
    r + Pow2(7 * i) * v
  }

  lemma ScaledNext(i: nat, r: nat, g: nat, v: nat)
    requires g < 128
    ensures Scaled(i, r, g + 128 * v) == Scaled(i + 1, r + g * Pow2(7 * i), v)
  {
    hide Pow2;
    Pow2Values();
    Pow2Add(7 * i, 7);
    assert Pow2(7 * (i + 1)) == 128 * Pow2(7 * i);
    Regroup(r, g, Pow2(7 * i), v);
  }

  lemma ScaledLast(i: nat, r: nat)
    ensures Scaled(i, r, 0) == r
  {
  }

  /** The second to the fourth byte. */
  lemma {:induction false} LowBytes(bs: Bytes, rest: Bytes, i: nat, r: nat)
    requires IsVarint(bs) && 1 <= i <= 4 && r < Pow2(7 * i)
    ensures i + |bs| <= 4 ==> Varint32From(bs + rest, 7 * i, r) == Some((Scaled(i, r, Value(bs)), rest))
    ensures i + |bs| > 4 ==>
      Varint32From(bs + rest, 7 * i, r) == Varint32From(bs[4 - i..] + rest, 28, Scaled(i, r, Value(bs[..4 - i])))
    ensures i + |bs| > 4 ==> Scaled(i, r, Value(bs[..4 - i])) < Pow2(28)
    decreases 4 - i
  {
    hide Varint32From, Pow2, Value, Scaled;
    NoValue();
    if i == 4 {
      assert bs[0..] == bs && bs[..0] == [];
      ScaledLast(i, r);
    } else {
      NextByte(bs, rest);
      LowByte(bs, rest, 7 * i, r);
      var n := r + bs[0] as int % 128 * Pow2(7 * i);
      FirstValue(bs);
      ScaledNext(i, r, bs[0] as int % 128, Value(bs[1..]));
      if |bs| == 1 {
        ScaledLast(i + 1, n);
      } else {
        LowBytes(bs[1..], rest, i + 1, n);
        if i + |bs| > 4 {
          FrontValue(bs, 4 - i);
          ScaledNext(i, r, bs[0] as int % 128, Value(bs[1..][..3 - i]));
          assert bs[1..][3 - i..] == bs[4 - i..];
        }
      }
    }
  }

  lemma NoValue()
    ensures Value([]) == 0
  {
  }

  lemma FirstValue(bs: Bytes)
    requires bs != []
    ensures Value(bs) == bs[0] as int % 128 + 128 * Value(bs[1..])
  {
  }

  // ----- which numbers are read -----

  /** What the bytes from the fifth on leave of a number, and what they drop. */
  lemma UpperValue(bs: Bytes)
    requires |bs| >= 5
    ensures Value(bs) == Value(bs[..4]) + 0x1000_0000 * Value(bs[4..])
    ensures Value(bs[4..]) == bs[4] as int % 128 + 128 * Value(bs[5..])
  {
    hide Value;
    NoValue();
    FirstValue(bs);
    FirstValue(bs[1..]);
    FirstValue(bs[2..]);
    FirstValue(bs[3..]);
    FirstValue(bs[4..]);
    FrontValue(bs, 4);
    FrontValue(bs[1..], 3);
    FrontValue(bs[2..], 2);
    FrontValue(bs[3..], 1);
    assert bs[1..][1..] == bs[2..] && bs[2..][1..] == bs[3..] && bs[3..][1..] == bs[4..] && bs[4..][1..] == bs[5..];
    assert bs[3..][1..][..0] == [];
  }

  lemma LowerBits(low: nat, g: nat, h: nat)
    requires low < 0x1000_0000 && g < 128
    ensures var v := low + 0x1000_0000 * (g + 128 * h);
      && v % TWO32 == low + g % 16 * 0x1000_0000
      && (v < TWO32 <==> g < 16 && h == 0)
      && (TWO64 - TWO31 <= v < TWO64 ==> h == 0x1FFF_FFFF && low + g % 16 * 0x1000_0000 >= TWO31)
  {
    var n, t := low + g % 16 * 0x1000_0000, g / 16 + 8 * h;
    assert low + 0x1000_0000 * (g + 128 * h) == TWO32 * t + n;
    Quotient(TWO32 * t + n, TWO32, t, n);
  }

  lemma Quotient(n: nat, d: nat, q: nat, r: nat)
    requires n == d * q + r && r < d
    ensures n / d == q && n % d == r
  {
    if n / d < q {
      MulMonotone(n / d + 1, q, d);
    } else if q < n / d {
      MulMonotone(q + 1, n / d, d);
    }
  }

  lemma {:induction false} ZerosArePadding(bs: Bytes, i: nat, negative: bool)
    requires Value(bs) == 0
    ensures Padding(bs, i, negative)
  {
    if bs != [] {
      ZerosArePadding(bs[1..], i + 1, negative);
      PaddingSplits(bs, i, negative);
    }
  }

  lemma LastOnes(bs: Bytes)
    requires IsVarint(bs) && |bs| <= 1 && Value(bs) == 1
    ensures Padding(bs, 9, true)
  {
  }

  lemma MoreOnes(bs: Bytes, v: nat)
    requires IsVarint(bs) && Value(bs) == 127 + 128 * v && v > 0
    ensures |bs| > 1 && bs[0] == 0xFF && IsVarint(bs[1..]) && Value(bs[1..]) == v
  {
    NextByte(bs, []);
  }

  lemma OnesArePadding(bs: Bytes)
    requires IsVarint(bs) && |bs| <= 5 && Value(bs) == 0x1FFF_FFFF
    ensures Padding(bs, 5, true)
  {
    hide Value, Padding, IsVarint;
    MoreOnes(bs, 0x3F_FFFF);
    MoreOnes(bs[1..], 0x7FFF);
    assert bs[1..][1..] == bs[2..];
    MoreOnes(bs[2..], 0xFF);
    assert bs[2..][1..] == bs[3..];
    MoreOnes(bs[3..], 1);
    assert bs[3..][1..] == bs[4..];
    LastOnes(bs[4..]);
    PaddingSplits(bs[3..], 8, true);
    PaddingSplits(bs[2..], 7, true);
    PaddingSplits(bs[1..], 6, true);
    PaddingSplits(bs, 5, true);
  }

  /** The bytes that are let through without being looked at: more than five, all from the sixth on padding or, with
      bit 31 set, sign. */
  ghost predicate LetThrough(bs: Bytes) {
    |bs| > 5 && Padding(bs[5..], 5, Value(bs) % TWO32 >= TWO31)
  }

  lemma FirstByte(bs: Bytes, rest: Bytes)
    requires IsVarint(bs)
    ensures |bs| > 1 ==> IsVarint(bs[1..])
    ensures ReadVarint32(bs + rest) ==
      if |bs| == 1 then Some((bs[0], rest)) else Varint32From(bs[1..] + rest, 7, bs[0] % 128)
  {
    hide Varint32From;
    NextByte(bs, rest);
    if |bs| == 1 {
      assert [] + rest == rest;
    }
  }

  lemma ScaledByte(b: nat, v: nat)
    ensures Scaled(1, b, v) == b + 128 * v && Pow2(7) == 128 && Pow2(28) == 0x1000_0000
  {
    Pow2Values();
  }

  lemma LastSmall(bs: Bytes)
    requires IsVarint(bs) && |bs| == 1
    ensures bs[0] % 128 == bs[0] && bs[1..] == []
  {
  }

  lemma OneByte(bs: Bytes, rest: Bytes)
    requires IsVarint(bs) && |bs| == 1
    ensures ReadVarint32(bs + rest) == Some((Value(bs), rest))
  {
    hide ReadVarint32, IsVarint;
    FirstByte(bs, rest);
    LastSmall(bs);
  }

  /** A number in up to four bytes. */
  lemma UpToFour(bs: Bytes, rest: Bytes)
    requires IsVarint(bs) && 1 < |bs| <= 4
    ensures ReadVarint32(bs + rest) == Some((Value(bs), rest))
  {
    hide Varint32From, ReadVarint32, Value, Scaled, Pow2, IsVarint;
    FirstByte(bs, rest);
    FirstValue(bs);
    var g: nat := bs[0] % 128;
    ScaledByte(g, Value(bs[1..]));
    LowBytes(bs[1..], rest, 1, g);
  }

  /** The first four bytes of more. */
  lemma FourBytes(bs: Bytes, rest: Bytes)
    requires IsVarint(bs) && |bs| > 4
    ensures Value(bs[..4]) < 0x1000_0000 && IsVarint(bs[4..])
    ensures ReadVarint32(bs + rest) == Varint32From(bs[4..] + rest, 28, Value(bs[..4]))
  {
    FirstByte(bs, rest);
    TailIsVarint(bs, 4);
    hide Varint32From, ReadVarint32, Value, Scaled, Pow2, IsVarint;
    var g: nat := bs[0] % 128;
    ScaledByte(g, Value(bs[1..][..3]));
    LowBytes(bs[1..], rest, 1, g);
    FrontValue(bs, 4);
    assert bs[1..][3..] == bs[4..];
  }

  lemma TailIsVarint(bs: Bytes, k: nat)
    requires IsVarint(bs) && k < |bs|
    ensures IsVarint(bs[k..])
  {
  }

  lemma {:induction false} ValueBound(bs: Bytes)
    ensures Value(bs) < Pow2(7 * |bs|)
  {
    if bs != [] {
      ValueBound(bs[1..]);
      hide Value, Pow2;
      Pow2Values();
      Pow2Add(7, 7 * |bs[1..]|);
      FirstValue(bs);
    }
  }

  function Lower(n: nat): nat {
    n % TWO32
  }

  /** Of a varint of up to ten bytes the reader makes the lower 32 bits of its number or nothing. It takes every number
      that has no more bits, and every negative 32-bit number in its 64-bit form; and it takes others exactly if their
      bytes are let through. */
  lemma ReadsLower32(bs: Bytes, rest: Bytes)
    requires IsVarint(bs) && |bs| <= 10
    ensures ReadVarint32(bs + rest) ==
      if Value(bs) < TWO32 || TWO64 - TWO31 <= Value(bs) < TWO64 || LetThrough(bs)
      then Some((Lower(Value(bs)), rest)) else None
  {
    hide ReadVarint32, Value, IsVarint, LetThrough, Lower;
    if |bs| <= 4 {
      ReadsFew(bs, rest);
    } else {
      ReadsMore(bs, rest);
    }
  }

  lemma ReadsFew(bs: Bytes, rest: Bytes)
    requires IsVarint(bs) && |bs| <= 4
    ensures Value(bs) < TWO32 && ReadVarint32(bs + rest) == Some((Lower(Value(bs)), rest))
  {
    hide ReadVarint32, Value;
    if |bs| == 1 {
      OneByte(bs, rest);
    } else {
      UpToFour(bs, rest);
    }
    ShortValue(bs);
    SmallRemainder(Value(bs), TWO32);
  }

  lemma ShortValue(bs: Bytes)
    requires |bs| <= 4
    ensures Value(bs) < 0x1000_0000
  {
    hide Value, Pow2;
    ValueBound(bs);
    PowersFit(7 * |bs|);
  }

  ghost predicate Accepted(bs: Bytes)
    requires |bs| > 4
  {
    if |bs| == 5 then bs[4] < 16 else Padding(bs[5..], 5, Lower(Value(bs)) >= TWO31)
  }

  lemma ReadsMore(bs: Bytes, rest: Bytes)
    requires IsVarint(bs) && 4 < |bs| <= 10
    ensures ReadVarint32(bs + rest) ==
      if Value(bs) < TWO32 || TWO64 - TWO31 <= Value(bs) < TWO64 || LetThrough(bs)
      then Some((Lower(Value(bs)), rest)) else None
  {
    hide Varint32From, ReadVarint32, Value, Padding, AfterFifth, Lower, LetThrough, IsVarint;
    FourBytes(bs, rest);
    FifthByte(bs[4..], rest, Value(bs[..4]));
    assert bs[4..][1..] == bs[5..] && bs[4..][0] == bs[4];
    LowerIs(bs);
    Accepts(bs);
  }

  lemma LowerIs(bs: Bytes)
    requires |bs| > 4 && Value(bs[..4]) < 0x1000_0000
    ensures AfterFifth(bs[4], Value(bs[..4])) == Lower(Value(bs))
  {
    hide Value;
    UpperValue(bs);
    var g: nat := bs[4] % 128;
    LowerBits(Value(bs[..4]), g, Value(bs[5..]));
    LowBits(bs[4]);
  }

  lemma Accepts(bs: Bytes)
    requires IsVarint(bs) && 4 < |bs| <= 10 && Value(bs[..4]) < 0x1000_0000
    ensures Accepted(bs) <==> Value(bs) < TWO32 || TWO64 - TWO31 <= Value(bs) < TWO64 || LetThrough(bs)
  {
    var g: nat, h := bs[4] % 128, Value(bs[5..]);
    if |bs| == 5 {
      LastSmall(bs[4..]);
      assert bs[5..] == [];
    }
    hide Value, Padding, IsVarint;
    NoValue();
    UpperValue(bs);
    LowerBits(Value(bs[..4]), g, h);
    if |bs| > 5 {
      UpperIsPadding(bs, h);
    }
  }

  /** Numbers of 32 bits, and negative ones, have nothing but padding and sign from the sixth byte on. */
  lemma UpperIsPadding(bs: Bytes, h: nat)
    requires IsVarint(bs) && 5 < |bs| <= 10 && h == Value(bs[5..])
    ensures h == 0 || (h == 0x1FFF_FFFF && Lower(Value(bs)) >= TWO31) ==> LetThrough(bs)
  {
    TailIsVarint(bs, 5);
    hide Value, Padding;
    if h == 0 {
      ZerosArePadding(bs[5..], 5, Value(bs) % TWO32 >= TWO31);
    } else if h == 0x1FFF_FFFF {
      OnesArePadding(bs[5..]);
    }
  }

  /** So a number over 32 bits that is not such a negative one is refused if and only if its bytes are not let
      through. */
  lemma OverflowSeen(bs: Bytes, rest: Bytes)
    requires IsVarint(bs) && |bs| <= 10
    requires Value(bs) >= TWO32 && !(TWO64 - TWO31 <= Value(bs) < TWO64)
    ensures ReadVarint32(bs + rest) == None <==> !LetThrough(bs)
  {
    ReadsLower32(bs, rest);
  }

  /** The number 2 to the 32, with one byte of padding, is read as zero. */
  lemma OverflowMissed(rest: Bytes)
    ensures var bs := [0x80, 0x80, 0x80, 0x80, 0x90, 0x00];
      IsVarint(bs) && Value(bs) == TWO32 && ReadVarint32(bs + rest) == Some((0, rest))
  {
    var bs: Bytes := [0x80, 0x80, 0x80, 0x80, 0x90, 0x00];
    PaddedNumber();
    hide ReadVarint32, Value;
    ReadsLower32(bs, rest);
    assert LetThrough(bs);
  }

  lemma PaddedNumber()
    ensures Value([0x80, 0x80, 0x80, 0x80, 0x90, 0x00]) == TWO32
  {
    assert Value([0x90, 0x00]) == 0x10;
    assert Value([0x80, 0x90, 0x00]) == 0x800;
    assert Value([0x80, 0x80, 0x90, 0x00]) == 0x4_0000;
    assert Value([0x80, 0x80, 0x80, 0x90, 0x00]) == 0x200_0000;
  }

  // ----- 64 bits -----

  lemma Group64(g: nat, i: nat, r: nat)
    requires i <= 8 && g < 128 && r < Pow2(7 * i)
    ensures Or(r, Shifted(g, 7 * i) % TWO64) == r + g * Pow2(7 * i) < Pow2(7 * (i + 1))
  {
    hide Pow2, Or;
    var p := Pow2(7 * i);
    Pow2Values();
    Pow2Add(7 * i, 7);
    MulMonotone(g, 127, p);
    Pow2Add(7 * (i + 1), 63 - 7 * (i + 1));
    MulMonotone(1, Pow2(63 - 7 * (i + 1)), Pow2(7 * (i + 1)));
    SmallRemainder(g * p, TWO64);
    OrIsSum(r, g, 7 * i);
  }

  lemma TenthGroup(g: nat, r: nat)
    requires g < 128 && r < TWO63
    ensures Or(r, Shifted(g, 63) % TWO64) == (r + g * TWO63) % TWO64
  {
    hide Or, Pow2;
    Pow2Values();
    TopBit(g, r);
    OrIsSum(r, g % 2, 63);
  }

  lemma TopBit(g: nat, r: nat)
    requires r < TWO63
    ensures g * TWO63 % TWO64 == g % 2 * TWO63
    ensures (r + g * TWO63) % TWO64 == r + g % 2 * TWO63
  {
    var h := g / 2;
    assert g * TWO63 == TWO64 * h + g % 2 * TWO63;
    Quotient(g * TWO63, TWO64, h, g % 2 * TWO63);
    Quotient(r + g * TWO63, TWO64, h, r + g % 2 * TWO63);
  }

  lemma Unfold64(data: Bytes, i: nat, r: nat)
    requires data != [] && i <= 9
    ensures var n := Or(r, Shifted(data[0] % 128, 7 * i) % TWO64);
      VarintFrom(data, 7 * i, r) ==
      if data[0] >= 128 then VarintFrom(data[1..], 7 * (i + 1), n) else Some((n, data[1..]))
  {
    hide Or, Shifted;
  }

  lemma {:induction false} Bytes64(bs: Bytes, rest: Bytes, i: nat, r: nat)
    requires IsVarint(bs) && i <= 9 && r < Pow2(7 * i)
    ensures i + |bs| <= 10 ==> VarintFrom(bs + rest, 7 * i, r) == Some((Scaled(i, r, Value(bs)) % TWO64, rest))
    ensures i + |bs| > 10 ==> VarintFrom(bs + rest, 7 * i, r) == None
    decreases |bs|
  {
    hide VarintFrom, Pow2, Value, Scaled, Or, Shifted;
    NoValue();
    NextByte(bs, rest);
    Unfold64(bs + rest, i, r);
    FirstValue(bs);
    var g: nat := bs[0] % 128;
    if i == 9 {
      Pow2Values();
      TenthGroup(g, r);
      if |bs| == 1 {
        assert [] + rest == rest;
        ScaledTop(r, g);
      } else {
        TooFar(bs[1..] + rest, Or(r, Shifted(g, 63) % TWO64));
      }
    } else {
      Group64(g, i, r);
      ScaledNext(i, r, g, Value(bs[1..]));
      if |bs| == 1 {
        assert [] + rest == rest;
        ScaledLast(i + 1, r + g * Pow2(7 * i));
        Below64(i + 1, r + g * Pow2(7 * i));
      } else {
        Bytes64(bs[1..], rest, i + 1, r + g * Pow2(7 * i));
      }
    }
  }

  lemma ScaledTop(r: nat, g: nat)
    ensures Scaled(9, r, g) == r + g * TWO63
  {
    hide Pow2;
    Pow2Values();
  }

  lemma TooFar(data: Bytes, r: nat)
    ensures VarintFrom(data, 70, r) == None
  {
  }

  lemma Below64(i: nat, n: nat)
    requires i <= 9 && n < Pow2(7 * i)
    ensures n % TWO64 == n
  {
    hide Pow2;
    Pow2Values();
    Pow2Add(7 * i, 63 - 7 * i);
    MulMonotone(1, Pow2(63 - 7 * i), Pow2(7 * i));
    SmallRemainder(n, TWO64);
  }

  function Lower64(n: nat): nat {
    n % TWO64
  }

  /** A varint of up to ten bytes is read as the lower 64 bits of its number; a longer one is refused, even if it is
      all padding. */
  lemma ReadsLower64(bs: Bytes, rest: Bytes)
    requires IsVarint(bs)
    ensures ReadVarint(bs + rest) == if |bs| <= 10 then Some((Lower64(Value(bs)), rest)) else None
  {
    hide VarintFrom, Value, IsVarint;
    Bytes64(bs, rest, 0, 0);
  }
}
