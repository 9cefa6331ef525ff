/** The published check values of CRC32C: words as numbers, and the register computed on 32-bit vectors. */
module CrcValues {
  import opened Crc

  // ----- words as numbers -----

  /** The number whose bits from `i` on are in the word, counted from bit `i`. */
  function NumberFrom(w: Word, i: nat): nat
    decreases 32 - i
  {
    if i >= 32 then 0 else (if i in w then 1 else 0) + 2 * NumberFrom(w, i + 1)
  }

  /** A word as the number that its bits make. */
  function Number(w: Word): nat {
    NumberFrom(w, 0)
  }

  lemma {:induction false} SameNumberFrom(a: Word, b: Word, i: nat)
    requires NumberFrom(a, i) == NumberFrom(b, i)
    ensures forall j :: i <= j < 32 ==> (j in a <==> j in b)
    decreases 32 - i
  {
    if i < 32 {
      SameNumberFrom(a, b, i + 1);
    }
  }

  /** Different words are different numbers. */
  lemma SameNumber(a: Word, b: Word)
    requires Number(a) == Number(b)
    ensures a == b
  {
    SameNumberFrom(a, b, 0);
  }

  // ----- the register on bit vectors -----

  function Half(v: bv32): bv32 {
    v >> 1
  }

  predicate Odd(v: bv32) {
    v & 1 == 1
  }

  function XorV(a: bv32, b: bv32): bv32 {
    a ^ b
  }

  function Shifted(v: bv32, i: nat): bv32 {
    if i == 0 then v else Half(Shifted(v, i - 1))
  }

  function Bits(v: bv32): Word {
    set i: nat | i < 32 && Odd(Shifted(v, i))
  }

  function ValueOf(v: bv32, n: nat): nat {
    if n == 0 then 0 else (if Odd(v) then 1 else 0) + 2 * ValueOf(Half(v), n - 1)
  }

  lemma {:induction false} NumberOfBits(v: bv32, i: nat)
    requires i <= 32
    ensures NumberFrom(Bits(v), i) == ValueOf(Shifted(v, i), 32 - i)
    decreases 32 - i
  {
    hide Half, Odd;
    if i < 32 {
      NumberOfBits(v, i + 1);
    }
  }

  /** One hexadecimal digit, and what is left without it. */
  function Digit(v: bv32): nat {
    (if Odd(v) then 1 else 0) + (if Odd(Half(v)) then 2 else 0) + (if Odd(Half(Half(v))) then 4 else 0)
    + if Odd(Half(Half(Half(v)))) then 8 else 0
  }

  function Rest(v: bv32): bv32 {
    v >> 4
  }

  lemma FourHalves(v: bv32)
    ensures Half(Half(Half(Half(v)))) == Rest(v)
  {
  }

  lemma OneDigit(v: bv32, n: nat)
    ensures ValueOf(v, n + 4) == Digit(v) + 16 * ValueOf(Rest(v), n)
  {
    hide Half, Odd, Rest;
    FourHalves(v);
    assert ValueOf(v, n + 4) == (if Odd(v) then 1 else 0) + 2 * ValueOf(Half(v), n + 3);
    assert ValueOf(Half(v), n + 3) == (if Odd(Half(v)) then 1 else 0) + 2 * ValueOf(Half(Half(v)), n + 2);
    var u := Half(Half(v));
    assert ValueOf(u, n + 2) == (if Odd(u) then 1 else 0) + 2 * ValueOf(Half(u), n + 1);
    assert ValueOf(Half(u), n + 1) == (if Odd(Half(u)) then 1 else 0) + 2 * ValueOf(Half(Half(u)), n);
  }

  /** A number is the value of its eight hexadecimal digits. */
  lemma HexValue(v: bv32)
    ensures var v4 := Rest(Rest(Rest(Rest(v))));
      ValueOf(v, 32) == Digit(v) + 16 * Digit(Rest(v)) + 256 * Digit(Rest(Rest(v))) + 4096 * Digit(Rest(Rest(Rest(v))))
      + 65536 * (Digit(v4) + 16 * Digit(Rest(v4)) + 256 * Digit(Rest(Rest(v4))) + 4096 * Digit(Rest(Rest(Rest(v4)))))
  {
    hide Digit, Rest, Odd, Half;
    var v1 := Rest(v);
    var v2 := Rest(v1);
    var v3 := Rest(v2);
    var v4 := Rest(v3);
    var v5 := Rest(v4);
    var v6 := Rest(v5);
    var v7 := Rest(v6);
    LastDigit(v7);
    hide ValueOf;
    OneDigit(v6, 4);
    OneDigit(v5, 8);
    OneDigit(v4, 12);
    OneDigit(v3, 16);
    OneDigit(v2, 20);
    OneDigit(v1, 24);
    OneDigit(v, 28);
  }

  lemma LastDigit(v: bv32)
    ensures ValueOf(v, 4) == Digit(v)
  {
    hide Half, Odd, Rest, Digit;
    OneDigit(v, 0);
  }

  lemma IsBits(w: Word, v: bv32)
    requires Number(w) == ValueOf(v, 32)
    ensures w == Bits(v)
  {
    hide Half, Odd;
    NumberOfBits(v, 0);
    SameNumber(w, Bits(v));
  }

  lemma HalfXor(a: bv32, b: bv32)
    ensures Half(XorV(a, b)) == XorV(Half(a), Half(b))
    ensures Odd(XorV(a, b)) <==> Odd(a) != Odd(b)
  {
  }

  lemma {:induction false} ShiftedXor(a: bv32, b: bv32, i: nat)
    ensures Shifted(XorV(a, b), i) == XorV(Shifted(a, i), Shifted(b, i))
  {
    hide Half, XorV;
    if i > 0 {
      ShiftedXor(a, b, i - 1);
      HalfXor(Shifted(a, i - 1), Shifted(b, i - 1));
    }
  }

  lemma {:induction false} ShiftedMore(v: bv32, i: nat)
    ensures Shifted(Half(v), i) == Shifted(v, i + 1)
  {
    hide Half;
    if i > 0 {
      ShiftedMore(v, i - 1);
    }
  }

  lemma XorBits(a: bv32, b: bv32)
    ensures Bits(XorV(a, b)) == Xor(Bits(a), Bits(b))
  {
    hide Half, Odd, XorV;
    forall i: nat | i < 32
      ensures i in Xor(Bits(a), Bits(b)) <==> i in Bits(XorV(a, b))
    {
      ShiftedXor(a, b, i);
      HalfXor(Shifted(a, i), Shifted(b, i));
    }
  }

  lemma FourPlaces(v: bv32, i: nat, w: bv32)
    requires w == Shifted(v, i)
    ensures Shifted(v, i + 4) == Rest(w)
  {
    hide Half, Rest;
    FourHalves(w);
    assert Shifted(v, i + 1) == Half(w);
    assert Shifted(v, i + 2) == Half(Half(w));
    assert Shifted(v, i + 3) == Half(Half(Half(w)));
  }

  lemma NothingRests(v: bv32)
    ensures Rest(Rest(Rest(Rest(Rest(Rest(Rest(Rest(v)))))))) == 0 && !Odd(0)
  {
  }

  /** A register is empty after 32 places. */
  lemma Emptied(v: bv32)
    ensures Shifted(v, 32) == 0 && !Odd(0)
  {
    hide Rest, Half, Odd;
    assert Shifted(v, 0) == v;
    hide Shifted;
    FourPlaces(v, 0, v);
    FourPlaces(v, 4, Rest(v));
    FourPlaces(v, 8, Rest(Rest(v)));
    FourPlaces(v, 12, Rest(Rest(Rest(v))));
    FourPlaces(v, 16, Rest(Rest(Rest(Rest(v)))));
    FourPlaces(v, 20, Rest(Rest(Rest(Rest(Rest(v))))));
    FourPlaces(v, 24, Rest(Rest(Rest(Rest(Rest(Rest(v)))))));
    FourPlaces(v, 28, Rest(Rest(Rest(Rest(Rest(Rest(Rest(v))))))));
    NothingRests(v);
  }

  lemma HalfBits(v: bv32)
    ensures Bits(Half(v)) == Down(Bits(v), 1)
  {
    hide Half, Odd;
    forall j: nat
      ensures j in Bits(Half(v)) <==> j in Down(Bits(v), 1)
    {
      InDown(Bits(v), 1, j);
      ShiftedMore(v, j);
      Emptied(v);
    }
  }

  /** One bit of polynomial division, with the constant as the source writes it. */
  function BitV(v: bv32): bv32 {
    if Odd(v) then XorV(Half(v), 0x82F63B78) else Half(v)
  }

  lemma PolynomialMembers()
    ensures 31 in POLYNOMIAL && 30 !in POLYNOMIAL && 29 !in POLYNOMIAL && 28 !in POLYNOMIAL
    ensures 27 !in POLYNOMIAL && 26 !in POLYNOMIAL && 25 in POLYNOMIAL && 24 !in POLYNOMIAL
    ensures 23 in POLYNOMIAL && 22 in POLYNOMIAL && 21 in POLYNOMIAL && 20 in POLYNOMIAL
    ensures 19 !in POLYNOMIAL && 18 in POLYNOMIAL && 17 in POLYNOMIAL && 16 !in POLYNOMIAL
    ensures 15 !in POLYNOMIAL && 14 !in POLYNOMIAL && 13 in POLYNOMIAL && 12 in POLYNOMIAL
    ensures 11 in POLYNOMIAL && 10 !in POLYNOMIAL && 9 in POLYNOMIAL && 8 in POLYNOMIAL
    ensures 7 !in POLYNOMIAL && 6 in POLYNOMIAL && 5 in POLYNOMIAL && 4 in POLYNOMIAL
    ensures 3 in POLYNOMIAL && 2 !in POLYNOMIAL && 1 !in POLYNOMIAL && 0 !in POLYNOMIAL
  {
  }

  lemma PolynomialNumber()
    ensures Number(POLYNOMIAL) == 0x82F63B78
  {
    hide POLYNOMIAL;
    PolynomialMembers();
    assert NumberFrom(POLYNOMIAL, 28) == 0x8;
    assert NumberFrom(POLYNOMIAL, 24) == 0x82;
    assert NumberFrom(POLYNOMIAL, 20) == 0x82F;
    assert NumberFrom(POLYNOMIAL, 16) == 0x82F6;
    assert NumberFrom(POLYNOMIAL, 12) == 0x82F63;
    assert NumberFrom(POLYNOMIAL, 8) == 0x82F63B;
    assert NumberFrom(POLYNOMIAL, 4) == 0x82F63B7;
    assert NumberFrom(POLYNOMIAL, 0) == 0x82F63B78;
  }

  lemma PolynomialBits()
    ensures POLYNOMIAL == Bits(0x82F63B78)
  {
    hide POLYNOMIAL, Bits;
    PolynomialNumber();
    HexValue(0x82F63B78);
    IsBits(POLYNOMIAL, 0x82F63B78);
  }

  lemma AllOnesNumber()
    ensures Number(ALL_ONES) == 0xFFFFFFFF
  {
    assert forall i :: 0 <= i < 32 ==> i in ALL_ONES;
    hide ALL_ONES;
    assert NumberFrom(ALL_ONES, 28) == 0xF;
    assert NumberFrom(ALL_ONES, 24) == 0xFF;
    assert NumberFrom(ALL_ONES, 20) == 0xFFF;
    assert NumberFrom(ALL_ONES, 16) == 0xFFFF;
    assert NumberFrom(ALL_ONES, 12) == 0xFFFFF;
    assert NumberFrom(ALL_ONES, 8) == 0xFFFFFF;
    assert NumberFrom(ALL_ONES, 4) == 0xFFFFFFF;
    assert NumberFrom(ALL_ONES, 0) == 0xFFFFFFFF;
  }

  lemma AllOnesBits()
    ensures ALL_ONES == Bits(0xFFFFFFFF)
  {
    hide ALL_ONES, Bits;
    AllOnesNumber();
    HexValue(0xFFFFFFFF);
    IsBits(ALL_ONES, 0xFFFFFFFF);
  }

  lemma BitOfBits(v: bv32)
    ensures Bits(BitV(v)) == Bit(Bits(v))
  {
    hide Half, Odd, XorV, POLYNOMIAL;
    HalfBits(v);
    PolynomialBits();
    XorBits(Half(v), 0x82F63B78);
    XorSelf(Bits(Half(v)), {});
    assert 0 in Bits(v) <==> Odd(v);
  }

  function ZeroV(v: bv32): bv32 {
    BitV(BitV(BitV(BitV(BitV(BitV(BitV(BitV(v))))))))
  }

  lemma ZeroOfBits(v: bv32)
    ensures Bits(ZeroV(v)) == Zero(Bits(v))
  {
    hide BitV, Bits, Bit;
    BitOfBits(v);
    BitOfBits(BitV(v));
    BitOfBits(BitV(BitV(v)));
    BitOfBits(BitV(BitV(BitV(v))));
    BitOfBits(BitV(BitV(BitV(BitV(v)))));
    BitOfBits(BitV(BitV(BitV(BitV(BitV(v))))));
    BitOfBits(BitV(BitV(BitV(BitV(BitV(BitV(v)))))));
    BitOfBits(BitV(BitV(BitV(BitV(BitV(BitV(BitV(v))))))));
  }

  /** Byte `n` of a string that counts up from `first` by `step`. */
  function ByteV(first: bv32, step: bv32, n: nat): bv32 {
    if n == 0 then first else ByteV(first, step, n - 1) + step
  }

  /** The register after `n` bytes of such a string. */
  function RunV(v: bv32, first: bv32, step: bv32, n: nat): bv32 {
    if n == 0 then v else ZeroV(XorV(RunV(v, first, step, n - 1), ByteV(first, step, n - 1)))
  }

  lemma {:induction false} RunOfBits(v: bv32, first: bv32, step: bv32, data: seq<Octet>, n: nat)
    requires n <= |data| && forall i :: 0 <= i < n ==> data[i] == Bits(ByteV(first, step, i))
    ensures Fold(Bits(v), data[..n]) == Bits(RunV(v, first, step, n))
  {
    hide ZeroV, XorV, Bits, Zero, Xor, ByteV;
    if n > 0 {
      assert data[..n][..n - 1] == data[..n - 1];
      RunOfBits(v, first, step, data, n - 1);
      var before := RunV(v, first, step, n - 1);
      XorBits(before, ByteV(first, step, n - 1));
      ZeroOfBits(XorV(before, ByteV(first, step, n - 1)));
    }
  }

  lemma {:induction false} SameByte(b: bv32, n: nat)
    ensures ByteV(b, 0, n) == b
  {
    if n > 0 {
      SameByte(b, n - 1);
    }
  }

  lemma {:induction false} RunOn(v: bv32, b: bv32, m: nat, n: nat)
    ensures RunV(RunV(v, b, 0, m), b, 0, n) == RunV(v, b, 0, m + n)
  {
    hide ZeroV, XorV, ByteV;
    if n > 0 {
      RunOn(v, b, m, n - 1);
      SameByte(b, n - 1);
      SameByte(b, m + n - 1);
    }
  }

  // ----- the check values -----

  lemma HalfZeros()
    ensures RunV(0xFFFFFFFF, 0, 0, 16) == 0xBD8F6515
  {
    assert RunV(0xFFFFFFFF, 0, 0, 1) == 0xAD82ACAE;
    assert RunV(0xFFFFFFFF, 0, 0, 2) == 0x0E9E882D;
    assert RunV(0xFFFFFFFF, 0, 0, 3) == 0x9F9B5C85;
    assert RunV(0xFFFFFFFF, 0, 0, 4) == 0xB798B438;
    assert RunV(0xFFFFFFFF, 0, 0, 5) == 0xBA8D89CA;
    assert RunV(0xFFFFFFFF, 0, 0, 6) == 0xA8D58375;
    assert RunV(0xFFFFFFFF, 0, 0, 7) == 0x44C19592;
    assert RunV(0xFFFFFFFF, 0, 0, 8) == 0x73D74D75;
    assert RunV(0xFFFFFFFF, 0, 0, 9) == 0x441A975C;
    assert RunV(0xFFFFFFFF, 0, 0, 10) == 0x1C220F94;
    assert RunV(0xFFFFFFFF, 0, 0, 11) == 0x552E4907;
    assert RunV(0xFFFFFFFF, 0, 0, 12) == 0xD49F4AA2;
    assert RunV(0xFFFFFFFF, 0, 0, 13) == 0x43A45A1B;
    assert RunV(0xFFFFFFFF, 0, 0, 14) == 0x8994C80E;
    assert RunV(0xFFFFFFFF, 0, 0, 15) == 0xACF12BEF;
    assert RunV(0xFFFFFFFF, 0, 0, 16) == 0xBD8F6515;
  }

  lemma MoreZeros()
    ensures RunV(0xBD8F6515, 0, 0, 16) == 0x756EC955
  {
    assert RunV(0xBD8F6515, 0, 0, 1) == 0x25125C16;
    assert RunV(0xBD8F6515, 0, 0, 2) == 0x36DA32DB;
    assert RunV(0xBD8F6515, 0, 0, 3) == 0x4A6C90A2;
    assert RunV(0xBD8F6515, 0, 0, 4) == 0x433AA9C1;
    assert RunV(0xBD8F6515, 0, 0, 5) == 0x31A59F6E;
    assert RunV(0xBD8F6515, 0, 0, 6) == 0xCD8F89DA;
    assert RunV(0xBD8F6515, 0, 0, 7) == 0xB8FC461A;
    assert RunV(0xBD8F6515, 0, 0, 8) == 0x7B041311;
    assert RunV(0xBD8F6515, 0, 0, 9) == 0xE24E407F;
    assert RunV(0xBD8F6515, 0, 0, 10) == 0x2F692669;
    assert RunV(0xBD8F6515, 0, 0, 11) == 0x195B2188;
    assert RunV(0xBD8F6515, 0, 0, 12) == 0x08363896;
    assert RunV(0xBD8F6515, 0, 0, 13) == 0xB4012DC7;
    assert RunV(0xBD8F6515, 0, 0, 14) == 0x17F34302;
    assert RunV(0xBD8F6515, 0, 0, 15) == 0xE12C83B4;
    assert RunV(0xBD8F6515, 0, 0, 16) == 0x756EC955;
  }

  lemma HalfOnes()
    ensures RunV(0xFFFFFFFF, 0xFF, 0, 16) == 0x10D0B3EF
  {
    assert RunV(0xFFFFFFFF, 0xFF, 0, 1) == 0x00FFFFFF;
    assert RunV(0xFFFFFFFF, 0xFF, 0, 2) == 0x0000FFFF;
    assert RunV(0xFFFFFFFF, 0xFF, 0, 3) == 0x000000FF;
    assert RunV(0xFFFFFFFF, 0xFF, 0, 4) == 0x00000000;
    assert RunV(0xFFFFFFFF, 0xFF, 0, 5) == 0xAD7D5351;
    assert RunV(0xFFFFFFFF, 0xFF, 0, 6) == 0x0E9E77D2;
    assert RunV(0xFFFFFFFF, 0xFF, 0, 7) == 0x9F9B5C7A;
    assert RunV(0xFFFFFFFF, 0xFF, 0, 8) == 0xB798B438;
    assert RunV(0xFFFFFFFF, 0xFF, 0, 9) == 0x17F0DA9B;
    assert RunV(0xFFFFFFFF, 0xFF, 0, 10) == 0xA64BF4A7;
    assert RunV(0xFFFFFFFF, 0xFF, 0, 11) == 0xDB5AC9E8;
    assert RunV(0xFFFFFFFF, 0xFF, 0, 12) == 0xC44FF94D;
    assert RunV(0xFFFFFFFF, 0xFF, 0, 13) == 0x53EA4DC7;
    assert RunV(0xFFFFFFFF, 0xFF, 0, 14) == 0xBA69FB33;
    assert RunV(0xFFFFFFFF, 0xFF, 0, 15) == 0x8E7480EF;
    assert RunV(0xFFFFFFFF, 0xFF, 0, 16) == 0x10D0B3EF;
  }

  lemma MoreOnes()
    ensures RunV(0x10D0B3EF, 0xFF, 0, 16) == 0x9D5754BC
  {
    assert RunV(0x10D0B3EF, 0xFF, 0, 1) == 0x104E17DC;
    assert RunV(0x10D0B3EF, 0xFF, 0, 2) == 0x33FD333D;
    assert RunV(0x10D0B3EF, 0xFF, 0, 3) == 0x2285AB00;
    assert RunV(0x10D0B3EF, 0xFF, 0, 4) == 0xAD5FD6FA;
    assert RunV(0x10D0B3EF, 0xFF, 0, 5) == 0x355C4BCA;
    assert RunV(0x10D0B3EF, 0xFF, 0, 6) == 0x052701E6;
    assert RunV(0x10D0B3EF, 0xFF, 0, 7) == 0x68E93BA2;
    assert RunV(0x10D0B3EF, 0xFF, 0, 8) == 0xEE657F3B;
    assert RunV(0x10D0B3EF, 0xFF, 0, 9) == 0x04F9D4A4;
    assert RunV(0x10D0B3EF, 0xFF, 0, 10) == 0xC8A8883C;
    assert RunV(0x10D0B3EF, 0xFF, 0, 11) == 0xD0157DB8;
    assert RunV(0x10D0B3EF, 0xFF, 0, 12) == 0x95616C2A;
    assert RunV(0x10D0B3EF, 0xFF, 0, 13) == 0xE6B794DB;
    assert RunV(0x10D0B3EF, 0xFF, 0, 14) == 0xE7C1AE55;
    assert RunV(0x10D0B3EF, 0xFF, 0, 15) == 0xC94E5C30;
    assert RunV(0x10D0B3EF, 0xFF, 0, 16) == 0x9D5754BC;
  }

  lemma DigitRun()
    ensures RunV(0xFFFFFFFF, 0x31, 1, 9) == 0x1CF96D7C
  {
    assert RunV(0xFFFFFFFF, 0x31, 1, 1) == 0x6F0A661C;
    assert RunV(0xFFFFFFFF, 0x31, 1, 2) == 0x8CAA3B9F;
    assert RunV(0xFFFFFFFF, 0x31, 1, 3) == 0xEF84D04D;
    assert RunV(0xFFFFFFFF, 0x31, 1, 4) == 0x09C50B11;
    assert RunV(0xFFFFFFFF, 0x31, 1, 5) == 0xE72EDCCA;
    assert RunV(0xFFFFFFFF, 0x31, 1, 6) == 0xBECA8E79;
    assert RunV(0xFFFFFFFF, 0x31, 1, 7) == 0xEDBD6815;
    assert RunV(0xFFFFFFFF, 0x31, 1, 8) == 0x9F787F65;
    assert RunV(0xFFFFFFFF, 0x31, 1, 9) == 0x1CF96D7C;
  }

  /** The CRC of such a string, as a number. */
  lemma CheckValue(first: bv32, step: bv32, data: seq<Octet>)
    requires forall i :: 0 <= i < |data| ==> data[i] == Bits(ByteV(first, step, i))
    ensures Number(Extended({}, data)) == ValueOf(XorV(RunV(0xFFFFFFFF, first, step, |data|), 0xFFFFFFFF), 32)
  {
    hide Bits, RunV, XorV, Xor, ALL_ONES, ByteV, ValueOf;
    AllOnesBits();
    XorGroup({}, ALL_ONES, {});
    XorSelf(ALL_ONES, {});
    assert data[..|data|] == data;
    RunOfBits(0xFFFFFFFF, first, step, data, |data|);
    XorBits(RunV(0xFFFFFFFF, first, step, |data|), 0xFFFFFFFF);
    NumberOfBits(XorV(RunV(0xFFFFFFFF, first, step, |data|), 0xFFFFFFFF), 0);
  }

  lemma {:induction false} NoValue(n: nat)
    ensures ValueOf(0, n) == 0
  {
    if n > 0 {
      NoValue(n - 1);
    }
  }

  /** 32 bytes of zeros (section B.4 of RFC 3720). */
  lemma ThirtyTwoZeros(data: seq<Octet>)
    requires |data| == 32 && forall i :: 0 <= i < 32 ==> Number(data[i]) == 0
    ensures Number(Extended({}, data)) == 0x8A9136AA
  {
    hide Bits, RunV, Extended, Number;
    forall i | 0 <= i < 32
      ensures data[i] == Bits(ByteV(0, 0, i))
    {
      NoValue(32);
      IsBits(data[i], 0);
      SameByte(0, i);
    }
    CheckValue(0, 0, data);
    HalfZeros();
    MoreZeros();
    RunOn(0xFFFFFFFF, 0, 16, 16);
    HexValue(0x8A9136AA);
  }

  /** 32 bytes of ones. */
  lemma ThirtyTwoOnes(data: seq<Octet>)
    requires |data| == 32 && forall i :: 0 <= i < 32 ==> Number(data[i]) == 0xFF
    ensures Number(Extended({}, data)) == 0x62A8AB43
  {
    hide Bits, RunV, Extended, Number;
    forall i | 0 <= i < 32
      ensures data[i] == Bits(ByteV(0xFF, 0, i))
    {
      NoValue(24);
      assert ValueOf(0xFF, 32) == 0xFF;
      IsBits(data[i], 0xFF);
      SameByte(0xFF, i);
    }
    CheckValue(0xFF, 0, data);
    HalfOnes();
    MoreOnes();
    RunOn(0xFFFFFFFF, 0xFF, 16, 16);
    HexValue(0x62A8AB43);
  }

  lemma TwoDigitValue(v: bv32)
    requires Rest(v) == 3
    ensures ValueOf(v, 32) == 0x30 + Digit(v)
  {
    hide ValueOf;
    OneDigit(v, 28);
    OneDigit(3, 24);
    NoValue(24);
  }

  lemma DigitBytes()
    ensures ByteV(0x31, 1, 0) == 0x31
    ensures ByteV(0x31, 1, 1) == 0x32
    ensures ByteV(0x31, 1, 2) == 0x33
    ensures ByteV(0x31, 1, 3) == 0x34
    ensures ByteV(0x31, 1, 4) == 0x35
    ensures ByteV(0x31, 1, 5) == 0x36
    ensures ByteV(0x31, 1, 6) == 0x37
    ensures ByteV(0x31, 1, 7) == 0x38
    ensures ByteV(0x31, 1, 8) == 0x39
  {
  }

  lemma DigitValues()
    ensures ValueOf(0x31, 32) == 0x31
    ensures ValueOf(0x32, 32) == 0x32
    ensures ValueOf(0x33, 32) == 0x33
    ensures ValueOf(0x34, 32) == 0x34
    ensures ValueOf(0x35, 32) == 0x35
    ensures ValueOf(0x36, 32) == 0x36
    ensures ValueOf(0x37, 32) == 0x37
    ensures ValueOf(0x38, 32) == 0x38
    ensures ValueOf(0x39, 32) == 0x39
  {
    hide ValueOf;
    TwoDigitValue(0x31);
    TwoDigitValue(0x32);
    TwoDigitValue(0x33);
    TwoDigitValue(0x34);
    TwoDigitValue(0x35);
    TwoDigitValue(0x36);
    TwoDigitValue(0x37);
    TwoDigitValue(0x38);
    TwoDigitValue(0x39);
  }

  lemma DigitValue(i: nat)
    requires i < 9
    ensures ValueOf(ByteV(0x31, 1, i), 32) == 0x31 + i
  {
    hide ByteV, ValueOf;
    DigitBytes();
    DigitValues();
  }

  /** The digits 1 to 9, as text. */
  lemma NineDigits(data: seq<Octet>)
    requires |data| == 9 && forall i :: 0 <= i < 9 ==> Number(data[i]) == 0x31 + i
    ensures Number(Extended({}, data)) == 0xE3069283
  {
    hide Bits, RunV, Extended, Number, ByteV, ValueOf;
    forall i | 0 <= i < 9
      ensures data[i] == Bits(ByteV(0x31, 1, i))
    {
      DigitValue(i);
      IsBits(data[i], ByteV(0x31, 1, i));
    }
    CheckValue(0x31, 1, data);
    DigitRun();
    HexValue(0xE3069283);
  }
}
