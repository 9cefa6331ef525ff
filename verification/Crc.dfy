/** CRC32C: the four-stride form against one byte at a time. A word is the set of positions of its one
    bits, so ^, &, << and >> are set operations. */
module Crc {
  type Word = x: set<nat> | forall i :: i in x ==> i < 32
  /** A byte, by its bits too. */
  type Octet = x: set<nat> | forall i :: i in x ==> i < 8

  // ----- bitwise operators -----

  function Xor(a: Word, b: Word): Word {
    (a - b) + (b - a)
  }

  /** Shift left, dropping what leaves the word. */
  function Up(a: Word, n: nat): Word {
    set i | i in a && i + n < 32 :: i + n
  }

  function Down(a: Word, n: nat): Word {
    set i | i in a && n <= i :: i - n
  }

  function Low(a: Word, n: nat): Word {
    set i | i in a && i < n
  }

  const ALL_ONES: Word := set i: nat | i < 32

  // ----- the remainder, bit by bit -----

  /** 0x82F63B78: the Castagnoli polynomial of section 12.1 of RFC 3720, bits reversed. */
  const POLYNOMIAL: Word := {31, 25, 23, 22, 21, 20, 18, 17, 13, 12, 11, 9, 8, 6, 5, 4, 3}

  function Carry(x: Word): Word {
    if 0 in x then POLYNOMIAL else {}
  }

  /** One bit of polynomial division. */
  function Bit(x: Word): Word {
    Xor(Down(x, 1), Carry(x))
  }

  /** Eight bit steps: what a register becomes when a zero byte follows. */
  function Zero(x: Word): Word {
    Bit(Bit(Bit(Bit(Bit(Bit(Bit(Bit(x))))))))
  }

  function Zeros(x: Word, n: nat): Word {
    if n == 0 then x else Zero(Zeros(x, n - 1))
  }

  /** The register after some bytes, one byte at a time. */
  function Fold(l: Word, data: seq<Octet>): Word {
    if data == [] then l else Zero(Xor(Fold(l, data[..|data| - 1]), data[|data| - 1]))
  }

  /** The CRC of a string, continued from the CRC of what came before it. */
  function Extended(crc: Word, data: seq<Octet>): Word {
    Xor(Fold(Xor(crc, ALL_ONES), data), ALL_ONES)
  }

  // ----- the register is linear over exclusive or -----

  lemma XorSwap(a: Word, b: Word, c: Word, d: Word)
    ensures Xor(Xor(a, b), Xor(c, d)) == Xor(Xor(a, c), Xor(b, d))
  {
  }

  lemma XorGroup(a: Word, b: Word, c: Word)
    ensures Xor(Xor(a, b), c) == Xor(a, Xor(b, c)) && Xor(a, b) == Xor(b, a)
  {
  }

  lemma XorSelf(a: Word, b: Word)
    ensures Xor(a, {}) == a && Xor(Xor(a, b), b) == a
  {
  }

  lemma DownLinear(x: Word, y: Word, n: nat)
    ensures Down(Xor(x, y), n) == Xor(Down(x, n), Down(y, n))
  {
    forall j: nat
      ensures j in Down(Xor(x, y), n) <==> j in Xor(Down(x, n), Down(y, n))
    {
      InDown(x, n, j);
      InDown(y, n, j);
      InDown(Xor(x, y), n, j);
    }
  }

  lemma InDown(x: Word, n: nat, j: nat)
    ensures j in Down(x, n) <==> j + n in x
  {
    if j + n in x {
      assert j == (j + n) - n;
    }
  }

  lemma InUp(x: Word, n: nat, j: nat)
    ensures j in Up(x, n) <==> n <= j < 32 && j - n in x
  {
    if n <= j < 32 && j - n in x {
      assert j == (j - n) + n;
    }
  }

  lemma CarryLinear(x: Word, y: Word)
    ensures Carry(Xor(x, y)) == Xor(Carry(x), Carry(y))
  {
  }

  lemma BitLinear(x: Word, y: Word)
    ensures Bit(Xor(x, y)) == Xor(Bit(x), Bit(y))
  {
    hide Xor, Down, Carry;
    DownLinear(x, y, 1);
    CarryLinear(x, y);
    XorSwap(Down(x, 1), Down(y, 1), Carry(x), Carry(y));
  }

  lemma ZeroLinear(x: Word, y: Word)
    ensures Zero(Xor(x, y)) == Xor(Zero(x), Zero(y))
  {
    hide Bit, Xor;
    BitLinear(x, y);
    BitLinear(Bit(x), Bit(y));
    BitLinear(Bit(Bit(x)), Bit(Bit(y)));
    BitLinear(Bit(Bit(Bit(x))), Bit(Bit(Bit(y))));
    BitLinear(Bit(Bit(Bit(Bit(x)))), Bit(Bit(Bit(Bit(y)))));
    BitLinear(Bit(Bit(Bit(Bit(Bit(x))))), Bit(Bit(Bit(Bit(Bit(y))))));
    BitLinear(Bit(Bit(Bit(Bit(Bit(Bit(x)))))), Bit(Bit(Bit(Bit(Bit(Bit(y)))))));
    BitLinear(Bit(Bit(Bit(Bit(Bit(Bit(Bit(x))))))), Bit(Bit(Bit(Bit(Bit(Bit(Bit(y))))))));
  }

  lemma {:induction false} ZerosLinear(x: Word, y: Word, n: nat)
    ensures Zeros(Xor(x, y), n) == Xor(Zeros(x, n), Zeros(y, n))
  {
    hide Zero, Xor;
    if n > 0 {
      ZerosLinear(x, y, n - 1);
      ZeroLinear(Zeros(x, n - 1), Zeros(y, n - 1));
    }
  }

  lemma {:induction false} ZerosAdd(x: Word, m: nat, n: nat)
    ensures Zeros(Zeros(x, m), n) == Zeros(x, m + n)
  {
    hide Zero;
    if n > 0 {
      ZerosAdd(x, m, n - 1);
    }
  }

  // ----- moving without dividing -----

  predicate Below(x: Word, n: nat) {
    forall i :: i in x ==> i < n
  }

  lemma BitOfUp(y: Word, n: nat)
    requires 0 < n <= 32 && Below(y, 32 - n)
    ensures Bit(Up(y, n)) == Up(y, n - 1)
  {
    InUp(y, n, 0);
    XorSelf(Down(Up(y, n), 1), {});
    forall j: nat
      ensures j in Down(Up(y, n), 1) <==> j in Up(y, n - 1)
    {
      InDown(Up(y, n), 1, j);
      InUp(y, n, j + 1);
      InUp(y, n - 1, j);
    }
  }

  /** A register with nothing in its low byte only moves. */
  lemma ZeroOfUp(y: Word)
    requires Below(y, 24)
    ensures Zero(Up(y, 8)) == y
  {
    hide Bit;
    BitOfUp(y, 8);
    BitOfUp(y, 7);
    BitOfUp(y, 6);
    BitOfUp(y, 5);
    BitOfUp(y, 4);
    BitOfUp(y, 3);
    BitOfUp(y, 2);
    BitOfUp(y, 1);
    forall j: nat
      ensures j in Up(y, 0) <==> j in y
    {
      InUp(y, 0, j);
    }
  }

  // ----- one byte -----

  /** kByteExtensionTable: the byte step of every byte. */
  function ByteTable(c: Word): Word
    requires Below(c, 8)
  {
    Zero(c)
  }

  lemma SplitLow(l: Word)
    ensures l == Xor(Low(l, 8), Up(Down(l, 8), 8)) && Below(Low(l, 8), 8) && Below(Down(l, 8), 24)
  {
    forall j: nat
      ensures j in Up(Down(l, 8), 8) <==> j in l && 8 <= j
      ensures j in Down(l, 8) ==> j < 24
    {
      InUp(Down(l, 8), 8, j);
      InDown(l, 8, j);
      if j >= 8 {
        InDown(l, 8, j - 8);
      }
    }
  }

  /** Looking up the low byte and moving the rest is one byte step. */
  lemma ByteStep(l: Word, b: Octet)
    ensures Below(Xor(Low(l, 8), b), 8)
    ensures Xor(ByteTable(Xor(Low(l, 8), b)), Down(l, 8)) == Zero(Xor(l, b))
  {
    SplitLow(l);
    var low, high := Xor(Low(l, 8), b), Up(Down(l, 8), 8);
    assert Xor(l, b) == Xor(low, high) by {
      XorGroup(Low(l, 8), high, b);
      XorGroup(high, b, {});
      XorGroup(Low(l, 8), b, high);
    }
    StepParts(low, Down(l, 8));
  }

  lemma StepParts(low: Word, high: Word)
    requires Below(high, 24)
    ensures Zero(Xor(low, Up(high, 8))) == Xor(Zero(low), high)
  {
    hide Zero, Xor, Up;
    ZeroLinear(low, Up(high, 8));
    ZeroOfUp(high);
  }

  /** STEP1 */
  method Step1(l: Word, b: Octet) returns (r: Word)
    ensures r == Zero(Xor(l, b))
  {
    ByteStep(l, b);
    r := Xor(ByteTable(Xor(Low(l, 8), b)), Down(l, 8));
  }

  // ----- one word -----

  /** ReadUint32LE: four bytes as one word, the first one lowest. */
  function WordAt(data: seq<Octet>, p: nat): Word
    requires p + 4 <= |data|
  {
    data[p] + Up(data[p + 1], 8) + Up(data[p + 2], 16) + Up(data[p + 3], 24)
  }

  function Above(b: Octet, rest: Word): Word {
    Xor(b, Up(rest, 8))
  }

  lemma InAbove(b: Octet, rest: Word, j: nat)
    ensures j in Above(b, rest) <==> j in b || (8 <= j < 32 && j - 8 in rest)
  {
    InUp(rest, 8, j);
  }

  /** A word is its first byte, under a word of the other three. */
  lemma WordBytes(data: seq<Octet>, p: nat)
    requires p + 4 <= |data|
    ensures WordAt(data, p) == Above(data[p], Above(data[p + 1], Above(data[p + 2], data[p + 3])))
    ensures Below(Above(data[p + 1], Above(data[p + 2], data[p + 3])), 24)
    ensures Below(Above(data[p + 2], data[p + 3]), 16)
  {
    var b0, b1, b2, b3 := data[p], data[p + 1], data[p + 2], data[p + 3];
    var two := Above(b2, b3);
    var three := Above(b1, two);
    forall j: nat
      ensures j in two ==> j < 16
      ensures j in three ==> j < 24
      ensures j in WordAt(data, p) <==> j in Above(b0, three)
    {
      InAbove(b2, b3, j);
      InAbove(b1, two, j);
      InAbove(b0, three, j);
      InUp(b1, 8, j);
      InUp(b2, 16, j);
      InUp(b3, 24, j);
      if j >= 8 {
        InAbove(b1, two, j - 8);
      }
      if j >= 16 {
        InAbove(b2, b3, j - 16);
      }
    }
  }

  lemma ByteThenRest(l: Word, b: Octet, rest: Word)
    requires Below(rest, 24)
    ensures Zero(Xor(l, Above(b, rest))) == Xor(Zero(Xor(l, b)), rest)
  {
    hide Zero, Xor, Up;
    XorGroup(l, b, Up(rest, 8));
    StepParts(Xor(l, b), rest);
  }

  /** Four bytes one at a time are one word followed by four zero bytes. */
  lemma FoldWord(l: Word, data: seq<Octet>, p: nat)
    requires p + 4 <= |data|
    ensures Fold(l, data[..p + 4]) == Zeros(Xor(Fold(l, data[..p]), WordAt(data, p)), 4)
  {
    hide Zero, Xor, Above, WordAt;
    var l0 := Fold(l, data[..p]);
    assert data[..p + 1][..p] == data[..p] && data[..p + 2][..p + 1] == data[..p + 1];
    assert data[..p + 3][..p + 2] == data[..p + 2] && data[..p + 4][..p + 3] == data[..p + 3];
    WordBytes(data, p);
    ByteThenRest(l0, data[p], Above(data[p + 1], Above(data[p + 2], data[p + 3])));
    var l1 := Zero(Xor(l0, data[p]));
    ByteThenRest(l1, data[p + 1], Above(data[p + 2], data[p + 3]));
    var l2 := Zero(Xor(l1, data[p + 1]));
    ByteThenRest(l2, data[p + 2], data[p + 3]);
    var w := Xor(l0, WordAt(data, p));
    assert Zeros(w, 1) == Zero(Zeros(w, 0)) && Zeros(w, 2) == Zero(Zeros(w, 1));
    assert Zeros(w, 3) == Zero(Zeros(w, 2)) && Zeros(w, 4) == Zero(Zeros(w, 3));
    assert Fold(l, data[..p + 1]) == l1 && Fold(l, data[..p + 2]) == l2;
  }

  lemma LookupStep(w: Word)
    ensures Below(Low(w, 8), 8) && Xor(Down(w, 8), ByteTable(Low(w, 8))) == Zero(w)
  {
    hide Zero;
    ByteStep(w, {});
    XorSelf(Low(w, 8), {});
    XorSelf(w, {});
    XorGroup(Down(w, 8), ByteTable(Low(w, 8)), {});
  }

  /** STEP4W: fold a word into the register, by four lookups. */
  method Step4W(l: Word, word: Word) returns (r: Word)
    ensures r == Zeros(Xor(word, l), 4)
  {
    var w := Xor(word, l);
    ghost var start := w;
    for i := 0 to 4
      invariant w == Zeros(start, i)
    {
      hide Xor, Down, Low, Zero, Below;
      LookupStep(w);
      w := Xor(Down(w, 8), ByteTable(Low(w, 8)));
    }
    r := w;
  }

  // ----- four strides -----

  /** kStrideExtensionTable3, 2, 1 and 0: a byte in place 0, 1, 2 or 3 of a word, carried over 16 bytes. */
  function StrideTable(c: Word, place: nat): Word
    requires Below(c, 8)
  {
    Zeros(Up(c, 8 * place), 16)
  }

  function ByteOf(w: Word, place: nat): Word {
    Low(Down(w, 8 * place), 8)
  }

  lemma InByteOf(w: Word, place: nat, j: nat)
    ensures j in ByteOf(w, place) <==> j < 8 && j + 8 * place in w
    ensures Below(ByteOf(w, place), 8)
  {
    InDown(w, 8 * place, j);
  }

  lemma WordOfBytes(w: Word)
    ensures w == Xor(Xor(Xor(Up(ByteOf(w, 0), 0), Up(ByteOf(w, 1), 8)), Up(ByteOf(w, 2), 16)), Up(ByteOf(w, 3), 24))
    ensures forall place: nat :: Below(ByteOf(w, place), 8)
  {
    forall j: nat
      ensures j in w <==> j in Xor(Xor(Xor(Up(ByteOf(w, 0), 0), Up(ByteOf(w, 1), 8)), Up(ByteOf(w, 2), 16)),
        Up(ByteOf(w, 3), 24))
    {
      PlacedByte(w, 0, j);
      PlacedByte(w, 1, j);
      PlacedByte(w, 2, j);
      PlacedByte(w, 3, j);
    }
  }

  lemma PlacedByte(w: Word, place: nat, j: nat)
    ensures j in Up(ByteOf(w, place), 8 * place) <==> 8 * place <= j < 8 * place + 8 && j in w
  {
    InUp(ByteOf(w, place), 8 * place, j);
    if j >= 8 * place {
      InByteOf(w, place, j - 8 * place);
    }
  }

  /** Four lookups carry a register over 16 bytes. */
  lemma StrideLookup(c: Word)
    ensures forall place: nat :: Below(ByteOf(c, place), 8)
    ensures Xor(Xor(Xor(StrideTable(ByteOf(c, 0), 0), StrideTable(ByteOf(c, 1), 1)), StrideTable(ByteOf(c, 2), 2)),
      StrideTable(ByteOf(c, 3), 3))
      == Zeros(c, 16)
  {
    WordOfBytes(c);
    var a0, a1, a2, a3 := Up(ByteOf(c, 0), 0), Up(ByteOf(c, 1), 8), Up(ByteOf(c, 2), 16), Up(ByteOf(c, 3), 24);
    ZerosLinear(a0, a1, 16);
    ZerosLinear(Xor(a0, a1), a2, 16);
    ZerosLinear(Xor(Xor(a0, a1), a2), a3, 16);
  }

  /** STEP4, for the stride `c` and the word read for it. */
  method Step4(c: Word, word: Word) returns (r: Word)
    ensures r == Xor(word, Zeros(c, 16))
  {
    StrideLookup(c);
    var t3, t2, t1, t0 := StrideTable(ByteOf(c, 0), 0), StrideTable(ByteOf(c, 1), 1), StrideTable(ByteOf(c, 2), 2),
      StrideTable(ByteOf(c, 3), 3);
    r := Xor(Xor(Xor(Xor(word, t3), t2), t1), t0);
    XorGroup(word, t3, t2);
    XorGroup(word, Xor(t3, t2), t1);
    XorGroup(word, Xor(Xor(t3, t2), t1), t0);
  }

  /** What four strides stand for: the register after everything read so far. */
  function Combined(c0: Word, c1: Word, c2: Word, c3: Word): Word {
    Zeros(Xor(Zeros(Xor(Zeros(Xor(Zeros(c0, 4), c1), 4), c2), 4), c3), 4)
  }

  /** The strides apart: each is carried over the bytes that follow it. */
  lemma CombinedApart(c0: Word, c1: Word, c2: Word, c3: Word)
    ensures Combined(c0, c1, c2, c3) == Xor(Xor(Xor(Zeros(c0, 16), Zeros(c1, 12)), Zeros(c2, 8)), Zeros(c3, 4))
  {
    hide Xor, Zeros;
    var z0 := Zeros(c0, 4);
    ZerosLinear(z0, c1, 4);
    var z1 := Zeros(Xor(z0, c1), 4);
    ZerosLinear(z1, c2, 4);
    var z2 := Zeros(Xor(z1, c2), 4);
    ZerosLinear(z2, c3, 4);
    ZerosAdd(c0, 4, 4);
    ZerosLinear(Zeros(c0, 8), Zeros(c1, 4), 4);
    ZerosAdd(c0, 8, 4);
    ZerosAdd(c1, 4, 4);
    ZerosLinear(Xor(Zeros(c0, 12), Zeros(c1, 8)), Zeros(c2, 4), 4);
    ZerosLinear(Zeros(c0, 12), Zeros(c1, 8), 4);
    ZerosAdd(c0, 12, 4);
    ZerosAdd(c1, 8, 4);
    ZerosAdd(c2, 4, 4);
  }

  /** One word more: the first stride moves on and becomes the last. */
  lemma Rotate(c0: Word, c1: Word, c2: Word, c3: Word, w: Word)
    ensures Combined(c1, c2, c3, Xor(w, Zeros(c0, 16))) == Zeros(Xor(Combined(c0, c1, c2, c3), w), 4)
  {
    hide Xor, Zeros, Combined;
    CombinedApart(c0, c1, c2, c3);
    var x0, x1, x2, x3 := Zeros(c0, 16), Zeros(c1, 12), Zeros(c2, 8), Zeros(c3, 4);
    ZerosLinear(Xor(Xor(Xor(x0, x1), x2), x3), w, 4);
    ZerosLinear(Xor(Xor(x0, x1), x2), x3, 4);
    ZerosLinear(Xor(x0, x1), x2, 4);
    ZerosLinear(x0, x1, 4);
    ZerosAdd(c1, 12, 4);
    ZerosAdd(c2, 8, 4);
    ZerosAdd(c3, 4, 4);
    CombinedApart(c1, c2, c3, Xor(w, x0));
    ZerosLinear(w, x0, 4);
    var y0, y1, y2, y3, z := Zeros(x0, 4), Zeros(c1, 16), Zeros(c2, 12), Zeros(c3, 8), Zeros(w, 4);
    Regroup(y0, y1, y2, y3, z);
  }

  lemma Regroup(y0: Word, y1: Word, y2: Word, y3: Word, z: Word)
    ensures Xor(Xor(Xor(y1, y2), y3), Xor(z, y0)) == Xor(Xor(Xor(Xor(y0, y1), y2), y3), z)
  {
  }

  /** A swath of four words is four rotations. */
  lemma Swath(c0: Word, c1: Word, c2: Word, c3: Word, w0: Word, w1: Word, w2: Word, w3: Word)
    ensures Combined(Xor(w0, Zeros(c0, 16)), Xor(w1, Zeros(c1, 16)), Xor(w2, Zeros(c2, 16)), Xor(w3, Zeros(c3, 16)))
      == Zeros(Xor(Zeros(Xor(Zeros(Xor(Zeros(Xor(Combined(c0, c1, c2, c3), w0), 4), w1), 4), w2), 4), w3), 4)
  {
    hide Xor, Zeros, Combined;
    var d0, d1, d2, d3 := Xor(w0, Zeros(c0, 16)), Xor(w1, Zeros(c1, 16)), Xor(w2, Zeros(c2, 16)),
      Xor(w3, Zeros(c3, 16));
    Rotate(c0, c1, c2, c3, w0);
    Rotate(c1, c2, c3, d0, w1);
    Rotate(c2, c3, d0, d1, w2);
    Rotate(c3, d0, d1, d2, w3);
  }

  // ----- Extend -----

  /** Extend, without hardware help, for data that starts at address `address`: single bytes up to a multiple of
      four, four strides of 16 bytes at a time, single words, and the bytes left over. */
  method Extend(crc: Word, data: seq<Octet>, address: nat) returns (r: Word)
    ensures r == Extended(crc, data)
  {
    hide Zero, Xor, Zeros, WordAt, Combined;
    var l := Xor(crc, ALL_ONES);
    ghost var start := l;
    var p := 0;
    var x := (4 - address % 4) % 4;
    if x <= |data| {
      while p != x
        invariant p <= x && l == Fold(start, data[..p])
      {
        assert data[..p + 1][..p] == data[..p];
        l := Step1(l, data[p]);
        p := p + 1;
      }
    }
    if |data| - p >= 16 {
      var c0, c1, c2, c3 := Xor(WordAt(data, p), l), WordAt(data, p + 4), WordAt(data, p + 8), WordAt(data, p + 12);
      FoldSwath(start, data, p);
      XorGroup(WordAt(data, p), l, l);
      assert Combined(c0, c1, c2, c3) == Fold(start, data[..p + 16]) by {
        Starts(l, WordAt(data, p), c1, c2, c3);
      }
      p := p + 16;
      while |data| - p >= 16
        invariant 0 <= p <= |data| && Combined(c0, c1, c2, c3) == Fold(start, data[..p])
      {
        Swath(c0, c1, c2, c3, WordAt(data, p), WordAt(data, p + 4), WordAt(data, p + 8), WordAt(data, p + 12));
        FoldSwath(start, data, p);
        c0 := Step4(c0, WordAt(data, p));
        c1 := Step4(c1, WordAt(data, p + 4));
        c2 := Step4(c2, WordAt(data, p + 8));
        c3 := Step4(c3, WordAt(data, p + 12));
        p := p + 16;
      }
      while |data| - p >= 4
        invariant 0 <= p <= |data| && Combined(c0, c1, c2, c3) == Fold(start, data[..p])
      {
        Rotate(c0, c1, c2, c3, WordAt(data, p));
        FoldWord(start, data, p);
        var tmp := Step4(c0, WordAt(data, p));
        c0, c1, c2, c3 := c1, c2, c3, tmp;
        p := p + 4;
      }
      ghost var total := Combined(c0, c1, c2, c3);
      l := Gather(c0, c1, c2, c3);
    }
    while p != |data|
      invariant p <= |data| && l == Fold(start, data[..p])
    {
      assert data[..p + 1][..p] == data[..p];
      l := Step1(l, data[p]);
      p := p + 1;
    }
    assert data[..|data|] == data;
    r := Xor(l, ALL_ONES);
  }

  lemma FoldSwath(l: Word, data: seq<Octet>, p: nat)
    requires p + 16 <= |data|
    ensures Fold(l, data[..p + 16]) == Zeros(Xor(Zeros(Xor(Zeros(Xor(Zeros(Xor(Fold(l, data[..p]), WordAt(data, p)), 4),
      WordAt(data, p + 4)), 4), WordAt(data, p + 8)), 4), WordAt(data, p + 12)), 4)
  {
    hide Zero, Xor, Zeros, WordAt, Fold;
    FoldWord(l, data, p);
    FoldWord(l, data, p + 4);
    FoldWord(l, data, p + 8);
    FoldWord(l, data, p + 12);
  }

  lemma Starts(l: Word, w0: Word, c1: Word, c2: Word, c3: Word)
    ensures Combined(Xor(w0, l), c1, c2, c3)
      == Zeros(Xor(Zeros(Xor(Zeros(Xor(Zeros(Xor(l, w0), 4), c1), 4), c2), 4), c3), 4)
  {
    XorGroup(w0, l, {});
  }

  /** The strides put together, from an empty register. */
  method Gather(c0: Word, c1: Word, c2: Word, c3: Word) returns (l: Word)
    ensures l == Combined(c0, c1, c2, c3)
  {
    hide Zeros;
    XorSelf(c0, {});
    l := Step4W({}, c0);
    XorGroup(c1, l, {});
    l := Step4W(l, c1);
    XorGroup(c2, l, {});
    l := Step4W(l, c2);
    XorGroup(c3, l, {});
    l := Step4W(l, c3);
  }

  // ----- what a CRC is for -----

  lemma {:induction false} FoldTogether(l: Word, a: seq<Octet>, b: seq<Octet>)
    ensures Fold(l, a + b) == Fold(Fold(l, a), b)
    decreases |b|
  {
    hide Zero, Xor;
    if b == [] {
      assert a + b == a;
    } else {
      assert (a + b)[..|a + b| - 1] == a + b[..|b| - 1];
      FoldTogether(l, a, b[..|b| - 1]);
    }
  }

  /** The CRC of a string may be computed in two parts. */
  lemma ExtendInParts(crc: Word, a: seq<Octet>, b: seq<Octet>)
    ensures Extended(Extended(crc, a), b) == Extended(crc, a + b)
  {
    hide Xor;
    FoldTogether(Xor(crc, ALL_ONES), a, b);
    XorSelf(Fold(Xor(crc, ALL_ONES), a), ALL_ONES);
  }

  /** The polynomial's top bit tells the step what it did, so it can be undone. */
  lemma BitOneToOne(x: Word, y: Word)
    requires Bit(x) == Bit(y)
    ensures x == y
  {
    InDown(x, 1, 31);
    InDown(y, 1, 31);
    assert 31 in Bit(x) <==> 0 in x;
    assert 31 in Bit(y) <==> 0 in y;
    forall j: nat
      ensures j in x <==> j in y
    {
      if j > 0 {
        InDown(x, 1, j - 1);
        InDown(y, 1, j - 1);
        assert j - 1 in Bit(x) <==> j - 1 in Bit(y);
      }
    }
  }

  lemma ZeroOneToOne(x: Word, y: Word)
    requires Zero(x) == Zero(y)
    ensures x == y
  {
    hide Bit;
    BitOneToOne(Bit(Bit(Bit(Bit(Bit(Bit(Bit(x))))))), Bit(Bit(Bit(Bit(Bit(Bit(Bit(y))))))));
    BitOneToOne(Bit(Bit(Bit(Bit(Bit(Bit(x)))))), Bit(Bit(Bit(Bit(Bit(Bit(y)))))));
    BitOneToOne(Bit(Bit(Bit(Bit(Bit(x))))), Bit(Bit(Bit(Bit(Bit(y))))));
    BitOneToOne(Bit(Bit(Bit(Bit(x)))), Bit(Bit(Bit(Bit(y)))));
    BitOneToOne(Bit(Bit(Bit(x))), Bit(Bit(Bit(y))));
    BitOneToOne(Bit(Bit(x)), Bit(Bit(y)));
    BitOneToOne(Bit(x), Bit(y));
    BitOneToOne(x, y);
  }

  lemma {:induction false} FoldOneToOne(x: Word, y: Word, data: seq<Octet>)
    requires Fold(x, data) == Fold(y, data)
    ensures x == y
  {
    hide Zero, Xor;
    if data != [] {
      var init, b := data[..|data| - 1], data[|data| - 1];
      ZeroOneToOne(Xor(Fold(x, init), b), Xor(Fold(y, init), b));
      XorSelf(Fold(x, init), b);
      XorSelf(Fold(y, init), b);
      FoldOneToOne(x, y, init);
    }
  }

  lemma {:induction false} ZerosOneToOne(x: Word, y: Word, n: nat)
    requires Zeros(x, n) == Zeros(y, n)
    ensures x == y
  {
    hide Zero;
    if n > 0 {
      ZeroOneToOne(Zeros(x, n - 1), Zeros(y, n - 1));
      ZerosOneToOne(x, y, n - 1);
    }
  }

  /** No damage within four neighbouring bytes goes unnoticed. */
  lemma BurstDetected(crc: Word, before: seq<Octet>, a: seq<Octet>, b: seq<Octet>, after: seq<Octet>)
    requires |a| == |b| == 4 && a != b
    ensures Extended(crc, before + a + after) != Extended(crc, before + b + after)
  {
    hide Xor, Zeros, WordAt, Zero, Extended;
    if Extended(crc, before + a + after) == Extended(crc, before + b + after) {
      SameInside(crc, before, a, b, after);
      var l := Fold(Xor(crc, ALL_ONES), before);
      assert a[..4] == a && b[..4] == b && a[..0] == b[..0] == [];
      FoldWord(l, a, 0);
      FoldWord(l, b, 0);
      ZerosOneToOne(Xor(l, WordAt(a, 0)), Xor(l, WordAt(b, 0)), 4);
      XorGroup(l, WordAt(a, 0), {});
      XorGroup(l, WordAt(b, 0), {});
      XorSelf(WordAt(a, 0), l);
      XorSelf(WordAt(b, 0), l);
      SameWordSameBytes(a, b);
    }
  }

  lemma SameInside(crc: Word, before: seq<Octet>, a: seq<Octet>, b: seq<Octet>, after: seq<Octet>)
    requires Extended(crc, before + a + after) == Extended(crc, before + b + after)
    ensures Fold(Fold(Xor(crc, ALL_ONES), before), a) == Fold(Fold(Xor(crc, ALL_ONES), before), b)
  {
    hide Xor, Fold;
    var l := Xor(crc, ALL_ONES);
    XorSelf(Fold(l, before + a + after), ALL_ONES);
    XorSelf(Fold(l, before + b + after), ALL_ONES);
    FoldTogether(l, before + a, after);
    FoldTogether(l, before + b, after);
    FoldTogether(l, before, a);
    FoldTogether(l, before, b);
    FoldOneToOne(Fold(l, before + a), Fold(l, before + b), after);
  }

  lemma SameWordSameBytes(a: seq<Octet>, b: seq<Octet>)
    requires |a| == |b| == 4 && WordAt(a, 0) == WordAt(b, 0)
    ensures a == b
  {
    forall i, j: nat | 0 <= i < 4
      ensures j in a[i] <==> j in b[i]
    {
      if j < 8 {
        ByteInWord(a, i, j);
        ByteInWord(b, i, j);
      }
    }
    assert a[0] == b[0] && a[1] == b[1] && a[2] == b[2] && a[3] == b[3];
  }

  lemma ByteInWord(a: seq<Octet>, i: nat, j: nat)
    requires |a| == 4 && i < 4 && j < 8
    ensures j in a[i] <==> j + 8 * i in WordAt(a, 0)
  {
    InUp(a[1], 8, j + 8 * i);
    InUp(a[2], 16, j + 8 * i);
    InUp(a[3], 24, j + 8 * i);
  }
}
