/** LevelDB's varints and length-prefixed strings. */
module Coding {
  import opened Keys
  import opened Wire

  /** The checksum stored with a log fragment or a block; nothing depends on which function it is. */
  type Sum = n: int | 0 <= n < TWO32
  type Checksum = Bytes -> Sum

  // ----- writing -----

  /** EncodeVarint32, one branch for each length. */
  method EncodeVarint32(v: nat) returns (bytes: Bytes)
    requires v < TWO32
    ensures bytes == Varint(v)
  {
    if v < 0x80 {
      bytes := [v];
    } else if v < 0x4000 {
      TwoGroups(v);
      bytes := [v % 128 + 128, v / 0x80];
    } else if v < 0x20_0000 {
      ThreeGroups(v);
      bytes := [v % 128 + 128, v / 0x80 % 128 + 128, v / 0x4000];
    } else if v < 0x1000_0000 {
      FourGroups(v);
      bytes := [v % 128 + 128, v / 0x80 % 128 + 128, v / 0x4000 % 128 + 128, v / 0x20_0000];
    } else {
      FiveGroups(v);
      bytes := [v % 128 + 128, v / 0x80 % 128 + 128, v / 0x4000 % 128 + 128, v / 0x20_0000 % 128 + 128,
        v / 0x1000_0000];
    }
  }

  lemma TwoGroups(v: nat)
    requires 0x80 <= v < 0x4000
    ensures Varint(v) == [v % 128 + 128, v / 0x80]
  {
  }

  lemma ThreeGroups(v: nat)
    requires 0x4000 <= v < 0x20_0000
    ensures Varint(v) == [v % 128 + 128, v / 0x80 % 128 + 128, v / 0x4000]
  {
  }

  lemma FourGroups(v: nat)
    requires 0x20_0000 <= v < 0x1000_0000
    ensures Varint(v) == [v % 128 + 128, v / 0x80 % 128 + 128, v / 0x4000 % 128 + 128, v / 0x20_0000]
  {
    hide Varint;
    VarintUnfold(v);
    ThreeGroups(v / 0x80);
    assert v / 0x80 / 0x80 == v / 0x4000 && v / 0x80 / 0x4000 == v / 0x20_0000;
  }

  lemma FiveGroups(v: nat)
    requires 0x1000_0000 <= v < TWO32
    ensures Varint(v) == [v % 128 + 128, v / 0x80 % 128 + 128, v / 0x4000 % 128 + 128, v / 0x20_0000 % 128 + 128,
      v / 0x1000_0000]
  {
    hide Varint;
    VarintUnfold(v);
    FourGroups(v / 0x80);
    assert v / 0x80 / 0x80 == v / 0x4000 && v / 0x80 / 0x4000 == v / 0x20_0000
      && v / 0x80 / 0x20_0000 == v / 0x1000_0000;
  }

  lemma VarintUnfold(n: nat)
    ensures Varint(n) == if n < 128 then [n] else [n % 128 + 128] + Varint(n / 128)
  {
  }

  /** EncodeVarint64 */
  method EncodeVarint64(value: nat) returns (bytes: Bytes)
    requires value < TWO64
    ensures bytes == Varint(value)
  {
    bytes := [];
    var v := value;
    while v >= 128
      invariant 0 <= v && bytes + Varint(v) == Varint(value)
    {
      ghost var was, head := v, bytes;
      bytes := bytes + [v % 128 + 128];
      v := v / 128;
      assert head + ([was % 128 + 128] + Varint(v)) == bytes + Varint(v);
    }
    bytes := bytes + [v];
  }

  /** VarintLength */
  method VarintLength(value: nat) returns (len: nat)
    ensures len == |Varint(value)|
  {
    len := 1;
    var v := value;
    while v >= 128
      invariant 0 <= v && len + |Varint(v)| == |Varint(value)| + 1
    {
      v := v / 128;
      len := len + 1;
    }
  }

  lemma {:induction false} VarintSize(n: nat, k: nat)
    requires k >= 1 && n < Pow2(7 * k)
    ensures |Varint(n)| <= k
  {
    hide Pow2;
    if n >= 128 {
      Pow2Values();
      if k > 1 {
        Pow2Add(7, 7 * (k - 1));
        assert n / 128 < Pow2(7 * (k - 1));
        VarintSize(n / 128, k - 1);
      }
    }
  }

  // ----- reading -----

  /** A group of seven bits put in its place in a word of `width` bits. */
  function Merged(result: nat, group: nat, shift: nat, width: nat): nat {
    Or(result, Shifted(group, shift) % Pow2(width))
  }

  lemma MergeStep(n: nat, shift: nat, result: nat, width: nat)
    requires result < Pow2(shift) && result + Shifted(n, shift) < Pow2(width)
    ensures var r := Merged(result, n % 128, shift, width);
      r < Pow2(shift + 7) && r + Shifted(n / 128, shift + 7) == result + Shifted(n, shift)
    ensures n < 128 ==> Merged(result, n % 128, shift, width) == result + Shifted(n, shift)
  {
    hide Pow2, Or, Shifted;
    GroupStep(n, shift, result, Pow2(width));
  }

  /** The loop of GetVarint32PtrFallback (`width` 32) and GetVarint64Ptr (`width` 64). */
  function VarintPtr(data: Bytes, shift: nat, result: nat, width: nat): Read<nat>
  {
    if shift >= width || data == [] then None
    else
      var r := Merged(result, data[0] % 128, shift, width);
      if data[0] >= 128 then VarintPtr(data[1..], shift + 7, r, width) else Some((r, data[1..]))
  }

  /** A number that is read fits its width. */
  lemma {:induction false} PtrBound(data: Bytes, shift: nat, result: nat, width: nat)
    requires result < Pow2(width)
    ensures VarintPtr(data, shift, result, width).Some? ==> VarintPtr(data, shift, result, width).value.0 < Pow2(width)
    decreases |data|
  {
    hide Pow2, Or;
    if shift < width && data != [] {
      OrFits(result, Shifted(data[0] % 128, shift) % Pow2(width), width);
      PtrBound(data[1..], shift + 7, Merged(result, data[0] % 128, shift, width), width);
    }
  }

  function Get32(data: Bytes): Read<nat> {
    VarintPtr(data, 0, 0, 32)
  }

  function Get64(data: Bytes): Read<nat> {
    VarintPtr(data, 0, 0, 64)
  }

  lemma {:induction false} VarintPtrBack(n: nat, rest: Bytes, shift: nat, result: nat, width: nat)
    requires result < Pow2(shift) && result + Shifted(n, shift) < Pow2(width) && width > 0 && (shift == 0 || n > 0)
    ensures VarintPtr(Varint(n) + rest, shift, result, width) == Some((result + Shifted(n, shift), rest))
    decreases n
  {
    hide Pow2, Shifted, Merged;
    if shift > 0 {
      FitsBelow(n, shift, width);
    }
    MergeStep(n, shift, result, width);
    var data := Varint(n) + rest;
    if n < 128 {
      assert data[0] == n && data[1..] == rest;
    } else {
      assert data[0] == n % 128 + 128 && data[1..] == Varint(n / 128) + rest;
      VarintPtrBack(n / 128, rest, shift + 7, Merged(result, n % 128, shift, width), width);
    }
  }

  lemma Get32Back(n: nat, rest: Bytes)
    requires n < TWO32
    ensures Get32(Varint(n) + rest) == Some((n, rest))
  {
    Pow2Values();
    assert Shifted(n, 0) == n;
    VarintPtrBack(n, rest, 0, 0, 32);
  }

  lemma Get64Back(n: nat, rest: Bytes)
    requires n < TWO64
    ensures Get64(Varint(n) + rest) == Some((n, rest))
  {
    Pow2Values();
    assert Shifted(n, 0) == n;
    VarintPtrBack(n, rest, 0, 0, 64);
  }

  lemma {:induction false} PtrShortens(data: Bytes, shift: nat, result: nat, width: nat)
    ensures var r := VarintPtr(data, shift, result, width); r.Some? ==>
      |r.value.1| < |data| && r.value.1 == data[|data| - |r.value.1|..]
  {
    if shift < width && data != [] && data[0] >= 128 {
      PtrShortens(data[1..], shift + 7, Merged(result, data[0] % 128, shift, width), width);
    }
  }

  /** GetVarint32: the loop stops after five bytes. */
  method GetVarint32(input: Bytes) returns (r: Read<nat>)
    ensures r == Get32(input)
  {
    hide Pow2, Or, Shifted;
    assert Pow2(32) == TWO32 by {
      Pow2Values();
    }
    if input != [] && input[0] < 128 {
      OneByte(input);
      return Some((input[0], input[1..]));
    }
    var result: nat, shift: nat, p: nat := 0, 0, 0;
    while shift <= 28 && p < |input|
      invariant shift == 7 * p && p <= |input|
      invariant Get32(input) == VarintPtr(input[p..], shift, result, 32)
      decreases |input| - p
    {
      var byte := input[p];
      p := p + 1;
      assert input[p - 1..][1..] == input[p..];
      result := Or(result, Shifted(byte % 128, shift) % TWO32);
      if byte < 128 {
        return Some((result, input[p..]));
      }
      shift := shift + 7;
    }
    r := None;
  }

  lemma OneByte(input: Bytes)
    requires input != [] && input[0] < 128
    ensures Get32(input) == Some((input[0], input[1..]))
  {
    Pow2Values();
    assert Shifted(input[0] % 128, 0) == input[0];
  }

  /** GetVarint64 */
  method GetVarint64(input: Bytes) returns (r: Read<nat>)
    ensures r == Get64(input)
  {
    hide Pow2, Or, Shifted;
    assert Pow2(64) == TWO64 by {
      Pow2Values();
    }
    var result: nat, shift: nat, p: nat := 0, 0, 0;
    while shift <= 63 && p < |input|
      invariant shift == 7 * p && p <= |input|
      invariant Get64(input) == VarintPtr(input[p..], shift, result, 64)
      decreases |input| - p
    {
      var byte := input[p];
      p := p + 1;
      assert input[p - 1..][1..] == input[p..];
      result := Or(result, Shifted(byte % 128, shift) % TWO64);
      if byte < 128 {
        return Some((result, input[p..]));
      }
      shift := shift + 7;
    }
    r := None;
  }

  // ----- length-prefixed strings -----

  function Prefixed(b: Bytes): Bytes {
    Varint(|b|) + b
  }

  /** GetLengthPrefixedSlice */
  function GetPrefixed(data: Bytes): Read<Bytes> {
    match Get32(data)
    case None => None
    case Some((n, rest)) => if |rest| < n then None else Some((rest[..n], rest[n..]))
  }

  lemma PrefixedBack(b: Bytes, rest: Bytes)
    requires |b| < TWO32
    ensures GetPrefixed(Prefixed(b) + rest) == Some((b, rest))
  {
    hide Get32, Varint;
    assert Prefixed(b) + rest == Varint(|b|) + (b + rest);
    Get32Back(|b|, b + rest);
    assert (b + rest)[..|b|] == b && (b + rest)[|b|..] == rest;
  }
}
