/** Numbers, bit masks and floats as little-endian bytes, and back. */
module Bytes {
  import opened Basics
  import opened Float32

  function Power(base: nat, n: nat): (p: nat)
    requires base > 0
    ensures p > 0
  {
    if n == 0 then 1 else base * Power(base, n - 1)
  }

  /** The low n bytes of v, lowest first. */
  function Le(v: nat, n: nat): (s: seq<Byte>)
    ensures |s| == n
  {
    if n == 0 then [] else [v % 256] + Le(v / 256, n - 1)
  }

  function FromLe(s: seq<Byte>): nat
  {
    if s == [] then 0 else s[0] + 256 * FromLe(s[1..])
  }

  lemma {:induction false} FromLeBound(s: seq<Byte>)
    ensures FromLe(s) < Power(256, |s|)
  {
    if s != [] {
      FromLeBound(s[1..]);
    }
  }

  /** Reading back what was written. */
  lemma {:induction false} LeRoundTrip(v: nat, n: nat)
    requires v < Power(256, n)
    ensures FromLe(Le(v, n)) == v
  {
    if n > 0 {
      DivBelow(v, 256, Power(256, n - 1));
      LeRoundTrip(v / 256, n - 1);
      assert Le(v, n)[1..] == Le(v / 256, n - 1);
    }
  }

  lemma DivBelow(v: nat, d: nat, p: nat)
    requires d > 0 && v < d * p
    ensures v / d < p
  {
    DivBound(v, p, d);
  }

  /** Writing again what was read. */
  lemma {:induction false} FromLeRoundTrip(s: seq<Byte>)
    ensures Le(FromLe(s), |s|) == s
  {
    if s != [] {
      FromLeRoundTrip(s[1..]);
      DivMod(FromLe(s[1..]), s[0], 256);
    }
  }

  /** Byte i is digit i in base 256: the lowest comes first. */
  lemma {:induction false} LeDigit(v: nat, n: nat, i: nat)
    requires i < n
    ensures Le(v, n)[i] == v / Power(256, i) % 256
  {
    if i > 0 {
      LeDigit(v / 256, n - 1, i - 1);
      DivTwice(v, 256, Power(256, i - 1));
    }
  }

  // ----- bit masks -----

  function BitsValue(bits: seq<bool>): nat
  {
    if bits == [] then 0 else (if bits[0] then 1 else 0) + 2 * BitsValue(bits[1..])
  }

  function ToBits(v: nat, n: nat): (bits: seq<bool>)
    ensures |bits| == n
  {
    if n == 0 then [] else [v % 2 == 1] + ToBits(v / 2, n - 1)
  }

  lemma {:induction false} BitsRoundTrip(bits: seq<bool>)
    ensures ToBits(BitsValue(bits), |bits|) == bits
    ensures BitsValue(bits) < Power(2, |bits|)
  {
    if bits != [] {
      BitsRoundTrip(bits[1..]);
      DivMod(BitsValue(bits[1..]), if bits[0] then 1 else 0, 2);
    }
  }

  /** Bit i of the number is element i of the mask. */
  lemma {:induction false} BitOfMask(bits: seq<bool>, i: nat)
    requires i < |bits|
    ensures BitsValue(bits) / Power(2, i) % 2 == if bits[i] then 1 else 0
  {
    DivMod(BitsValue(bits[1..]), if bits[0] then 1 else 0, 2);
    if i > 0 {
      BitOfMask(bits[1..], i - 1);
      DivTwice(BitsValue(bits), 2, Power(2, i - 1));
    }
  }

  lemma {:induction false} PowerOfBytes(n: nat)
    ensures Power(2, 8 * n) == Power(256, n)
  {
    if n > 0 {
      PowerOfBytes(n - 1);
      var k := 8 * n;
      assert Power(2, k) == 2 * Power(2, k - 1) && Power(2, k - 1) == 2 * Power(2, k - 2);
      assert Power(2, k - 2) == 2 * Power(2, k - 3) && Power(2, k - 3) == 2 * Power(2, k - 4);
      assert Power(2, k - 4) == 2 * Power(2, k - 5) && Power(2, k - 5) == 2 * Power(2, k - 6);
      assert Power(2, k - 6) == 2 * Power(2, k - 7) && Power(2, k - 7) == 2 * Power(2, k - 8);
    }
  }

  /** A mask of 64 bits in eight bytes. */
  function MaskBytes(mask: seq<bool>): (s: seq<Byte>)
    ensures |s| == 8
  {
    Le(BitsValue(mask), 8)
  }

  function ParseMask(s: seq<Byte>): (mask: seq<bool>)
    ensures |mask| == 64
  {
    ToBits(FromLe(s), 64)
  }

  lemma MaskRoundTrip(mask: seq<bool>)
    requires |mask| == 64
    ensures ParseMask(MaskBytes(mask)) == mask
  {
    var v := BitsValue(mask);
    BitsRoundTrip(mask);
    PowerOfBytes(8);
    LeRoundTrip(v, 8);
  }

  // ----- floats -----

  /** A float is four bytes, lowest first. */
  lemma FourDigits(v: Float, n: nat)
    requires n == 4
    ensures Le(v, n) == [v % 0x100, v / 0x100 % 0x100, v / 0x1_0000 % 0x100, v / 0x100_0000]
  {
    var m := v / 256;
    var k := m / 256;
    assert Le(v, n) == [v % 256] + Le(m, n - 1);
    assert Le(m, n - 1) == [m % 256] + Le(k, n - 2);
    assert Le(k, n - 2) == [k % 256] + Le(k / 256, n - 3);
    assert Le(k / 256, n - 3) == [k / 256 % 256] + Le(k / 256 / 256, n - 4);
  }

  function FloatsBytes(values: seq<Float>, n: nat): (s: seq<Byte>)
    requires n <= |values|
    ensures |s| == 4 * n
  {
    if n == 0 then [] else FloatsBytes(values, n - 1) + Le(values[n - 1], 4)
  }

  function ParseFloat(s: seq<Byte>): Float
    requires |s| == 4
  {
    FourBytes(s);
    FromLe(s)
  }

  lemma FourBytes(s: seq<Byte>)
    requires |s| == 4
    ensures FromLe(s) < 0x1_0000_0000
  {
    var n := |s|;
    FromLeBound(s);
    assert Power(256, n) == 256 * Power(256, n - 1) && Power(256, n - 1) == 256 * Power(256, n - 2);
    assert Power(256, n - 2) == 256 * Power(256, n - 3) && Power(256, n - 3) == 256 * Power(256, n - 4);
  }

  lemma FloatFits(f: Float, n: nat)
    requires n == 4
    ensures f < Power(256, n)
  {
    assert Power(256, n) == 256 * Power(256, n - 1) && Power(256, n - 1) == 256 * Power(256, n - 2);
    assert Power(256, n - 2) == 256 * Power(256, n - 3) && Power(256, n - 3) == 256 * Power(256, n - 4);
  }

  /** The floats stored from the start of s on. */
  function ParseFloats(s: seq<Byte>, n: nat): (values: seq<Float>)
    requires 4 * n <= |s|
    ensures |values| == n
  {
    seq(n, i requires 0 <= i < n => ParseFloat(s[4 * i..4 * i + 4]))
  }

  lemma {:induction false} FloatBytesAt(values: seq<Float>, n: nat, i: nat)
    requires i < n <= |values|
    ensures FloatsBytes(values, n)[4 * i..4 * i + 4] == Le(values[i], 4)
  {
    if i < n - 1 {
      FloatBytesAt(values, n - 1, i);
      SliceOfFront(FloatsBytes(values, n - 1), Le(values[n - 1], 4), 4 * i);
    }
  }

  lemma SliceOfFront(a: seq<Byte>, b: seq<Byte>, i: nat)
    requires i + 4 <= |a|
    ensures (a + b)[i..i + 4] == a[i..i + 4]
  {
  }

  lemma FloatRoundTrip(f: Float, s: seq<Byte>, n: nat)
    requires n == 4 && s == Le(f, n)
    ensures ParseFloat(s) == f
  {
    FloatFits(f, n);
    LeRoundTrip(f, n);
  }

  lemma FloatParsed(values: seq<Float>, i: nat)
    requires i < |values|
    ensures ParseFloats(FloatsBytes(values, |values|), |values|)[i] == values[i]
  {
    var s := FloatsBytes(values, |values|);
    FloatBytesAt(values, |values|, i);
    FloatRoundTrip(values[i], s[4 * i..4 * i + 4], 4);
  }

  lemma FloatsRoundTrip(values: seq<Float>)
    ensures ParseFloats(FloatsBytes(values, |values|), |values|) == values
  {
    forall i | 0 <= i < |values|
      ensures ParseFloats(FloatsBytes(values, |values|), |values|)[i] == values[i]
    {
      FloatParsed(values, i);
    }
  }
}
