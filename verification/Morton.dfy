/** Morton (Z-order) codes: the three-way bit interleaving that orders the leaves of a superblock. */
module Morton {
  import opened Basics

  function Pow2(k: nat): (p: nat)
    ensures p > 0
  {
    if k == 0 then 1 else 2 * Pow2(k - 1)
  }

  function Pow8(k: nat): (p: nat)
    ensures p > 0
  {
    if k == 0 then 1 else 8 * Pow8(k - 1)
  }

  datatype Coord = Coord(x: nat, y: nat, z: nat)

  /** The bits of the three coordinates interleaved, the bit of x lowest. */
  function Encode(c: Coord): nat
    decreases c.x + c.y + c.z
  {
    if c == Coord(0, 0, 0) then 0 else Digit(c) + 8 * Encode(Half(c))
  }

  /** The lowest octal digit of a code: one bit of each coordinate. */
  function Digit(c: Coord): nat
  {
    c.x % 2 + 2 * (c.y % 2) + 4 * (c.z % 2)
  }

  function Half(c: Coord): Coord
  {
    Coord(c.x / 2, c.y / 2, c.z / 2)
  }

  function Decode(code: nat): Coord
  {
    if code == 0 then Coord(0, 0, 0) else Push(code % 8, Decode(code / 8))
  }

  /** The coordinates whose lowest bits are those of the digit r, above the bits of hi. */
  function Push(r: nat, hi: Coord): Coord
  {
    Coord((if r in {1, 3, 5, 7} then 1 else 0) + 2 * hi.x,
          (if r in {2, 3, 6, 7} then 1 else 0) + 2 * hi.y,
          (if r in {4, 5, 6, 7} then 1 else 0) + 2 * hi.z)
  }

  lemma PushDigit(r: nat, hi: Coord)
    requires r < 8
    ensures Digit(Push(r, hi)) == r && Half(Push(r, hi)) == hi
  {
  }

  lemma DigitPush(c: Coord)
    ensures Digit(c) < 8
    ensures Push(Digit(c), Half(c)) == c
  {
  }

  lemma EncodeStep(c: Coord) returns (r: nat, hi: Coord)
    ensures r < 8 && Push(r, hi) == c && Encode(c) == r + 8 * Encode(hi)
    ensures c != Coord(0, 0, 0) ==> hi.x + hi.y + hi.z < c.x + c.y + c.z
  {
    r, hi := Digit(c), Half(c);
    DigitPush(c);
  }

  lemma EncodePush(r: nat, hi: Coord)
    requires r < 8
    ensures Encode(Push(r, hi)) == r + 8 * Encode(hi)
  {
    PushDigit(r, hi);
  }

  lemma OctalDigit(r: nat, q: nat)
    requires r < 8
    ensures (r + 8 * q) / 8 == q && (r + 8 * q) % 8 == r
  {
  }

  lemma DecodeStep(r: nat, q: nat)
    requires r < 8
    ensures Decode(r + 8 * q) == Push(r, Decode(q))
  {
    OctalDigit(r, q);
    if r + 8 * q != 0 {
      var code := r + 8 * q;
      assert Decode(code) == Push(code % 8, Decode(code / 8));
    }
  }

  /** Decoding undoes encoding. */
  lemma {:induction false} DecodeEncode(c: Coord)
    ensures Decode(Encode(c)) == c
    decreases c.x + c.y + c.z
  {
    if c == Coord(0, 0, 0) {
      assert Encode(c) == 0;
    } else {
      var r, hi := EncodeStep(c);
      DecodeEncode(hi);
      DecodeStep(r, Encode(hi));
    }
  }

  /** Encoding undoes decoding. */
  lemma {:induction false} EncodeDecode(code: nat)
    ensures Encode(Decode(code)) == code
  {
    if code != 0 {
      EncodeDecode(code / 8);
      EncodePush(code % 8, Decode(code / 8));
    }
  }

  /** Bit k of a number, and digit k in base eight. */
  function BitAt(n: nat, k: nat): nat
  {
    n / Pow2(k) % 2
  }

  function OctalAt(n: nat, k: nat): nat
  {
    n / Pow8(k) % 8
  }

  lemma BitNext(n: nat, k: nat)
    ensures BitAt(n, 0) == n % 2 && BitAt(n, k + 1) == BitAt(n / 2, k)
  {
    DivTwice(n, 2, Pow2(k));
  }

  lemma OctalNext(n: nat, k: nat)
    ensures OctalAt(n, 0) == n % 8 && OctalAt(n, k + 1) == OctalAt(n / 8, k)
  {
    DivTwice(n, 8, Pow8(k));
  }

  lemma LowestDigit(c: Coord)
    ensures Encode(c) % 8 == c.x % 2 + 2 * (c.y % 2) + 4 * (c.z % 2)
    ensures Encode(c) / 8 == Encode(Half(c))
  {
    OctalDigit(Digit(c), Encode(Half(c)));
  }

  /** Bit k of x, y and z, weighted 1, 2 and 4, is digit k of the code in base eight. */
  lemma {:induction false} BitsInterleaved(c: Coord, k: nat)
    ensures OctalAt(Encode(c), k) == BitAt(c.x, k) + 2 * BitAt(c.y, k) + 4 * BitAt(c.z, k)
    decreases k
  {
    var j := if k == 0 then 0 else k - 1;
    LowestDigit(c);
    OctalNext(Encode(c), j);
    BitNext(c.x, j);
    BitNext(c.y, j);
    BitNext(c.z, j);
    if k > 0 {
      BitsInterleaved(Half(c), j);
    }
  }

  /** c lies in the cube of side n with a corner at the origin. */
  predicate InCube(c: Coord, n: nat)
  {
    c.x < n && c.y < n && c.z < n
  }

  /** The codes of the cube of side 2^k are exactly the numbers below 8^k: none is left out. */
  lemma {:induction false} Dense(k: nat, c: Coord)
    ensures Encode(c) < Pow8(k) <==> InCube(c, Pow2(k))
  {
    var r, hi := EncodeStep(c);
    if k == 0 {
      DecodeEncode(c);
    } else {
      Dense(k - 1, hi);
    }
  }

  predicate Below(c: Coord, d: Coord)
  {
    c.x <= d.x && c.y <= d.y && c.z <= d.z
  }

  lemma EncodeStepBelow(c: Coord, d: Coord) returns (r: nat, hi: Coord, r': nat, hi': Coord)
    requires Below(c, d)
    ensures r < 8 && Encode(c) == r + 8 * Encode(hi)
    ensures r' < 8 && Encode(d) == r' + 8 * Encode(hi')
    ensures Below(hi, hi') && (hi == hi' ==> r <= r')
    ensures d != Coord(0, 0, 0) ==> hi'.x + hi'.y + hi'.z < d.x + d.y + d.z
  {
    r, hi := EncodeStep(c);
    r', hi' := EncodeStep(d);
    PushMono(r, hi, r', hi');
  }

  lemma PushMono(r: nat, hi: Coord, r': nat, hi': Coord)
    requires r < 8 && r' < 8 && Below(Push(r, hi), Push(r', hi'))
    ensures Below(hi, hi') && (hi == hi' ==> r <= r')
  {
  }

  lemma CodesDiffer(c: Coord, d: Coord)
    requires c != d
    ensures Encode(c) != Encode(d)
  {
    DecodeEncode(c);
    DecodeEncode(d);
  }

  /** Growing a coordinate never lowers the code. */
  lemma {:induction false} Monotone(c: Coord, d: Coord)
    requires Below(c, d)
    ensures Encode(c) <= Encode(d)
    decreases d.x + d.y + d.z
  {
    if d == Coord(0, 0, 0) {
      assert c == d;
    } else {
      var r, hi, r', hi' := EncodeStepBelow(c, d);
      Monotone(hi, hi');
      if hi != hi' {
        CodesDiffer(hi, hi');
      }
    }
  }
}
