/** The accuracy exponent is stored in one signed byte after the encoder's check: when that matters. */
module LeafExponent {
  import opened Basics
  import opened Float32
  import opened RelativeError
  import opened BlockCells
  import opened LeafRecords
  import opened LeafChoice

  // ----- which tolerances fit -----

  /** Two to the power e is the largest power of two not above t. */
  ghost predicate IsFloorLog2(t: real, e: int)
  {
    Pow2(e) <= t < Pow2(e + 1)
  }

  /** The exponent fits exactly when the target tolerance lies between two to the -128 and two to the 128. */
  lemma ExponentFitsRange(t: real, e: int, low: int, high: int)
    requires IsFloorLog2(t, e) && low == -128 && high == 128
    ensures FitsSignedByte(e) <==> Pow2(low) <= t < Pow2(high)
  {
    if e < low {
      Pow2Mono(e + 1, low);
    } else {
      Pow2Mono(low, e);
    }
    if e >= high {
      Pow2Mono(high, e);
    } else {
      Pow2Mono(e + 1, high);
    }
  }

  lemma FloorLog2Once(t: real, e: int, f: int)
    requires IsFloorLog2(t, e) && IsFloorLog2(t, f)
    ensures e == f
  {
    if e < f {
      Pow2Mono(e + 1, f);
    } else if f < e {
      Pow2Mono(f + 1, e);
    }
  }

  // ----- blocks of ordinary numbers -----

  /** Some cell counts, and every cell that counts holds an ordinary number. */
  predicate Ordinary(input: seq<Float>, mask: seq<bool>)
    requires IsBlock(input, mask)
  {
    (exists i :: 0 <= i < CELLS && mask[i]) && forall i :: 0 <= i < CELLS && mask[i] ==> IsNormal(input[i])
  }

  /** The settings the encoder starts from, as far as they matter here. */
  ghost predicate Usual(cfg: CodecConfig)
  {
    && cfg.tryAccuracy && |cfg.optionalCounts| > 0 && cfg.optionalCounts[0] == 0 && |cfg.fills| > 0
    && cfg.minimumGain <= 1.0 - 4.0 / 256.0
    && AcceptsIdentity(cfg.error) && cfg.error.policy == Strict && cfg.error.contestBound <= 1.0
  }

  /** The exponent the encoder requests for the block. */
  ghost predicate AsksFor(rounding: Rounding, input: seq<Float>, mask: seq<bool>, cfg: CodecConfig, e: int)
    requires IsBlock(input, mask)
  {
    exists m: real :: IsMinAbs(input, mask, MandatoryMask(input, mask), CELLS, Some(m)) && m > 0.0 &&
                      SafeToleranceExponent(rounding, Tolerance(cfg, m)) == (e, None)
  }

  lemma NoExceptions(b: Block)
    requires Whole(b) && Ordinary(b.input, b.mask)
    ensures Marked(Mandatory(b), CELLS) == 0 && HasCompressible(b.mask, Mandatory(b))
    ensures Marked(ExceptionsFor(b.input, b.mask, Mandatory(b), 0), CELLS) == 0
  {
    NoMarks(Mandatory(b), CELLS);
    NoMarks(ExceptionsFor(b.input, b.mask, Mandatory(b), 0), CELLS);
    var i :| 0 <= i < CELLS && b.mask[i];
    assert Compressible(b.mask, Mandatory(b), i);
  }

  lemma ConstantsLonger(b: Block)
    requires Whole(b) && Ordinary(b.input, b.mask)
    ensures forall c :: c in Constants(b) ==> |c.payload| == 4
  {
    var i :| 0 <= i < CELLS && b.mask[i];
    assert !AllZero(b.input, b.mask);
  }

  // ----- a compressor that notices -----

  function Uniformly(x: Float): (block: seq<Float>)
    ensures |block| == CELLS
  {
    seq(CELLS, _ => x)
  }

  /** A compressor that tells the right exponent from all others. */
  function PickyZfp(e: int, block: seq<Float>): Zfp
  {
    Zfp((mode, work) => [0], (mode: Mode, data) => Some(if mode == Accuracy(e) then block else Uniformly(ZERO)),
        x => x, p => p % 256)
  }

  lemma PickyLawful(e: int, block: seq<Float>)
    requires |block| == CELLS
    ensures Lawful(PickyZfp(e, block))
  {
  }

  function Picky(rounding: Rounding, input: seq<Float>, mask: seq<bool>, cfg: CodecConfig, e: int): Block
    requires IsBlock(input, mask)
  {
    Block(PickyZfp(e, input), rounding, input, mask, cfg)
  }

  /** To the encoder, every attempt with the exponent restores the block exactly. */
  lemma PickyAttempt(rounding: Rounding, input: seq<Float>, mask: seq<bool>, cfg: CodecConfig, e: int, exceptions: seq<bool>,
                     fill: Fill)
    requires IsBlock(input, mask) && AcceptsIdentity(cfg.error) && |exceptions| == CELLS
    ensures Attempt(Picky(rounding, input, mask, cfg, e), e, exceptions, fill)
            == Some(AccuracyPayload(e, exceptions, ExceptionValues(input, exceptions), [0]))
  {
    assert Restored(input, input, exceptions) == input;
    forall i | 0 <= i < CELLS && mask[i]
      ensures Accepts(input[i], input[i], cfg.error)
    {
      ExactAccepted(input[i], input[i], cfg.error);
    }
  }

  /** The record without exceptions is the only one of two bytes. */
  lemma OnlyShort(e: int, exceptions: seq<bool>, values: seq<Float>)
    requires |exceptions| == CELLS && |values| < 256
    ensures var c := AccuracyPayload(e, exceptions, values, [0]);
            |c.payload| >= 2 && (|c.payload| == 2 ==> c == Candidate(ACCURACY, AccuracyRecord(e, [0])))
  {
  }

  lemma ZerosRejected(input: seq<Float>, mask: seq<bool>, error: ErrorConfig)
    requires IsBlock(input, mask) && Ordinary(input, mask) && error.policy == Strict && error.contestBound <= 1.0
    ensures !BlockAccepted(input, Uniformly(ZERO), mask, error)
  {
    var i :| 0 <= i < CELLS && mask[i];
    ZeroRejected(input[i], Uniformly(ZERO)[i], error);
  }

  lemma NoPrecision(rounding: Rounding, input: seq<Float>, mask: seq<bool>, cfg: CodecConfig, e: int)
    requires IsBlock(input, mask) && Ordinary(input, mask) && Usual(cfg)
    ensures Lawful(PickyZfp(e, input)) && PrecisionRecords(Picky(rounding, input, mask, cfg, e)) == []
  {
    var b := Picky(rounding, input, mask, cfg, e);
    PickyLawful(e, input);
    ZerosRejected(input, mask, cfg.error);
    PrecisionsAttempted(b, |cfg.precisions|);
    HasFirst(SearchPrecisions(b, |cfg.precisions|).found);
  }

  lemma HasFirst(found: seq<Candidate>)
    ensures found == [] || found[0] in found
  {
  }

  /** Its accuracy records: the short one is among them, and there is no other of two bytes. */
  lemma ShortFound(rounding: Rounding, input: seq<Float>, mask: seq<bool>, cfg: CodecConfig, e: int)
    requires IsBlock(input, mask) && Ordinary(input, mask) && Usual(cfg) && AsksFor(rounding, input, mask, cfg, e)
    ensures var b := Picky(rounding, input, mask, cfg, e);
            var (found, error) := AccuracyRecords(b, SmallestMagnitude(b));
            && error == None && Candidate(ACCURACY, AccuracyRecord(e, [0])) in found
            && forall c :: c in found ==>
                 |c.payload| >= 2 && (|c.payload| == 2 ==> c == Candidate(ACCURACY, AccuracyRecord(e, [0])))
  {
    var b := Picky(rounding, input, mask, cfg, e);
    var m: real :| IsMinAbs(input, mask, MandatoryMask(input, mask), CELLS, Some(m)) && m > 0.0 &&
                   SafeToleranceExponent(rounding, Tolerance(cfg, m)) == (e, None);
    SmallestMagnitudeIs(b);
    MinAbsOnce(input, mask, Mandatory(b), Some(m), SmallestMagnitude(b));
    ShortAmong(rounding, input, mask, cfg, e);
    OthersLonger(rounding, input, mask, cfg, e);
  }

  lemma ShortAmong(rounding: Rounding, input: seq<Float>, mask: seq<bool>, cfg: CodecConfig, e: int)
    requires IsBlock(input, mask) && Ordinary(input, mask) && Usual(cfg)
    ensures Candidate(ACCURACY, AccuracyRecord(e, [0]))
            in SearchCounts(Picky(rounding, input, mask, cfg, e), e, |cfg.optionalCounts|).found
  {
    var b := Picky(rounding, input, mask, cfg, e);
    NoExceptions(b);
    PickyAttempt(rounding, input, mask, cfg, e, ExceptionsFor(input, mask, Mandatory(b), 0), cfg.fills[0]);
    AttemptsListed(b, e, 0, 0);
  }

  lemma OthersLonger(rounding: Rounding, input: seq<Float>, mask: seq<bool>, cfg: CodecConfig, e: int)
    requires IsBlock(input, mask) && AcceptsIdentity(cfg.error)
    ensures forall c :: c in SearchCounts(Picky(rounding, input, mask, cfg, e), e, |cfg.optionalCounts|).found ==>
              |c.payload| >= 2 && (|c.payload| == 2 ==> c == Candidate(ACCURACY, AccuracyRecord(e, [0])))
  {
    var b := Picky(rounding, input, mask, cfg, e);
    CountsAttempted(b, e, |cfg.optionalCounts|);
    forall c | c in SearchCounts(b, e, |cfg.optionalCounts|).found
      ensures |c.payload| >= 2 && (|c.payload| == 2 ==> c == Candidate(ACCURACY, AccuracyRecord(e, [0])))
    {
      assert FromAttempt(b, e, c);
      var exceptions: seq<bool>, fill: Fill :| |exceptions| == CELLS && Attempt(b, e, exceptions, fill) == Some(c);
      PickyAttempt(rounding, input, mask, cfg, e, exceptions, fill);
      OnlyShort(e, exceptions, ExceptionValues(input, exceptions));
    }
  }

  /** The encoder chooses the short record. */
  lemma ShortChosen(rounding: Rounding, input: seq<Float>, mask: seq<bool>, cfg: CodecConfig, e: int)
    requires IsBlock(input, mask) && Ordinary(input, mask) && Usual(cfg) && AsksFor(rounding, input, mask, cfg, e)
    ensures Lawful(PickyZfp(e, input))
    ensures BestOf(Picky(rounding, input, mask, cfg, e)) == Ok(Candidate(ACCURACY, AccuracyRecord(e, [0])))
  {
    var b, short := Picky(rounding, input, mask, cfg, e), Candidate(ACCURACY, AccuracyRecord(e, [0]));
    NoPrecision(rounding, input, mask, cfg, e);
    NoExceptions(b);
    ConstantsLonger(b);
    ShortFound(rounding, input, mask, cfg, e);
    var candidates := AllCandidates(b).0;
    assert candidates == Constants(b) + AccuracyRecords(b, SmallestMagnitude(b)).0;
    SmallestIs(RawCandidate(input), candidates, |candidates|);
    assert short in candidates;
    var k :| 0 <= k < |candidates| && candidates[k] == short;
    assert SmallestOf(RawCandidate(input), candidates, |candidates|) == short;
  }

  /** A record without exceptions decodes as the exponent stored says. */
  lemma StoredExponentDecodes(z: Zfp, e: int, compressed: seq<Byte>, decoded: seq<Float>)
    requires Lawful(z) && compressed != []
    requires z.decompress(Accuracy(z.accuracy(SignedByte(ExponentByte(e)))), compressed) == Some(decoded)
    ensures DecodeRecord(z, ACCURACY, AccuracyRecord(e, compressed)) == Some(decoded)
  {
    assert AccuracyRecord(e, compressed)[1..] == compressed;
    NoMarks(NoMask(), CELLS);
    assert Patched(decoded, NoMask(), []).value == decoded;
  }

  lemma ZeroRejected(x: Float, zero: Float, error: ErrorConfig)
    requires IsNormal(x) && IsZero(zero) && error.policy == Strict && error.contestBound <= 1.0
    ensures !Accepts(x, zero, error)
  {
    ValueZero(x);
    ValueZero(zero);
    var size, bound := Abs(Value(x)), error.contestBound;
    BitClasses(x);
    BitClasses(zero);
    NonzeroChecked(x, zero, error, size, size);
    NotBelowFraction(bound, size);
  }

  lemma NotBelowFraction(bound: real, size: real)
    requires bound <= 1.0 && size >= 0.0
    ensures bound * size <= size
  {
    assert (1.0 - bound) * size >= 0.0;
  }

  /** The product stays the same when one factor is halved and the other doubled. */
  predicate IsProduct(x: real, y: real, product: real)
  {
    x * y == product
  }

  lemma HalveAndDouble(x: real, y: real, twiceX: real, twiceY: real, product: real)
    requires twiceX == 2.0 * x && twiceY == 2.0 * y && IsProduct(twiceX, y, product)
    ensures IsProduct(x, twiceY, product)
  {
  }

  lemma {:induction false} Pow2Product(a: int, b: nat)
    ensures IsProduct(Pow2(a - b), Pow2(b), Pow2(a))
    decreases b
  {
    if b > 0 {
      Pow2Product(a, b - 1);
      Pow2Step(a - b);
      Pow2Step(b - 1);
      HalveAndDouble(Pow2(a - b), Pow2(b - 1), Pow2(a - b + 1), Pow2(b), Pow2(a));
    }
  }

  lemma Pow2Add(a: int, b: nat)
    ensures Pow2(a - b) * Pow2(b) == Pow2(a)
  {
    Pow2Product(a, b);
  }

  /** The short record decodes to zeros when its exponent does not survive. */
  lemma ShortUnsound(e: int, input: seq<Float>, mask: seq<bool>, error: ErrorConfig)
    requires IsBlock(input, mask) && Ordinary(input, mask) && error.policy == Strict && error.contestBound <= 1.0
    requires !FitsSignedByte(e)
    ensures !Sound(PickyZfp(e, input), input, mask, error, Candidate(ACCURACY, AccuracyRecord(e, [0])))
  {
    PickyLawful(e, input);
    ExponentRoundTrip(e);
    StoredExponentDecodes(PickyZfp(e, input), e, [0], Uniformly(ZERO));
    ZerosRejected(input, mask, error);
  }

  /**
   * For every block of ordinary numbers whose exponent does not fit there is a lawful compressor, one that takes the
   * exponent as it is, for which the encoder returns a record that decodes to zeros.
   */
  lemma WrappedExponentBreaks(rounding: Rounding, input: seq<Float>, mask: seq<bool>, cfg: CodecConfig, e: int)
    returns (b: Block)
    requires IsBlock(input, mask) && Ordinary(input, mask) && Usual(cfg) && AsksFor(rounding, input, mask, cfg, e)
    requires !FitsSignedByte(e)
    ensures b == Block(b.z, rounding, input, mask, cfg) && Lawful(b.z) && b.z.accuracy(e) == e
    ensures BestOf(b) == Ok(Candidate(ACCURACY, AccuracyRecord(e, [0])))
    ensures !Sound(b.z, input, mask, cfg.error, BestOf(b).candidate)
  {
    b := Picky(rounding, input, mask, cfg, e);
    ShortChosen(rounding, input, mask, cfg, e);
    ShortUnsound(e, input, mask, cfg.error);
  }

  /** The record the encoder returns decodes to accepted cells. */
  ghost predicate ResultSound(b: Block)
  {
    Whole(b) && Lawful(b.z) && BestOf(b).Ok? && Sound(b.z, b.input, b.mask, b.cfg.error, BestOf(b).candidate)
  }

  lemma FittingSound(b: Block, e: int)
    requires Whole(b) && Lawful(b.z) && AcceptsIdentity(b.cfg.error) && FitsSignedByte(e) && b.z.accuracy(e) == e
    requires AsksFor(b.rounding, b.input, b.mask, b.cfg, e)
    ensures ResultSound(b)
  {
    var m: real :| IsMinAbs(b.input, b.mask, Mandatory(b), CELLS, Some(m)) && m > 0.0 &&
                   SafeToleranceExponent(b.rounding, Tolerance(b.cfg, m)) == (e, None);
    SmallestMagnitudeIs(b);
    MinAbsOnce(b.input, b.mask, Mandatory(b), Some(m), SmallestMagnitude(b));
    forall x | StoresExponent(b.z, b.rounding, b.input, b.mask, b.cfg, x)
      ensures x == e
    {
      var k: real :| IsMinAbs(b.input, b.mask, Mandatory(b), CELLS, Some(k)) &&
                     x == b.z.accuracy(b.rounding.floorLog2(Tolerance(b.cfg, k)));
      MinAbsOnce(b.input, b.mask, Mandatory(b), Some(m), Some(k));
    }
    BestIsSound(b, BestOf(b).candidate);
  }

  /**
   * What the encoder returns for a block of ordinary numbers is sound for every compressor that takes the exponent
   * requested as it is if and only if that exponent fits one signed byte.
   */
  lemma SoundIffExponentFits(rounding: Rounding, input: seq<Float>, mask: seq<bool>, cfg: CodecConfig, e: int)
    requires IsBlock(input, mask) && Ordinary(input, mask) && Usual(cfg) && AsksFor(rounding, input, mask, cfg, e)
    ensures (forall z: Zfp :: Lawful(z) && z.accuracy(e) == e ==> ResultSound(Block(z, rounding, input, mask, cfg)))
            <==> FitsSignedByte(e)
  {
    if FitsSignedByte(e) {
      forall z: Zfp | Lawful(z) && z.accuracy(e) == e
        ensures ResultSound(Block(z, rounding, input, mask, cfg))
      {
        FittingSound(Block(z, rounding, input, mask, cfg), e);
      }
    } else {
      var b := WrappedExponentBreaks(rounding, input, mask, cfg, e);
      assert !ResultSound(Block(b.z, rounding, input, mask, cfg));
    }
  }

  // ----- the smallest normal number -----

  /** With the default internal bound the smallest normal number already asks for an exponent that does not fit. */
  lemma DefaultBoundDoesNotFit(x: Float, internalBound: real, e: int)
    requires ExponentField(x) == 1 && Fraction(x) == 0 && internalBound == 0.00075 && e == -137
    ensures IsFloorLog2(internalBound * Magnitude(x), e) && !FitsSignedByte(e)
  {
    var m := Magnitude(x);
    var a, b := e + 11, 11;
    Pow2Add(a, 23);
    assert Significand(x) == 0x80_0000;
    EightMillion(23);
    assert m == Pow2(a);
    Pow2Add(a, b);
    TwoThousand(b);
    Pow2Step(e);
    var p := Pow2(e);
    assert m == p * 2048.0;
    assert internalBound * m == p * 1.536;
  }

  lemma EightMillion(n: nat)
    requires n == 23
    ensures Pow2(n) == 8388608.0
  {
    TwoThousand(n - 12);
    Pow2Add(n, 12);
    Pow2Step(n - 12);
  }

  lemma TwoThousand(n: nat)
    requires n == 11
    ensures Pow2(n) == 2048.0
  {
    Pow2Step(n - 1); Pow2Step(n - 2); Pow2Step(n - 3); Pow2Step(n - 4); Pow2Step(n - 5); Pow2Step(n - 6);
    Pow2Step(n - 7); Pow2Step(n - 8); Pow2Step(n - 9); Pow2Step(n - 10); Pow2Step(n - 11);
  }

  /** The exponent of every positive tolerance is rounded down. */
  ghost predicate RoundsDown(rounding: Rounding)
  {
    forall t: real :: t > 0.0 ==> IsFloorLog2(t, rounding.floorLog2(t))
  }

  /**
   * Under the default bound, a block of the smallest normal number is encoded, for some lawful compressor, as a record
   * that decodes to zeros.
   */
  lemma SmallestNormalBreaks(rounding: Rounding, cfg: CodecConfig) returns (b: Block)
    requires RoundsDown(rounding) && Usual(cfg) && cfg.error.internalBound == 0.00075
    ensures b == Block(b.z, rounding, Uniformly(0x80_0000), Everywhere(), cfg) && Lawful(b.z)
    ensures BestOf(b) == Ok(Candidate(ACCURACY, AccuracyRecord(-137, [0])))
    ensures !Sound(b.z, b.input, b.mask, cfg.error, BestOf(b).candidate)
  {
    var x: Float, e := 0x80_0000, -137;
    DefaultBoundDoesNotFit(x, cfg.error.internalBound, e);
    ValueZero(x);
    UniformAsks(rounding, x, cfg, e);
    b := WrappedExponentBreaks(rounding, Uniformly(x), Everywhere(), cfg, e);
  }

  function Everywhere(): (mask: seq<bool>)
    ensures |mask| == CELLS
  {
    seq(CELLS, _ => true)
  }

  lemma UniformAsks(rounding: Rounding, x: Float, cfg: CodecConfig, e: int)
    requires IsNormal(x) && RoundsDown(rounding) && Magnitude(x) > 0.0 && Tolerance(cfg, Magnitude(x)) > 0.0
    requires IsFloorLog2(Tolerance(cfg, Magnitude(x)), e) && -32768 <= e <= 32767
    ensures Ordinary(Uniformly(x), Everywhere()) && AsksFor(rounding, Uniformly(x), Everywhere(), cfg, e)
  {
    var input, mask := Uniformly(x), Everywhere();
    var mandatory := MandatoryMask(input, mask);
    assert mask[0] && Compressible(mask, mandatory, 0) && Magnitude(input[0]) == Magnitude(x);
    assert IsMinAbs(input, mask, mandatory, CELLS, Some(Magnitude(x)));
    FloorLog2Once(Tolerance(cfg, Magnitude(x)), e, rounding.floorLog2(Tolerance(cfg, Magnitude(x))));
  }
}
