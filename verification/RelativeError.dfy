/** When a reconstructed value is close enough to the original one. */
module RelativeError {
  import opened Basics
  import opened Float32

  // ----- single-precision numbers as reals -----

  function Sign(x: Float): nat
  {
    x / 0x8000_0000
  }

  function ExponentField(x: Float): nat
  {
    x / 0x80_0000 % 256
  }

  function Fraction(x: Float): nat
  {
    x % 0x80_0000
  }

  predicate IsNaN(x: Float)
  {
    ExponentField(x) == 255 && Fraction(x) != 0
  }

  predicate IsInf(x: Float)
  {
    ExponentField(x) == 255 && Fraction(x) == 0
  }

  predicate IsFinite(x: Float)
  {
    ExponentField(x) != 255
  }

  /** Zero of either sign. */
  predicate IsZero(x: Float)
  {
    ExponentField(x) == 0 && Fraction(x) == 0
  }

  predicate IsSubnormal(x: Float)
  {
    ExponentField(x) == 0 && Fraction(x) != 0
  }

  predicate IsNormal(x: Float)
  {
    0 < ExponentField(x) < 255
  }

  /** Two to the power e. */
  function Pow2(e: int): (p: real)
    ensures p > 0.0
    decreases if e < 0 then -e else e
  {
    if e == 0 then 1.0 else if e > 0 then 2.0 * Pow2(e - 1) else Pow2(e + 1) / 2.0
  }

  lemma Pow2Step(e: int)
    ensures Pow2(e + 1) == 2.0 * Pow2(e)
  {
  }

  lemma {:induction false} Pow2Mono(a: int, b: int)
    requires a <= b
    ensures Pow2(a) <= Pow2(b)
    decreases b - a
  {
    if a < b {
      Pow2Mono(a, b - 1);
      Pow2Step(b - 1);
    }
  }

  /** Fraction with the leading one that normal numbers do not store. */
  function Significand(x: Float): nat
  {
    if ExponentField(x) == 0 then Fraction(x) else 0x80_0000 + Fraction(x)
  }

  /** The size of a finite number. */
  function Magnitude(x: Float): (m: real)
    ensures m >= 0.0 && (m == 0.0 <==> Significand(x) == 0)
  {
    Significand(x) as real * Pow2(Max(ExponentField(x), 1) - 150)
  }

  function Value(x: Float): real
  {
    if Sign(x) == 0 then Magnitude(x) else -Magnitude(x)
  }

  function Abs(r: real): (a: real)
    ensures a >= 0.0 && (a == r || a == -r)
  {
    if r < 0.0 then -r else r
  }

  lemma ValueZero(x: Float)
    ensures IsZero(x) <==> Value(x) == 0.0
    ensures Abs(Value(x)) == Magnitude(x)
  {
  }

  // ----- what the bits mean -----

  /** The stored bits but the sign. */
  function Unsigned(x: Float): nat
  {
    x % 0x8000_0000
  }

  const INFINITE: nat := 0x7F80_0000

  lemma BitClasses(x: Float)
    ensures IsNaN(x) <==> Unsigned(x) > INFINITE
    ensures IsInf(x) <==> Unsigned(x) == INFINITE
    ensures IsFinite(x) <==> Unsigned(x) < INFINITE
    ensures IsZero(x) <==> Unsigned(x) == 0
    ensures IsSubnormal(x) <==> 0 < Unsigned(x) < 0x80_0000
    ensures IsNormal(x) <==> 0x80_0000 <= Unsigned(x) < INFINITE
  {
  }

  lemma Ulp()
    ensures Pow2(-23) * 0x80_0000 as real == 1.0
  {
    Pow2Step(-1);
    Pow2Step(-2);
    Pow2Step(-3);
    Pow2Step(-4);
    Pow2Step(-5);
    Pow2Step(-6);
    Pow2Step(-7);
    Pow2Step(-8);
    Pow2Step(-9);
    Pow2Step(-10);
    Pow2Step(-11);
    Pow2Step(-12);
    Pow2Step(-13);
    Pow2Step(-14);
    Pow2Step(-15);
    Pow2Step(-16);
    Pow2Step(-17);
    Pow2Step(-18);
    Pow2Step(-19);
    Pow2Step(-20);
    Pow2Step(-21);
    Pow2Step(-22);
    Pow2Step(-23);
  }

  /** One is 0x3F80_0000, and setting the highest bit negates. */
  lemma ValueOfOne()
    ensures Value(0x3F80_0000) == 1.0
  {
    var x: Float := 0x3F80_0000;
    assert Sign(x) == 0 && Significand(x) == 0x80_0000 && Max(ExponentField(x), 1) - 150 == -23;
    Ulp();
  }

  lemma ValueNegates(x: Float)
    requires x < 0x8000_0000
    ensures Value(x) >= 0.0 && Value(x + 0x8000_0000) == -Value(x)
  {
    assert ExponentField(x + 0x8000_0000) == ExponentField(x) && Fraction(x + 0x8000_0000) == Fraction(x);
  }

  /** The subnormal numbers and the first normal ones are the multiples of the smallest number. */
  lemma ValueOfSmall(x: Float)
    requires x < 0x100_0000
    ensures Value(x) == x as real * Value(1)
  {
    SmallFields(x);
    SmallFields(1);
  }

  lemma SmallFields(x: Float)
    requires x < 0x100_0000
    ensures Sign(x) == 0 && Significand(x) == x && Max(ExponentField(x), 1) == 1
  {
  }

  /** The next exponent doubles a normal number. */
  lemma ValueDoubles(x: Float)
    requires 0x80_0000 <= x && x + 0x80_0000 < INFINITE
    ensures Value(x + 0x80_0000) == 2.0 * Value(x)
  {
    NextExponent(x, x + 0x80_0000);
    Pow2Step(ExponentField(x) - 150);
  }

  lemma NextExponent(x: Float, y: Float)
    requires 0x80_0000 <= x && y == x + 0x80_0000 < INFINITE
    ensures ExponentField(y) == ExponentField(x) + 1 && Fraction(y) == Fraction(x) && ExponentField(x) > 0
    ensures Sign(x) == Sign(y) == 0
  {
  }

  // ----- the acceptance relation -----

  datatype Policy = Strict | Legacy

  datatype ErrorConfig = ErrorConfig(contestBound: real, internalBound: real, legacyZeroAbsTol: real, policy: Policy)

  /** No relative error is the infinite one. */
  datatype PointResult = PointResult(passed: bool, absolute: real, relative: Option<real>)

  function CheckPointwise(original: Float, reconstructed: Float, cfg: ErrorConfig): PointResult
  {
    if IsNaN(original) then PointResult(IsNaN(reconstructed), 0.0, Some(0.0))
    else if IsInf(original) then
      PointResult(IsInf(reconstructed) && Sign(original) == Sign(reconstructed), 0.0, Some(0.0))
    else if !IsFinite(reconstructed) then PointResult(false, 0.0, Some(0.0))
    else
      var absolute := Abs(Value(reconstructed) - Value(original));
      if IsZero(original) then
        PointResult(if cfg.policy == Legacy then absolute <= cfg.legacyZeroAbsTol else IsZero(reconstructed),
                    absolute, if absolute == 0.0 then Some(0.0) else None)
      else
        ValueZero(original);
        var size := Abs(Value(original));
        var relative := absolute / size;
        PointResult(if cfg.policy == Legacy && size <= cfg.legacyZeroAbsTol then absolute <= cfg.legacyZeroAbsTol
                    else relative < cfg.contestBound,
                    absolute, Some(relative))
  }

  predicate Accepts(original: Float, reconstructed: Float, cfg: ErrorConfig)
  {
    CheckPointwise(original, reconstructed, cfg).passed
  }

  /** The configurations under which a value passes as its own reconstruction. */
  ghost predicate AcceptsIdentity(cfg: ErrorConfig)
  {
    match cfg.policy
    case Strict => cfg.contestBound > 0.0
    case Legacy => cfg.legacyZeroAbsTol >= 0.0 && (cfg.contestBound > 0.0 || NoneAbove(cfg.legacyZeroAbsTol))
  }

  /** No finite number is larger: the absolute tolerance then covers all of them. */
  ghost predicate NoneAbove(bound: real)
  {
    forall x: Float :: IsFinite(x) ==> Magnitude(x) <= bound
  }

  /** Every number is accepted as its own reconstruction exactly under those configurations. */
  lemma IdentityAccepted(cfg: ErrorConfig)
    ensures AcceptsIdentity(cfg) <==> forall x: Float :: Accepts(x, x, cfg)
  {
    if AcceptsIdentity(cfg) {
      forall x: Float
        ensures Accepts(x, x, cfg)
      {
        ExactAccepted(x, x, cfg);
      }
    }
    if forall x: Float :: Accepts(x, x, cfg) {
      var zero, normal := ZeroAndNormal();
      forall x: Float | IsFinite(x)
        ensures cfg.policy == Legacy ==> cfg.contestBound > 0.0 || Magnitude(x) <= cfg.legacyZeroAbsTol
      {
        LargeNeeds(x, cfg);
      }
      IdentityNeeds(zero, normal, cfg);
    }
  }

  lemma ZeroAndNormal() returns (zero: Float, normal: Float)
    ensures IsZero(zero) && IsNormal(normal)
  {
    zero, normal := ZERO, 0x3F80_0000;
  }

  lemma LargeNeeds(x: Float, cfg: ErrorConfig)
    requires Accepts(x, x, cfg) && IsFinite(x)
    ensures cfg.policy == Legacy ==> cfg.contestBound > 0.0 || Magnitude(x) <= cfg.legacyZeroAbsTol
  {
    ValueZero(x);
  }

  lemma IdentityNeeds(zero: Float, normal: Float, cfg: ErrorConfig)
    requires IsZero(zero) && IsNormal(normal) && Accepts(zero, zero, cfg) && Accepts(normal, normal, cfg)
    ensures cfg.policy == Strict ==> cfg.contestBound > 0.0
    ensures cfg.policy == Legacy ==> cfg.legacyZeroAbsTol >= 0.0
  {
    ValueZero(zero);
    ValueZero(normal);
  }

  /** Reconstructing the same number, or zero with the other sign, is accepted. */
  lemma ExactAccepted(x: Float, y: Float, cfg: ErrorConfig)
    requires AcceptsIdentity(cfg) && (x == y || (IsZero(x) && IsZero(y)))
    ensures Accepts(x, y, cfg)
  {
    ValueZero(x);
    ValueZero(y);
  }

  /** The error is below the bound, taken relative to the size. */
  predicate Within(error: real, bound: real, size: real)
  {
    error < bound * size
  }

  lemma DivLess(a: real, b: real, c: real)
    requires b > 0.0
    ensures a / b < c <==> Within(a, c, b)
  {
    var q := a / b;
    assert q * b == a;
    if q < c {
      assert (c - q) * b > 0.0;
    } else {
      assert (q - c) * b >= 0.0;
    }
  }

  // ----- what is accepted, case by case -----

  /** NaN comes back as NaN. */
  lemma NaNChecked(x: Float, y: Float, cfg: ErrorConfig)
    requires Unsigned(x) > INFINITE
    ensures CheckPointwise(x, y, cfg) == PointResult(Unsigned(y) > INFINITE, 0.0, Some(0.0))
  {
    BitClasses(x);
    BitClasses(y);
  }

  /** An infinite number comes back as itself. */
  lemma InfiniteChecked(x: Float, y: Float, cfg: ErrorConfig)
    requires Unsigned(x) == INFINITE
    ensures CheckPointwise(x, y, cfg) == PointResult(y == x, 0.0, Some(0.0))
  {
    BitClasses(x);
    BitClasses(y);
  }

  /** Nothing else comes back as infinite or NaN. */
  lemma NonFiniteRefused(x: Float, y: Float, cfg: ErrorConfig)
    requires Unsigned(x) < INFINITE <= Unsigned(y)
    ensures CheckPointwise(x, y, cfg) == PointResult(false, 0.0, Some(0.0))
  {
    BitClasses(x);
    BitClasses(y);
  }

  /** Zero comes back as zero of either sign, or under the legacy policy within the tolerance. */
  lemma ZeroChecked(x: Float, y: Float, cfg: ErrorConfig)
    requires Unsigned(x) == 0 && Unsigned(y) < INFINITE
    ensures var r := CheckPointwise(x, y, cfg);
            && r.absolute == Abs(Value(y))
            && r.relative == (if Unsigned(y) == 0 then Some(0.0) else None)
            && (cfg.policy == Strict ==> (r.passed <==> Unsigned(y) == 0))
            && (cfg.policy == Legacy ==> (r.passed <==> Abs(Value(y)) <= cfg.legacyZeroAbsTol))
  {
    BitClasses(x);
    BitClasses(y);
    ValueZero(x);
    ValueZero(y);
  }

  /** Other numbers come back with a small relative error, or, if small under the legacy policy, within the tolerance. */
  lemma NonzeroChecked(x: Float, y: Float, cfg: ErrorConfig, size: real, error: real)
    requires 0 < Unsigned(x) < INFINITE && Unsigned(y) < INFINITE
    requires size == Abs(Value(x)) && error == Abs(Value(y) - Value(x))
    ensures var r := CheckPointwise(x, y, cfg);
            && size > 0.0 && r.absolute == error
            && r.relative.Some? && IsQuotient(r.relative.value, error, size)
            && (r.passed <==> if cfg.policy == Legacy && size <= cfg.legacyZeroAbsTol then error <= cfg.legacyZeroAbsTol
                              else Within(error, cfg.contestBound, size))
  {
    NonzeroPoint(x, y, cfg, size, error);
    DivLess(error, size, cfg.contestBound);
    DivBack(error, size);
  }

  predicate IsQuotient(q: real, a: real, b: real)
  {
    q * b == a
  }

  lemma NonzeroPoint(x: Float, y: Float, cfg: ErrorConfig, size: real, error: real)
    requires 0 < Unsigned(x) < INFINITE && Unsigned(y) < INFINITE
    requires size == Abs(Value(x)) && error == Abs(Value(y) - Value(x))
    ensures size > 0.0
    ensures CheckPointwise(x, y, cfg)
            == PointResult(if cfg.policy == Legacy && size <= cfg.legacyZeroAbsTol then error <= cfg.legacyZeroAbsTol
                           else error / size < cfg.contestBound,
                           error, Some(error / size))
  {
    BitClasses(x);
    BitClasses(y);
    ValueZero(x);
  }

  lemma DivBack(a: real, b: real)
    requires b > 0.0
    ensures IsQuotient(a / b, a, b)
  {
  }

  // ----- blocks -----

  /** No largest relative error is the infinite one. */
  datatype BlockStats = BlockStats(passed: bool, validCount: nat, violationCount: nat, maxAbsolute: real,
                                   maxRelative: Option<real>)

  /** Relative errors in order; the infinite one is above all numbers. */
  predicate AtMost(a: Option<real>, b: Option<real>)
  {
    b == None || (a.Some? && a.value <= b.value)
  }

  /** Every cell that the mask marks is accepted. */
  predicate BlockAccepted(original: seq<Float>, reconstructed: seq<Float>, mask: seq<bool>, cfg: ErrorConfig)
    requires |original| == |reconstructed| == |mask|
  {
    forall i :: 0 <= i < |original| && mask[i] ==> Accepts(original[i], reconstructed[i], cfg)
  }

  /** The cells among the first n that are marked, and those of them not accepted. */
  function Marked(mask: seq<bool>, n: nat): nat
    requires n <= |mask|
  {
    if n == 0 then 0 else Marked(mask, n - 1) + if mask[n - 1] then 1 else 0
  }

  function Violations(original: seq<Float>, reconstructed: seq<Float>, mask: seq<bool>, cfg: ErrorConfig, n: nat): nat
    requires |original| == |reconstructed| == |mask| && n <= |mask|
  {
    if n == 0 then 0
    else Violations(original, reconstructed, mask, cfg, n - 1) +
         if mask[n - 1] && !Accepts(original[n - 1], reconstructed[n - 1], cfg) then 1 else 0
  }

  /** The counts are the sizes of sets of cells. */
  lemma {:induction false} MarkedCounts(mask: seq<bool>, n: nat)
    requires n <= |mask|
    ensures Marked(mask, n) == |set i: nat | i < n && mask[i]|
  {
    if n > 0 {
      MarkedCounts(mask, n - 1);
      var before, now := set i: nat | i < n - 1 && mask[i], set i: nat | i < n && mask[i];
      assert now == if mask[n - 1] then before + {n - 1} else before;
    }
  }

  predicate Violated(original: seq<Float>, reconstructed: seq<Float>, mask: seq<bool>, cfg: ErrorConfig, i: nat)
    requires |original| == |reconstructed| == |mask| && i < |mask|
  {
    mask[i] && !Accepts(original[i], reconstructed[i], cfg)
  }

  lemma {:induction false} ViolationsCount(original: seq<Float>, reconstructed: seq<Float>, mask: seq<bool>,
                                           cfg: ErrorConfig, n: nat)
    requires |original| == |reconstructed| == |mask| && n <= |mask|
    ensures Violations(original, reconstructed, mask, cfg, n)
            == |set i: nat | i < n && Violated(original, reconstructed, mask, cfg, i)|
  {
    if n > 0 {
      ViolationsCount(original, reconstructed, mask, cfg, n - 1);
      var before := set i: nat | i < n - 1 && Violated(original, reconstructed, mask, cfg, i);
      var now := set i: nat | i < n && Violated(original, reconstructed, mask, cfg, i);
      assert now == if Violated(original, reconstructed, mask, cfg, n - 1) then before + {n - 1} else before;
    }
  }

  /** The largest absolute error among the first n marked cells: none is larger, and it is that of a cell, or zero. */
  ghost predicate IsMaxAbsolute(original: seq<Float>, reconstructed: seq<Float>, mask: seq<bool>, cfg: ErrorConfig,
                                n: nat, m: real)
    requires |original| == |reconstructed| == |mask| && n <= |mask|
  {
    && (forall i :: 0 <= i < n && mask[i] ==> CheckPointwise(original[i], reconstructed[i], cfg).absolute <= m)
    && (m == 0.0 || exists i :: 0 <= i < n && mask[i] && CheckPointwise(original[i], reconstructed[i], cfg).absolute == m)
    && m >= 0.0
  }

  /** The same of the relative errors. */
  ghost predicate IsMaxRelative(original: seq<Float>, reconstructed: seq<Float>, mask: seq<bool>, cfg: ErrorConfig,
                                n: nat, m: Option<real>)
    requires |original| == |reconstructed| == |mask| && n <= |mask|
  {
    && (forall i :: 0 <= i < n && mask[i] ==> AtMost(CheckPointwise(original[i], reconstructed[i], cfg).relative, m))
    && (m == Some(0.0) || exists i :: 0 <= i < n && mask[i] && CheckPointwise(original[i], reconstructed[i], cfg).relative == m)
    && AtMost(Some(0.0), m)
  }

  function WithPoint(s: BlockStats, point: PointResult): BlockStats
  {
    BlockStats(s.passed && point.passed, s.validCount + 1, if point.passed then s.violationCount else s.violationCount + 1,
               if point.absolute > s.maxAbsolute then point.absolute else s.maxAbsolute,
               if AtMost(point.relative, s.maxRelative) then s.maxRelative else point.relative)
  }

  /** Whether the first n cells pass, and the counts. */
  predicate CountsOf(s: BlockStats, original: seq<Float>, reconstructed: seq<Float>, mask: seq<bool>, cfg: ErrorConfig, n: nat)
    requires |original| == |reconstructed| == |mask| && n <= |mask|
  {
    && (s.passed <==> forall k :: 0 <= k < n && mask[k] ==> Accepts(original[k], reconstructed[k], cfg))
    && s.validCount == Marked(mask, n) && s.violationCount == Violations(original, reconstructed, mask, cfg, n)
    && (s.passed <==> s.violationCount == 0)
  }

  lemma PassedNext(s: BlockStats, s': BlockStats, original: seq<Float>, reconstructed: seq<Float>, mask: seq<bool>,
                   cfg: ErrorConfig, i: nat)
    requires |original| == |reconstructed| == |mask| && i < |mask| && CountsOf(s, original, reconstructed, mask, cfg, i)
    requires s' == if mask[i] then WithPoint(s, CheckPointwise(original[i], reconstructed[i], cfg)) else s
    ensures CountsOf(s', original, reconstructed, mask, cfg, i + 1)
  {
  }

  /** The statistics of the first n cells. */
  ghost predicate StatsOf(s: BlockStats, original: seq<Float>, reconstructed: seq<Float>, mask: seq<bool>,
                          cfg: ErrorConfig, n: nat)
    requires |original| == |reconstructed| == |mask| && n <= |mask|
  {
    && CountsOf(s, original, reconstructed, mask, cfg, n)
    && IsMaxAbsolute(original, reconstructed, mask, cfg, n, s.maxAbsolute)
    && IsMaxRelative(original, reconstructed, mask, cfg, n, s.maxRelative)
  }

  lemma AbsoluteNext(original: seq<Float>, reconstructed: seq<Float>, mask: seq<bool>, cfg: ErrorConfig, i: nat, m: real,
                     m': real)
    requires |original| == |reconstructed| == |mask| && i < |mask|
    requires IsMaxAbsolute(original, reconstructed, mask, cfg, i, m)
    requires var a := CheckPointwise(original[i], reconstructed[i], cfg).absolute; m' == if mask[i] && a > m then a else m
    ensures IsMaxAbsolute(original, reconstructed, mask, cfg, i + 1, m')
  {
  }

  lemma RelativeNext(original: seq<Float>, reconstructed: seq<Float>, mask: seq<bool>, cfg: ErrorConfig, i: nat,
                     r: Option<real>, r': Option<real>)
    requires |original| == |reconstructed| == |mask| && i < |mask|
    requires IsMaxRelative(original, reconstructed, mask, cfg, i, r)
    requires var a := CheckPointwise(original[i], reconstructed[i], cfg).relative;
             r' == if mask[i] && !AtMost(a, r) then a else r
    ensures IsMaxRelative(original, reconstructed, mask, cfg, i + 1, r')
  {
  }

  lemma StatsNext(s: BlockStats, original: seq<Float>, reconstructed: seq<Float>, mask: seq<bool>, cfg: ErrorConfig, i: nat)
    requires |original| == |reconstructed| == |mask| && i < |mask| && StatsOf(s, original, reconstructed, mask, cfg, i)
    ensures StatsOf(if mask[i] then WithPoint(s, CheckPointwise(original[i], reconstructed[i], cfg)) else s,
                    original, reconstructed, mask, cfg, i + 1)
  {
    var s' := if mask[i] then WithPoint(s, CheckPointwise(original[i], reconstructed[i], cfg)) else s;
    PassedNext(s, s', original, reconstructed, mask, cfg, i);
    AbsoluteNext(original, reconstructed, mask, cfg, i, s.maxAbsolute, s'.maxAbsolute);
    RelativeNext(original, reconstructed, mask, cfg, i, s.maxRelative, s'.maxRelative);
  }

  method CheckBlockError(original: seq<Float>, reconstructed: seq<Float>, mask: seq<bool>, cfg: ErrorConfig)
    returns (stats: BlockStats)
    requires |original| == |reconstructed| == |mask|
    ensures stats.passed <==> BlockAccepted(original, reconstructed, mask, cfg)
    ensures StatsOf(stats, original, reconstructed, mask, cfg, |mask|)
  {
    stats := BlockStats(true, 0, 0, 0.0, Some(0.0));
    for i := 0 to |original|
      invariant StatsOf(stats, original, reconstructed, mask, cfg, i)
    {
      StatsNext(stats, original, reconstructed, mask, cfg, i);
      if mask[i] {
        stats := WithPoint(stats, CheckPointwise(original[i], reconstructed[i], cfg));
      }
    }
  }
}
