/** Which record the leaf encoder chooses for a block, as a function of the block and the compressor. */
module LeafChoice {
  import opened Basics
  import opened Float32
  import opened RelativeError
  import opened Bytes
  import opened BlockCells
  import opened LeafRecords

  datatype CodecConfig = CodecConfig(error: ErrorConfig, optionalCounts: seq<nat>, precisions: seq<nat>,
                                     fills: seq<Fill>, maxExceptions: nat, minimumGain: real,
                                     tryAccuracy: bool, tryExceptions: bool, tryPrecision: bool, tryConstant: bool)

  datatype Candidate = Candidate(codec: nat, payload: seq<Byte>)

  datatype Error = TargetNotPositive | ExponentOutOfRange

  datatype Encoded = Ok(candidate: Candidate) | Err(error: Error)

  /** A block to be encoded, the cells of it that count, and the means to do so. */
  datatype Block = Block(z: Zfp, rounding: Rounding, input: seq<Float>, mask: seq<bool>, cfg: CodecConfig)

  predicate IsBlock(input: seq<Float>, mask: seq<bool>)
  {
    |input| == CELLS && |mask| == CELLS
  }

  predicate Whole(b: Block)
  {
    IsBlock(b.input, b.mask)
  }

  function Mandatory(b: Block): seq<bool>
    requires Whole(b)
  {
    MandatoryMask(b.input, b.mask)
  }

  /** Two bytes of descriptor and the payload. */
  function SerializedSize(c: Candidate): nat
  {
    2 + |c.payload|
  }

  /** Decoding the record gives cells that the error check accepts wherever the mask is set. */
  ghost predicate Sound(z: Zfp, input: seq<Float>, mask: seq<bool>, error: ErrorConfig, c: Candidate)
    requires IsBlock(input, mask)
  {
    match DecodeRecord(z, c.codec, c.payload)
    case None => false
    case Some(out) => |out| == CELLS && BlockAccepted(input, out, mask, error)
  }

  // ----- raw and constant candidates -----

  function RawCandidate(input: seq<Float>): Candidate
    requires |input| == CELLS
  {
    Candidate(RAW, FloatsBytes(input, CELLS))
  }

  function ConstantCandidate(value: Float): Candidate
  {
    var n := 4;
    Candidate(CONSTANT_VALUE, Le(value, n))
  }

  lemma UniformOnce(input: seq<Float>, mask: seq<bool>, v: Float, w: Float)
    requires IsBlock(input, mask) && Uniform(input, mask, |input|, v) && Uniform(input, mask, |input|, w)
    ensures v == w
  {
  }

  /** The record of a block of zeros, or of a block of one ordinary number; none for others. */
  ghost function Constants(b: Block): seq<Candidate>
    requires Whole(b)
  {
    if !b.cfg.tryConstant then []
    else if AllZero(b.input, b.mask) then [Candidate(CONSTANT_ZERO, [])]
    else if exists v :: Uniform(b.input, b.mask, |b.input|, v) then
      var v :| Uniform(b.input, b.mask, |b.input|, v);
      [ConstantCandidate(v)]
    else []
  }

  lemma ConstantsAre(b: Block, v: Float)
    requires Whole(b) && b.cfg.tryConstant && !AllZero(b.input, b.mask) && Uniform(b.input, b.mask, |b.input|, v)
    ensures Constants(b) == [ConstantCandidate(v)]
  {
    var w :| Uniform(b.input, b.mask, |b.input|, w) && Constants(b) == [ConstantCandidate(w)];
    UniformOnce(b.input, b.mask, v, w);
  }

  // ----- accuracy candidates -----

  /** Smaller, or as large and before it in the block. */
  predicate Precedes(input: seq<Float>, j: nat, i: nat)
    requires i < |input| && j < |input|
  {
    Magnitude(input[j]) < Magnitude(input[i]) || (Magnitude(input[j]) == Magnitude(input[i]) && j < i)
  }

  /** The compressible cells smaller than cell i. */
  ghost function Smaller(input: seq<Float>, mask: seq<bool>, mandatory: seq<bool>, i: nat): set<nat>
    requires IsBlock(input, mask) && |mandatory| == CELLS && i < CELLS
  {
    set j: nat | 0 <= j < CELLS && Compressible(mask, mandatory, j) && Precedes(input, j, i)
  }

  /** The mandatory exceptions and so many of the smallest of the other cells. */
  ghost function ExceptionsFor(input: seq<Float>, mask: seq<bool>, mandatory: seq<bool>, count: nat): (r: seq<bool>)
    requires IsBlock(input, mask) && |mandatory| == CELLS
    ensures |r| == CELLS
  {
    seq(CELLS, i requires 0 <= i < CELLS =>
      mandatory[i] || (Compressible(mask, mandatory, i) && |Smaller(input, mask, mandatory, i)| < count))
  }

  function WorkBlock(input: seq<Float>, mask: seq<bool>, exceptions: seq<bool>, fill: Float): (work: seq<Float>)
    requires IsBlock(input, mask) && |exceptions| == CELLS
  {
    seq(CELLS, i requires 0 <= i < CELLS => if !mask[i] then ZERO else if exceptions[i] then fill else input[i])
  }

  function AccuracyPayload(minExp: int, exceptions: seq<bool>, values: seq<Float>, compressed: seq<Byte>): Candidate
    requires |values| < 256
  {
    if values == [] then Candidate(ACCURACY, AccuracyRecord(minExp, compressed))
    else Candidate(ACCURACY_EXCEPTIONS, ExceptionsRecord(minExp, exceptions, values, compressed))
  }

  /** The exceptions as they are, the other cells as decoded. */
  function Restored(input: seq<Float>, decoded: seq<Float>, exceptions: seq<bool>): (r: seq<Float>)
    requires |input| == |decoded| == |exceptions|
    ensures |r| == |input|
  {
    seq(|input|, i requires 0 <= i < |input| => if exceptions[i] then input[i] else decoded[i])
  }

  function ExceptionValues(input: seq<Float>, exceptions: seq<bool>): (values: seq<Float>)
    requires |input| == |exceptions| == CELLS
    ensures |values| == Marked(exceptions, CELLS) <= 64
  {
    MarkedMono(exceptions, 0, CELLS);
    Exceptions(input, exceptions, CELLS)
  }

  /** One attempt with these exceptions and this filling: the record, if what it decompresses to passes the check. */
  function Attempt(b: Block, requested: int, exceptions: seq<bool>, fill: Fill): Option<Candidate>
    requires Whole(b) && |exceptions| == CELLS
  {
    var mode := Accuracy(b.z.accuracy(requested));
    var fillValue := FillValue(b.rounding, b.input, b.mask, exceptions, fill);
    var compressed := b.z.compress(mode, WorkBlock(b.input, b.mask, exceptions, fillValue));
    if compressed == [] then None
    else match b.z.decompress(mode, compressed)
      case None => None
      case Some(decoded) =>
        if |decoded| == CELLS && BlockAccepted(b.input, Restored(b.input, decoded, exceptions), b.mask, b.cfg.error) then
          Some(AccuracyPayload(mode.minExp, exceptions, ExceptionValues(b.input, exceptions), compressed))
        else None
  }

  function OptionalCandidate(c: Option<Candidate>): seq<Candidate>
  {
    match c case None => [] case Some(x) => [x]
  }

  /** The records of the first n fillings. */
  function WithFills(b: Block, requested: int, exceptions: seq<bool>, n: nat): seq<Candidate>
    requires Whole(b) && |exceptions| == CELLS && n <= |b.cfg.fills|
  {
    if n == 0 then []
    else WithFills(b, requested, exceptions, n - 1) + OptionalCandidate(Attempt(b, requested, exceptions, b.cfg.fills[n - 1]))
  }

  /** The last record is smaller than all before it. */
  predicate LastImproves(found: seq<Candidate>)
  {
    forall k :: 0 <= k < |found| - 1 ==> SerializedSize(found[|found| - 1]) < SerializedSize(found[k])
  }

  /** Such a number of optional exceptions is tried. */
  ghost predicate Tried(b: Block, count: nat)
    requires Whole(b)
  {
    && (if count == 0 then b.cfg.tryAccuracy else b.cfg.tryExceptions)
    && Marked(ExceptionsFor(b.input, b.mask, Mandatory(b), count), CELLS) <= b.cfg.maxExceptions
  }

  /** The records found, and whether the search is over. */
  datatype Search = Search(found: seq<Candidate>, over: bool)

  /** After the first n counts; from four exceptions on, a count whose last record was no smaller ends the search. */
  ghost function SearchCounts(b: Block, requested: int, n: nat): Search
    requires Whole(b) && n <= |b.cfg.optionalCounts|
  {
    if n == 0 then Search([], false)
    else
      var s, count := SearchCounts(b, requested, n - 1), b.cfg.optionalCounts[n - 1];
      if s.over || !Tried(b, count) then s
      else
        var exceptions := ExceptionsFor(b.input, b.mask, Mandatory(b), count);
        var found := s.found + WithFills(b, requested, exceptions, |b.cfg.fills|);
        Search(found, count >= 4 && !LastImproves(found))
  }

  lemma MinAbsOnce(input: seq<Float>, mask: seq<bool>, exceptions: seq<bool>, m: Option<real>, k: Option<real>)
    requires |input| == |mask| == |exceptions|
    requires IsMinAbs(input, mask, exceptions, |input|, m) && IsMinAbs(input, mask, exceptions, |input|, k)
    ensures m == k
  {
  }

  /** The exponent requested for the target tolerance; it must be a positive number and fit sixteen bits. */
  function SafeToleranceExponent(rounding: Rounding, target: real): (r: (int, Option<Error>))
  {
    if !(target > 0.0) then (0, Some(TargetNotPositive))
    else
      var e := rounding.floorLog2(target);
      if e < -32768 || e > 32767 then (0, Some(ExponentOutOfRange)) else (e, None)
  }

  /** The tolerance for the compressor that keeps the internal bound at the smallest magnitude. */
  function Tolerance(cfg: CodecConfig, minAbs: real): real
  {
    cfg.error.internalBound * minAbs
  }

  /** The records of the accuracy attempts for the smallest compressible magnitude, if there is one. */
  ghost function AccuracyRecords(b: Block, minAbs: Option<real>): (seq<Candidate>, Option<Error>)
    requires Whole(b)
  {
    if (!b.cfg.tryAccuracy && !b.cfg.tryExceptions) || minAbs == None || minAbs.value <= 0.0 then ([], None)
    else
      var exponent := SafeToleranceExponent(b.rounding, Tolerance(b.cfg, minAbs.value));
      if exponent.1.Some? then ([], exponent.1)
      else (SearchCounts(b, exponent.0, |b.cfg.optionalCounts|).found, None)
  }

  // ----- precision candidates -----

  function MaskedBlock(input: seq<Float>, mask: seq<bool>): seq<Float>
    requires IsBlock(input, mask)
  {
    seq(CELLS, i requires 0 <= i < CELLS => if mask[i] then input[i] else ZERO)
  }

  /** One attempt with this precision. */
  function PrecisionAttempt(b: Block, precision: nat): Option<Candidate>
    requires Whole(b) && Lawful(b.z)
  {
    var actual := b.z.precision(precision);
    var compressed := b.z.compress(Precision(actual), MaskedBlock(b.input, b.mask));
    if compressed == [] then None
    else match b.z.decompress(Precision(actual), compressed)
      case None => None
      case Some(decoded) =>
        if BlockAccepted(b.input, decoded, b.mask, b.cfg.error) then
          Some(Candidate(PRECISION, PrecisionRecord(actual, compressed)))
        else None
  }

  /** After the first n precisions; a record no smaller than those before it ends the search. */
  function SearchPrecisions(b: Block, n: nat): Search
    requires Whole(b) && Lawful(b.z) && n <= |b.cfg.precisions|
  {
    if n == 0 then Search([], false)
    else
      var s := SearchPrecisions(b, n - 1);
      if s.over then s
      else match PrecisionAttempt(b, b.cfg.precisions[n - 1])
        case None => s
        case Some(c) => Search(s.found + [c], !LastImproves(s.found + [c]))
  }

  function PrecisionRecords(b: Block): seq<Candidate>
    requires Whole(b) && Lawful(b.z)
  {
    if b.cfg.tryPrecision && Marked(Mandatory(b), CELLS) == 0 then SearchPrecisions(b, |b.cfg.precisions|).found else []
  }

  // ----- the choice -----

  predicate HasCompressible(mask: seq<bool>, mandatory: seq<bool>)
    requires |mask| == |mandatory| == CELLS
  {
    exists i :: 0 <= i < CELLS && Compressible(mask, mandatory, i)
  }

  /** The smallest magnitude of a block, as the encoder finds it. */
  ghost function SmallestMagnitude(b: Block): Option<real>
    requires Whole(b)
  {
    if exists m: real :: IsMinAbs(b.input, b.mask, Mandatory(b), CELLS, Some(m)) then
      var m: real :| IsMinAbs(b.input, b.mask, Mandatory(b), CELLS, Some(m));
      Some(m)
    else None
  }

  /** All candidates but the raw one. */
  ghost function AllCandidates(b: Block): (seq<Candidate>, Option<Error>)
    requires Whole(b) && Lawful(b.z)
  {
    if !HasCompressible(b.mask, Mandatory(b)) then (Constants(b), None)
    else
      var accuracy := AccuracyRecords(b, SmallestMagnitude(b));
      if accuracy.1.Some? then (Constants(b), accuracy.1)
      else (Constants(b) + accuracy.0 + PrecisionRecords(b), None)
  }

  /** Saved by a record of this size, as a share of the raw leaf. */
  function Gain(c: Candidate): real
  {
    1.0 - SerializedSize(c) as real / 256.0
  }

  /** The first of the smallest among the first n candidates, the given one before all others. */
  function SmallestOf(raw: Candidate, candidates: seq<Candidate>, n: nat): Candidate
    requires n <= |candidates|
  {
    if n == 0 then raw
    else
      var best := SmallestOf(raw, candidates, n - 1);
      if SerializedSize(candidates[n - 1]) < SerializedSize(best) then candidates[n - 1] else best
  }

  /** The smallest candidate, or the raw one when the smallest does not gain enough. */
  ghost function BestOf(b: Block): Encoded
    requires Whole(b) && Lawful(b.z)
  {
    var all := AllCandidates(b);
    if all.1.Some? then Err(all.1.value)
    else
      var best := SmallestOf(RawCandidate(b.input), all.0, |all.0|);
      Ok(if Gain(best) < b.cfg.minimumGain then RawCandidate(b.input) else best)
  }

  // ----- what the choice is -----

  lemma {:induction false} SmallestIs(raw: Candidate, candidates: seq<Candidate>, n: nat)
    requires n <= |candidates|
    ensures var best := SmallestOf(raw, candidates, n);
            && (best == raw || best in candidates) && SerializedSize(best) <= SerializedSize(raw)
            && forall k :: 0 <= k < n ==> SerializedSize(best) <= SerializedSize(candidates[k])
  {
    if n > 0 {
      SmallestIs(raw, candidates, n - 1);
    }
  }

  /** The record chosen is the smallest candidate; it is the raw one only if no candidate is smaller and gains enough. */
  lemma SmallestChosen(b: Block, c: Candidate)
    requires Whole(b) && Lawful(b.z) && BestOf(b) == Ok(c)
    ensures c == RawCandidate(b.input) ||
            (c in AllCandidates(b).0 && Gain(c) >= b.cfg.minimumGain
             && SerializedSize(c) <= SerializedSize(RawCandidate(b.input)))
    ensures forall d :: d in AllCandidates(b).0 && Gain(d) >= b.cfg.minimumGain ==> SerializedSize(c) <= SerializedSize(d)
  {
    var candidates := AllCandidates(b).0;
    var best := SmallestOf(RawCandidate(b.input), candidates, |candidates|);
    SmallestIs(RawCandidate(b.input), candidates, |candidates|);
    forall d | d in candidates && Gain(d) >= b.cfg.minimumGain
      ensures SerializedSize(c) <= SerializedSize(d)
    {
      GainMono(best, d);
      assert c == best || Gain(best) < b.cfg.minimumGain;
    }
  }

  lemma GainMono(c: Candidate, d: Candidate)
    requires SerializedSize(c) <= SerializedSize(d)
    ensures Gain(c) >= Gain(d)
  {
  }

  /** The search over counts only adds records. */
  lemma {:induction false} CountsGrow(b: Block, requested: int, m: nat, n: nat)
    requires Whole(b) && m <= n <= |b.cfg.optionalCounts|
    ensures SearchCounts(b, requested, m).found <= SearchCounts(b, requested, n).found
    ensures SearchCounts(b, requested, m).over ==> SearchCounts(b, requested, n) == SearchCounts(b, requested, m)
  {
    if m < n {
      CountsGrow(b, requested, m, n - 1);
    }
  }

  lemma {:induction false} FillListed(b: Block, requested: int, exceptions: seq<bool>, f: nat, n: nat)
    requires Whole(b) && |exceptions| == CELLS && f < n <= |b.cfg.fills|
    requires Attempt(b, requested, exceptions, b.cfg.fills[f]).Some?
    ensures Attempt(b, requested, exceptions, b.cfg.fills[f]).value in WithFills(b, requested, exceptions, n)
  {
    if f < n - 1 {
      FillListed(b, requested, exceptions, f, n - 1);
    }
  }

  lemma InPrefix(part: seq<Candidate>, whole: seq<Candidate>, c: Candidate)
    requires part <= whole && c in part
    ensures c in whole
  {
    var i :| 0 <= i < |part| && part[i] == c;
    assert whole[i] == c;
  }

  /** Every attempt that passes is a candidate, unless the search was over before its count. */
  lemma AttemptsListed(b: Block, requested: int, n: nat, f: nat)
    requires Whole(b) && n < |b.cfg.optionalCounts| && f < |b.cfg.fills|
    requires !SearchCounts(b, requested, n).over && Tried(b, b.cfg.optionalCounts[n])
    ensures var exceptions := ExceptionsFor(b.input, b.mask, Mandatory(b), b.cfg.optionalCounts[n]);
            var c := Attempt(b, requested, exceptions, b.cfg.fills[f]);
            c.Some? ==> c.value in SearchCounts(b, requested, |b.cfg.optionalCounts|).found
  {
    var exceptions := ExceptionsFor(b.input, b.mask, Mandatory(b), b.cfg.optionalCounts[n]);
    if Attempt(b, requested, exceptions, b.cfg.fills[f]).Some? {
      FillListed(b, requested, exceptions, f, |b.cfg.fills|);
      CountsGrow(b, requested, n + 1, |b.cfg.optionalCounts|);
      InPrefix(SearchCounts(b, requested, n + 1).found, SearchCounts(b, requested, |b.cfg.optionalCounts|).found,
               Attempt(b, requested, exceptions, b.cfg.fills[f]).value);
    }
  }

  /** The record is that of some attempt. */
  ghost predicate FromAttempt(b: Block, requested: int, c: Candidate)
    requires Whole(b)
  {
    exists exceptions: seq<bool>, fill: Fill :: |exceptions| == CELLS && Attempt(b, requested, exceptions, fill) == Some(c)
  }

  lemma {:induction false} FillsAttempted(b: Block, requested: int, exceptions: seq<bool>, n: nat)
    requires Whole(b) && |exceptions| == CELLS && n <= |b.cfg.fills|
    ensures forall c :: c in WithFills(b, requested, exceptions, n) ==> FromAttempt(b, requested, c)
  {
    if n > 0 {
      FillsAttempted(b, requested, exceptions, n - 1);
    }
  }

  /** And every accuracy candidate is that of an attempt. */
  lemma {:induction false} CountsAttempted(b: Block, requested: int, n: nat)
    requires Whole(b) && n <= |b.cfg.optionalCounts|
    ensures forall c :: c in SearchCounts(b, requested, n).found ==> FromAttempt(b, requested, c)
  {
    if n > 0 {
      CountsAttempted(b, requested, n - 1);
      var exceptions := ExceptionsFor(b.input, b.mask, Mandatory(b), b.cfg.optionalCounts[n - 1]);
      FillsAttempted(b, requested, exceptions, |b.cfg.fills|);
    }
  }

  lemma {:induction false} PrecisionsAttempted(b: Block, n: nat)
    requires Whole(b) && Lawful(b.z) && n <= |b.cfg.precisions|
    ensures forall c :: c in SearchPrecisions(b, n).found ==> exists p: nat :: PrecisionAttempt(b, p) == Some(c)
  {
    if n > 0 {
      PrecisionsAttempted(b, n - 1);
    }
  }

  // ----- soundness -----

  lemma RawSound(z: Zfp, input: seq<Float>, mask: seq<bool>, error: ErrorConfig)
    requires IsBlock(input, mask) && AcceptsIdentity(error)
    ensures Sound(z, input, mask, error, RawCandidate(input))
  {
    RawRoundTrip(z, input);
    forall i | 0 <= i < CELLS && mask[i]
      ensures Accepts(input[i], input[i], error)
    {
      ExactAccepted(input[i], input[i], error);
    }
  }

  lemma ZeroSound(z: Zfp, input: seq<Float>, mask: seq<bool>, error: ErrorConfig)
    requires IsBlock(input, mask) && AcceptsIdentity(error) && AllZero(input, mask)
    ensures Sound(z, input, mask, error, Candidate(CONSTANT_ZERO, []))
  {
    forall i | 0 <= i < CELLS && mask[i]
      ensures Accepts(input[i], ZERO, error)
    {
      ExactAccepted(input[i], ZERO, error);
    }
  }

  lemma ConstantSound(z: Zfp, input: seq<Float>, mask: seq<bool>, error: ErrorConfig, value: Float)
    requires IsBlock(input, mask) && AcceptsIdentity(error)
    requires forall i :: 0 <= i < CELLS && mask[i] ==> input[i] == value
    ensures Sound(z, input, mask, error, ConstantCandidate(value))
  {
    var n := 4;
    FloatRoundTrip(value, Le(value, n), n);
    ExactAccepted(value, value, error);
  }

  lemma ConstantsSound(b: Block)
    requires Whole(b) && AcceptsIdentity(b.cfg.error)
    ensures forall c :: c in Constants(b) ==> Sound(b.z, b.input, b.mask, b.cfg.error, c)
  {
    if AllZero(b.input, b.mask) {
      ZeroSound(b.z, b.input, b.mask, b.cfg.error);
    } else if v :| Uniform(b.input, b.mask, |b.input|, v) {
      ConstantSound(b.z, b.input, b.mask, b.cfg.error, v);
    }
  }

  lemma NoneMarked(mask: seq<bool>, n: nat)
    requires n <= |mask| && Marked(mask, n) == 0
    ensures forall i :: 0 <= i < n ==> !mask[i]
  {
    if n > 0 {
      NoneMarked(mask, n - 1);
    }
  }

  lemma PatchNothing(decoded: seq<Float>, mask: seq<bool>)
    requires |decoded| == |mask| == CELLS && Marked(mask, CELLS) == 0
    ensures Patched(decoded, mask, []) == Patched(decoded, NoMask(), []) == Some(decoded)
  {
    NoneMarked(mask, CELLS);
    NoMarks(NoMask(), CELLS);
    assert Patched(decoded, mask, []).value == decoded;
    assert Patched(decoded, NoMask(), []).value == decoded;
  }

  lemma NoMarks(mask: seq<bool>, n: nat)
    requires n <= |mask| && forall i :: 0 <= i < |mask| ==> !mask[i]
    ensures Marked(mask, n) == 0
  {
    if n > 0 {
      NoMarks(mask, n - 1);
    }
  }

  /** Patching the exceptions into what was decompressed restores them. */
  lemma PatchRestores(input: seq<Float>, decoded: seq<Float>, exceptions: seq<bool>)
    requires |input| == |decoded| == |exceptions| == CELLS
    ensures Patched(decoded, exceptions, ExceptionValues(input, exceptions)) == Some(Restored(input, decoded, exceptions))
  {
    PatchBack(input, decoded, exceptions);
    assert Patched(decoded, exceptions, ExceptionValues(input, exceptions)).value == Restored(input, decoded, exceptions);
  }

  /** What the encoder decompressed to check a record is what the decoder gets, if the exponent survives. */
  lemma AttemptSound(b: Block, requested: int, exceptions: seq<bool>, fill: Fill)
    requires Whole(b) && Lawful(b.z) && |exceptions| == CELLS && FitsSignedByte(b.z.accuracy(requested))
    ensures var c := Attempt(b, requested, exceptions, fill);
            c.Some? ==> c.value.codec <= PRECISION && Sound(b.z, b.input, b.mask, b.cfg.error, c.value)
  {
    var mode := Accuracy(b.z.accuracy(requested));
    var work := WorkBlock(b.input, b.mask, exceptions, FillValue(b.rounding, b.input, b.mask, exceptions, fill));
    var compressed, values := b.z.compress(mode, work), ExceptionValues(b.input, exceptions);
    if Attempt(b, requested, exceptions, fill).Some? {
      var decoded := b.z.decompress(mode, compressed).value;
      PatchRestores(b.input, decoded, exceptions);
      if values == [] {
        AccuracyRoundTrip(mode.minExp, compressed);
        PatchNothing(decoded, exceptions);
      } else {
        ExceptionsRoundTrip(mode.minExp, exceptions, values, compressed);
      }
    }
  }

  lemma PrecisionSound(b: Block, p: nat)
    requires Whole(b) && Lawful(b.z)
    ensures var c := PrecisionAttempt(b, p);
            c.Some? ==> c.value.codec == PRECISION && Sound(b.z, b.input, b.mask, b.cfg.error, c.value)
  {
    var c := PrecisionAttempt(b, p);
    if c.Some? {
      var compressed := b.z.compress(Precision(b.z.precision(p)), MaskedBlock(b.input, b.mask));
      assert c.value.payload[1..] == compressed;
    }
  }

  /** The exponent that an accuracy candidate of this block would store, if it has one. */
  ghost predicate StoresExponent(z: Zfp, rounding: Rounding, input: seq<Float>, mask: seq<bool>, cfg: CodecConfig, e: int)
    requires IsBlock(input, mask)
  {
    exists m: real :: IsMinAbs(input, mask, MandatoryMask(input, mask), CELLS, Some(m)) &&
                      e == z.accuracy(rounding.floorLog2(Tolerance(cfg, m)))
  }

  /** Every exponent this block could store survives in one signed byte. */
  ghost predicate ExponentsFit(z: Zfp, rounding: Rounding, input: seq<Float>, mask: seq<bool>, cfg: CodecConfig)
    requires IsBlock(input, mask)
  {
    forall e :: StoresExponent(z, rounding, input, mask, cfg, e) ==> FitsSignedByte(e)
  }

  lemma SmallestMagnitudeIs(b: Block)
    requires Whole(b)
    ensures SmallestMagnitude(b).Some? ==> IsMinAbs(b.input, b.mask, Mandatory(b), CELLS, SmallestMagnitude(b))
  {
  }

  lemma MagnitudeIs(b: Block, m: Option<real>)
    requires Whole(b) && IsMinAbs(b.input, b.mask, Mandatory(b), CELLS, m)
    ensures m == SmallestMagnitude(b)
  {
    if k: real :| IsMinAbs(b.input, b.mask, Mandatory(b), CELLS, Some(k)) {
      MinAbsOnce(b.input, b.mask, Mandatory(b), m, Some(k));
      SmallestMagnitudeIs(b);
      MinAbsOnce(b.input, b.mask, Mandatory(b), m, SmallestMagnitude(b));
    }
  }

  lemma StoresAt(b: Block, m: real)
    requires Whole(b) && IsMinAbs(b.input, b.mask, Mandatory(b), CELLS, Some(m))
    ensures StoresExponent(b.z, b.rounding, b.input, b.mask, b.cfg, b.z.accuracy(b.rounding.floorLog2(Tolerance(b.cfg, m))))
  {
  }

  lemma RecordsOf(b: Block, minAbs: Option<real>)
    requires Whole(b) && AccuracyRecords(b, minAbs).0 != []
    ensures minAbs.Some?
    ensures AccuracyRecords(b, minAbs).0
            == SearchCounts(b, b.rounding.floorLog2(Tolerance(b.cfg, minAbs.value)), |b.cfg.optionalCounts|).found
  {
  }

  /** Every accuracy record is that of an attempt, all with the exponent of the block. */
  lemma RecordsAttempted(b: Block) returns (requested: int)
    requires Whole(b)
    ensures AccuracyRecords(b, SmallestMagnitude(b)).0 != [] ==>
              StoresExponent(b.z, b.rounding, b.input, b.mask, b.cfg, b.z.accuracy(requested))
    ensures forall c :: c in AccuracyRecords(b, SmallestMagnitude(b)).0 ==> FromAttempt(b, requested, c)
  {
    requested := 0;
    var minAbs := SmallestMagnitude(b);
    if AccuracyRecords(b, minAbs).0 != [] {
      RecordsOf(b, minAbs);
      SmallestMagnitudeIs(b);
      requested := b.rounding.floorLog2(Tolerance(b.cfg, minAbs.value));
      StoresAt(b, minAbs.value);
      CountsAttempted(b, requested, |b.cfg.optionalCounts|);
    }
  }

  lemma FromAttemptSound(b: Block, requested: int, c: Candidate)
    requires Whole(b) && Lawful(b.z) && FromAttempt(b, requested, c)
    ensures c.codec <= PRECISION
    ensures FitsSignedByte(b.z.accuracy(requested)) ==> Sound(b.z, b.input, b.mask, b.cfg.error, c)
  {
    var exceptions: seq<bool>, fill: Fill :| |exceptions| == CELLS && Attempt(b, requested, exceptions, fill) == Some(c);
    if FitsSignedByte(b.z.accuracy(requested)) {
      AttemptSound(b, requested, exceptions, fill);
    }
  }

  lemma AccuracySound(b: Block)
    requires Whole(b) && Lawful(b.z)
    ensures forall c :: c in AccuracyRecords(b, SmallestMagnitude(b)).0 ==>
              c.codec <= PRECISION &&
              (ExponentsFit(b.z, b.rounding, b.input, b.mask, b.cfg) ==> Sound(b.z, b.input, b.mask, b.cfg.error, c))
  {
    var requested := RecordsAttempted(b);
    forall c | c in AccuracyRecords(b, SmallestMagnitude(b)).0
      ensures c.codec <= PRECISION
      ensures ExponentsFit(b.z, b.rounding, b.input, b.mask, b.cfg) ==> Sound(b.z, b.input, b.mask, b.cfg.error, c)
    {
      FromAttemptSound(b, requested, c);
    }
  }

  lemma PrecisionsSound(b: Block)
    requires Whole(b) && Lawful(b.z)
    ensures forall c :: c in PrecisionRecords(b) ==> c.codec == PRECISION && Sound(b.z, b.input, b.mask, b.cfg.error, c)
  {
    PrecisionsAttempted(b, |b.cfg.precisions|);
    forall c | c in PrecisionRecords(b)
      ensures c.codec == PRECISION && Sound(b.z, b.input, b.mask, b.cfg.error, c)
    {
      var p: nat :| PrecisionAttempt(b, p) == Some(c);
      PrecisionSound(b, p);
    }
  }

  /** What the encoder promises of its result. */
  ghost predicate IsBest(z: Zfp, rounding: Rounding, input: seq<Float>, mask: seq<bool>, cfg: CodecConfig, c: Candidate)
    requires IsBlock(input, mask)
  {
    && c.codec <= PRECISION && |c.payload| <= 256
    && (AcceptsIdentity(cfg.error) && ExponentsFit(z, rounding, input, mask, cfg) ==> Sound(z, input, mask, cfg.error, c))
  }

  lemma CandidatesSound(b: Block)
    requires Whole(b) && Lawful(b.z) && AcceptsIdentity(b.cfg.error)
    requires ExponentsFit(b.z, b.rounding, b.input, b.mask, b.cfg)
    ensures forall c :: c in AllCandidates(b).0 ==> Sound(b.z, b.input, b.mask, b.cfg.error, c)
  {
    ConstantsSound(b);
    AccuracySound(b);
    PrecisionsSound(b);
  }

  lemma CandidateCodecs(b: Block)
    requires Whole(b) && Lawful(b.z)
    ensures forall c :: c in AllCandidates(b).0 ==> c.codec <= PRECISION
  {
    AccuracySound(b);
    PrecisionsSound(b);
  }

  /**
   * The chosen record is never larger than the raw leaf, and whatever the compressor does the decoder gets accepted
   * cells back, as long as the exponent survives.
   */
  lemma BestIsSound(b: Block, c: Candidate)
    requires Whole(b) && Lawful(b.z) && BestOf(b) == Ok(c)
    ensures IsBest(b.z, b.rounding, b.input, b.mask, b.cfg, c)
  {
    SmallestChosen(b, c);
    CandidateCodecs(b);
    if AcceptsIdentity(b.cfg.error) && ExponentsFit(b.z, b.rounding, b.input, b.mask, b.cfg) {
      RawSound(b.z, b.input, b.mask, b.cfg.error);
      CandidatesSound(b);
    }
  }
}
