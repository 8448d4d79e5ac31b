/** Which record the plane encoder chooses for a block: the smallest of all that pass, the first of them in order. */
module PlaneChoice {
  import opened Basics
  import opened Float32
  import opened RelativeError
  import opened Bytes
  import opened BlockCells
  import opened LeafRecords
  import opened PlaneBlocks

  /** A block to be encoded, the cells of it that count, and the means to do so. */
  datatype PlaneBlock = PlaneBlock(z: Zfp, rounding: Rounding, input: seq<Float>, mask: seq<bool>, cfg: PlaneConfig)

  ghost predicate Proper(b: PlaneBlock)
  {
    LawfulPlanes(b.z) && IsPlaneBlock(b.input, b.mask)
  }

  // ----- the records in question -----

  /** Marked, and a normal number or not. */
  predicate Normal(b: PlaneBlock, i: nat)
    requires IsPlaneBlock(b.input, b.mask) && i < BLOCK
  {
    b.mask[i] && 0x80_0000 <= Unsigned(b.input[i]) < INFINITE
  }

  predicate Special(b: PlaneBlock, i: nat)
    requires IsPlaneBlock(b.input, b.mask) && i < BLOCK
  {
    b.mask[i] && !(0x80_0000 <= Unsigned(b.input[i]) < INFINITE)
  }

  predicate NoneSpecial(b: PlaneBlock)
    requires IsPlaneBlock(b.input, b.mask)
  {
    forall i :: 0 <= i < BLOCK ==> !Special(b, i)
  }

  function SpecialMask(b: PlaneBlock): (r: seq<bool>)
    requires IsPlaneBlock(b.input, b.mask)
    ensures |r| == BLOCK && forall i :: 0 <= i < BLOCK ==> r[i] == Special(b, i)
  {
    seq(BLOCK, i requires 0 <= i < BLOCK => Special(b, i))
  }

  function SpecialValues(b: PlaneBlock): (values: seq<Float>)
    requires IsPlaneBlock(b.input, b.mask)
    ensures |values| == Marked(SpecialMask(b), BLOCK) <= BLOCK
  {
    MarkedMono(SpecialMask(b), 0, BLOCK);
    Exceptions(b.input, SpecialMask(b), BLOCK)
  }

  /**
   * Compressing the block, with special cells filled in if they are exceptions, and decompressing it gives accepted
   * cells; c is the record of it.
   */
  ghost predicate Made(b: PlaneBlock, accuracy: bool, mode: Mode, parameter: Byte, withExceptions: bool,
                       block: seq<Float>, decoded: seq<Float>, c: BlockRecord)
    requires IsPlaneBlock(b.input, b.mask)
  {
    var fill := FillValue(b.rounding, b.input, b.mask, SpecialMask(b), Mean);
    var data := b.z.compress(mode, block);
    && |block| == |decoded| == BLOCK
    && (forall i :: 0 <= i < BLOCK ==> block[i] == if withExceptions && Special(b, i) then fill else b.input[i])
    && data != [] && b.z.decompress(mode, data) == Some(decoded)
    && (forall i :: 0 <= i < BLOCK && b.mask[i] ==>
          Accepts(b.input[i], if withExceptions && Special(b, i) then b.input[i] else decoded[i], b.cfg.error))
    && c == if withExceptions then
              BlockRecord(if accuracy then ACCURACY_EXCEPTIONS else PRECISION_EXCEPTIONS,
                          PatchedRecord(parameter, SpecialMask(b), SpecialValues(b), data))
            else BlockRecord(if accuracy then ACCURACY else PRECISION, PlainRecord(parameter, data))
  }

  ghost predicate Passes(b: PlaneBlock, accuracy: bool, mode: Mode, parameter: Byte, withExceptions: bool, c: BlockRecord)
    requires IsPlaneBlock(b.input, b.mask)
  {
    exists block, decoded :: Made(b, accuracy, mode, parameter, withExceptions, block, decoded, c)
  }

  /** The smallest magnitude of the normal numbers marked. */
  ghost predicate IsSmallest(b: PlaneBlock, m: real)
    requires IsPlaneBlock(b.input, b.mask)
  {
    && (exists i :: 0 <= i < BLOCK && Normal(b, i) && Abs(Value(b.input[i])) == m)
    && forall i :: 0 <= i < BLOCK && Normal(b, i) ==> m <= Abs(Value(b.input[i]))
  }

  /** The exponent of the tolerance; zero when it is out of range. */
  predicate IsExponent(b: PlaneBlock, m: real, e: int)
  {
    var target := b.cfg.error.internalBound * m;
    if target > 0.0 && -32768 <= b.rounding.floorLog2(target) <= 32767 then e == b.rounding.floorLog2(target) else e == 0
  }

  ghost predicate AccuracyPasses(b: PlaneBlock, withExceptions: bool, c: BlockRecord)
    requires IsPlaneBlock(b.input, b.mask)
  {
    exists m: real, e: int :: IsSmallest(b, m) && IsExponent(b, m, e) &&
      Passes(b, true, Accuracy(b.z.accuracy(e)), ExponentByte(e), withExceptions, c)
  }

  ghost predicate PrecisionPasses(b: PlaneBlock, precision: Byte, withExceptions: bool, c: BlockRecord)
    requires IsPlaneBlock(b.input, b.mask)
  {
    Passes(b, false, Precision(b.z.precision(precision)), precision, withExceptions, c)
  }

  /** The record of a block of zeros, or of one normal number. */
  ghost predicate IsConstant(b: PlaneBlock, c: BlockRecord)
    requires IsPlaneBlock(b.input, b.mask)
  {
    || (c == BlockRecord(CONSTANT_ZERO, []) && forall i :: 0 <= i < BLOCK && b.mask[i] ==> Unsigned(b.input[i]) == 0)
    || exists v: Float :: HoldsOnly(b, v) && c == BlockRecord(CONSTANT_VALUE, Le(v, 4))
  }

  /** Every marked cell, and there is one, holds this normal number. */
  predicate HoldsOnly(b: PlaneBlock, v: Float)
    requires IsPlaneBlock(b.input, b.mask)
  {
    && 0x80_0000 <= Unsigned(v) < INFINITE && (exists i :: 0 <= i < BLOCK && b.mask[i])
    && forall i :: 0 <= i < BLOCK && b.mask[i] ==> b.input[i] == v
  }

  /** Option k, in the order they are tried, gives this record. */
  ghost predicate Gives(b: PlaneBlock, k: nat, c: BlockRecord)
    requires IsPlaneBlock(b.input, b.mask)
  {
    if k == 0 then c == BlockRecord(RAW, FloatsBytes(b.input, BLOCK))
    else if k == 1 then IsConstant(b, c)
    else if k == 2 then (!b.cfg.fastAccuracyOnly || NoneSpecial(b)) && AccuracyPasses(b, false, c)
    else if k == 3 then AccuracyPasses(b, true, c)
    else
      var n := k / 2 - 2;
      && !b.cfg.fastAccuracyOnly && n < |b.cfg.precisions| && (k % 2 == 1 ==> b.cfg.tryPrecisionExceptions)
      && PrecisionPasses(b, b.cfg.precisions[n], k % 2 == 1, c)
  }

  /** The record of one of the first n options; none of theirs is smaller, and no earlier one as small. */
  ghost predicate BestAmong(b: PlaneBlock, n: nat, best: BlockRecord)
    requires IsPlaneBlock(b.input, b.mask)
  {
    exists k: nat :: BestAt(b, n, k, best)
  }

  ghost predicate BestAt(b: PlaneBlock, n: nat, k: nat, best: BlockRecord)
    requires IsPlaneBlock(b.input, b.mask)
  {
    && k < n && Gives(b, k, best)
    && forall j: nat, c :: j < n && Gives(b, j, c) ==>
         |best.payload| <= |c.payload| && (j < k ==> |best.payload| < |c.payload|)
  }

  /** The same over all options. */
  ghost predicate IsBestBlock(b: PlaneBlock, best: BlockRecord)
    requires IsPlaneBlock(b.input, b.mask)
  {
    BestAmong(b, 4 + 2 * |b.cfg.precisions|, best)
  }

  // ----- one attempt -----

  lemma SpecialIs(b: PlaneBlock)
    requires IsPlaneBlock(b.input, b.mask)
    ensures SpecialMask(b) == MandatoryMask(b.input, b.mask)
  {
    forall i: nat | i < BLOCK
      ensures SpecialMask(b)[i] == MandatoryMask(b.input, b.mask)[i]
    {
      BitClasses(b.input[i]);
    }
  }

  /** The special cells as they are if they are exceptions, the other cells as decoded. */
  function Rebuilt(b: PlaneBlock, withExceptions: bool, decoded: seq<Float>): (r: seq<Float>)
    requires IsPlaneBlock(b.input, b.mask) && |decoded| == BLOCK
    ensures |r| == BLOCK
  {
    seq(BLOCK, i requires 0 <= i < BLOCK => if withExceptions && Special(b, i) then b.input[i] else decoded[i])
  }

  /** The record of this attempt, if what it decompresses to passes the check. */
  function Outcome(b: PlaneBlock, accuracy: bool, mode: Mode, parameter: Byte, withExceptions: bool): Option<BlockRecord>
    requires IsPlaneBlock(b.input, b.mask)
  {
    var fill := FillValue(b.rounding, b.input, b.mask, SpecialMask(b), Mean);
    var data := b.z.compress(mode, ExceptionBlock(b.input, SpecialMask(b), withExceptions, fill));
    if data == [] then None
    else match b.z.decompress(mode, data)
      case None => None
      case Some(decoded) =>
        if |decoded| == BLOCK && BlockAccepted(b.input, Rebuilt(b, withExceptions, decoded), b.mask, b.cfg.error) then
          Some(ZfpRecord(accuracy, parameter, withExceptions, SpecialMask(b), SpecialValues(b), data))
        else None
  }

  lemma MadeIsOutcome(b: PlaneBlock, accuracy: bool, mode: Mode, parameter: Byte, withExceptions: bool,
                      block: seq<Float>, decoded: seq<Float>, c: BlockRecord)
    requires IsPlaneBlock(b.input, b.mask) && Made(b, accuracy, mode, parameter, withExceptions, block, decoded, c)
    ensures Outcome(b, accuracy, mode, parameter, withExceptions) == Some(c)
  {
    var fill := FillValue(b.rounding, b.input, b.mask, SpecialMask(b), Mean);
    assert block == ExceptionBlock(b.input, SpecialMask(b), withExceptions, fill);
  }

  lemma OutcomeIsMade(b: PlaneBlock, accuracy: bool, mode: Mode, parameter: Byte, withExceptions: bool, c: BlockRecord)
    requires IsPlaneBlock(b.input, b.mask) && Outcome(b, accuracy, mode, parameter, withExceptions) == Some(c)
    ensures Passes(b, accuracy, mode, parameter, withExceptions, c)
  {
    var fill := FillValue(b.rounding, b.input, b.mask, SpecialMask(b), Mean);
    var block := ExceptionBlock(b.input, SpecialMask(b), withExceptions, fill);
    var decoded := b.z.decompress(mode, b.z.compress(mode, block)).value;
    forall i | 0 <= i < BLOCK && b.mask[i]
      ensures Accepts(b.input[i], if withExceptions && Special(b, i) then b.input[i] else decoded[i], b.cfg.error)
    {
      assert Accepts(b.input[i], Rebuilt(b, withExceptions, decoded)[i], b.cfg.error);
    }
    assert Made(b, accuracy, mode, parameter, withExceptions, block, decoded, c);
  }

  lemma PassesIff(b: PlaneBlock, accuracy: bool, mode: Mode, parameter: Byte, withExceptions: bool)
    requires IsPlaneBlock(b.input, b.mask)
    ensures forall c :: Passes(b, accuracy, mode, parameter, withExceptions, c) <==>
                        Outcome(b, accuracy, mode, parameter, withExceptions) == Some(c)
  {
    forall c
      ensures Passes(b, accuracy, mode, parameter, withExceptions, c) <==>
              Outcome(b, accuracy, mode, parameter, withExceptions) == Some(c)
    {
      if Passes(b, accuracy, mode, parameter, withExceptions, c) {
        var block, decoded :| Made(b, accuracy, mode, parameter, withExceptions, block, decoded, c);
        MadeIsOutcome(b, accuracy, mode, parameter, withExceptions, block, decoded, c);
      }
      if Outcome(b, accuracy, mode, parameter, withExceptions) == Some(c) {
        OutcomeIsMade(b, accuracy, mode, parameter, withExceptions, c);
      }
    }
  }

  lemma PatchRebuilds(b: PlaneBlock, decoded: seq<Float>)
    requires IsPlaneBlock(b.input, b.mask) && |decoded| == BLOCK
    ensures Patched(decoded, SpecialMask(b), SpecialValues(b)) == Some(Rebuilt(b, true, decoded))
    ensures Rebuilt(b, false, decoded) == decoded
  {
    PatchBack(b.input, decoded, SpecialMask(b));
    assert Patched(decoded, SpecialMask(b), SpecialValues(b)).value == Rebuilt(b, true, decoded);
  }

  /** A record made decodes to accepted cells, if the decoder sets the compressor the same. */
  lemma PassesSound(b: PlaneBlock, accuracy: bool, mode: Mode, parameter: Byte, withExceptions: bool, c: BlockRecord)
    requires Proper(b) && Passes(b, accuracy, mode, parameter, withExceptions, c)
    ensures c.codec <= PRECISION_EXCEPTIONS
    ensures mode == ModeOf(b.z, accuracy, parameter) ==> SoundBlock(b.z, b.input, b.mask, b.cfg.error, c)
  {
    var block, decoded :| Made(b, accuracy, mode, parameter, withExceptions, block, decoded, c);
    if mode == ModeOf(b.z, accuracy, parameter) {
      PatchRebuilds(b, decoded);
      RecordDecodes(b.z, accuracy, parameter, withExceptions, SpecialMask(b), SpecialValues(b),
                    b.z.compress(mode, block), decoded);
    }
  }

  /** Compresses the block and keeps the record only if what it decompresses to passes the check. */
  method TryZfp(b: PlaneBlock, exceptions: seq<bool>, accuracy: bool, mode: Mode, parameter: Byte, withExceptions: bool)
    returns (c: Option<BlockRecord>)
    requires Proper(b) && exceptions == SpecialMask(b)
    ensures forall d :: Passes(b, accuracy, mode, parameter, withExceptions, d) <==> c == Some(d)
  {
    PassesIff(b, accuracy, mode, parameter, withExceptions);
    var fill := ComputeFillValue(b.rounding, b.input, b.mask, exceptions, Mean);
    var compressed := b.z.compress(mode, ExceptionBlock(b.input, exceptions, withExceptions, fill));
    if compressed == [] {
      return None;
    }
    var decompressed := b.z.decompress(mode, compressed);
    if decompressed == None {
      return None;
    }
    var values := SpecialValues(b);
    PatchRebuilds(b, decompressed.value);
    var decoded := if withExceptions then Patched(decompressed.value, exceptions, values).value else decompressed.value;
    var stats := CheckBlockError(b.input, decoded, b.mask, b.cfg.error);
    c := if stats.passed then Some(ZfpRecord(accuracy, parameter, withExceptions, exceptions, values, compressed)) else None;
  }

  lemma SmallestIff(b: PlaneBlock, exceptions: seq<bool>, m: Option<real>)
    requires IsPlaneBlock(b.input, b.mask) && exceptions == SpecialMask(b)
    requires IsMinAbs(b.input, b.mask, exceptions, BLOCK, m)
    ensures forall k :: IsSmallest(b, k) <==> m == Some(k)
    ensures m.Some? ==> m.value > 0.0
  {
    forall i: nat | i < BLOCK
      ensures Compressible(b.mask, exceptions, i) <==> Normal(b, i)
      ensures Abs(Value(b.input[i])) == Magnitude(b.input[i])
      ensures Normal(b, i) ==> Magnitude(b.input[i]) > 0.0
    {
      BitClasses(b.input[i]);
      ValueZero(b.input[i]);
    }
  }

  method TryAccuracy(b: PlaneBlock, exceptions: seq<bool>, withExceptions: bool) returns (c: Option<BlockRecord>)
    requires Proper(b) && exceptions == SpecialMask(b)
    ensures forall d :: AccuracyPasses(b, withExceptions, d) <==> c == Some(d)
  {
    var minAbs := MinAbsNonException(b.input, b.mask, exceptions);
    SmallestIff(b, exceptions, minAbs);
    if minAbs == None || minAbs.value <= 0.0 {
      return None;
    }
    var e := ToleranceExponent(b.rounding, Target(b.cfg.error, minAbs.value));
    ExponentIs(b, minAbs.value, e);
    c := TryZfp(b, exceptions, true, Accuracy(b.z.accuracy(e)), ExponentByte(e), withExceptions);
  }

  lemma ExponentIs(b: PlaneBlock, m: real, e: int)
    requires e == ToleranceExponent(b.rounding, Target(b.cfg.error, m))
    ensures forall k :: IsExponent(b, m, k) <==> k == e
  {
  }

  method TryPrecision(b: PlaneBlock, exceptions: seq<bool>, precision: Byte, withExceptions: bool)
    returns (c: Option<BlockRecord>)
    requires Proper(b) && exceptions == SpecialMask(b)
    ensures forall d :: PrecisionPasses(b, precision, withExceptions, d) <==> c == Some(d)
  {
    c := TryZfp(b, exceptions, false, Precision(b.z.precision(precision)), precision, withExceptions);
  }

  method ConstantBlock(b: PlaneBlock) returns (c: Option<BlockRecord>)
    requires Proper(b)
    ensures forall d :: IsConstant(b, d) <==> c == Some(d)
  {
    ConstantsIff(b);
    if AllZero(b.input, b.mask) {
      return Some(BlockRecord(CONSTANT_ZERO, []));
    }
    var value := CommonValue(b.input, b.mask);
    c := if value == None then None else Some(BlockRecord(CONSTANT_VALUE, Le(value.value, 4)));
  }

  lemma ConstantsIff(b: PlaneBlock)
    requires IsPlaneBlock(b.input, b.mask)
    ensures AllZero(b.input, b.mask) <==> forall i :: 0 <= i < BLOCK && b.mask[i] ==> Unsigned(b.input[i]) == 0
    ensures forall v :: HoldsOnly(b, v) <==> Uniform(b.input, b.mask, BLOCK, v)
    ensures forall v, w :: HoldsOnly(b, v) && HoldsOnly(b, w) ==> v == w
    ensures forall v :: HoldsOnly(b, v) ==> !AllZero(b.input, b.mask)
  {
    forall i: nat | i < BLOCK
      ensures IsZero(b.input[i]) <==> Unsigned(b.input[i]) == 0
    {
      BitClasses(b.input[i]);
    }
    forall v
      ensures HoldsOnly(b, v) <==> Uniform(b.input, b.mask, BLOCK, v)
    {
      BitClasses(v);
    }
  }

  // ----- the choice -----

  /** The candidate if it is there and smaller. */
  function Better(best: BlockRecord, c: Option<BlockRecord>): BlockRecord
  {
    if c.Some? && 2 + |c.value.payload| < 2 + |best.payload| then c.value else best
  }

  lemma KeepsBest(b: PlaneBlock, n: nat, k: nat, best: BlockRecord)
    requires IsPlaneBlock(b.input, b.mask) && BestAt(b, n, k, best)
    requires forall d :: Gives(b, n, d) ==> |best.payload| <= |d.payload|
    ensures BestAt(b, n + 1, k, best)
  {
  }

  lemma TakesNext(b: PlaneBlock, n: nat, k: nat, best: BlockRecord, c: BlockRecord)
    requires IsPlaneBlock(b.input, b.mask) && BestAt(b, n, k, best) && |c.payload| < |best.payload|
    requires forall d :: Gives(b, n, d) <==> d == c
    ensures BestAt(b, n + 1, n, c)
  {
  }

  lemma NextOption(b: PlaneBlock, n: nat, best: BlockRecord, c: Option<BlockRecord>)
    requires IsPlaneBlock(b.input, b.mask) && BestAmong(b, n, best) && forall d :: Gives(b, n, d) <==> c == Some(d)
    ensures BestAmong(b, n + 1, Better(best, c))
  {
    var k: nat :| BestAt(b, n, k, best);
    if Better(best, c) == best {
      KeepsBest(b, n, k, best);
    } else {
      TakesNext(b, n, k, best, c.value);
    }
  }

  lemma RawFirst(b: PlaneBlock, raw: BlockRecord)
    requires IsPlaneBlock(b.input, b.mask) && raw == BlockRecord(RAW, FloatsBytes(b.input, BLOCK))
    ensures BestAmong(b, 1, raw)
  {
    assert BestAt(b, 1, 0, raw);
  }

  lemma PrecisionGives(b: PlaneBlock, n: nat, withExceptions: bool, k: nat, c: Option<BlockRecord>)
    requires IsPlaneBlock(b.input, b.mask) && !b.cfg.fastAccuracyOnly && n < |b.cfg.precisions|
    requires k == if withExceptions then 5 + 2 * n else 4 + 2 * n
    requires if withExceptions && !b.cfg.tryPrecisionExceptions then c == None
             else forall d :: PrecisionPasses(b, b.cfg.precisions[n], withExceptions, d) <==> c == Some(d)
    ensures forall d :: Gives(b, k, d) <==> c == Some(d)
  {
    assert k / 2 - 2 == n && (k % 2 == 1 <==> withExceptions);
  }

  /** One option of a precision. */
  method TryOption(b: PlaneBlock, exceptions: seq<bool>, n: nat, withExceptions: bool, ghost k: nat, first: BlockRecord)
    returns (best: BlockRecord)
    requires Proper(b) && exceptions == SpecialMask(b) && !b.cfg.fastAccuracyOnly && n < |b.cfg.precisions|
    requires k == if withExceptions then 5 + 2 * n else 4 + 2 * n
    requires BestAmong(b, k, first)
    ensures BestAmong(b, k + 1, best)
  {
    var c := None;
    if !withExceptions || b.cfg.tryPrecisionExceptions {
      c := TryPrecision(b, exceptions, b.cfg.precisions[n], withExceptions);
    }
    PrecisionGives(b, n, withExceptions, k, c);
    NextOption(b, k, first, c);
    best := Better(first, c);
  }

  /** All options before those of precision n have been looked at. */
  ghost predicate Tried(b: PlaneBlock, exceptions: seq<bool>, n: nat, best: BlockRecord)
  {
    && Proper(b) && exceptions == SpecialMask(b) && !b.cfg.fastAccuracyOnly && n <= |b.cfg.precisions|
    && BestAmong(b, 4 + 2 * n, best)
  }

  method TryOptions(b: PlaneBlock, exceptions: seq<bool>, n: nat, first: BlockRecord) returns (best: BlockRecord)
    requires Tried(b, exceptions, n, first) && n < |b.cfg.precisions|
    ensures Tried(b, exceptions, n + 1, best)
  {
    ghost var k := 4 + 2 * n;
    best := TryOption(b, exceptions, n, false, k, first);
    best := TryOption(b, exceptions, n, true, k + 1, best);
    assert k + 2 == 4 + 2 * (n + 1);
  }

  method BestPrecision(b: PlaneBlock, exceptions: seq<bool>, first: BlockRecord) returns (best: BlockRecord)
    requires Tried(b, exceptions, 0, first)
    ensures Tried(b, exceptions, |b.cfg.precisions|, best)
  {
    best := first;
    var n: nat := 0;
    while n < |b.cfg.precisions|
      invariant n <= |b.cfg.precisions| && Tried(b, exceptions, n, best)
    {
      best := TryOptions(b, exceptions, n, best);
      n := n + 1;
    }
  }

  lemma NoPrecisions(b: PlaneBlock, best: BlockRecord)
    requires IsPlaneBlock(b.input, b.mask) && b.cfg.fastAccuracyOnly && BestAmong(b, 4, best)
    ensures IsBestBlock(b, best)
  {
    var k: nat :| BestAt(b, 4, k, best);
    assert BestAt(b, 4 + 2 * |b.cfg.precisions|, k, best);
  }

  lemma NoneMarkedIff(b: PlaneBlock, exceptions: seq<bool>)
    requires IsPlaneBlock(b.input, b.mask) && exceptions == SpecialMask(b)
    ensures NoneSpecial(b) <==> Marked(exceptions, BLOCK) == 0
  {
    MarkedCounts(exceptions, BLOCK);
    var marked := set i: nat | i < BLOCK && exceptions[i];
    assert |marked| == 0 <==> marked == {};
    if i: nat :| i < BLOCK && Special(b, i) {
      assert i in marked;
    }
  }

  /** The smallest record; never larger than the raw block, so its size always fits the thirteen bits it has. */
  method EncodeBestBlock(b: PlaneBlock) returns (best: BlockRecord)
    requires Proper(b)
    ensures IsBestBlock(b, best)
  {
    best := BlockRecord(RAW, FloatsBytes(b.input, BLOCK));
    RawFirst(b, best);
    var constant := ConstantBlock(b);
    NextOption(b, 1, best, constant);
    best := Better(best, constant);
    var exceptions := BuildMandatoryExceptionMask(b.input, b.mask);
    SpecialIs(b);
    NoneMarkedIff(b, exceptions);
    var plain := None;
    if !b.cfg.fastAccuracyOnly || Marked(exceptions, BLOCK) == 0 {
      plain := TryAccuracy(b, exceptions, false);
    }
    NextOption(b, 2, best, plain);
    best := Better(best, plain);
    var patched := TryAccuracy(b, exceptions, true);
    NextOption(b, 3, best, patched);
    best := Better(best, patched);
    if b.cfg.fastAccuracyOnly {
      NoPrecisions(b, best);
    } else {
      best := BestPrecision(b, exceptions, best);
    }
  }

  // ----- what the choice is -----

  /** Each option gives at most one record. */
  lemma GivesOnce(b: PlaneBlock, k: nat, c: BlockRecord, d: BlockRecord)
    requires IsPlaneBlock(b.input, b.mask) && Gives(b, k, c) && Gives(b, k, d)
    ensures c == d
  {
    if k == 1 {
      ConstantsIff(b);
    } else if k == 2 || k == 3 {
      AccuracyOnce(b, k == 3, c, d);
    } else if k > 3 {
      var precision := b.cfg.precisions[k / 2 - 2];
      PassesIff(b, false, Precision(b.z.precision(precision)), precision, k % 2 == 1);
    }
  }

  lemma AccuracyOnce(b: PlaneBlock, withExceptions: bool, c: BlockRecord, d: BlockRecord)
    requires IsPlaneBlock(b.input, b.mask) && AccuracyPasses(b, withExceptions, c) && AccuracyPasses(b, withExceptions, d)
    ensures c == d
  {
    var m: real, e: int :| IsSmallest(b, m) && IsExponent(b, m, e) &&
      Passes(b, true, Accuracy(b.z.accuracy(e)), ExponentByte(e), withExceptions, c);
    var m': real, e': int :| IsSmallest(b, m') && IsExponent(b, m', e') &&
      Passes(b, true, Accuracy(b.z.accuracy(e')), ExponentByte(e'), withExceptions, d);
    assert m == m';
    ExponentIs(b, m, ToleranceExponent(b.rounding, Target(b.cfg.error, m)));
    PassesIff(b, true, Accuracy(b.z.accuracy(e)), ExponentByte(e), withExceptions);
  }

  /** So the block and the configuration determine the record chosen. */
  lemma BestBlockUnique(b: PlaneBlock, best: BlockRecord, other: BlockRecord)
    requires IsPlaneBlock(b.input, b.mask) && IsBestBlock(b, best) && IsBestBlock(b, other)
    ensures best == other
  {
    var n := 4 + 2 * |b.cfg.precisions|;
    var k: nat :| BestAt(b, n, k, best);
    var l: nat :| BestAt(b, n, l, other);
    assert |best.payload| == |other.payload|;
    GivesOnce(b, k, best, if k == l then other else best);
  }

  /** A block of zeros needs no bytes, one of a single normal number four, and no record is larger than the raw one. */
  lemma BestBlockSize(b: PlaneBlock, best: BlockRecord)
    requires IsPlaneBlock(b.input, b.mask) && IsBestBlock(b, best)
    ensures (forall i :: 0 <= i < BLOCK && b.mask[i] ==> Unsigned(b.input[i]) == 0) ==> best == BlockRecord(CONSTANT_ZERO, [])
    ensures (exists v: Float :: HoldsOnly(b, v)) ==> |best.payload| <= 4
    ensures |best.payload| <= RAW_BYTES
  {
    var n := 4 + 2 * |b.cfg.precisions|;
    var k: nat :| BestAt(b, n, k, best);
    assert Gives(b, 0, BlockRecord(RAW, FloatsBytes(b.input, BLOCK)));
    if forall i :: 0 <= i < BLOCK && b.mask[i] ==> Unsigned(b.input[i]) == 0 {
      assert Gives(b, 1, BlockRecord(CONSTANT_ZERO, []));
      assert k <= 1;
      GivesOnce(b, 1, BlockRecord(CONSTANT_ZERO, []), if k == 1 then best else BlockRecord(CONSTANT_ZERO, []));
    }
    if v: Float :| HoldsOnly(b, v) {
      assert Gives(b, 1, BlockRecord(CONSTANT_VALUE, Le(v, 4)));
    }
  }

  lemma ConstantGood(b: PlaneBlock, c: BlockRecord)
    requires Proper(b) && IsConstant(b, c)
    ensures c.codec <= PRECISION_EXCEPTIONS
    ensures AcceptsIdentity(b.cfg.error) ==> SoundBlock(b.z, b.input, b.mask, b.cfg.error, c)
  {
    ConstantsIff(b);
    if AcceptsIdentity(b.cfg.error) {
      if AllZero(b.input, b.mask) {
        ZeroBlockSound(b.z, b.input, b.mask, b.cfg.error);
      } else {
        var v: Float :| HoldsOnly(b, v) && c == BlockRecord(CONSTANT_VALUE, Le(v, 4));
        ConstantBlockSound(b.z, b.input, b.mask, b.cfg.error, v, c.payload, 4);
      }
    }
  }

  lemma AccuracyGood(b: PlaneBlock, withExceptions: bool, c: BlockRecord)
    requires Proper(b) && AccuracyPasses(b, withExceptions, c)
    ensures c.codec <= PRECISION_EXCEPTIONS
    ensures BlockExponentFits(b.rounding, b.input, b.mask, MandatoryMask(b.input, b.mask), b.cfg.error) ==>
              SoundBlock(b.z, b.input, b.mask, b.cfg.error, c)
  {
    var m: real, e: int :| IsSmallest(b, m) && IsExponent(b, m, e) &&
      Passes(b, true, Accuracy(b.z.accuracy(e)), ExponentByte(e), withExceptions, c);
    PassesSound(b, true, Accuracy(b.z.accuracy(e)), ExponentByte(e), withExceptions, c);
    SpecialIs(b);
    SmallestIs(b, m);
    ExponentIs(b, m, ToleranceExponent(b.rounding, Target(b.cfg.error, m)));
    ExponentRoundTrip(e);
    if BlockExponentFits(b.rounding, b.input, b.mask, MandatoryMask(b.input, b.mask), b.cfg.error) {
      assert TargetFits(b.rounding, Target(b.cfg.error, m));
    }
  }

  lemma SmallestIs(b: PlaneBlock, m: real)
    requires IsPlaneBlock(b.input, b.mask) && IsSmallest(b, m)
    ensures IsMinAbs(b.input, b.mask, SpecialMask(b), BLOCK, Some(m))
  {
    forall i: nat | i < BLOCK
      ensures Compressible(b.mask, SpecialMask(b), i) <==> Normal(b, i)
      ensures Abs(Value(b.input[i])) == Magnitude(b.input[i])
    {
      ValueZero(b.input[i]);
    }
    var i: nat :| i < BLOCK && Normal(b, i) && Abs(Value(b.input[i])) == m;
    assert Compressible(b.mask, SpecialMask(b), i);
  }

  /** Whatever the compressor does, the decoder gets accepted cells back, as long as the exponent survives. */
  lemma BestBlockGood(b: PlaneBlock, best: BlockRecord)
    requires Proper(b) && IsBestBlock(b, best)
    ensures GoodBlock(b.z, b.rounding, b.input, b.mask, b.cfg.error, best)
  {
    BestBlockSize(b, best);
    var k: nat :| BestAt(b, 4 + 2 * |b.cfg.precisions|, k, best);
    if k == 0 {
      if AcceptsIdentity(b.cfg.error) {
        RawBlockSound(b.z, b.input, b.mask, b.cfg.error);
      }
    } else if k == 1 {
      ConstantGood(b, best);
    } else if k <= 3 {
      AccuracyGood(b, k == 3, best);
    } else {
      var precision := b.cfg.precisions[k / 2 - 2];
      PassesSound(b, false, Precision(b.z.precision(precision)), precision, k % 2 == 1, best);
    }
  }
}
