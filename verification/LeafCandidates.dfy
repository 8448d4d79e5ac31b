/** Which records are candidates for a block, said of the compressor and the error check, not of the searches. */
module LeafCandidates {
  import opened Basics
  import opened Float32
  import opened RelativeError
  import opened Bytes
  import opened BlockCells
  import opened LeafRecords
  import opened LeafChoice
  import opened LeafSearch

  // ----- precision records -----

  /** The compressor's answer to a block with this precision decompresses to accepted cells; c is the record of it. */
  ghost predicate PrecisionMade(b: Block, precision: nat, block: seq<Float>, decoded: seq<Float>, c: Candidate)
    requires Whole(b)
  {
    var bits := b.z.precision(precision);
    var data := b.z.compress(Precision(bits), block);
    && |block| == |decoded| == CELLS
    && (forall i :: 0 <= i < CELLS ==> block[i] == if b.mask[i] then b.input[i] else ZERO)
    && data != [] && b.z.decompress(Precision(bits), data) == Some(decoded)
    && (forall i :: 0 <= i < CELLS && b.mask[i] ==> Accepts(b.input[i], decoded[i], b.cfg.error))
    && c.codec == PRECISION && |c.payload| == 1 + |data| && c.payload[0] == bits && c.payload[1..] == data
  }

  ghost predicate PrecisionPasses(b: Block, n: nat, c: Candidate)
    requires Whole(b)
  {
    n < |b.cfg.precisions| && exists block, decoded :: PrecisionMade(b, b.cfg.precisions[n], block, decoded, c)
  }

  lemma PrecisionPassesIff(b: Block, n: nat, c: Candidate)
    requires Whole(b) && Lawful(b.z) && n < |b.cfg.precisions|
    ensures PrecisionPasses(b, n, c) <==> PrecisionAttempt(b, b.cfg.precisions[n]) == Some(c)
  {
    var precision, masked := b.cfg.precisions[n], MaskedBlock(b.input, b.mask);
    if PrecisionPasses(b, n, c) {
      var block, decoded :| PrecisionMade(b, precision, block, decoded, c);
      assert block == masked;
      assert c.payload == [c.payload[0]] + c.payload[1..];
    }
    if PrecisionAttempt(b, precision) == Some(c) {
      var data := b.z.compress(Precision(b.z.precision(precision)), masked);
      var decoded := b.z.decompress(Precision(b.z.precision(precision)), data).value;
      assert c.payload[1..] == data;
      assert PrecisionMade(b, precision, masked, decoded, c);
    }
  }

  /** at gives the record of each precision that passes: one attempt a round. */
  ghost predicate ArePrecisions(b: Block, at: Attempts)
    requires Whole(b)
  {
    && (forall n: nat, f: nat :: f >= 1 ==> at(n, f) == None)
    && forall n: nat, c :: at(n, 0) == Some(c) <==> PrecisionPasses(b, n, c)
  }

  lemma PrecisionAt(b: Block, at: Attempts, n: nat)
    requires Whole(b) && Lawful(b.z) && ArePrecisions(b, at) && n < |b.cfg.precisions|
    ensures at(n, 0) == PrecisionAttempt(b, b.cfg.precisions[n])
  {
    if at(n, 0).Some? {
      PrecisionPassesIff(b, n, at(n, 0).value);
    }
    if PrecisionAttempt(b, b.cfg.precisions[n]).Some? {
      PrecisionPassesIff(b, n, PrecisionAttempt(b, b.cfg.precisions[n]).value);
    }
  }

  lemma PrecisionRound(at: Attempts, ends: nat -> bool, n: nat, s: Search, next: Search)
    requires Searched(at, ends, n, s) && (forall f: nat :: f >= 1 ==> at(n, f) == None) && ends(n) == at(n, 0).Some?
    requires next == if s.over then s
                     else match at(n, 0)
                          case None => s
                          case Some(c) => Search(s.found + [c], !LastImproves(s.found + [c]))
    ensures Searched(at, ends, n + 1, next)
  {
    if s.over {
      OverStays(at, ends, n, s);
    } else {
      var found := s.found + OptionalCandidate(at(n, 0));
      assert s.found + [] == s.found;
      ListsAttempt(at, s.found, n, 0);
      ListsRound(at, found, n, 1);
      RoundSearched(at, ends, n, s, found, n + 1);
    }
  }

  lemma {:induction false} PrecisionsSearched(b: Block, at: Attempts, ends: nat -> bool, n: nat)
    requires Whole(b) && Lawful(b.z) && ArePrecisions(b, at) && n <= |b.cfg.precisions|
    requires forall m :: ends(m) == at(m, 0).Some?
    ensures Searched(at, ends, n, SearchPrecisions(b, n))
  {
    if n == 0 {
      SearchedNothing(at, ends);
    } else {
      PrecisionsSearched(b, at, ends, n - 1);
      PrecisionAt(b, at, n - 1);
      PrecisionRound(at, ends, n - 1, SearchPrecisions(b, n - 1), SearchPrecisions(b, n));
    }
  }

  /** Some cells are marked, and all that are hold normal numbers. */
  predicate AllNormal(b: Block)
    requires Whole(b)
  {
    && (exists i :: 0 <= i < CELLS && b.mask[i])
    && forall i :: 0 <= i < CELLS && b.mask[i] ==> 0x80_0000 <= Unsigned(b.input[i]) < INFINITE
  }

  lemma MandatoryAt(b: Block, i: nat)
    requires Whole(b) && i < CELLS
    ensures Mandatory(b)[i] <==> b.mask[i] && !(0x80_0000 <= Unsigned(b.input[i]) < INFINITE)
  {
    BitClasses(b.input[i]);
  }

  lemma AllNormalIff(b: Block)
    requires Whole(b)
    ensures AllNormal(b) <==> HasCompressible(b.mask, Mandatory(b)) && Marked(Mandatory(b), CELLS) == 0
  {
    forall i: nat | i < CELLS
      ensures Mandatory(b)[i] <==> b.mask[i] && !(0x80_0000 <= Unsigned(b.input[i]) < INFINITE)
    {
      MandatoryAt(b, i);
    }
    if AllNormal(b) {
      NoMarks(Mandatory(b), CELLS);
      var i: nat :| i < CELLS && b.mask[i];
      assert Compressible(b.mask, Mandatory(b), i);
    }
    if Marked(Mandatory(b), CELLS) == 0 {
      NoneMarked(Mandatory(b), CELLS);
    }
  }

  lemma ConstantCodecs(b: Block)
    requires Whole(b)
    ensures forall c :: c in Constants(b) ==> c.codec == CONSTANT_ZERO || c.codec == CONSTANT_VALUE
  {
  }

  lemma AccuracyCodecs(b: Block)
    requires Whole(b)
    ensures forall c :: c in AccuracyRecords(b, SmallestMagnitude(b)).0 ==>
              c.codec == ACCURACY || c.codec == ACCURACY_EXCEPTIONS
  {
    var requested := RecordsAttempted(b);
    forall c | c in AccuracyRecords(b, SmallestMagnitude(b)).0
      ensures c.codec == ACCURACY || c.codec == ACCURACY_EXCEPTIONS
    {
      assert FromAttempt(b, requested, c);
      var exceptions: seq<bool>, fill: Fill :| |exceptions| == CELLS && Attempt(b, requested, exceptions, fill) == Some(c);
    }
  }

  /** Precisions are searched only in a block that is all normal. */
  lemma PrecisionsAllowed(b: Block)
    requires Whole(b) && Lawful(b.z) && HasCompressible(b.mask, Mandatory(b))
    ensures PrecisionRecords(b)
            == if b.cfg.tryPrecision && AllNormal(b) then SearchPrecisions(b, |b.cfg.precisions|).found else []
  {
    AllNormalIff(b);
  }

  /** A precision record is a candidate exactly when precisions are tried, the block is all normal and it is made. */
  lemma PrecisionCandidates(b: Block, at: Attempts, ends: nat -> bool, c: Candidate)
    requires Whole(b) && Lawful(b.z) && ArePrecisions(b, at) && (forall m :: ends(m) == at(m, 0).Some?)
    requires c.codec == PRECISION
    ensures c in AllCandidates(b).0 <==>
            && AllCandidates(b).1 == None && b.cfg.tryPrecision && AllNormal(b)
            && exists n: nat :: Reached(at, ends, n) && at(n, 0) == Some(c)
  {
    AllNormalIff(b);
    ConstantCodecs(b);
    AccuracyCodecs(b);
    if HasCompressible(b.mask, Mandatory(b)) {
      PrecisionsAllowed(b);
      CandidatesWith(b, AccuracyRecords(b, SmallestMagnitude(b)));
      PrecisionsSearched(b, at, ends, |b.cfg.precisions|);
      ListedPrecision(b, at, ends, c);
    }
  }

  lemma ListedPrecision(b: Block, at: Attempts, ends: nat -> bool, c: Candidate)
    requires Whole(b) && ArePrecisions(b, at)
    ensures Listed(at, ends, |b.cfg.precisions|, c) <==> exists n: nat :: Reached(at, ends, n) && at(n, 0) == Some(c)
  {
    if n: nat :| Reached(at, ends, n) && at(n, 0) == Some(c) {
      assert PrecisionPasses(b, n, c);
    }
    if Listed(at, ends, |b.cfg.precisions|, c) {
      var m: nat, g: nat :| m < |b.cfg.precisions| && Reached(at, ends, m) && at(m, g) == Some(c);
      assert g == 0;
    }
  }

  // ----- accuracy records -----

  /**
   * With these exceptions, compressing the block with the filling in their place and decompressing it gives accepted
   * cells; c is the record of it.
   */
  ghost predicate AccuracyMade(b: Block, requested: int, count: nat, fill: Fill, exceptions: seq<bool>,
                               block: seq<Float>, decoded: seq<Float>, c: Candidate)
    requires Whole(b)
  {
    && |exceptions| == |block| == |decoded| == CELLS
    && exceptions == ExceptionsFor(b.input, b.mask, Mandatory(b), count)
    && (if count == 0 then b.cfg.tryAccuracy else b.cfg.tryExceptions) && Marked(exceptions, CELLS) <= b.cfg.maxExceptions
    && FilledIn(b, exceptions, FillValue(b.rounding, b.input, b.mask, exceptions, fill), block)
    && var minExp := b.z.accuracy(requested); var data := b.z.compress(Accuracy(minExp), block);
    && data != [] && b.z.decompress(Accuracy(minExp), data) == Some(decoded)
    && (forall i :: 0 <= i < CELLS && b.mask[i] ==>
          Accepts(b.input[i], if exceptions[i] then b.input[i] else decoded[i], b.cfg.error))
    && c == if forall i :: 0 <= i < CELLS ==> !exceptions[i] then Candidate(ACCURACY, AccuracyRecord(minExp, data))
            else Candidate(ACCURACY_EXCEPTIONS,
                           ExceptionsRecord(minExp, exceptions, ExceptionValues(b.input, exceptions), data))
  }

  predicate FilledIn(b: Block, exceptions: seq<bool>, fillValue: Float, block: seq<Float>)
    requires Whole(b) && |exceptions| == |block| == CELLS
  {
    forall i :: 0 <= i < CELLS ==>
      block[i] == if !b.mask[i] then ZERO else if exceptions[i] then fillValue else b.input[i]
  }

  ghost predicate AccuracyPasses(b: Block, requested: int, n: nat, f: nat, c: Candidate)
    requires Whole(b)
  {
    && n < |b.cfg.optionalCounts| && f < |b.cfg.fills|
    && exists exceptions, block, decoded ::
         AccuracyMade(b, requested, b.cfg.optionalCounts[n], b.cfg.fills[f], exceptions, block, decoded, c)
  }

  /** The attempt of this round, if its number of exceptions is to be tried. */
  ghost function TriedAttempt(b: Block, requested: int, n: nat, f: nat): Option<Candidate>
    requires Whole(b) && n < |b.cfg.optionalCounts| && f < |b.cfg.fills|
  {
    var count := b.cfg.optionalCounts[n];
    if Tried(b, count) then Attempt(b, requested, ExceptionsFor(b.input, b.mask, Mandatory(b), count), b.cfg.fills[f])
    else None
  }

  lemma NoValues(b: Block, exceptions: seq<bool>)
    requires Whole(b) && |exceptions| == CELLS
    ensures ExceptionValues(b.input, exceptions) == [] <==> forall i :: 0 <= i < CELLS ==> !exceptions[i]
  {
    if Marked(exceptions, CELLS) == 0 {
      NoneMarked(exceptions, CELLS);
    }
    if forall i :: 0 <= i < CELLS ==> !exceptions[i] {
      NoMarks(exceptions, CELLS);
    }
  }

  lemma MadeIsAttempt(b: Block, requested: int, n: nat, f: nat, exceptions: seq<bool>, block: seq<Float>,
                      decoded: seq<Float>, c: Candidate)
    requires Whole(b) && n < |b.cfg.optionalCounts| && f < |b.cfg.fills|
    requires AccuracyMade(b, requested, b.cfg.optionalCounts[n], b.cfg.fills[f], exceptions, block, decoded, c)
    ensures TriedAttempt(b, requested, n, f) == Some(c)
  {
    NoValues(b, exceptions);
    assert block == WorkBlock(b.input, b.mask, exceptions,
                              FillValue(b.rounding, b.input, b.mask, exceptions, b.cfg.fills[f]));
  }

  lemma AttemptIsMade(b: Block, requested: int, n: nat, f: nat, c: Candidate)
    requires Whole(b) && Lawful(b.z) && n < |b.cfg.optionalCounts| && f < |b.cfg.fills|
    requires TriedAttempt(b, requested, n, f) == Some(c)
    ensures AccuracyPasses(b, requested, n, f, c)
  {
    var count, fill := b.cfg.optionalCounts[n], b.cfg.fills[f];
    var exceptions := ExceptionsFor(b.input, b.mask, Mandatory(b), count);
    var work := WorkBlock(b.input, b.mask, exceptions, FillValue(b.rounding, b.input, b.mask, exceptions, fill));
    var data := b.z.compress(Accuracy(b.z.accuracy(requested)), work);
    var decoded := b.z.decompress(Accuracy(b.z.accuracy(requested)), data).value;
    NoValues(b, exceptions);
    assert AccuracyMade(b, requested, count, fill, exceptions, work, decoded, c);
  }

  lemma AccuracyPassesIff(b: Block, requested: int, n: nat, f: nat, c: Candidate)
    requires Whole(b) && Lawful(b.z) && n < |b.cfg.optionalCounts| && f < |b.cfg.fills|
    ensures AccuracyPasses(b, requested, n, f, c) <==> TriedAttempt(b, requested, n, f) == Some(c)
  {
    if AccuracyPasses(b, requested, n, f, c) {
      var exceptions, block, decoded :|
        AccuracyMade(b, requested, b.cfg.optionalCounts[n], b.cfg.fills[f], exceptions, block, decoded, c);
      MadeIsAttempt(b, requested, n, f, exceptions, block, decoded, c);
    }
    if TriedAttempt(b, requested, n, f) == Some(c) {
      AttemptIsMade(b, requested, n, f, c);
    }
  }

  /** at gives the record of each accuracy attempt that passes. */
  ghost predicate AreAccuracies(b: Block, requested: int, at: Attempts)
    requires Whole(b)
  {
    forall n: nat, f: nat, c :: at(n, f) == Some(c) <==> AccuracyPasses(b, requested, n, f, c)
  }

  /** From four exceptions on, a number that is tried may end the search. */
  ghost predicate MayEnd(b: Block, ends: nat -> bool)
    requires Whole(b)
  {
    forall m: nat :: m < |b.cfg.optionalCounts| ==>
      ends(m) == (b.cfg.optionalCounts[m] >= 4 && Tried(b, b.cfg.optionalCounts[m]))
  }

  lemma AccuracyAt(b: Block, requested: int, at: Attempts, n: nat, f: nat)
    requires Whole(b) && Lawful(b.z) && AreAccuracies(b, requested, at)
    requires n < |b.cfg.optionalCounts| && f < |b.cfg.fills|
    ensures at(n, f) == TriedAttempt(b, requested, n, f)
  {
    if at(n, f).Some? {
      AccuracyPassesIff(b, requested, n, f, at(n, f).value);
    }
    if TriedAttempt(b, requested, n, f).Some? {
      AccuracyPassesIff(b, requested, n, f, TriedAttempt(b, requested, n, f).value);
    }
  }

  lemma NoneBeyond(b: Block, requested: int, at: Attempts, n: nat, f: nat)
    requires Whole(b) && AreAccuracies(b, requested, at)
    ensures n >= |b.cfg.optionalCounts| || f >= |b.cfg.fills| ==> at(n, f) == None
  {
    if at(n, f).Some? {
      assert AccuracyPasses(b, requested, n, f, at(n, f).value);
    }
  }

  lemma {:induction false} FillsAre(b: Block, requested: int, at: Attempts, n: nat, f: nat)
    requires Whole(b) && Lawful(b.z) && AreAccuracies(b, requested, at)
    requires n < |b.cfg.optionalCounts| && f <= |b.cfg.fills| && Tried(b, b.cfg.optionalCounts[n])
    ensures WithFills(b, requested, ExceptionsFor(b.input, b.mask, Mandatory(b), b.cfg.optionalCounts[n]), f)
            == RoundRecords(at, n, f)
  {
    if f > 0 {
      FillsAre(b, requested, at, n, f - 1);
      AccuracyAt(b, requested, at, n, f - 1);
    }
  }

  /** A round whose number is tried. */
  lemma TriedRound(b: Block, requested: int, at: Attempts, n: nat, found: seq<Candidate>)
    requires Whole(b) && Lawful(b.z) && AreAccuracies(b, requested, at)
    requires n < |b.cfg.optionalCounts| && Tried(b, b.cfg.optionalCounts[n]) && Lists(at, found, n, 0)
    ensures var exceptions := ExceptionsFor(b.input, b.mask, Mandatory(b), b.cfg.optionalCounts[n]);
            Lists(at, found + WithFills(b, requested, exceptions, |b.cfg.fills|), n + 1, 0)
  {
    var exceptions := ExceptionsFor(b.input, b.mask, Mandatory(b), b.cfg.optionalCounts[n]);
    FillsAre(b, requested, at, n, |b.cfg.fills|);
    ListsRecords(at, found, n, |b.cfg.fills|);
    forall g: nat | g >= |b.cfg.fills|
      ensures at(n, g) == None
    {
      NoneBeyond(b, requested, at, n, g);
    }
    ListsRound(at, found + WithFills(b, requested, exceptions, |b.cfg.fills|), n, |b.cfg.fills|);
  }

  /** A round whose number is not tried. */
  lemma SkippedRound(b: Block, requested: int, at: Attempts, n: nat, found: seq<Candidate>)
    requires Whole(b) && Lawful(b.z) && AreAccuracies(b, requested, at)
    requires n < |b.cfg.optionalCounts| && !Tried(b, b.cfg.optionalCounts[n]) && Lists(at, found, n, 0)
    ensures Lists(at, found, n + 1, 0)
  {
    forall g: nat
      ensures at(n, g) == None
    {
      NoneBeyond(b, requested, at, n, g);
      if g < |b.cfg.fills| {
        AccuracyAt(b, requested, at, n, g);
      }
    }
    ListsRound(at, found, n, 0);
  }

  lemma CountRound(b: Block, requested: int, at: Attempts, ends: nat -> bool, n: nat, s: Search, next: Search)
    requires Whole(b) && Lawful(b.z) && AreAccuracies(b, requested, at) && MayEnd(b, ends) && n < |b.cfg.optionalCounts|
    requires Searched(at, ends, n, s) && s == SearchCounts(b, requested, n) && next == SearchCounts(b, requested, n + 1)
    ensures Searched(at, ends, n + 1, next)
  {
    if s.over {
      OverStays(at, ends, n, s);
    } else if Tried(b, b.cfg.optionalCounts[n]) {
      TriedRound(b, requested, at, n, s.found);
      RoundSearched(at, ends, n, s, next.found, n + 1);
    } else {
      SkippedRound(b, requested, at, n, s.found);
      RoundSearched(at, ends, n, s, s.found, n + 1);
    }
  }

  lemma {:induction false} CountsSearched(b: Block, requested: int, at: Attempts, ends: nat -> bool, n: nat)
    requires Whole(b) && Lawful(b.z) && AreAccuracies(b, requested, at) && MayEnd(b, ends) && n <= |b.cfg.optionalCounts|
    ensures Searched(at, ends, n, SearchCounts(b, requested, n))
  {
    if n == 0 {
      SearchedNothing(at, ends);
    } else {
      CountsSearched(b, requested, at, ends, n - 1);
      CountRound(b, requested, at, ends, n - 1, SearchCounts(b, requested, n - 1), SearchCounts(b, requested, n));
    }
  }

  lemma ListedAccuracy(b: Block, requested: int, at: Attempts, ends: nat -> bool, c: Candidate)
    requires Whole(b) && AreAccuracies(b, requested, at)
    ensures Listed(at, ends, |b.cfg.optionalCounts|, c) <==>
            exists n: nat, f: nat :: Reached(at, ends, n) && at(n, f) == Some(c)
  {
    if n: nat, f: nat :| Reached(at, ends, n) && at(n, f) == Some(c) {
      assert AccuracyPasses(b, requested, n, f, c);
    }
  }

  /** The smallest magnitude of a normal number is positive. */
  lemma SmallestPositive(b: Block, m: real)
    requires Whole(b) && IsMinAbs(b.input, b.mask, Mandatory(b), CELLS, Some(m))
    ensures SmallestMagnitude(b) == Some(m) && m > 0.0 && HasCompressible(b.mask, Mandatory(b))
  {
    MagnitudeIs(b, Some(m));
    var i: nat :| i < CELLS && Compressible(b.mask, Mandatory(b), i) && Magnitude(b.input[i]) == m;
    MandatoryAt(b, i);
    BitClasses(b.input[i]);
  }

  /** The records of the accuracy search and the error, for a target tolerance. */
  lemma RecordsFor(b: Block, m: real, target: real, e: int)
    requires Whole(b) && m > 0.0 && target == Tolerance(b.cfg, m) && e == b.rounding.floorLog2(target)
    ensures AccuracyRecords(b, Some(m)).1 == TargetError(b.cfg, target, e)
    ensures TargetError(b.cfg, target, e) == None ==>
              AccuracyRecords(b, Some(m)).0 == if b.cfg.tryAccuracy || b.cfg.tryExceptions then
                                                 SearchCounts(b, e, |b.cfg.optionalCounts|).found
                                               else []
  {
  }

  function TargetError(cfg: CodecConfig, target: real, e: int): Option<Error>
  {
    if !cfg.tryAccuracy && !cfg.tryExceptions then None
    else if target <= 0.0 then Some(TargetNotPositive)
    else if e < -32768 || e > 32767 then Some(ExponentOutOfRange)
    else None
  }

  lemma CandidatesWith(b: Block, records: (seq<Candidate>, Option<Error>))
    requires Whole(b) && Lawful(b.z) && HasCompressible(b.mask, Mandatory(b))
    requires records == AccuracyRecords(b, SmallestMagnitude(b))
    ensures AllCandidates(b).1 == records.1
    ensures records.1 == None ==> AllCandidates(b).0 == Constants(b) + records.0 + PrecisionRecords(b)
    ensures records.1.Some? ==> AllCandidates(b).0 == Constants(b) && BestOf(b) == Err(records.1.value)
  {
  }

  /** The target tolerance: the internal bound at this magnitude. */
  predicate IsTarget(b: Block, m: real, target: real)
  {
    target == b.cfg.error.internalBound * m
  }

  lemma ToleranceIs(b: Block, m: real, target: real)
    ensures IsTarget(b, m, target) <==> Tolerance(b.cfg, m) == target
  {
  }

  /** The exponent asked for is that of the internal bound times the smallest magnitude; it is refused out of range. */
  lemma TargetErrors(b: Block, m: real, target: real, e: int)
    requires Whole(b) && Lawful(b.z) && IsMinAbs(b.input, b.mask, Mandatory(b), CELLS, Some(m))
    requires IsTarget(b, m, target) && e == b.rounding.floorLog2(target)
    ensures AllCandidates(b).1 == TargetError(b.cfg, target, e)
    ensures AllCandidates(b).1.Some? ==> BestOf(b) == Err(AllCandidates(b).1.value)
  {
    SmallestPositive(b, m);
    ToleranceIs(b, m, target);
    RecordsFor(b, m, target, e);
    CandidatesWith(b, AccuracyRecords(b, Some(m)));
  }

  lemma NothingTried(b: Block, requested: int, at: Attempts, n: nat, f: nat)
    requires Whole(b) && Lawful(b.z) && AreAccuracies(b, requested, at) && !b.cfg.tryAccuracy && !b.cfg.tryExceptions
    ensures at(n, f) == None
  {
    NoneBeyond(b, requested, at, n, f);
    if n < |b.cfg.optionalCounts| && f < |b.cfg.fills| {
      AccuracyAt(b, requested, at, n, f);
    }
  }

  lemma RecordsListed(b: Block, m: real, target: real, requested: int, at: Attempts, ends: nat -> bool, c: Candidate)
    requires Whole(b) && Lawful(b.z) && AreAccuracies(b, requested, at) && MayEnd(b, ends) && m > 0.0
    requires target == Tolerance(b.cfg, m) && requested == b.rounding.floorLog2(target)
    requires AccuracyRecords(b, Some(m)).1 == None
    ensures c in AccuracyRecords(b, Some(m)).0 <==> exists n: nat, f: nat :: Reached(at, ends, n) && at(n, f) == Some(c)
  {
    RecordsFor(b, m, target, requested);
    CountsSearched(b, requested, at, ends, |b.cfg.optionalCounts|);
    ListedAccuracy(b, requested, at, ends, c);
    if !b.cfg.tryAccuracy && !b.cfg.tryExceptions {
      forall n: nat, f: nat
        ensures at(n, f) == None
      {
        NothingTried(b, requested, at, n, f);
      }
    }
  }

  /** An accuracy record is a candidate exactly when an attempt makes it in a round that the search comes to. */
  lemma AccuracyCandidates(b: Block, m: real, target: real, requested: int, at: Attempts, ends: nat -> bool, c: Candidate)
    requires Whole(b) && Lawful(b.z) && AreAccuracies(b, requested, at) && MayEnd(b, ends)
    requires IsMinAbs(b.input, b.mask, Mandatory(b), CELLS, Some(m))
    requires IsTarget(b, m, target) && requested == b.rounding.floorLog2(target)
    requires c.codec == ACCURACY || c.codec == ACCURACY_EXCEPTIONS
    ensures c in AllCandidates(b).0 <==>
            AllCandidates(b).1 == None && exists n: nat, f: nat :: Reached(at, ends, n) && at(n, f) == Some(c)
  {
    ConstantCodecs(b);
    PrecisionsSound(b);
    SmallestPositive(b, m);
    ToleranceIs(b, m, target);
    CandidatesWith(b, AccuracyRecords(b, Some(m)));
    if AccuracyRecords(b, Some(m)).1 == None {
      RecordsListed(b, m, target, requested, at, ends, c);
    }
  }

  // ----- constant records -----

  predicate IsBytesOf(bytes: seq<Byte>, v: Float)
  {
    bytes == [v % 0x100, v / 0x100 % 0x100, v / 0x1_0000 % 0x100, v / 0x100_0000]
  }

  /** Every marked cell, and there is one, holds this normal number. */
  predicate AllEqual(b: Block, v: Float)
    requires Whole(b)
  {
    && 0x80_0000 <= Unsigned(v) < INFINITE && (exists i :: 0 <= i < CELLS && b.mask[i])
    && forall i :: 0 <= i < CELLS && b.mask[i] ==> b.input[i] == v
  }

  /** Every marked cell is zero. */
  predicate AllZeros(b: Block)
    requires Whole(b)
  {
    forall i :: 0 <= i < CELLS && b.mask[i] ==> Unsigned(b.input[i]) == 0
  }

  lemma OnlyConstants(b: Block, c: Candidate)
    requires Whole(b) && Lawful(b.z) && (c.codec == CONSTANT_ZERO || c.codec == CONSTANT_VALUE)
    ensures c in AllCandidates(b).0 <==> c in Constants(b)
  {
    AccuracyCodecs(b);
    PrecisionsSound(b);
  }

  lemma ZerosIff(b: Block)
    requires Whole(b)
    ensures AllZeros(b) <==> AllZero(b.input, b.mask)
  {
    forall i: nat | i < CELLS
      ensures IsZero(b.input[i]) <==> Unsigned(b.input[i]) == 0
    {
      BitClasses(b.input[i]);
    }
  }

  lemma EqualIff(b: Block, v: Float)
    requires Whole(b)
    ensures AllEqual(b, v) <==> Uniform(b.input, b.mask, |b.input|, v)
  {
    BitClasses(v);
  }

  /** A block of zeros has the empty record and a block of one normal number that number, and no other block has one. */
  lemma ConstantCandidates(b: Block, c: Candidate)
    requires Whole(b) && Lawful(b.z)
    ensures c.codec == CONSTANT_ZERO ==>
              (c in AllCandidates(b).0 <==> b.cfg.tryConstant && AllZeros(b) && c.payload == [])
    ensures c.codec == CONSTANT_VALUE ==>
              (c in AllCandidates(b).0 <==>
               b.cfg.tryConstant && exists v: Float :: AllEqual(b, v) && IsBytesOf(c.payload, v))
  {
    if c.codec == CONSTANT_ZERO || c.codec == CONSTANT_VALUE {
      OnlyConstants(b, c);
    }
    ZerosIff(b);
    forall v: Float
      ensures AllEqual(b, v) <==> Uniform(b.input, b.mask, |b.input|, v)
      ensures IsBytesOf(c.payload, v) <==> c.payload == Le(v, 4)
    {
      EqualIff(b, v);
      FourDigits(v, 4);
    }
    if v: Float :| AllEqual(b, v) {
      UniformOnly(b, v);
    }
  }

  lemma UniformOnly(b: Block, v: Float)
    requires Whole(b) && Uniform(b.input, b.mask, |b.input|, v)
    ensures !AllZero(b.input, b.mask)
    ensures b.cfg.tryConstant ==> Constants(b) == [ConstantCandidate(v)]
  {
    if b.cfg.tryConstant {
      ConstantsAre(b, v);
    }
  }

  /** A block without a marked normal number has no other records, and no error. */
  lemma NothingCompressible(b: Block)
    requires Whole(b) && Lawful(b.z)
    requires forall i :: 0 <= i < CELLS && b.mask[i] ==> !(0x80_0000 <= Unsigned(b.input[i]) < INFINITE)
    ensures AllCandidates(b) == (Constants(b), None)
  {
    forall i: nat | i < CELLS
      ensures !Compressible(b.mask, Mandatory(b), i)
    {
      MandatoryAt(b, i);
    }
  }

  /** Besides these kinds of records there are none. */
  lemma CandidateKinds(b: Block, c: Candidate)
    requires Whole(b) && Lawful(b.z) && c in AllCandidates(b).0
    ensures c.codec in {CONSTANT_ZERO, CONSTANT_VALUE, ACCURACY, ACCURACY_EXCEPTIONS, PRECISION}
  {
    ConstantCodecs(b);
    AccuracyCodecs(b);
    PrecisionsSound(b);
  }

  // ----- the result -----

  /** A record gains enough when the bytes saved are that share of the 256 of a raw leaf. */
  lemma GainEnough(c: Candidate, least: real)
    ensures Gain(c) >= least <==> (254 - |c.payload|) as real >= 256.0 * least
  {
  }

  /** The result is no larger than the record of a precision that passes, is reached and gains enough. */
  lemma NoLargerThanPrecision(b: Block, at: Attempts, ends: nat -> bool, n: nat, c: Candidate, best: Candidate)
    requires Whole(b) && Lawful(b.z) && ArePrecisions(b, at) && (forall m :: ends(m) == at(m, 0).Some?)
    requires b.cfg.tryPrecision && AllNormal(b) && Reached(at, ends, n) && at(n, 0) == Some(c)
    requires BestOf(b) == Ok(best) && Gain(c) >= b.cfg.minimumGain
    ensures |best.payload| <= |c.payload|
  {
    assert PrecisionPasses(b, n, c);
    PrecisionCandidates(b, at, ends, c);
    SmallestChosen(b, best);
  }

  /** And no larger than the record of an accuracy attempt that passes, is reached and gains enough. */
  lemma NoLargerThanAccuracy(b: Block, m: real, target: real, requested: int, at: Attempts, ends: nat -> bool,
                             n: nat, f: nat, c: Candidate, best: Candidate)
    requires Whole(b) && Lawful(b.z) && AreAccuracies(b, requested, at) && MayEnd(b, ends)
    requires IsMinAbs(b.input, b.mask, Mandatory(b), CELLS, Some(m))
    requires IsTarget(b, m, target) && requested == b.rounding.floorLog2(target)
    requires Reached(at, ends, n) && at(n, f) == Some(c)
    requires BestOf(b) == Ok(best) && Gain(c) >= b.cfg.minimumGain
    ensures |best.payload| <= |c.payload|
  {
    assert AccuracyPasses(b, requested, n, f, c);
    AccuracyCandidates(b, m, target, requested, at, ends, c);
    SmallestChosen(b, best);
  }
}
