/** The leaf encoder: candidates are decoded and checked, and the smallest that pays off is taken. */
module LeafCodec {
  import opened Basics
  import opened Float32
  import opened Sorting
  import opened RelativeError
  import opened BlockCells
  import opened LeafRecords
  import opened LeafChoice

  // ----- constant candidates -----

  method TryConstant(b: Block) returns (found: seq<Candidate>)
    requires Whole(b)
    ensures found == Constants(b)
  {
    if !b.cfg.tryConstant {
      return [];
    }
    if AllZero(b.input, b.mask) {
      return [Candidate(CONSTANT_ZERO, [])];
    }
    var value := CommonValue(b.input, b.mask);
    if value == None {
      return [];
    }
    ConstantsAre(b, value.value);
    found := [ConstantCandidate(value.value)];
  }

  // ----- optional exceptions -----

  predicate AscendingPairs(a: (real, nat), b: (real, nat))
  {
    a.0 < b.0 || (a.0 == b.0 && a.1 <= b.1)
  }

  /** The pairs are the compressible cells among the first n, with their magnitudes, each once. */
  ghost predicate Pairs(pairs: seq<(real, nat)>, input: seq<Float>, mask: seq<bool>, mandatory: seq<bool>, n: nat)
    requires n <= |input| == |mask| == |mandatory|
  {
    && Distinct(pairs)
    && forall p: (real, nat) :: p in pairs <==> p.1 < n && Compressible(mask, mandatory, p.1) && p.0 == Magnitude(input[p.1])
  }

  /** The compressible cells, from the smallest to the largest. */
  ghost predicate Ranked(sorted: seq<(real, nat)>, input: seq<Float>, mask: seq<bool>, mandatory: seq<bool>)
    requires IsBlock(input, mask) && |mandatory| == CELLS
  {
    && (forall k :: 0 <= k < |sorted| ==> sorted[k].1 < CELLS && Compressible(mask, mandatory, sorted[k].1))
    && (forall u, v :: 0 <= u < v < |sorted| ==> Precedes(input, sorted[u].1, sorted[v].1))
    && (forall j: nat :: j < CELLS && Compressible(mask, mandatory, j) ==> exists k :: 0 <= k < |sorted| && sorted[k].1 == j)
  }

  lemma PairsRanked(sorted: seq<(real, nat)>, input: seq<Float>, mask: seq<bool>, mandatory: seq<bool>)
    requires IsBlock(input, mask) && |mandatory| == CELLS && Pairs(sorted, input, mask, mandatory, CELLS)
    requires SortedBy(sorted, (a, b) => AscendingPairs(a, b))
    ensures Ranked(sorted, input, mask, mandatory)
  {
    forall k | 0 <= k < |sorted|
      ensures sorted[k].1 < CELLS && Compressible(mask, mandatory, sorted[k].1)
      ensures sorted[k].0 == Magnitude(input[sorted[k].1])
    {
      assert sorted[k] in sorted;
    }
    forall u, v | 0 <= u < v < |sorted|
      ensures Precedes(input, sorted[u].1, sorted[v].1)
    {
      assert AscendingPairs(sorted[u], sorted[v]) && sorted[u] != sorted[v];
    }
    forall j: nat | j < CELLS && Compressible(mask, mandatory, j)
      ensures exists k :: 0 <= k < |sorted| && sorted[k].1 == j
    {
      assert (Magnitude(input[j]), j) in sorted;
    }
  }

  lemma AppendPair(pairs: seq<(real, nat)>, input: seq<Float>, mask: seq<bool>, mandatory: seq<bool>, i: nat)
    requires i < |input| == |mask| == |mandatory| && Pairs(pairs, input, mask, mandatory, i)
    ensures Pairs(if Compressible(mask, mandatory, i) then pairs + [(Magnitude(input[i]), i)] else pairs,
                  input, mask, mandatory, i + 1)
  {
    assert forall k :: 0 <= k < |pairs| ==> pairs[k] in pairs && pairs[k].1 < i;
  }

  /** The compressible cells by magnitude, smallest first. */
  method SortedValues(input: seq<Float>, mask: seq<bool>, mandatory: seq<bool>) returns (sorted: seq<(real, nat)>)
    requires IsBlock(input, mask) && |mandatory| == CELLS
    ensures Ranked(sorted, input, mask, mandatory)
  {
    var pairs: seq<(real, nat)> := [];
    for i := 0 to CELLS
      invariant Pairs(pairs, input, mask, mandatory, i)
    {
      AppendPair(pairs, input, mask, mandatory, i);
      if Compressible(mask, mandatory, i) {
        pairs := pairs + [(Magnitude(input[i]), i)];
      }
    }
    sorted := Sort(pairs, (a, b) => AscendingPairs(a, b));
    SameElements(sorted, pairs);
    DistinctPermuted(pairs, sorted);
    PairsRanked(sorted, input, mask, mandatory);
  }

  function Firsts(sorted: seq<(real, nat)>, k: nat): set<nat>
    requires k <= |sorted|
  {
    set u | 0 <= u < k :: sorted[u].1
  }

  lemma {:induction false} FirstsCount(sorted: seq<(real, nat)>, k: nat)
    requires k <= |sorted| && forall u, v :: 0 <= u < v < |sorted| ==> sorted[u].1 != sorted[v].1
    ensures |Firsts(sorted, k)| == k
  {
    if k > 0 {
      FirstsCount(sorted, k - 1);
      assert Firsts(sorted, k) == Firsts(sorted, k - 1) + {sorted[k - 1].1};
      assert sorted[k - 1].1 !in Firsts(sorted, k - 1);
    }
  }

  lemma InOrder(sorted: seq<(real, nat)>, input: seq<Float>, mask: seq<bool>, mandatory: seq<bool>, u: nat, v: nat)
    requires IsBlock(input, mask) && |mandatory| == CELLS && Ranked(sorted, input, mask, mandatory)
    requires u < |sorted| && v < |sorted|
    ensures u < v ==> Precedes(input, sorted[u].1, sorted[v].1)
  {
  }

  /** A cell's place in the list is the number of smaller ones. */
  lemma PlaceIsRank(sorted: seq<(real, nat)>, input: seq<Float>, mask: seq<bool>, mandatory: seq<bool>, k: nat)
    requires IsBlock(input, mask) && |mandatory| == CELLS && Ranked(sorted, input, mask, mandatory) && k < |sorted|
    ensures |Smaller(input, mask, mandatory, sorted[k].1)| == k
  {
    FirstsCount(sorted, k);
    var smaller := Smaller(input, mask, mandatory, sorted[k].1);
    forall j | j in smaller
      ensures j in Firsts(sorted, k)
    {
      var u :| 0 <= u < |sorted| && sorted[u].1 == j;
      InOrder(sorted, input, mask, mandatory, k, u);
    }
    assert smaller == Firsts(sorted, k);
  }

  /** Among the first of the list are the cells with few smaller ones. */
  lemma AmongFirst(sorted: seq<(real, nat)>, input: seq<Float>, mask: seq<bool>, mandatory: seq<bool>, count: nat, i: nat)
    requires IsBlock(input, mask) && |mandatory| == CELLS && Ranked(sorted, input, mask, mandatory) && i < CELLS
    ensures (exists k :: 0 <= k < Min(count, |sorted|) && sorted[k].1 == i) <==>
            Compressible(mask, mandatory, i) && |Smaller(input, mask, mandatory, i)| < count
  {
    if Compressible(mask, mandatory, i) {
      var k: nat :| k < |sorted| && sorted[k].1 == i;
      PlaceIsRank(sorted, input, mask, mandatory, k);
      forall u | 0 <= u < |sorted| && sorted[u].1 == i
        ensures u == k
      {
        InOrder(sorted, input, mask, mandatory, u, k);
        InOrder(sorted, input, mask, mandatory, k, u);
      }
    }
  }

  /** The mandatory exceptions and the count smallest of the other cells. */
  method ExceptionMask(input: seq<Float>, mask: seq<bool>, mandatory: seq<bool>, sorted: seq<(real, nat)>, count: nat)
    returns (exceptions: seq<bool>)
    requires IsBlock(input, mask) && |mandatory| == CELLS
    requires count > 0 ==> Ranked(sorted, input, mask, mandatory)
    ensures exceptions == ExceptionsFor(input, mask, mandatory, count)
  {
    var bits := new bool[CELLS](i requires 0 <= i < CELLS => mandatory[i]);
    var take := Min(count, |sorted|);
    for k := 0 to take
      invariant forall i :: 0 <= i < CELLS ==> (bits[i] <==> mandatory[i] || exists j :: 0 <= j < k && sorted[j].1 == i)
    {
      bits[sorted[k].1] := true;
    }
    exceptions := bits[..];
    forall i | 0 <= i < CELLS
      ensures exceptions[i] == ExceptionsFor(input, mask, mandatory, count)[i]
    {
      if count > 0 {
        AmongFirst(sorted, input, mask, mandatory, count, i);
      }
    }
  }

  // ----- accuracy candidates -----

  /** One try: these exceptions, this filling. Kept only if what it decodes to passes the check. */
  method TryAccuracy(b: Block, requested: int, exceptions: seq<bool>, fill: Fill) returns (c: Option<Candidate>)
    requires Whole(b) && Lawful(b.z) && |exceptions| == CELLS
    ensures c == Attempt(b, requested, exceptions, fill)
  {
    var fillValue := ComputeFillValue(b.rounding, b.input, b.mask, exceptions, fill);
    var minExp := b.z.accuracy(requested);
    var compressed := b.z.compress(Accuracy(minExp), WorkBlock(b.input, b.mask, exceptions, fillValue));
    if compressed == [] {
      return None;
    }
    var values := ExceptionValues(b.input, exceptions);
    var decompressed := b.z.decompress(Accuracy(minExp), compressed);
    if decompressed == None {
      return None;
    }
    var patched := Patched(decompressed.value, exceptions, values);
    PatchRestores(b.input, decompressed.value, exceptions);
    var stats := CheckBlockError(b.input, patched.value, b.mask, b.cfg.error);
    c := if stats.passed then Some(AccuracyPayload(minExp, exceptions, values, compressed)) else None;
  }

  /** The size that the next record has to beat: the smallest so far. */
  ghost predicate IsSmallestSize(found: seq<Candidate>, best: Option<nat>)
  {
    match best
    case None => found == []
    case Some(size) =>
      && (forall k :: 0 <= k < |found| ==> size <= SerializedSize(found[k]))
      && exists k :: 0 <= k < |found| && SerializedSize(found[k]) == size
  }

  /** What the loop over exception counts carries: the smallest size so far, and whether the last record beat it. */
  datatype Progress = Progress(found: seq<Candidate>, best: Option<nat>, improved: bool)

  ghost predicate ProgressOk(s: Progress)
  {
    IsSmallestSize(s.found, s.best) && s.improved == LastImproves(s.found)
  }

  function Add(s: Progress, c: Candidate): Progress
  {
    var size := SerializedSize(c);
    var better := s.best == None || size < s.best.value;
    Progress(s.found + [c], if better then Some(size) else s.best, better)
  }

  lemma AddOk(s: Progress, c: Candidate)
    requires ProgressOk(s)
    ensures ProgressOk(Add(s, c))
  {
    var found := s.found + [c];
    assert found[|found| - 1] == c;
    if s.best.Some? {
      var k :| 0 <= k < |s.found| && SerializedSize(s.found[k]) == s.best.value;
      assert found[k] == s.found[k];
    }
  }

  lemma MoreFills(b: Block, requested: int, exceptions: seq<bool>, found: seq<Candidate>, f: nat)
    requires Whole(b) && |exceptions| == CELLS && f < |b.cfg.fills|
    ensures var c := Attempt(b, requested, exceptions, b.cfg.fills[f]);
            found + WithFills(b, requested, exceptions, f + 1)
            == if c.Some? then found + WithFills(b, requested, exceptions, f) + [c.value]
               else found + WithFills(b, requested, exceptions, f)
  {
  }

  method TryFills(b: Block, requested: int, exceptions: seq<bool>, s: Progress) returns (s': Progress)
    requires Whole(b) && Lawful(b.z) && |exceptions| == CELLS && ProgressOk(s)
    ensures ProgressOk(s') && s'.found == s.found + WithFills(b, requested, exceptions, |b.cfg.fills|)
  {
    s' := s;
    for f := 0 to |b.cfg.fills|
      invariant ProgressOk(s') && s'.found == s.found + WithFills(b, requested, exceptions, f)
    {
      var c := TryAccuracy(b, requested, exceptions, b.cfg.fills[f]);
      MoreFills(b, requested, exceptions, s.found, f);
      if c.Some? {
        AddOk(s', c.value);
        s' := Add(s', c.value);
      }
    }
  }

  /** One number of optional exceptions: passed over if not to be tried. */
  method TryCount(b: Block, requested: int, sorted: seq<(real, nat)>, n: nat, s: Progress) returns (s': Progress, over: bool)
    requires Whole(b) && Lawful(b.z) && ProgressOk(s) && n < |b.cfg.optionalCounts|
    requires b.cfg.tryExceptions ==> Ranked(sorted, b.input, b.mask, Mandatory(b))
    requires SearchCounts(b, requested, n) == Search(s.found, false)
    ensures ProgressOk(s') && SearchCounts(b, requested, n + 1) == Search(s'.found, over)
  {
    s', over := s, false;
    var count := b.cfg.optionalCounts[n];
    if (count == 0 && !b.cfg.tryAccuracy) || (count > 0 && !b.cfg.tryExceptions) {
      return;
    }
    var exceptions := ExceptionMask(b.input, b.mask, Mandatory(b), sorted, count);
    if Marked(exceptions, CELLS) > b.cfg.maxExceptions {
      return;
    }
    s' := TryFills(b, requested, exceptions, s);
    over := count >= 4 && !s'.improved;
  }

  method TryAccuracies(b: Block, requested: int) returns (found: seq<Candidate>)
    requires Whole(b) && Lawful(b.z)
    ensures found == SearchCounts(b, requested, |b.cfg.optionalCounts|).found
  {
    var sorted := [];
    if b.cfg.tryExceptions {
      sorted := SortedValues(b.input, b.mask, Mandatory(b));
    }
    var s := Progress([], None, true);
    var n: nat, over := 0, false;
    while n < |b.cfg.optionalCounts| && !over
      invariant n <= |b.cfg.optionalCounts| && ProgressOk(s) && SearchCounts(b, requested, n) == Search(s.found, over)
      invariant b.cfg.tryExceptions ==> Ranked(sorted, b.input, b.mask, Mandatory(b))
    {
      s, over := TryCount(b, requested, sorted, n, s);
      n := n + 1;
    }
    CountsGrow(b, requested, n, |b.cfg.optionalCounts|);
    found := s.found;
  }

  method AccuracyCandidates(b: Block) returns (found: seq<Candidate>, error: Option<Error>)
    requires Whole(b) && Lawful(b.z)
    ensures (found, error) == AccuracyRecords(b, SmallestMagnitude(b))
  {
    found, error := [], None;
    if !b.cfg.tryAccuracy && !b.cfg.tryExceptions {
      return;
    }
    var minAbs := MinAbsNonException(b.input, b.mask, Mandatory(b));
    MagnitudeIs(b, minAbs);
    if minAbs == None || minAbs.value <= 0.0 {
      return;
    }
    var exponent := SafeToleranceExponent(b.rounding, Tolerance(b.cfg, minAbs.value));
    if exponent.1.Some? {
      return [], exponent.1;
    }
    found := TryAccuracies(b, exponent.0);
  }

  // ----- precision candidates -----

  method TryPrecision(b: Block, precision: nat) returns (c: Option<Candidate>)
    requires Whole(b) && Lawful(b.z)
    ensures c == PrecisionAttempt(b, precision)
  {
    var actual := b.z.precision(precision);
    var compressed := b.z.compress(Precision(actual), MaskedBlock(b.input, b.mask));
    if compressed == [] {
      return None;
    }
    var decoded := b.z.decompress(Precision(actual), compressed);
    if decoded == None {
      return None;
    }
    var stats := CheckBlockError(b.input, decoded.value, b.mask, b.cfg.error);
    c := if stats.passed then Some(Candidate(PRECISION, PrecisionRecord(actual, compressed))) else None;
  }

  lemma {:induction false} PrecisionsOver(b: Block, m: nat, n: nat)
    requires Whole(b) && Lawful(b.z) && m <= n <= |b.cfg.precisions| && SearchPrecisions(b, m).over
    ensures SearchPrecisions(b, n) == SearchPrecisions(b, m)
  {
    if m < n {
      PrecisionsOver(b, m, n - 1);
    }
  }

  method TryPrecisions(b: Block) returns (found: seq<Candidate>)
    requires Whole(b) && Lawful(b.z)
    ensures found == SearchPrecisions(b, |b.cfg.precisions|).found
  {
    var s := Progress([], None, true);
    for n := 0 to |b.cfg.precisions|
      invariant ProgressOk(s) && SearchPrecisions(b, n) == Search(s.found, false)
    {
      var c := TryPrecision(b, b.cfg.precisions[n]);
      if c.Some? {
        AddOk(s, c.value);
        s := Add(s, c.value);
        if !s.improved {
          PrecisionsOver(b, n + 1, |b.cfg.precisions|);
          return s.found;
        }
      }
    }
    found := s.found;
  }

  // ----- the choice -----

  /** The first of the smallest candidates, the raw one before all others. */
  method Smallest(raw: Candidate, candidates: seq<Candidate>) returns (best: Candidate)
    ensures best == SmallestOf(raw, candidates, |candidates|)
  {
    best := raw;
    for k := 0 to |candidates|
      invariant best == SmallestOf(raw, candidates, k)
    {
      if SerializedSize(candidates[k]) < SerializedSize(best) {
        best := candidates[k];
      }
    }
  }

  /** All candidates but the raw one. */
  method Candidates(b: Block) returns (found: seq<Candidate>, error: Option<Error>)
    requires Whole(b) && Lawful(b.z)
    ensures (found, error) == AllCandidates(b)
  {
    error := None;
    var mandatory := BuildMandatoryExceptionMask(b.input, b.mask);
    found := TryConstant(b);
    if !HasCompressible(b.mask, mandatory) {
      return;
    }
    var accuracy;
    accuracy, error := AccuracyCandidates(b);
    if error.Some? {
      return;
    }
    found := found + accuracy;
    assert found == found + [];
    if b.cfg.tryPrecision && Marked(mandatory, CELLS) == 0 {
      var precision := TryPrecisions(b);
      found := found + precision;
    }
  }

  /**
   * The smallest candidate, or the raw one when the smallest does not gain enough. It is never larger than the raw
   * leaf, and whatever the compressor does the decoder gets accepted cells back, as long as the exponent survives.
   */
  method EncodeBest(b: Block) returns (r: Encoded, candidates: seq<Candidate>)
    requires Whole(b) && Lawful(b.z)
    ensures r == BestOf(b) && candidates == AllCandidates(b).0
    ensures r.Ok? ==> IsBest(b.z, b.rounding, b.input, b.mask, b.cfg, r.candidate)
    ensures r.Ok? && r.candidate != RawCandidate(b.input) ==>
              r.candidate in candidates && Gain(r.candidate) >= b.cfg.minimumGain
    ensures r.Ok? ==> forall c :: c in candidates && Gain(c) >= b.cfg.minimumGain ==>
                        SerializedSize(r.candidate) <= SerializedSize(c)
    ensures b.cfg.error.internalBound > 0.0 ==> r != Err(TargetNotPositive)
  {
    var error;
    candidates, error := Candidates(b);
    if error.Some? {
      PositiveTarget(b);
      return Err(error.value), candidates;
    }
    var raw := RawCandidate(b.input);
    var best := Smallest(raw, candidates);
    r := Ok(if Gain(best) < b.cfg.minimumGain then raw else best);
    assert AllCandidates(b).0 == candidates && AllCandidates(b).1 == error;
    assert BestOf(b) == r;
    SmallestChosen(b, r.candidate);
    BestIsSound(b, r.candidate);
  }

  lemma PositiveTarget(b: Block)
    requires Whole(b) && Lawful(b.z)
    ensures b.cfg.error.internalBound > 0.0 ==> AllCandidates(b).1 != Some(TargetNotPositive)
  {
    var minAbs := SmallestMagnitude(b);
    if minAbs.Some? && minAbs.value > 0.0 && b.cfg.error.internalBound > 0.0 {
      PositiveProduct(b.cfg.error.internalBound, minAbs.value);
    }
  }

  lemma PositiveProduct(x: real, y: real)
    requires x > 0.0 && y > 0.0
    ensures x * y > 0.0
  {
  }
}
