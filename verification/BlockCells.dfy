/** What both block codecs ask about the cells of a block: which are special, which are equal, how small they get. */
module BlockCells {
  import opened Basics
  import opened Float32
  import opened RelativeError

  datatype Fill = Zero | Mean

  /** Rounding the machine does: the exponent below a positive number, and the float nearest to a number. */
  datatype Rounding = Rounding(floorLog2: real -> int, toFloat: real -> Float)

  // ----- which cells are special -----

  /** Zeros, subnormals, infinities and NaNs are stored as they are. */
  predicate IsException(x: Float)
  {
    IsZero(x) || !IsFinite(x) || IsSubnormal(x)
  }

  function MandatoryMask(input: seq<Float>, mask: seq<bool>): (r: seq<bool>)
    requires |input| == |mask|
    ensures |r| == |mask|
  {
    seq(|input|, i requires 0 <= i < |input| => mask[i] && IsException(input[i]))
  }

  method BuildMandatoryExceptionMask(input: seq<Float>, mask: seq<bool>) returns (r: seq<bool>)
    requires |input| == |mask|
    ensures r == MandatoryMask(input, mask)
  {
    var bits := new bool[|input|](_ => false);
    for i := 0 to |input|
      invariant forall k :: 0 <= k < |input| ==> bits[k] == (k < i && mask[k] && IsException(input[k]))
    {
      if mask[i] && IsException(input[i]) {
        bits[i] := true;
      }
    }
    r := bits[..];
  }

  /** Marked by the mask, and not an exception. */
  predicate Compressible(mask: seq<bool>, exceptions: seq<bool>, i: nat)
    requires i < |mask| == |exceptions|
  {
    mask[i] && !exceptions[i]
  }

  ghost predicate IsMinAbs(input: seq<Float>, mask: seq<bool>, exceptions: seq<bool>, n: nat, m: Option<real>)
    requires n <= |input| == |mask| == |exceptions|
  {
    match m
    case None => forall i :: 0 <= i < n ==> !Compressible(mask, exceptions, i)
    case Some(a) =>
      && (forall i :: 0 <= i < n && Compressible(mask, exceptions, i) ==> a <= Magnitude(input[i]))
      && exists i :: 0 <= i < n && Compressible(mask, exceptions, i) && Magnitude(input[i]) == a
  }

  /** The smallest magnitude among the compressible cells; none when there is none. */
  method MinAbsNonException(input: seq<Float>, mask: seq<bool>, exceptions: seq<bool>) returns (m: Option<real>)
    requires |input| == |mask| == |exceptions|
    ensures IsMinAbs(input, mask, exceptions, |input|, m)
  {
    m := None;
    for i := 0 to |input|
      invariant IsMinAbs(input, mask, exceptions, i, m)
    {
      if Compressible(mask, exceptions, i) {
        ValueZero(input[i]);
        m := Some(if m == None || Magnitude(input[i]) < m.value then Magnitude(input[i]) else m.value);
      }
    }
  }

  /** The cells whose mean fills in for exceptions: the sum of their values and their number. */
  predicate Averaged(input: seq<Float>, mask: seq<bool>, exceptions: seq<bool>, i: nat)
    requires i < |input| == |mask| == |exceptions|
  {
    Compressible(mask, exceptions, i) && IsFinite(input[i])
  }

  function FillSum(input: seq<Float>, mask: seq<bool>, exceptions: seq<bool>, n: nat): real
    requires n <= |input| == |mask| == |exceptions|
  {
    if n == 0 then 0.0
    else FillSum(input, mask, exceptions, n - 1) + if Averaged(input, mask, exceptions, n - 1) then Value(input[n - 1]) else 0.0
  }

  function FillCount(input: seq<Float>, mask: seq<bool>, exceptions: seq<bool>, n: nat): nat
    requires n <= |input| == |mask| == |exceptions|
  {
    if n == 0 then 0
    else FillCount(input, mask, exceptions, n - 1) + if Averaged(input, mask, exceptions, n - 1) then 1 else 0
  }

  /** The sum of the values of these cells, in whatever order. */
  ghost function ValueSum(input: seq<Float>, cells: set<nat>): real
    requires forall i :: i in cells ==> i < |input|
  {
    if cells == {} then 0.0 else var i :| i in cells; Value(input[i]) + ValueSum(input, cells - {i})
  }

  lemma {:induction false} ValueSumTake(input: seq<Float>, cells: set<nat>, i: nat)
    requires i in cells && forall j :: j in cells ==> j < |input|
    ensures ValueSum(input, cells) == Value(input[i]) + ValueSum(input, cells - {i})
    decreases cells
  {
    var j :| j in cells && ValueSum(input, cells) == Value(input[j]) + ValueSum(input, cells - {j});
    if j != i {
      ValueSumTake(input, cells - {j}, i);
      ValueSumTake(input, cells - {i}, j);
      assert cells - {j} - {i} == cells - {i} - {j};
    }
  }

  /** The marked cells that are no exceptions and finite, among the first n. */
  ghost function AveragedCells(input: seq<Float>, mask: seq<bool>, exceptions: seq<bool>, n: nat): set<nat>
    requires n <= |input| == |mask| == |exceptions|
  {
    set i: nat | i < n && mask[i] && !exceptions[i] && Unsigned(input[i]) < INFINITE
  }

  lemma {:induction false} FillSums(input: seq<Float>, mask: seq<bool>, exceptions: seq<bool>, n: nat)
    requires n <= |input| == |mask| == |exceptions|
    ensures FillCount(input, mask, exceptions, n) == |AveragedCells(input, mask, exceptions, n)|
    ensures FillSum(input, mask, exceptions, n) == ValueSum(input, AveragedCells(input, mask, exceptions, n))
  {
    if n > 0 {
      FillSums(input, mask, exceptions, n - 1);
      BitClasses(input[n - 1]);
      var before, now := AveragedCells(input, mask, exceptions, n - 1), AveragedCells(input, mask, exceptions, n);
      if Averaged(input, mask, exceptions, n - 1) {
        assert now == before + {n - 1};
        ValueSumTake(input, now, n - 1);
        assert now - {n - 1} == before;
      } else {
        assert now == before;
      }
    }
  }

  /** The filling value: zero, or the mean. */
  function FillValue(rounding: Rounding, input: seq<Float>, mask: seq<bool>, exceptions: seq<bool>, fill: Fill): Float
    requires |input| == |mask| == |exceptions|
  {
    var count := FillCount(input, mask, exceptions, |input|);
    if fill == Zero || count == 0 then ZERO
    else rounding.toFloat(FillSum(input, mask, exceptions, |input|) / count as real)
  }

  /** The mean is that of the averaged cells: their sum over their number, rounded; zero when there is none. */
  lemma FillIsMean(rounding: Rounding, input: seq<Float>, mask: seq<bool>, exceptions: seq<bool>, cells: set<nat>)
    requires |input| == |mask| == |exceptions| && cells == AveragedCells(input, mask, exceptions, |input|)
    ensures FillValue(rounding, input, mask, exceptions, Zero) == ZERO
    ensures FillValue(rounding, input, mask, exceptions, Mean)
            == if cells == {} then ZERO else rounding.toFloat(ValueSum(input, cells) / |cells| as real)
  {
    FillSums(input, mask, exceptions, |input|);
  }

  /** What stands in for exceptions in the block that is compressed; it is patched over again after decompression. */
  method ComputeFillValue(rounding: Rounding, input: seq<Float>, mask: seq<bool>, exceptions: seq<bool>, fill: Fill)
    returns (value: Float)
    requires |input| == |mask| == |exceptions|
    ensures value == FillValue(rounding, input, mask, exceptions, fill)
  {
    if fill == Zero {
      return ZERO;
    }
    var sum, count: nat := 0.0, 0;
    for i := 0 to |input|
      invariant sum == FillSum(input, mask, exceptions, i) && count == FillCount(input, mask, exceptions, i)
    {
      if Compressible(mask, exceptions, i) && IsFinite(input[i]) {
        sum := sum + Value(input[i]);
        count := count + 1;
      }
    }
    value := if count == 0 then ZERO else rounding.toFloat(sum / count as real);
  }

  predicate AllZero(input: seq<Float>, mask: seq<bool>)
    requires |input| == |mask|
  {
    forall i :: 0 <= i < |input| && mask[i] ==> IsZero(input[i])
  }

  /** All marked cells hold v, an ordinary number, and there is such a cell. */
  ghost predicate Uniform(input: seq<Float>, mask: seq<bool>, n: nat, v: Float)
    requires n <= |input| == |mask|
  {
    && IsNormal(v) && (exists i :: 0 <= i < n && mask[i])
    && forall i :: 0 <= i < n && mask[i] ==> input[i] == v
  }

  /** The value that all marked cells have in common, if there is one and it is an ordinary number. */
  method CommonValue(input: seq<Float>, mask: seq<bool>) returns (value: Option<Float>)
    requires |input| == |mask|
    ensures match value
            case Some(v) => Uniform(input, mask, |input|, v)
            case None => forall v :: !Uniform(input, mask, |input|, v)
  {
    value := None;
    for i := 0 to |input|
      invariant match value
                case Some(v) => Uniform(input, mask, i, v)
                case None => forall k :: 0 <= k < i ==> !mask[k]
    {
      if mask[i] {
        if !IsNormal(input[i]) || (value.Some? && input[i] != value.value) {
          return None;
        }
        value := Some(input[i]);
      }
    }
  }
}
