/** Blocks of four by four cells of a plane: their records, and the choice of how to encode them. */
module PlaneBlocks {
  import opened Basics
  import opened Float32
  import opened RelativeError
  import opened Bytes
  import opened BlockCells
  import opened LeafRecords

  const BLOCK: nat := 16
  const RAW_BYTES: nat := 64
  const PRECISION_EXCEPTIONS: nat := 6

  datatype PlaneConfig = PlaneConfig(error: ErrorConfig, precisions: seq<Byte>, fastAccuracyOnly: bool,
                                     tryPrecisionExceptions: bool)

  datatype BlockRecord = BlockRecord(codec: nat, payload: seq<Byte>)

  /** Whatever decompresses is a block of 16 cells. */
  ghost predicate LawfulPlanes(z: Zfp)
  {
    forall mode, data :: z.decompress(mode, data).Some? ==> |z.decompress(mode, data).value| == BLOCK
  }

  predicate IsPlaneBlock(input: seq<Float>, mask: seq<bool>)
  {
    |input| == BLOCK && |mask| == BLOCK
  }

  // ----- records -----

  /** Two bytes of mask. */
  function Mask16(mask: seq<bool>): (s: seq<Byte>)
    ensures |s| == 2
  {
    Le(BitsValue(mask), 2)
  }

  function ParseMask16(s: seq<Byte>): (mask: seq<bool>)
    ensures |mask| == BLOCK
  {
    ToBits(FromLe(s), BLOCK)
  }

  lemma Mask16RoundTrip(mask: seq<bool>, n: nat)
    requires |mask| == BLOCK && n == 2
    ensures ParseMask16(Le(BitsValue(mask), n)) == mask
  {
    BitsRoundTrip(mask);
    PowerOfBytes(n);
    LeRoundTrip(BitsValue(mask), n);
  }

  function PlainRecord(parameter: Byte, zfpPayload: seq<Byte>): seq<Byte>
  {
    [parameter] + zfpPayload
  }

  function PatchedRecord(parameter: Byte, mask: seq<bool>, values: seq<Float>, zfpPayload: seq<Byte>): seq<Byte>
    requires |values| < 256
  {
    [parameter, |values|] + Mask16(mask) + zfpPayload + FloatsBytes(values, |values|)
  }

  /** Parameter, number of exceptions, two bytes of mask, the compressed payload, and the exceptions last. */
  lemma PatchedLayout(parameter: Byte, mask: seq<bool>, values: seq<Float>, zfpPayload: seq<Byte>, k: nat)
    requires |values| < 256
    ensures var r, end := PatchedRecord(parameter, mask, values, zfpPayload), 4 + |zfpPayload|;
            && |r| == end + 4 * |values| && r[0] == parameter && r[1] == |values|
            && r[2..4] == Le(BitsValue(mask), 2) && r[4..end] == zfpPayload
            && (k < |values| ==>
                  r[end + 4 * k..end + 4 * k + 4]
                  == [values[k] % 0x100, values[k] / 0x100 % 0x100, values[k] / 0x1_0000 % 0x100, values[k] / 0x100_0000])
  {
    var r, end := PatchedRecord(parameter, mask, values, zfpPayload), 4 + |zfpPayload|;
    if k < |values| {
      FloatBytesAt(values, |values|, k);
      FourDigits(values[k], 4);
      assert r[end..] == FloatsBytes(values, |values|);
      assert r[end + 4 * k..end + 4 * k + 4] == r[end..][4 * k..4 * k + 4];
    }
  }

  /** Parameter byte, mask, exception values, compressed payload. */
  datatype ParsedBlock = ParsedBlock(parameter: Byte, mask: seq<bool>, values: seq<Float>, zfpPayload: seq<Byte>)

  function ParsePlain(data: seq<Byte>): Option<ParsedBlock>
  {
    if data == [] then None else Some(ParsedBlock(data[0], seq(BLOCK, _ => false), [], data[1..]))
  }

  function ParsePatched(data: seq<Byte>): Option<ParsedBlock>
  {
    if |data| < 4 then None
    else
      var count: nat := data[1];
      if |data| < 4 + 4 * count then None
      else
        var zfpEnd := |data| - 4 * count;
        Some(ParsedBlock(data[0], ParseMask16(data[2..4]), ParseFloats(data[zfpEnd..], count), data[4..zfpEnd]))
  }

  lemma PatchedRecordRoundTrip(parameter: Byte, mask: seq<bool>, values: seq<Float>, zfpPayload: seq<Byte>)
    requires |mask| == BLOCK && |values| < 256
    ensures ParsePatched(PatchedRecord(parameter, mask, values, zfpPayload))
            == Some(ParsedBlock(parameter, mask, values, zfpPayload))
  {
    var data := PatchedRecord(parameter, mask, values, zfpPayload);
    var zfpEnd := |data| - 4 * |values|;
    Mask16RoundTrip(mask, 2);
    FloatsRoundTrip(values);
    assert data[2..4] == Mask16(mask);
    assert data[4..zfpEnd] == zfpPayload;
    assert data[zfpEnd..] == FloatsBytes(values, |values|);
  }

  function ModeOf(z: Zfp, accuracy: bool, parameter: Byte): Mode
  {
    if accuracy then Accuracy(z.accuracy(SignedByte(parameter))) else Precision(z.precision(parameter))
  }

  /** The values put where the mask says, those left over ignored; none when the mask has more marks than values. */
  function Overlaid(decoded: seq<Float>, mask: seq<bool>, values: seq<Float>): Option<seq<Float>>
    requires |decoded| == |mask|
  {
    if Marked(mask, |mask|) > |values| then None
    else Some(seq(|decoded|, i requires 0 <= i < |decoded| => PatchedCell(decoded, mask, values, i)))
  }

  lemma OverlaidIsPatched(decoded: seq<Float>, mask: seq<bool>, values: seq<Float>)
    requires |decoded| == |mask| && Marked(mask, |mask|) == |values|
    ensures Overlaid(decoded, mask, values) == Patched(decoded, mask, values)
  {
  }

  function DecodeZfpBlock(z: Zfp, accuracy: bool, parsed: Option<ParsedBlock>): Option<seq<Float>>
  {
    match parsed
    case None => None
    case Some(p) =>
      match z.decompress(ModeOf(z, accuracy, p.parameter), p.zfpPayload)
      case None => None
      case Some(decoded) => if |decoded| == |p.mask| then Overlaid(decoded, p.mask, p.values) else None
  }

  /** The cells of a block record. */
  function DecodeBlock(z: Zfp, codec: nat, data: seq<Byte>): Option<seq<Float>>
  {
    if codec == RAW then if |data| != RAW_BYTES then None else Some(ParseFloats(data, BLOCK))
    else if codec == CONSTANT_ZERO then if |data| != 0 then None else Some(seq(BLOCK, _ => ZERO))
    else if codec == CONSTANT_VALUE then if |data| != 4 then None else Some(seq(BLOCK, _ => ParseFloat(data)))
    else if codec == ACCURACY then DecodeZfpBlock(z, true, ParsePlain(data))
    else if codec == ACCURACY_EXCEPTIONS then DecodeZfpBlock(z, true, ParsePatched(data))
    else if codec == PRECISION then DecodeZfpBlock(z, false, ParsePlain(data))
    else if codec == PRECISION_EXCEPTIONS then DecodeZfpBlock(z, false, ParsePatched(data))
    else None
  }

  /** The record decodes to cells that are accepted wherever the mask is set. */
  ghost predicate SoundBlock(z: Zfp, input: seq<Float>, mask: seq<bool>, error: ErrorConfig, c: BlockRecord)
    requires IsPlaneBlock(input, mask)
  {
    match DecodeBlock(z, c.codec, c.payload)
    case None => false
    case Some(out) => |out| == BLOCK && BlockAccepted(input, out, mask, error)
  }

  // ----- candidates -----

  lemma RawBlockSound(z: Zfp, input: seq<Float>, mask: seq<bool>, error: ErrorConfig)
    requires IsPlaneBlock(input, mask) && AcceptsIdentity(error)
    ensures SoundBlock(z, input, mask, error, BlockRecord(RAW, FloatsBytes(input, BLOCK)))
  {
    FloatsRoundTrip(input);
    forall i | 0 <= i < BLOCK && mask[i]
      ensures Accepts(input[i], input[i], error)
    {
      ExactAccepted(input[i], input[i], error);
    }
  }

  lemma ZeroBlockSound(z: Zfp, input: seq<Float>, mask: seq<bool>, error: ErrorConfig)
    requires IsPlaneBlock(input, mask) && AcceptsIdentity(error) && AllZero(input, mask)
    ensures SoundBlock(z, input, mask, error, BlockRecord(CONSTANT_ZERO, []))
  {
    forall i | 0 <= i < BLOCK && mask[i]
      ensures Accepts(input[i], ZERO, error)
    {
      ExactAccepted(input[i], ZERO, error);
    }
  }

  lemma ConstantBlockSound(z: Zfp, input: seq<Float>, mask: seq<bool>, error: ErrorConfig, value: Float,
                           bytes: seq<Byte>, n: nat)
    requires IsPlaneBlock(input, mask) && AcceptsIdentity(error) && n == 4 && bytes == Le(value, n)
    requires forall i :: 0 <= i < BLOCK && mask[i] ==> input[i] == value
    ensures SoundBlock(z, input, mask, error, BlockRecord(CONSTANT_VALUE, bytes))
  {
    FloatRoundTrip(value, bytes, n);
    ExactAccepted(value, value, error);
  }

  function ExceptionBlock(input: seq<Float>, exceptions: seq<bool>, withExceptions: bool, fill: Float): (block: seq<Float>)
    requires |input| == |exceptions| == BLOCK
  {
    seq(BLOCK, i requires 0 <= i < BLOCK => if withExceptions && exceptions[i] then fill else input[i])
  }

  /** Zero when the exponent is out of range. */
  function ToleranceExponent(rounding: Rounding, tolerance: real): int
  {
    if !(tolerance > 0.0) then 0
    else
      var e := rounding.floorLog2(tolerance);
      if e < -32768 || e > 32767 then 0 else e
  }

  function ZfpRecord(accuracy: bool, parameter: Byte, withExceptions: bool, mask: seq<bool>, values: seq<Float>,
                     compressed: seq<Byte>): BlockRecord
    requires |values| < 256
  {
    if withExceptions then
      BlockRecord(if accuracy then ACCURACY_EXCEPTIONS else PRECISION_EXCEPTIONS,
                  PatchedRecord(parameter, mask, values, compressed))
    else BlockRecord(if accuracy then ACCURACY else PRECISION, PlainRecord(parameter, compressed))
  }

  lemma NoMarks(mask: seq<bool>, n: nat)
    requires n <= |mask| && forall i :: 0 <= i < |mask| ==> !mask[i]
    ensures Marked(mask, n) == 0
  {
    if n > 0 {
      NoMarks(mask, n - 1);
    }
  }

  lemma PlainDecodes(z: Zfp, accuracy: bool, parameter: Byte, compressed: seq<Byte>, decoded: seq<Float>)
    requires LawfulPlanes(z) && z.decompress(ModeOf(z, accuracy, parameter), compressed) == Some(decoded)
    ensures DecodeZfpBlock(z, accuracy, ParsePlain(PlainRecord(parameter, compressed))) == Some(decoded)
  {
    var none := seq(BLOCK, _ => false);
    assert PlainRecord(parameter, compressed)[1..] == compressed;
    NoMarks(none, BLOCK);
    assert Overlaid(decoded, none, []).value == decoded;
  }

  lemma PatchedDecodes(z: Zfp, accuracy: bool, parameter: Byte, mask: seq<bool>, values: seq<Float>,
                       compressed: seq<Byte>, decoded: seq<Float>)
    requires LawfulPlanes(z) && z.decompress(ModeOf(z, accuracy, parameter), compressed) == Some(decoded)
    requires |mask| == BLOCK && |values| < 256 && Marked(mask, BLOCK) == |values|
    ensures DecodeZfpBlock(z, accuracy, ParsePatched(PatchedRecord(parameter, mask, values, compressed)))
            == Patched(decoded, mask, values)
  {
    PatchedRecordRoundTrip(parameter, mask, values, compressed);
    OverlaidIsPatched(decoded, mask, values);
  }

  lemma RecordDecodes(z: Zfp, accuracy: bool, parameter: Byte, withExceptions: bool, mask: seq<bool>,
                      values: seq<Float>, compressed: seq<Byte>, decoded: seq<Float>)
    requires LawfulPlanes(z) && z.decompress(ModeOf(z, accuracy, parameter), compressed) == Some(decoded)
    requires |mask| == BLOCK && |values| < 256 && Marked(mask, BLOCK) == |values|
    ensures var c := ZfpRecord(accuracy, parameter, withExceptions, mask, values, compressed);
            DecodeBlock(z, c.codec, c.payload) == if withExceptions then Patched(decoded, mask, values) else Some(decoded)
  {
    if withExceptions {
      PatchedDecodes(z, accuracy, parameter, mask, values, compressed, decoded);
    } else {
      PlainDecodes(z, accuracy, parameter, compressed, decoded);
    }
  }

  /** The tolerance for a block whose smallest ordinary cell has this magnitude. */
  function Target(error: ErrorConfig, m: real): real
  {
    error.internalBound * m
  }

  predicate TargetFits(rounding: Rounding, target: real)
  {
    FitsSignedByte(ToleranceExponent(rounding, target))
  }

  /** The exponent that an accuracy record of this block would store survives in one signed byte. */
  ghost predicate BlockExponentFits(rounding: Rounding, input: seq<Float>, mask: seq<bool>, exceptions: seq<bool>,
                                    error: ErrorConfig)
    requires |input| == |mask| == |exceptions|
  {
    forall m: real :: IsMinAbs(input, mask, exceptions, |input|, Some(m)) ==> TargetFits(rounding, Target(error, m))
  }

  /** What the choice of a block's record keeps: small enough for its size field, and sound if the exponent survives. */
  ghost predicate GoodBlock(z: Zfp, rounding: Rounding, input: seq<Float>, mask: seq<bool>, error: ErrorConfig, c: BlockRecord)
    requires IsPlaneBlock(input, mask)
  {
    && c.codec <= PRECISION_EXCEPTIONS && |c.payload| <= RAW_BYTES
    && (AcceptsIdentity(error) && BlockExponentFits(rounding, input, mask, MandatoryMask(input, mask), error) ==>
          SoundBlock(z, input, mask, error, c))
  }
}
