/** Leaf records: how each codec lays out its bytes, and how the decoder takes them apart. */
module LeafRecords {
  import opened Basics
  import opened Float32
  import opened RelativeError
  import opened Bytes

  const CELLS: nat := 64

  const RAW: nat := 0
  const CONSTANT_ZERO: nat := 1
  const CONSTANT_VALUE: nat := 2
  const ACCURACY: nat := 3
  const ACCURACY_EXCEPTIONS: nat := 4
  const PRECISION: nat := 5

  // ----- the compressor -----

  /** What the compressor's stream is set to. */
  datatype Mode = Accuracy(minExp: int) | Precision(bits: nat)

  /**
   * The compressor, about which nothing is assumed but what Lawful says. accuracy gives the exponent it settles on
   * for a tolerance of two to the power requested, precision the precision.
   */
  datatype Zfp = Zfp(compress: (Mode, seq<Float>) -> seq<Byte>, decompress: (Mode, seq<Byte>) -> Option<seq<Float>>,
                     accuracy: int -> int, precision: nat -> nat)

  /** Blocks have 64 cells, and asking for what it settled on settles on the same. */
  ghost predicate Lawful(z: Zfp)
  {
    && (forall mode, data :: z.decompress(mode, data).Some? ==> |z.decompress(mode, data).value| == CELLS)
    && (forall e :: z.accuracy(z.accuracy(e)) == z.accuracy(e))
    && (forall p :: z.precision(z.precision(p)) == z.precision(p) && z.precision(p) < 256)
  }

  // ----- building records -----

  /** An exponent cut down to the one byte stored, and that byte as a signed number. */
  function ExponentByte(e: int): Byte
  {
    e % 256
  }

  function SignedByte(b: Byte): int
  {
    if b < 128 then b else b - 256
  }

  predicate FitsSignedByte(e: int)
  {
    -128 <= e <= 127
  }

  /** The exponent survives exactly when it fits one signed byte. */
  lemma ExponentRoundTrip(e: int)
    ensures SignedByte(ExponentByte(e)) == e <==> FitsSignedByte(e)
  {
  }

  function AccuracyRecord(minExp: int, zfpPayload: seq<Byte>): seq<Byte>
  {
    [ExponentByte(minExp)] + zfpPayload
  }

  function ExceptionsRecord(minExp: int, mask: seq<bool>, values: seq<Float>, zfpPayload: seq<Byte>): seq<Byte>
    requires |values| < 256
  {
    [ExponentByte(minExp), |values|] + MaskBytes(mask) + zfpPayload + FloatsBytes(values, |values|)
  }

  function PrecisionRecord(precision: nat, zfpPayload: seq<Byte>): seq<Byte>
    requires precision < 256
  {
    [precision] + zfpPayload
  }

  /** Exponent, number of exceptions, eight bytes of mask, the compressed payload, and the exceptions last. */
  lemma ExceptionsLayout(minExp: int, mask: seq<bool>, values: seq<Float>, zfpPayload: seq<Byte>, k: nat)
    requires |values| < 256
    ensures var r, end := ExceptionsRecord(minExp, mask, values, zfpPayload), 10 + |zfpPayload|;
            && |r| == end + 4 * |values| && r[0] == minExp % 256 && r[1] == |values|
            && r[2..10] == MaskBytes(mask) && r[10..end] == zfpPayload
            && (k < |values| ==>
                  r[end + 4 * k..end + 4 * k + 4]
                  == [values[k] % 0x100, values[k] / 0x100 % 0x100, values[k] / 0x1_0000 % 0x100, values[k] / 0x100_0000])
  {
    var r, end := ExceptionsRecord(minExp, mask, values, zfpPayload), 10 + |zfpPayload|;
    if k < |values| {
      FloatBytesAt(values, |values|, k);
      FourDigits(values[k], 4);
      assert r[end..] == FloatsBytes(values, |values|);
      assert r[end + 4 * k..end + 4 * k + 4] == r[end..][4 * k..4 * k + 4];
    }
  }

  // ----- exceptions -----

  /** The cells that the mask marks, in order. */
  function Exceptions(input: seq<Float>, mask: seq<bool>, n: nat): (values: seq<Float>)
    requires |input| == |mask| && n <= |mask|
    ensures |values| == Marked(mask, n)
  {
    if n == 0 then []
    else Exceptions(input, mask, n - 1) + if mask[n - 1] then [input[n - 1]] else []
  }

  lemma {:induction false} MarkedMono(mask: seq<bool>, a: nat, b: nat)
    requires a <= b <= |mask|
    ensures Marked(mask, a) <= Marked(mask, b) <= Marked(mask, a) + (b - a)
  {
    if a < b {
      MarkedMono(mask, a, b - 1);
    }
  }

  /** The cell the mask marks at i is where the count of marks before it says. */
  lemma {:induction false} ExceptionAt(input: seq<Float>, mask: seq<bool>, n: nat, i: nat)
    requires |input| == |mask| && i < n <= |mask| && mask[i]
    ensures Marked(mask, i) < Marked(mask, n) && Exceptions(input, mask, n)[Marked(mask, i)] == input[i]
  {
    if i < n - 1 {
      ExceptionAt(input, mask, n - 1, i);
    }
  }

  /** Puts the values where the mask says, in order; there must be exactly as many values as marks. */
  function Patched(decoded: seq<Float>, mask: seq<bool>, values: seq<Float>): (r: Option<seq<Float>>)
    requires |decoded| == |mask|
    ensures r.Some? ==> |r.value| == |decoded|
  {
    if Marked(mask, |mask|) != |values| then None
    else Some(seq(|decoded|, i requires 0 <= i < |decoded| => PatchedCell(decoded, mask, values, i)))
  }

  function PatchedCell(decoded: seq<Float>, mask: seq<bool>, values: seq<Float>, i: nat): Float
    requires |decoded| == |mask| && i < |mask|
  {
    if mask[i] && Marked(mask, i) < |values| then values[Marked(mask, i)] else decoded[i]
  }

  method PatchExceptions(decoded: array<Float>, mask: seq<bool>, values: seq<Float>) returns (ok: bool)
    requires decoded.Length == |mask|
    modifies decoded
    ensures ok == Patched(old(decoded[..]), mask, values).Some?
    ensures ok ==> Some(decoded[..]) == Patched(old(decoded[..]), mask, values)
  {
    var pos: nat := 0;
    var i: nat := 0;
    while i < |mask|
      invariant i <= |mask| && pos == Marked(mask, i) <= |values|
      invariant forall k :: 0 <= k < i ==> decoded[k] == PatchedCell(old(decoded[..]), mask, values, k)
      invariant forall k :: i <= k < |mask| ==> decoded[k] == old(decoded[k])
    {
      if mask[i] {
        if pos >= |values| {
          MarkedMono(mask, i + 1, |mask|);
          return false;
        }
        decoded[i] := values[pos];
        pos := pos + 1;
      }
      i := i + 1;
    }
    ok := pos == |values|;
    if ok {
      assert decoded[..] == Patched(old(decoded[..]), mask, values).value;
    }
  }

  /** Patching with the exceptions taken out puts exactly the masked cells of the input back. */
  lemma PatchBack(input: seq<Float>, decoded: seq<Float>, mask: seq<bool>)
    requires |input| == |decoded| == |mask|
    ensures var r := Patched(decoded, mask, Exceptions(input, mask, |mask|));
            && r.Some?
            && forall i :: 0 <= i < |mask| ==> r.value[i] == if mask[i] then input[i] else decoded[i]
  {
    forall i | 0 <= i < |mask| && mask[i]
      ensures PatchedCell(decoded, mask, Exceptions(input, mask, |mask|), i) == input[i]
    {
      ExceptionAt(input, mask, |mask|, i);
    }
  }

  // ----- decoding -----

  function NoMask(): (mask: seq<bool>)
    ensures |mask| == CELLS
  {
    seq(CELLS, _ => false)
  }

  /** What an accuracy record holds: exponent, mask and values of the exceptions, compressed payload. */
  datatype Parsed = Parsed(minExp: int, mask: seq<bool>, values: seq<Float>, zfpPayload: seq<Byte>)

  function ParseAccuracy(data: seq<Byte>): Option<Parsed>
  {
    if |data| < 1 then None
    else Some(Parsed(SignedByte(data[0]), NoMask(), [], data[1..]))
  }

  function ParseExceptions(data: seq<Byte>): Option<Parsed>
  {
    if |data| < 2 then None
    else
      var count: nat := data[1];
      if |data| < 10 + 4 * count || count > 64 then None
      else
        var zfpEnd := |data| - 4 * count;
        Some(Parsed(SignedByte(data[0]), ParseMask(data[2..10]), ParseFloats(data[zfpEnd..], count), data[10..zfpEnd]))
  }

  function DecodeAccuracy(z: Zfp, parsed: Option<Parsed>): Option<seq<Float>>
  {
    match parsed
    case None => None
    case Some(p) =>
      if p.zfpPayload == [] then None
      else match z.decompress(Accuracy(z.accuracy(p.minExp)), p.zfpPayload)
        case None => None
        case Some(decoded) => if |decoded| == |p.mask| then Patched(decoded, p.mask, p.values) else None
  }

  /** The cells of a record; none when the record is malformed or the compressor gives up. */
  function DecodeRecord(z: Zfp, codec: nat, data: seq<Byte>): Option<seq<Float>>
  {
    if codec == RAW then
      if |data| != 256 then None else Some(ParseFloats(data, CELLS))
    else if codec == CONSTANT_ZERO then Some(seq(CELLS, _ => ZERO))
    else if codec == CONSTANT_VALUE then
      if |data| != 4 then None else Some(seq(CELLS, _ => ParseFloat(data)))
    else if codec == ACCURACY then DecodeAccuracy(z, ParseAccuracy(data))
    else if codec == ACCURACY_EXCEPTIONS then DecodeAccuracy(z, ParseExceptions(data))
    else if codec == PRECISION then
      if |data| < 2 then None else z.decompress(Precision(z.precision(data[0])), data[1..])
    else None
  }

  // ----- printing and parsing are inverse -----

  lemma RawRoundTrip(z: Zfp, input: seq<Float>)
    requires |input| == CELLS
    ensures DecodeRecord(z, RAW, FloatsBytes(input, CELLS)) == Some(input)
  {
    FloatsRoundTrip(input);
  }

  lemma AccuracyRoundTrip(minExp: int, zfpPayload: seq<Byte>)
    requires FitsSignedByte(minExp)
    ensures ParseAccuracy(AccuracyRecord(minExp, zfpPayload)) == Some(Parsed(minExp, NoMask(), [], zfpPayload))
  {
    ExponentRoundTrip(minExp);
    assert AccuracyRecord(minExp, zfpPayload)[1..] == zfpPayload;
  }

  /** Exponent, count, mask, payload and values all come back. */
  lemma ExceptionsRoundTrip(minExp: int, mask: seq<bool>, values: seq<Float>, zfpPayload: seq<Byte>)
    requires FitsSignedByte(minExp) && |mask| == CELLS && |values| <= 64
    ensures ParseExceptions(ExceptionsRecord(minExp, mask, values, zfpPayload))
            == Some(Parsed(minExp, mask, values, zfpPayload))
  {
    var data := ExceptionsRecord(minExp, mask, values, zfpPayload);
    var zfpEnd := |data| - 4 * |values|;
    ExponentRoundTrip(minExp);
    MaskRoundTrip(mask);
    FloatsRoundTrip(values);
    assert data[2..10] == MaskBytes(mask);
    assert data[10..zfpEnd] == zfpPayload;
    assert data[zfpEnd..] == FloatsBytes(values, |values|);
  }

  /** The accuracy codecs, with the buffer patched in place. */
  method RunDecodeAccuracy(z: Zfp, parsed: Option<Parsed>) returns (output: Option<seq<Float>>)
    requires Lawful(z) && (parsed.Some? ==> |parsed.value.mask| == CELLS)
    ensures output == DecodeAccuracy(z, parsed)
  {
    if parsed == None || parsed.value.zfpPayload == [] {
      return None;
    }
    var decompressed := z.decompress(Accuracy(z.accuracy(parsed.value.minExp)), parsed.value.zfpPayload);
    if decompressed == None {
      return None;
    }
    var cells := decompressed.value;
    var decoded := new Float[|cells|](i requires 0 <= i < |cells| => cells[i]);
    assert decoded[..] == cells;
    var ok := PatchExceptions(decoded, parsed.value.mask, parsed.value.values);
    output := if ok then Some(decoded[..]) else None;
  }

  method Filled(value: Float) returns (cells: seq<Float>)
    ensures cells == seq(CELLS, _ => value)
  {
    var buffer := new Float[CELLS];
    for i := 0 to CELLS
      invariant forall k :: 0 <= k < i ==> buffer[k] == value
    {
      buffer[i] := value;
    }
    cells := buffer[..];
  }

  /** The decoder, codec by codec; anything else is refused. */
  method RunDecodeRecord(z: Zfp, codec: nat, data: seq<Byte>) returns (output: Option<seq<Float>>)
    requires Lawful(z)
    ensures output == DecodeRecord(z, codec, data)
  {
    if codec == RAW {
      return if |data| != 256 then None else Some(ParseFloats(data, CELLS));
    } else if codec == CONSTANT_ZERO || codec == CONSTANT_VALUE {
      if codec == CONSTANT_VALUE && |data| != 4 {
        return None;
      }
      var cells := Filled(if codec == CONSTANT_ZERO then ZERO else ParseFloat(data));
      return Some(cells);
    } else if codec == ACCURACY {
      output := RunDecodeAccuracy(z, ParseAccuracy(data));
    } else if codec == ACCURACY_EXCEPTIONS {
      output := RunDecodeAccuracy(z, ParseExceptions(data));
    } else if codec == PRECISION {
      if |data| < 2 {
        return None;
      }
      output := z.decompress(Precision(z.precision(data[0])), data[1..]);
    } else {
      output := None;
    }
  }
}
