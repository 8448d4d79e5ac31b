/** From the raw volume through the compressed file to slices: every cell is one the codec's error check accepts. */
module RzfpRoundTrip {
  import opened Basics
  import opened Float32
  import opened Morton
  import opened Layout
  import opened SlicePlan
  import opened SliceReader
  import opened RzfpFormat
  import opened RzfpFile
  import opened RzfpWriter
  import opened RzfpFileWriter
  import opened RzfpTasks
  import opened RzfpStrategies
  import opened RzfpReader
  import opened RelativeError
  import opened LeafRecords
  import opened LeafChoice
  import opened BlockCells

  // ----- every file has a decoded volume -----

  function OriginOf(h: Header, s: Coord, leaf: Coord): Coord
  {
    Add(Times(s, h.super), Times(leaf, h.leaf))
  }

  function SuperOfCell(h: Header, c: Coord): Coord
    requires Valid(h)
  {
    Coord(c.x / h.super.x, c.y / h.super.y, c.z / h.super.z)
  }

  function LeafOfCell(h: Header, c: Coord): Coord
    requires Valid(h)
  {
    Coord(c.x % h.super.x / h.leaf.x, c.y % h.super.y / h.leaf.y, c.z % h.super.z / h.leaf.z)
  }

  function PlaceOfCell(h: Header, c: Coord): nat
    requires Valid(h)
  {
    Flat(Coord(c.x % h.super.x % h.leaf.x, c.y % h.super.y % h.leaf.y, c.z % h.super.z % h.leaf.z), h.leaf)
  }

  lemma PlaceInLeaf(h: Header, c: Coord)
    requires Valid(h) && InBox(c, h.n)
    ensures InBox(SuperOfCell(h, c), SuperGrid(h)) && InBox(LeafOfCell(h, c), LeafGrid(h))
    ensures PlaceOfCell(h, c) < Volume(h.leaf)
  {
    LocateOnAxis(c.x, h.n.x, h.super.x, h.leaf.x);
    LocateOnAxis(c.y, h.n.y, h.super.y, h.leaf.y);
    LocateOnAxis(c.z, h.n.z, h.super.z, h.leaf.z);
    FlatInBox(Coord(c.x % h.super.x % h.leaf.x, c.y % h.super.y % h.leaf.y, c.z % h.super.z % h.leaf.z), h.leaf);
  }

  /** Cell r of a leaf is found again from its coordinates. */
  lemma CellFound(h: Header, s: Coord, leaf: Coord, r: nat)
    requires Valid(h) && InBox(leaf, LeafGrid(h)) && r < Volume(h.leaf)
    ensures var c := Add(OriginOf(h, s, leaf), Unflat(r, h.leaf));
            SuperOfCell(h, c) == s && LeafOfCell(h, c) == leaf && PlaceOfCell(h, c) == r
  {
    var u := Unflat(r, h.leaf);
    UnflatInBox(r, h.leaf);
    OnAxis(s.x, leaf.x, u.x, h.super.x, h.leaf.x);
    OnAxis(s.y, leaf.y, u.y, h.super.y, h.leaf.y);
    OnAxis(s.z, leaf.z, u.z, h.super.z, h.leaf.z);
  }

  lemma OnAxis(s: nat, l: nat, u: nat, S: nat, L: nat)
    requires S > 0 && L > 0 && S % L == 0 && l < S / L && u < L
    ensures var v := s * S + l * L + u; v / S == s && v % S / L == l && v % S % L == u
  {
    DivModBack(S, L);
    RadixBound(l, u, S / L, L);
    DivMod(s, l * L + u, S);
    DivMod(l, u, L);
  }

  /** The coordinates of a position in the raw file. */
  function CellAt(i: nat, n: Coord): Coord
    requires n.y > 0 && n.z > 0
  {
    Coord(i / n.z / n.y, i / n.z % n.y, i % n.z)
  }

  lemma CellAtIndex(c: Coord, n: Coord)
    requires InBox(c, n)
    ensures CellAt(RawIndex(c, n), n) == c
  {
    DivMod(c.x * n.y + c.y, c.z, n.z);
    DivMod(c.x, c.y, n.y);
  }

  /** The decoded cell at c, zero where its leaf does not decode. */
  function DecodedCell(f: File, dec: Decoder, c: Coord): Float
    requires Accepted(f) && Gapless(LeafGrid(f.h))
  {
    if !InBox(c, f.h.n) then ZERO
    else
      PlaceInLeaf(f.h, c);
      LeafAddress(f, SuperOfCell(f.h, c), LeafOfCell(f.h, c));
      match DecodedLeaf(f, dec, SuperOfCell(f.h, c), LeafOfCell(f.h, c))
      case None => ZERO
      case Some(cells) => if PlaceOfCell(f.h, c) < |cells| then cells[PlaceOfCell(f.h, c)] else ZERO
  }

  function RawSize(n: Coord): nat
  {
    n.x * n.y * n.z
  }

  ghost function DecodedVolume(f: File, dec: Decoder): (v: Raw)
    requires Accepted(f) && Gapless(LeafGrid(f.h))
    ensures IsRaw(v, f.h.n)
  {
    seq(RawSize(f.h.n), i requires 0 <= i < RawSize(f.h.n) =>
      if f.h.n.y > 0 && f.h.n.z > 0 then DecodedCell(f, dec, CellAt(i, f.h.n)) else ZERO)
  }

  lemma DecodedVolumeCell(f: File, dec: Decoder, c: Coord)
    requires Accepted(f) && Gapless(LeafGrid(f.h)) && InBox(c, f.h.n)
    ensures Padded(DecodedVolume(f, dec), f.h.n, c) == DecodedCell(f, dec, c)
  {
    RawIndexBound(c, f.h.n);
    CellAtIndex(c, f.h.n);
  }

  /** So what the reader delivers is determined by the file alone. */
  lemma EveryFileHasVolume(f: File, dec: Decoder)
    requires Readable(f, dec)
    ensures VolumeOf(f, dec, DecodedVolume(f, dec))
  {
    var v := DecodedVolume(f, dec);
    forall s: Coord, leaf: Coord | InBox(s, SuperGrid(f.h)) && InBox(leaf, LeafGrid(f.h))
      ensures LeafAgrees(f, dec, v, s, leaf)
    {
      LeafAddress(f, s, leaf);
      if DecodedLeaf(f, dec, s, leaf).Some? {
        LeafOfVolume(f, dec, s, leaf, DecodedLeaf(f, dec, s, leaf).value);
      }
    }
  }

  lemma LeafOfVolume(f: File, dec: Decoder, s: Coord, leaf: Coord, cells: seq<Float>)
    requires Readable(f, dec) && InBox(s, SuperGrid(f.h)) && InBox(leaf, LeafGrid(f.h))
    requires PhysicalId(f.h, f.order, s) < |f.index| && Encode(leaf) < LeafCount(f.h)
    requires DecodedLeaf(f, dec, s, leaf) == Some(cells)
    ensures IsLeaf(f.h, DecodedVolume(f, dec), s, leaf, cells)
  {
    var v := DecodedVolume(f, dec);
    forall r | 0 <= r < |cells| && CellInVolume(f.h, s, leaf, r)
      ensures cells[r] == LeafCell(f.h, v, s, leaf, r)
    {
      var c := Add(OriginOf(f.h, s, leaf), Unflat(r, f.h.leaf));
      CellFound(f.h, s, leaf, r);
      DecodedVolumeCell(f, dec, c);
    }
  }

  // ----- what is written is read back, up to the error the codec allows -----

  type Acceptance = (Float, Float) -> bool

  /** Every leaf of the source decodes, as encoded, to cells that are accepted where they lie in the volume. */
  ghost predicate KeepsSource(c: Source, dec: Decoder, accept: Acceptance)
    requires ValidSource(c)
  {
    forall s: Coord, m: nat :: InBox(s, SuperGrid(c.h)) && m < LeafCount(c.h) ==> KeepsLeafAt(c, dec, accept, s, m)
  }

  ghost predicate KeepsLeafAt(c: Source, dec: Decoder, accept: Acceptance, s: Coord, m: nat)
    requires ValidSource(c)
  {
    var cells, mask := LeafInput(c.h, c.raw, s, m), ValidMask(c.h, s, Decode(m));
    KeepsLeaf(dec, accept, cells, mask, c.enc(cells, mask))
  }

  ghost predicate KeepsLeaf(dec: Decoder, accept: Acceptance, cells: seq<Float>, mask: seq<bool>, r: Record)
  {
    match dec(r.codec, r.payload)
    case None => false
    case Some(out) => |out| == |cells| == |mask| && forall i :: 0 <= i < |cells| && mask[i] ==> accept(cells[i], out[i])
  }

  /** The leaf that the reader decodes is the one written, up to the codec's error. */
  lemma WrittenLeaf(c: Source, o: Output, done: seq<Coord>, dec: Decoder, accept: Acceptance, s: Coord, leaf: Coord)
    requires ValidSource(c) && FileWritten(c, o, done) && Accepted(FileOf(c, o))
    requires LeafCount(c.h) % CHUNK_LEAVES == 0 && KeepsSource(c, dec, accept)
    requires InBox(s, SuperGrid(c.h)) && InBox(leaf, LeafGrid(c.h))
    ensures PhysicalId(c.h, c.order, s) < |o.index| && Encode(leaf) < LeafCount(c.h)
    ensures KeepsLeaf(dec, accept, LeafInput(c.h, c.raw, s, Encode(leaf)), ValidMask(c.h, s, leaf),
                      RecordAt(FileOf(c, o), PhysicalId(c.h, c.order, s), Encode(leaf)))
  {
    LeafAddress(FileOf(c, o), s, leaf);
    AllLeavesEncoded(c.h);
    DecodeEncode(leaf);
    assert KeepsLeafAt(c, dec, accept, s, Encode(leaf));
    WrittenRecord(c, o, done, s, Encode(leaf));
  }

  /** Cell by cell. */
  lemma WrittenCell(c: Source, o: Output, done: seq<Coord>, dec: Decoder, accept: Acceptance, v: Raw, p: Coord)
    requires ValidSource(c) && FileWritten(c, o, done) && Readable(FileOf(c, o), dec) && VolumeOf(FileOf(c, o), dec, v)
    requires LeafCount(c.h) % CHUNK_LEAVES == 0 && KeepsSource(c, dec, accept) && InBox(p, c.h.n)
    ensures accept(Padded(c.raw, c.h.n, p), Padded(v, c.h.n, p))
  {
    var f := FileOf(c, o);
    var s, leaf, r := SuperOfCell(c.h, p), LeafOfCell(c.h, p), PlaceOfCell(c.h, p);
    PlaceInLeaf(c.h, p);
    PlacedAt(c.h, p);
    WrittenLeaf(c, o, done, dec, accept, s, leaf);
    assert LeafAgrees(f, dec, v, s, leaf);
    DecodeEncode(leaf);
    var cells := DecodedLeaf(f, dec, s, leaf).value;
    assert CellInVolume(c.h, s, leaf, r);
    assert LeafInput(c.h, c.raw, s, Encode(leaf))[r] == LeafCell(c.h, c.raw, s, leaf, r);
    assert cells[r] == LeafCell(c.h, v, s, leaf, r);
  }

  lemma PlacedAt(h: Header, p: Coord)
    requires Valid(h) && InBox(p, h.n)
    ensures Add(OriginOf(h, SuperOfCell(h, p), LeafOfCell(h, p)), Unflat(PlaceOfCell(h, p), h.leaf)) == p
  {
    LocateOnAxis(p.x, h.n.x, h.super.x, h.leaf.x);
    LocateOnAxis(p.y, h.n.y, h.super.y, h.leaf.y);
    LocateOnAxis(p.z, h.n.z, h.super.z, h.leaf.z);
    FlatInBox(Coord(p.x % h.super.x % h.leaf.x, p.y % h.super.y % h.leaf.y, p.z % h.super.z % h.leaf.z), h.leaf);
  }

  /** No read of a written file can fail for want of a decodable leaf. */
  lemma WrittenDecodes(c: Source, o: Output, done: seq<Coord>, dec: Decoder, accept: Acceptance, b: Batch)
    requires ValidSource(c) && FileWritten(c, o, done) && Readable(FileOf(c, o), dec) && Matches(FileOf(c, o), b)
    requires LeafCount(c.h) % CHUNK_LEAVES == 0 && KeepsSource(c, dec, accept)
    ensures NeededDecode(FileOf(c, o), dec, b)
  {
    forall r: Ref | ValidRef(b, r)
      ensures RefOk(FileOf(c, o), dec, b, r)
    {
      RefInGrid(b, r);
      WrittenLeaf(c, o, done, dec, accept, SuperOfRef(b, r), LeafOfRef(b, r));
    }
  }

  /** Every cell of every slice read from a written file is accepted against the raw volume. */
  lemma WrittenSlice(c: Source, o: Output, done: seq<Coord>, dec: Decoder, accept: Acceptance, v: Raw,
                     axis: Axis, index: nat, slice: seq<Float>, p: nat)
    requires ValidSource(c) && FileWritten(c, o, done) && Readable(FileOf(c, o), dec) && VolumeOf(FileOf(c, o), dec, v)
    requires LeafCount(c.h) % CHUNK_LEAVES == 0 && KeepsSource(c, dec, accept)
    requires index < Fixed(axis, c.h.n) && IsSlice(slice, c.h, v, axis, index)
    requires p < |slice| && Inner(axis, c.h.n) > 0
    ensures accept(SliceCell(c.h, c.raw, axis, index, p), slice[p])
  {
    var width := Inner(axis, c.h.n);
    DivBound(p, Outer(axis, c.h.n), width);
    DivModBack(p, width);
    WrittenCell(c, o, done, dec, accept, v, Make(axis, index, Row(p, width), Column(p, width)));
  }

  // ----- with the leaf codec itself -----

  /** Each result of the encoder has what EncodeBest promises of its own. */
  ghost predicate EncodedBy(z: Zfp, rounding: Rounding, cfg: CodecConfig, enc: Encoder)
  {
    forall cells, mask :: |cells| == LEAF_CELLS && |mask| == LEAF_CELLS ==>
      IsBest(z, rounding, cells, mask, cfg, Candidate(enc(cells, mask).codec, enc(cells, mask).payload))
  }

  /** What EncodeBest returns for every leaf is what the encoder does. */
  ghost predicate Encodes(z: Zfp, rounding: Rounding, cfg: CodecConfig, enc: Encoder)
    requires Lawful(z)
  {
    forall cells, mask :: |cells| == LEAF_CELLS && |mask| == LEAF_CELLS ==>
      BestOf(Block(z, rounding, cells, mask, cfg)) == Ok(Candidate(enc(cells, mask).codec, enc(cells, mask).payload))
  }

  /** The leaf codec is such an encoder. */
  lemma EncoderQualifies(z: Zfp, rounding: Rounding, cfg: CodecConfig, enc: Encoder)
    requires Lawful(z) && Encodes(z, rounding, cfg, enc)
    ensures EncodedBy(z, rounding, cfg, enc)
  {
    forall cells, mask | |cells| == LEAF_CELLS && |mask| == LEAF_CELLS
      ensures IsBest(z, rounding, cells, mask, cfg, Candidate(enc(cells, mask).codec, enc(cells, mask).payload))
    {
      BestIsSound(Block(z, rounding, cells, mask, cfg), Candidate(enc(cells, mask).codec, enc(cells, mask).payload));
    }
  }

  function AcceptedBy(error: ErrorConfig): Acceptance
  {
    (a: Float, b: Float) => Accepts(a, b, error)
  }

  ghost predicate DecodedBy(z: Zfp, dec: Decoder)
  {
    forall codec, data :: dec(codec, data) == DecodeRecord(z, codec, data)
  }

  /** No leaf of the source asks for an exponent that one signed byte cannot hold. */
  ghost predicate SourceExponentsFit(c: Source, z: Zfp, rounding: Rounding, cfg: CodecConfig)
    requires ValidSource(c)
  {
    forall s: Coord, m: nat :: InBox(s, SuperGrid(c.h)) && m < LeafCount(c.h) ==>
      ExponentsFit(z, rounding, LeafInput(c.h, c.raw, s, m), ValidMask(c.h, s, Decode(m)), cfg)
  }

  /** The codec's records always fit their descriptors. */
  lemma CodecFitsDescriptors(z: Zfp, rounding: Rounding, cfg: CodecConfig, enc: Encoder)
    requires EncodedBy(z, rounding, cfg, enc)
    ensures EncodesWithin(enc)
  {
    forall cells, mask | |cells| == LEAF_CELLS && |mask| == LEAF_CELLS
      ensures Encodable(enc(cells, mask))
    {
      assert IsBest(z, rounding, cells, mask, cfg, Candidate(enc(cells, mask).codec, enc(cells, mask).payload));
    }
  }

  lemma CodecKeepsSource(c: Source, z: Zfp, rounding: Rounding, cfg: CodecConfig, dec: Decoder)
    requires ValidSource(c) && EncodedBy(z, rounding, cfg, c.enc) && SourceExponentsFit(c, z, rounding, cfg)
    requires AcceptsIdentity(cfg.error) && DecodedBy(z, dec)
    ensures KeepsSource(c, dec, AcceptedBy(cfg.error))
  {
    var accept := AcceptedBy(cfg.error);
    forall s: Coord, m: nat | InBox(s, SuperGrid(c.h)) && m < LeafCount(c.h)
      ensures KeepsLeafAt(c, dec, accept, s, m)
    {
      var cells, mask := LeafInput(c.h, c.raw, s, m), ValidMask(c.h, s, Decode(m));
      var r := c.enc(cells, mask);
      assert IsBest(z, rounding, cells, mask, cfg, Candidate(r.codec, r.payload));
      assert Sound(z, cells, mask, cfg.error, Candidate(r.codec, r.payload));
    }
  }

  /**
   * The whole way: a volume encoded by the leaf codec, written to a file and read back as a slice has every cell
   * within the error allowed, whatever the compressor does.
   */
  lemma GuaranteedSlice(c: Source, o: Output, done: seq<Coord>, z: Zfp, rounding: Rounding, cfg: CodecConfig,
                        dec: Decoder, v: Raw, axis: Axis, index: nat, slice: seq<Float>, p: nat)
    requires ValidSource(c) && FileWritten(c, o, done) && Readable(FileOf(c, o), dec) && VolumeOf(FileOf(c, o), dec, v)
    requires EncodedBy(z, rounding, cfg, c.enc) && SourceExponentsFit(c, z, rounding, cfg)
    requires AcceptsIdentity(cfg.error) && DecodedBy(z, dec)
    requires LeafCount(c.h) % CHUNK_LEAVES == 0 && index < Fixed(axis, c.h.n) && IsSlice(slice, c.h, v, axis, index)
    requires p < |slice| && Inner(axis, c.h.n) > 0
    ensures Accepts(SliceCell(c.h, c.raw, axis, index, p), slice[p], cfg.error)
  {
    CodecKeepsSource(c, z, rounding, cfg, dec);
    WrittenSlice(c, o, done, dec, AcceptedBy(cfg.error), v, axis, index, slice, p);
  }
}
