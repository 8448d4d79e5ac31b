/** Encoding a plane block by block into one record, and decoding it again. */
module PlaneCodec {
  import opened Basics
  import opened Float32
  import opened RelativeError
  import opened BlockCells
  import opened LeafRecords
  import opened PlaneBlocks
  import opened PlaneChoice

  // ----- the record of a plane -----

  /** Three bits of codec above thirteen of size. */
  function BlockDescriptor(c: BlockRecord): nat
  {
    c.codec * 8192 + |c.payload|
  }

  /** Small enough for the descriptor. */
  predicate Describable(c: BlockRecord)
  {
    c.codec < 8 && |c.payload| < 8192
  }

  /** Two bytes of descriptor, the lower first, and the payload. */
  function BlockBytes(c: BlockRecord): (s: seq<Byte>)
    ensures |s| == 2 + |c.payload|
  {
    [BlockDescriptor(c) % 256, BlockDescriptor(c) / 256 % 256] + c.payload
  }

  lemma BlockDescriptorRoundTrip(c: BlockRecord)
    requires Describable(c)
    ensures BlockDescriptor(c) % 256 + 256 * (BlockDescriptor(c) / 256 % 256) == BlockDescriptor(c)
    ensures BlockDescriptor(c) / 8192 == c.codec && BlockDescriptor(c) % 8192 == |c.payload|
  {
    DivMod(c.codec, |c.payload|, 8192);
    DivModBack(BlockDescriptor(c), 256);
  }

  /** The size takes the lower byte and the low five bits of the upper one, the codec the other three. */
  lemma DescriptorBytes(c: BlockRecord)
    requires Describable(c)
    ensures BlockBytes(c) == [|c.payload| % 256, c.codec * 32 + |c.payload| / 256] + c.payload
  {
    assert BlockDescriptor(c) == (c.codec * 32 + |c.payload| / 256) * 256 + |c.payload| % 256;
  }

  /** The first n blocks one after the other. */
  function PlaneBytes(blocks: seq<BlockRecord>, n: nat): seq<Byte>
    requires n <= |blocks|
  {
    if n == 0 then [] else PlaneBytes(blocks, n - 1) + BlockBytes(blocks[n - 1])
  }

  lemma {:induction false} PlaneBytesGrow(blocks: seq<BlockRecord>, a: nat, b: nat)
    requires a <= b <= |blocks|
    ensures PlaneBytes(blocks, a) <= PlaneBytes(blocks, b)
  {
    if a < b {
      PlaneBytesGrow(blocks, a, b - 1);
    }
  }

  // ----- reading blocks off a record -----

  type BlockDecoder = (nat, seq<Byte>) -> Option<seq<Float>>

  /** The block at an offset and the offset behind it; none when the record ends early. */
  function BlockAt(record: seq<Byte>, offset: nat): Option<(BlockRecord, nat)>
  {
    if offset + 2 > |record| then None
    else
      var low: nat, high: nat := record[offset], record[offset + 1];
      var descriptor := low + 256 * high;
      var size := descriptor % 8192;
      if offset + 2 + size > |record| then None
      else Some((BlockRecord(descriptor / 8192, record[offset + 2..offset + 2 + size]), offset + 2 + size))
  }

  /** The cells of the next count blocks, which must end where the record ends. */
  function ParsePlane(dec: BlockDecoder, record: seq<Byte>, offset: nat, count: nat): Option<seq<seq<Float>>>
    decreases count
  {
    if count == 0 then if offset == |record| then Some([]) else None
    else match BlockAt(record, offset)
      case None => None
      case Some((c, next)) =>
        match dec(c.codec, c.payload)
        case None => None
        case Some(cells) =>
          match ParsePlane(dec, record, next, count - 1)
          case None => None
          case Some(rest) => Some([cells] + rest)
  }

  lemma BlockAtPrefix(front: seq<Byte>, c: BlockRecord, back: seq<Byte>, record: seq<Byte>)
    requires record == front + BlockBytes(c) + back && Describable(c)
    ensures BlockAt(record, |front|) == Some((c, |front| + 2 + |c.payload|))
  {
    var offset := |front|;
    BlockDescriptorRoundTrip(c);
    assert record[offset] == BlockBytes(c)[0] && record[offset + 1] == BlockBytes(c)[1];
    assert record[offset + 2..offset + 2 + |c.payload|] == c.payload;
  }

  lemma BlockAtEncoded(blocks: seq<BlockRecord>, b: nat, record: seq<Byte>)
    requires b < |blocks| && Describable(blocks[b]) && record == PlaneBytes(blocks, |blocks|)
    ensures BlockAt(record, |PlaneBytes(blocks, b)|) == Some((blocks[b], |PlaneBytes(blocks, b + 1)|))
  {
    PlaneBytesGrow(blocks, b + 1, |blocks|);
    var front, upTo := PlaneBytes(blocks, b), PlaneBytes(blocks, b + 1);
    BlockAtPrefix(front, blocks[b], record[|upTo|..], record);
  }

  /** What each block decodes to. */
  ghost predicate Decoded(dec: BlockDecoder, blocks: seq<BlockRecord>, cells: seq<seq<Float>>)
  {
    && |cells| == |blocks|
    && forall b :: 0 <= b < |blocks| ==>
         Describable(blocks[b]) && dec(blocks[b].codec, blocks[b].payload) == Some(cells[b])
  }

  lemma ParseNext(dec: BlockDecoder, record: seq<Byte>, offset: nat, left: nat, c: BlockRecord, next: nat, cells: seq<Float>,
                  parsed: Option<seq<seq<Float>>>)
    requires BlockAt(record, offset) == Some((c, next)) && dec(c.codec, c.payload) == Some(cells)
    requires parsed == ParsePlane(dec, record, next, left) && parsed.Some?
    ensures ParsePlane(dec, record, offset, left + 1) == Some([cells] + parsed.value)
  {
  }

  /** Parsing what was printed gives the blocks' cells, in order, and uses up every byte. */
  lemma {:induction false} PlaneRoundTrip(dec: BlockDecoder, blocks: seq<BlockRecord>, cells: seq<seq<Float>>, record: seq<Byte>, b: nat)
    requires Decoded(dec, blocks, cells) && b <= |blocks| && record == PlaneBytes(blocks, |blocks|)
    ensures ParsePlane(dec, record, |PlaneBytes(blocks, b)|, |blocks| - b) == Some(cells[b..])
    decreases |blocks| - b
  {
    if b == |blocks| {
      assert cells[b..] == [];
    } else {
      PlaneRoundTrip(dec, blocks, cells, record, b + 1);
      ParseBlock(dec, blocks, cells, record, b, |blocks| - (b + 1), cells[b + 1..]);
      FirstOfRest(cells, b);
    }
  }

  lemma PlaneParses(dec: BlockDecoder, blocks: seq<BlockRecord>, cells: seq<seq<Float>>, record: seq<Byte>)
    requires Decoded(dec, blocks, cells) && record == PlaneBytes(blocks, |blocks|)
    ensures ParsePlane(dec, record, 0, |blocks|) == Some(cells)
  {
    PlaneRoundTrip(dec, blocks, cells, record, 0);
    assert cells[0..] == cells;
  }

  lemma FirstOfRest(cells: seq<seq<Float>>, b: nat)
    requires b < |cells|
    ensures [cells[b]] + cells[b + 1..] == cells[b..]
  {
  }

  lemma ParseBlock(dec: BlockDecoder, blocks: seq<BlockRecord>, cells: seq<seq<Float>>, record: seq<Byte>, b: nat, left: nat,
                   rest: seq<seq<Float>>)
    requires Decoded(dec, blocks, cells) && b < |blocks| && record == PlaneBytes(blocks, |blocks|)
    requires ParsePlane(dec, record, |PlaneBytes(blocks, b + 1)|, left) == Some(rest)
    ensures ParsePlane(dec, record, |PlaneBytes(blocks, b)|, left + 1) == Some([cells[b]] + rest)
  {
    BlockAtEncoded(blocks, b, record);
    ParseNext(dec, record, |PlaneBytes(blocks, b)|, left, blocks[b], |PlaneBytes(blocks, b + 1)|, cells[b], Some(rest));
  }

  // ----- where a cell of the plane lies in its block -----

  function BlocksAlong(n: nat): nat
  {
    (n + 3) / 4
  }

  function Blocks(rows: nat, width: nat): nat
  {
    rows * width
  }

  function BlockCount(ny: nat, nz: nat): nat
  {
    Blocks(BlocksAlong(nz), BlocksAlong(ny))
  }

  /** Position of cell (y, z) in the plane. */
  function PlaneIndex(y: nat, z: nat, ny: nat): nat
  {
    z * ny + y
  }

  lemma PlaneIndexBound(y: nat, z: nat, ny: nat, nz: nat)
    requires y < ny && z < nz
    ensures PlaneIndex(y, z, ny) < nz * ny
  {
    RadixBound(z, y, nz, ny);
  }

  /** The cell at place i of block (cy, cz) lies in the plane. */
  predicate InPlane(cy: nat, cz: nat, i: nat, ny: nat, nz: nat)
  {
    cy * 4 + i % 4 < ny && cz * 4 + i / 4 < nz
  }

  function BlockMask(cy: nat, cz: nat, ny: nat, nz: nat): (mask: seq<bool>)
    ensures |mask| == BLOCK
  {
    seq(BLOCK, i requires 0 <= i < BLOCK => InPlane(cy, cz, i, ny, nz))
  }

  function PlaneCell(plane: seq<Float>, cy: nat, cz: nat, i: nat, ny: nat, nz: nat): Float
    requires |plane| == nz * ny
  {
    if InPlane(cy, cz, i, ny, nz) then
      PlaneIndexBound(cy * 4 + i % 4, cz * 4 + i / 4, ny, nz);
      plane[PlaneIndex(cy * 4 + i % 4, cz * 4 + i / 4, ny)]
    else ZERO
  }

  /** The cells of a block, zero beyond the plane. */
  function BlockInput(plane: seq<Float>, cy: nat, cz: nat, ny: nat, nz: nat): (input: seq<Float>)
    requires |plane| == nz * ny
    ensures |input| == BLOCK
  {
    seq(BLOCK, i requires 0 <= i < BLOCK => PlaneCell(plane, cy, cz, i, ny, nz))
  }

  // ----- encoding -----

  /** The cells and mask bits gathered so far are those of the block. */
  predicate Gathered(input: seq<Float>, mask: seq<bool>, plane: seq<Float>, cy: nat, cz: nat, ny: nat, nz: nat, n: nat)
    requires |plane| == nz * ny
  {
    && |input| == |mask| == n
    && forall i :: 0 <= i < n ==>
         mask[i] == InPlane(cy, cz, i, ny, nz) && input[i] == PlaneCell(plane, cy, cz, i, ny, nz)
  }

  method GatherCell(plane: seq<Float>, cy: nat, cz: nat, ny: nat, nz: nat, lz: nat, ly: nat)
    returns (cell: Float, valid: bool)
    requires |plane| == nz * ny && ly < 4 && lz < 4
    ensures cell == PlaneCell(plane, cy, cz, lz * 4 + ly, ny, nz) && valid == InPlane(cy, cz, lz * 4 + ly, ny, nz)
  {
    var gy, gz := cy * 4 + ly, cz * 4 + lz;
    valid := gy < ny && gz < nz;
    cell := ZERO;
    if valid {
      PlaneIndexBound(gy, gz, ny, nz);
      cell := plane[PlaneIndex(gy, gz, ny)];
    }
  }

  method GatherBlock(plane: seq<Float>, cy: nat, cz: nat, ny: nat, nz: nat) returns (input: seq<Float>, mask: seq<bool>)
    requires |plane| == nz * ny
    ensures input == BlockInput(plane, cy, cz, ny, nz) && mask == BlockMask(cy, cz, ny, nz)
  {
    input, mask := [], [];
    for lz := 0 to 4
      invariant Gathered(input, mask, plane, cy, cz, ny, nz, lz * 4)
    {
      for ly := 0 to 4
        invariant Gathered(input, mask, plane, cy, cz, ny, nz, lz * 4 + ly)
      {
        var cell, valid := GatherCell(plane, cy, cz, ny, nz, lz, ly);
        input, mask := input + [cell], mask + [valid];
      }
    }
  }

  /** The cells of block (cy, cz) with what is needed to encode them. */
  function BlockAtPlace(z: Zfp, rounding: Rounding, cfg: PlaneConfig, plane: seq<Float>, ny: nat, nz: nat,
                        cy: nat, cz: nat): (b: PlaneBlock)
    requires |plane| == nz * ny
    ensures IsPlaneBlock(b.input, b.mask)
  {
    PlaneBlock(z, rounding, BlockInput(plane, cy, cz, ny, nz), BlockMask(cy, cz, ny, nz), cfg)
  }

  /** Cell (ly, lz) of block (cy, cz) is cell (4 cy + ly, 4 cz + lz) of the plane, if the plane has that cell. */
  lemma EncodedCell(plane: seq<Float>, ny: nat, nz: nat, cy: nat, cz: nat, ly: nat, lz: nat, y: nat, z: nat)
    requires |plane| == nz * ny && ly < 4 && lz < 4 && y == cy * 4 + ly && z == cz * 4 + lz
    ensures BlockMask(cy, cz, ny, nz)[lz * 4 + ly] <==> y < ny && z < nz
    ensures y < ny && z < nz ==>
              0 <= z * ny + y < |plane| && BlockInput(plane, cy, cz, ny, nz)[lz * 4 + ly] == plane[z * ny + y]
    ensures !(y < ny && z < nz) ==> BlockInput(plane, cy, cz, ny, nz)[lz * 4 + ly] == ZERO
  {
    var i := lz * 4 + ly;
    assert i % 4 == ly && i / 4 == lz;
    if y < ny && z < nz {
      PlaneIndexBound(y, z, ny, nz);
    }
  }

  /** Record b is the best for its block: the blocks go along y first, then along z. */
  ghost predicate EncodesBlock(z: Zfp, rounding: Rounding, cfg: PlaneConfig, plane: seq<Float>, ny: nat, nz: nat,
                               b: nat, c: BlockRecord)
    requires |plane| == nz * ny && BlocksAlong(ny) > 0
  {
    var cy, cz := Column(b, BlocksAlong(ny)), Row(b, BlocksAlong(ny));
    IsBestBlock(BlockAtPlace(z, rounding, cfg, plane, ny, nz, cy, cz), c)
  }

  ghost predicate EncodesPlane(z: Zfp, rounding: Rounding, cfg: PlaneConfig, plane: seq<Float>, ny: nat, nz: nat,
                               blocks: seq<BlockRecord>)
    requires |plane| == nz * ny
  {
    BlocksAlong(ny) > 0 ==> forall b :: 0 <= b < |blocks| ==> EncodesBlock(z, rounding, cfg, plane, ny, nz, b, blocks[b])
  }

  /** Record cz * ceil(ny / 4) + cy is that of block (cy, cz). */
  lemma EncodedOrder(z: Zfp, rounding: Rounding, cfg: PlaneConfig, plane: seq<Float>, ny: nat, nz: nat,
                     blocks: seq<BlockRecord>, cy: nat, cz: nat, b: nat)
    requires |plane| == nz * ny && EncodesPlane(z, rounding, cfg, plane, ny, nz, blocks)
    requires cy < (ny + 3) / 4 && b == cz * ((ny + 3) / 4) + cy && b < |blocks|
    ensures IsBestBlock(BlockAtPlace(z, rounding, cfg, plane, ny, nz, cy, cz), blocks[b])
  {
    DivMod(cz, cy, BlocksAlong(ny));
    assert EncodesBlock(z, rounding, cfg, plane, ny, nz, b, blocks[b]);
  }

  lemma ExtendEncoded(z: Zfp, rounding: Rounding, cfg: PlaneConfig, plane: seq<Float>, ny: nat, nz: nat,
                      blocks: seq<BlockRecord>, c: BlockRecord)
    requires |plane| == nz * ny && BlocksAlong(ny) > 0 && EncodesPlane(z, rounding, cfg, plane, ny, nz, blocks)
    requires EncodesBlock(z, rounding, cfg, plane, ny, nz, |blocks|, c)
    ensures EncodesPlane(z, rounding, cfg, plane, ny, nz, blocks + [c])
  {
    forall b | 0 <= b < |blocks + [c]|
      ensures EncodesBlock(z, rounding, cfg, plane, ny, nz, b, (blocks + [c])[b])
    {
      if b < |blocks| {
        assert EncodesBlock(z, rounding, cfg, plane, ny, nz, b, blocks[b]);
      }
    }
  }

  method EncodeNext(z: Zfp, rounding: Rounding, cfg: PlaneConfig, plane: seq<Float>, ny: nat, nz: nat, cy: nat, cz: nat,
                    record: seq<Byte>, ghost blocks: seq<BlockRecord>)
    returns (record': seq<Byte>, ghost blocks': seq<BlockRecord>)
    requires LawfulPlanes(z) && |plane| == nz * ny && cy < BlocksAlong(ny)
    requires |blocks| == Blocks(cz, BlocksAlong(ny)) + cy && record == PlaneBytes(blocks, |blocks|)
    requires EncodesPlane(z, rounding, cfg, plane, ny, nz, blocks)
    ensures |blocks'| == |blocks| + 1 && record' == PlaneBytes(blocks', |blocks'|)
    ensures EncodesPlane(z, rounding, cfg, plane, ny, nz, blocks')
  {
    var input, mask := GatherBlock(plane, cy, cz, ny, nz);
    var c := EncodeBestBlock(PlaneBlock(z, rounding, input, mask, cfg));
    DivMod(cz, cy, BlocksAlong(ny));
    PlaneBytesSnoc(blocks, c);
    ExtendEncoded(z, rounding, cfg, plane, ny, nz, blocks, c);
    record' := record + BlockBytes(c);
    blocks' := blocks + [c];
  }

  method EncodeRow(z: Zfp, rounding: Rounding, cfg: PlaneConfig, plane: seq<Float>, ny: nat, nz: nat, cz: nat,
                   record: seq<Byte>, ghost blocks: seq<BlockRecord>)
    returns (record': seq<Byte>, ghost blocks': seq<BlockRecord>)
    requires LawfulPlanes(z) && |plane| == nz * ny
    requires |blocks| == Blocks(cz, BlocksAlong(ny)) && record == PlaneBytes(blocks, |blocks|)
    requires EncodesPlane(z, rounding, cfg, plane, ny, nz, blocks)
    ensures |blocks'| == |blocks| + BlocksAlong(ny) && record' == PlaneBytes(blocks', |blocks'|)
    ensures EncodesPlane(z, rounding, cfg, plane, ny, nz, blocks')
  {
    record', blocks' := record, blocks;
    for cy := 0 to BlocksAlong(ny)
      invariant |blocks'| == |blocks| + cy && record' == PlaneBytes(blocks', |blocks'|)
      invariant EncodesPlane(z, rounding, cfg, plane, ny, nz, blocks')
    {
      record', blocks' := EncodeNext(z, rounding, cfg, plane, ny, nz, cy, cz, record', blocks');
    }
  }

  lemma {:induction false} PlaneBytesFront(a: seq<BlockRecord>, b: seq<BlockRecord>, n: nat)
    requires n <= |a| && a <= b
    ensures PlaneBytes(b, n) == PlaneBytes(a, n)
  {
    if n > 0 {
      PlaneBytesFront(a, b, n - 1);
    }
  }

  lemma PlaneBytesSnoc(blocks: seq<BlockRecord>, c: BlockRecord)
    ensures PlaneBytes(blocks + [c], |blocks| + 1) == PlaneBytes(blocks, |blocks|) + BlockBytes(c)
  {
    PlaneBytesFront(blocks, blocks + [c], |blocks|);
  }

  method EncodePlane(z: Zfp, rounding: Rounding, cfg: PlaneConfig, plane: seq<Float>, ny: nat, nz: nat)
    returns (record: seq<Byte>, ghost blocks: seq<BlockRecord>)
    requires LawfulPlanes(z) && |plane| == nz * ny
    ensures |blocks| == BlockCount(ny, nz) && record == PlaneBytes(blocks, |blocks|)
    ensures EncodesPlane(z, rounding, cfg, plane, ny, nz, blocks)
  {
    record, blocks := [], [];
    for cz := 0 to BlocksAlong(nz)
      invariant |blocks| == Blocks(cz, BlocksAlong(ny)) && record == PlaneBytes(blocks, |blocks|)
      invariant EncodesPlane(z, rounding, cfg, plane, ny, nz, blocks)
    {
      MulNext(cz, BlocksAlong(ny));
      record, blocks := EncodeRow(z, rounding, cfg, plane, ny, nz, cz, record, blocks);
    }
  }

  // ----- decoding -----

  /** Where position p of the plane lies: its block along both axes, and its place in the block. */
  function BlockY(p: nat, ny: nat): nat
    requires ny > 0
  {
    Column(p, ny) / 4
  }

  function BlockZ(p: nat, ny: nat): nat
    requires ny > 0
  {
    Row(p, ny) / 4
  }

  function Place(p: nat, ny: nat): (r: nat)
    requires ny > 0
    ensures r < BLOCK
  {
    Row(p, ny) % 4 * 4 + Column(p, ny) % 4
  }

  /** Among the first n places of block (cy, cz). */
  predicate Written(p: nat, ny: nat, cy: nat, cz: nat, n: nat)
    requires ny > 0
  {
    BlockY(p, ny) == cy && BlockZ(p, ny) == cz && Place(p, ny) < n
  }

  /** At exactly place k of block (cy, cz). */
  predicate At(p: nat, ny: nat, cy: nat, cz: nat, k: nat)
    requires ny > 0
  {
    BlockY(p, ny) == cy && BlockZ(p, ny) == cz && Place(p, ny) == k
  }

  lemma SplitPlace(c: nat, r: nat, cy: nat, cz: nat, lz: nat, ly: nat)
    requires ly < 4 && lz < 4
    ensures c / 4 == cy && r / 4 == cz && r % 4 * 4 + c % 4 == lz * 4 + ly <==> c == cy * 4 + ly && r == cz * 4 + lz
  {
  }

  lemma OnePlace(p: nat, ny: nat, nz: nat, cy: nat, cz: nat, lz: nat, ly: nat)
    requires ny > 0 && p < nz * ny && ly < 4 && lz < 4
    ensures At(p, ny, cy, cz, lz * 4 + ly) <==>
            cy * 4 + ly < ny && cz * 4 + lz < nz && p == PlaneIndex(cy * 4 + ly, cz * 4 + lz, ny)
  {
    var gy, gz := cy * 4 + ly, cz * 4 + lz;
    SplitPlace(Column(p, ny), Row(p, ny), cy, cz, lz, ly);
    DivModBack(p, ny);
    DivBound(p, nz, ny);
    if gy < ny {
      DivMod(gz, gy, ny);
    }
  }

  method WriteCell(plane: array<Float>, cells: seq<Float>, cy: nat, cz: nat, ny: nat, nz: nat, lz: nat, ly: nat)
    requires plane.Length == nz * ny && |cells| == BLOCK && ly < 4 && lz < 4 && ny > 0
    modifies plane
    ensures forall p :: 0 <= p < plane.Length ==>
              plane[p] == if At(p, ny, cy, cz, lz * 4 + ly) then cells[lz * 4 + ly] else old(plane[p])
  {
    var gy, gz := cy * 4 + ly, cz * 4 + lz;
    if gy < ny && gz < nz {
      PlaneIndexBound(gy, gz, ny, nz);
      plane[PlaneIndex(gy, gz, ny)] := cells[lz * 4 + ly];
    }
    forall p | 0 <= p < plane.Length
      ensures plane[p] == if At(p, ny, cy, cz, lz * 4 + ly) then cells[lz * 4 + ly] else old(plane[p])
    {
      OnePlace(p, ny, nz, cy, cz, lz, ly);
    }
  }

  /** Writes the cells of a block that lie in the plane, and no others. */
  method WriteBlock(plane: array<Float>, cells: seq<Float>, cy: nat, cz: nat, ny: nat, nz: nat)
    requires plane.Length == nz * ny && |cells| == BLOCK && ny > 0
    modifies plane
    ensures forall p :: 0 <= p < plane.Length ==>
              plane[p] == if BlockY(p, ny) == cy && BlockZ(p, ny) == cz then cells[Place(p, ny)] else old(plane[p])
  {
    for lz := 0 to 4
      invariant forall p :: 0 <= p < plane.Length ==>
                  plane[p] == if Written(p, ny, cy, cz, lz * 4) then cells[Place(p, ny)] else old(plane[p])
    {
      for ly := 0 to 4
        invariant forall p :: 0 <= p < plane.Length ==>
                    plane[p] == if Written(p, ny, cy, cz, lz * 4 + ly) then cells[Place(p, ny)] else old(plane[p])
      {
        WriteCell(plane, cells, cy, cz, ny, nz, lz, ly);
      }
    }
  }

  function BlockOf(p: nat, ny: nat): nat
    requires ny > 0
  {
    BlockZ(p, ny) * BlocksAlong(ny) + BlockY(p, ny)
  }

  lemma BlockOfBound(p: nat, ny: nat, nz: nat)
    requires ny > 0 && p < nz * ny
    ensures BlockY(p, ny) < BlocksAlong(ny) && BlockOf(p, ny) < BlockCount(ny, nz)
    ensures Column(BlockOf(p, ny), BlocksAlong(ny)) == BlockY(p, ny) && Row(BlockOf(p, ny), BlocksAlong(ny)) == BlockZ(p, ny)
  {
    DivModBack(p, ny);
    DivBound(p, nz, ny);
    RadixBound(BlockZ(p, ny), BlockY(p, ny), BlocksAlong(nz), BlocksAlong(ny));
    DivMod(BlockZ(p, ny), BlockY(p, ny), BlocksAlong(ny));
  }

  /** The cells of the blocks done so far are in the plane. */
  ghost predicate Filled(plane: seq<Float>, done: seq<seq<Float>>, ny: nat)
  {
    && (forall b :: 0 <= b < |done| ==> |done[b]| == BLOCK)
    && (ny > 0 ==>
          forall p :: 0 <= p < |plane| && BlockOf(p, ny) < |done| ==> plane[p] == done[BlockOf(p, ny)][Place(p, ny)])
  }

  /** Cell (y, z) comes from block (y / 4, z / 4), from its cell (y % 4, z % 4). */
  lemma DecodedCell(plane: seq<Float>, done: seq<seq<Float>>, ny: nat, y: nat, z: nat, p: nat, b: nat)
    requires Filled(plane, done, ny) && y < ny && p == z * ny + y && p < |plane|
    requires b == z / 4 * ((ny + 3) / 4) + y / 4 && b < |done|
    ensures |done[b]| == BLOCK && plane[p] == done[b][z % 4 * 4 + y % 4]
  {
    DivMod(z, y, ny);
    assert BlockOf(p, ny) == b && Place(p, ny) == z % 4 * 4 + y % 4;
  }

  lemma FillNext(before: seq<Float>, after: seq<Float>, done: seq<seq<Float>>, cells: seq<Float>, ny: nat, nz: nat,
                 cy: nat, cz: nat)
    requires ny > 0 && |before| == |after| == nz * ny && Filled(before, done, ny) && |cells| == BLOCK
    requires cy == Column(|done|, BlocksAlong(ny)) && cz == Row(|done|, BlocksAlong(ny))
    requires forall p :: 0 <= p < |after| ==>
               after[p] == if BlockY(p, ny) == cy && BlockZ(p, ny) == cz then cells[Place(p, ny)] else before[p]
    ensures Filled(after, done + [cells], ny)
  {
    forall p | 0 <= p < |after| && BlockOf(p, ny) < |done| + 1
      ensures after[p] == (done + [cells])[BlockOf(p, ny)][Place(p, ny)]
    {
      BlockOfBound(p, ny, nz);
      DivModBack(|done|, BlocksAlong(ny));
    }
  }

  ghost predicate DecodesBlocks(dec: BlockDecoder)
  {
    forall codec, data :: dec(codec, data).Some? ==> |dec(codec, data).value| == BLOCK
  }

  /** What remains to be parsed, behind what has been parsed. */
  function After(done: seq<seq<Float>>, rest: Option<seq<seq<Float>>>): Option<seq<seq<Float>>>
  {
    match rest case None => None case Some(more) => Some(done + more)
  }

  lemma AfterNothing(rest: Option<seq<seq<Float>>>)
    ensures After([], rest) == rest
  {
    if rest.Some? {
      assert [] + rest.value == rest.value;
    }
  }

  lemma ParseStep(dec: BlockDecoder, record: seq<Byte>, offset: nat, left: nat, done: seq<seq<Float>>)
    requires left > 0
    ensures match BlockAt(record, offset)
            case None => ParsePlane(dec, record, offset, left) == None
            case Some((c, next)) =>
              match dec(c.codec, c.payload)
              case None => ParsePlane(dec, record, offset, left) == None
              case Some(cells) =>
                After(done, ParsePlane(dec, record, offset, left))
                == After(done + [cells], ParsePlane(dec, record, next, left - 1))
  {
    match BlockAt(record, offset)
    case None =>
    case Some((c, next)) =>
      match dec(c.codec, c.payload)
      case None =>
      case Some(cells) =>
        match ParsePlane(dec, record, next, left - 1)
        case None =>
        case Some(rest) => assert (done + [cells]) + rest == done + ([cells] + rest);
  }

  /** Decodes the blocks one after the other into the plane; all of the record must be used up. */
  method DecodePlane(dec: BlockDecoder, record: seq<Byte>, plane: array<Float>, ny: nat, nz: nat)
    returns (ok: bool, ghost blocks: seq<seq<Float>>)
    requires plane.Length == nz * ny && DecodesBlocks(dec)
    modifies plane
    ensures ok == ParsePlane(dec, record, 0, BlockCount(ny, nz)).Some?
    ensures ok ==> ParsePlane(dec, record, 0, BlockCount(ny, nz)) == Some(blocks) && Filled(plane[..], blocks, ny)
  {
    var total := BlockCount(ny, nz);
    var offset: nat, b: nat := 0, 0;
    blocks := [];
    AfterNothing(ParsePlane(dec, record, 0, total));
    while b < total
      invariant b <= total && |blocks| == b && Filled(plane[..], blocks, ny)
      invariant ParsePlane(dec, record, 0, total) == After(blocks, ParsePlane(dec, record, offset, total - b))
    {
      ParseStep(dec, record, offset, total - b, blocks);
      var at := BlockAt(record, offset);
      if at == None {
        return false, blocks;
      }
      var decoded := dec(at.value.0.codec, at.value.0.payload);
      if decoded == None {
        return false, blocks;
      }
      offset := at.value.1;
      var cz, cy := Row(b, BlocksAlong(ny)), Column(b, BlocksAlong(ny));
      ghost var before := plane[..];
      WriteBlock(plane, decoded.value, cy, cz, ny, nz);
      FillNext(before, plane[..], blocks, decoded.value, ny, nz, cy, cz);
      blocks := blocks + [decoded.value];
      b := b + 1;
    }
    ok := offset == |record|;
    assert blocks + [] == blocks;
  }

  // ----- the whole way -----

  /** No block of the plane asks for an exponent that one signed byte cannot hold. */
  ghost predicate PlaneExponentsFit(rounding: Rounding, cfg: PlaneConfig, plane: seq<Float>, ny: nat, nz: nat)
    requires |plane| == nz * ny
  {
    forall cy: nat, cz: nat :: BlockFits(rounding, cfg, plane, ny, nz, cy, cz)
  }

  ghost predicate BlockFits(rounding: Rounding, cfg: PlaneConfig, plane: seq<Float>, ny: nat, nz: nat, cy: nat, cz: nat)
    requires |plane| == nz * ny
  {
    var input, mask := BlockInput(plane, cy, cz, ny, nz), BlockMask(cy, cz, ny, nz);
    BlockExponentFits(rounding, input, mask, MandatoryMask(input, mask), cfg.error)
  }

  ghost predicate DecodesWith(z: Zfp, dec: BlockDecoder)
  {
    forall codec, data :: dec(codec, data) == DecodeBlock(z, codec, data)
  }

  /** Position p of the plane is at its place in its block, and is not padding. */
  lemma CellInBlock(plane: seq<Float>, ny: nat, nz: nat, p: nat)
    requires |plane| == nz * ny && ny > 0 && p < |plane|
    ensures BlockMask(BlockY(p, ny), BlockZ(p, ny), ny, nz)[Place(p, ny)]
    ensures BlockInput(plane, BlockY(p, ny), BlockZ(p, ny), ny, nz)[Place(p, ny)] == plane[p]
  {
    var i := Place(p, ny);
    DivModBack(p, ny);
    DivBound(p, nz, ny);
    assert i % 4 == Column(p, ny) % 4 && i / 4 == Row(p, ny) % 4;
    assert BlockY(p, ny) * 4 + i % 4 == Column(p, ny) && BlockZ(p, ny) * 4 + i / 4 == Row(p, ny);
  }

  /** A block as encoded decodes to accepted cells. */
  lemma EncodedSound(z: Zfp, rounding: Rounding, cfg: PlaneConfig, plane: seq<Float>, ny: nat, nz: nat, b: nat,
                     c: BlockRecord)
    requires |plane| == nz * ny && BlocksAlong(ny) > 0 && EncodesBlock(z, rounding, cfg, plane, ny, nz, b, c)
    requires LawfulPlanes(z) && AcceptsIdentity(cfg.error) && PlaneExponentsFit(rounding, cfg, plane, ny, nz)
    ensures var cy, cz := Column(b, BlocksAlong(ny)), Row(b, BlocksAlong(ny));
            SoundBlock(z, BlockInput(plane, cy, cz, ny, nz), BlockMask(cy, cz, ny, nz), cfg.error, c) && Describable(c)
  {
    var cy, cz := Column(b, BlocksAlong(ny)), Row(b, BlocksAlong(ny));
    BestBlockGood(BlockAtPlace(z, rounding, cfg, plane, ny, nz, cy, cz), c);
    assert BlockFits(rounding, cfg, plane, ny, nz, cy, cz);
  }

  lemma CellAccepted(z: Zfp, rounding: Rounding, cfg: PlaneConfig, plane: seq<Float>, ny: nat, nz: nat,
                     blocks: seq<BlockRecord>, cells: seq<seq<Float>>, out: seq<Float>, dec: BlockDecoder, p: nat)
    requires |plane| == nz * ny == |out| && EncodesPlane(z, rounding, cfg, plane, ny, nz, blocks)
    requires |blocks| == BlockCount(ny, nz) && Decoded(dec, blocks, cells) && DecodesWith(z, dec)
    requires LawfulPlanes(z) && AcceptsIdentity(cfg.error) && PlaneExponentsFit(rounding, cfg, plane, ny, nz)
    requires Filled(out, cells, ny) && p < |plane|
    ensures Accepts(plane[p], out[p], cfg.error)
  {
    var b := BlockOf(p, ny);
    BlockOfBound(p, ny, nz);
    CellInBlock(plane, ny, nz, p);
    EncodedSound(z, rounding, cfg, plane, ny, nz, b, blocks[b]);
    assert cells[b] == DecodeBlock(z, blocks[b].codec, blocks[b].payload).value;
    assert out[p] == cells[b][Place(p, ny)];
  }

  lemma AllDecoded(z: Zfp, rounding: Rounding, cfg: PlaneConfig, plane: seq<Float>, ny: nat, nz: nat,
                   blocks: seq<BlockRecord>, dec: BlockDecoder)
    returns (cells: seq<seq<Float>>)
    requires |plane| == nz * ny && EncodesPlane(z, rounding, cfg, plane, ny, nz, blocks)
    requires |blocks| == BlockCount(ny, nz) && DecodesWith(z, dec)
    requires LawfulPlanes(z) && AcceptsIdentity(cfg.error) && PlaneExponentsFit(rounding, cfg, plane, ny, nz)
    ensures Decoded(dec, blocks, cells)
  {
    forall b | 0 <= b < |blocks|
      ensures dec(blocks[b].codec, blocks[b].payload).Some? && Describable(blocks[b])
    {
      EncodedSound(z, rounding, cfg, plane, ny, nz, b, blocks[b]);
    }
    cells := seq(|blocks|, b requires 0 <= b < |blocks| && dec(blocks[b].codec, blocks[b].payload).Some? =>
                             dec(blocks[b].codec, blocks[b].payload).value);
  }

  /**
   * Decoding what was encoded succeeds, uses up the whole record, and sets every cell of the plane to a value that
   * the error check accepts; padding never reaches the plane.
   */
  lemma PlaneGuarantee(z: Zfp, rounding: Rounding, cfg: PlaneConfig, plane: seq<Float>, ny: nat, nz: nat,
                       blocks: seq<BlockRecord>, record: seq<Byte>, dec: BlockDecoder)
    returns (cells: seq<seq<Float>>)
    requires |plane| == nz * ny && EncodesPlane(z, rounding, cfg, plane, ny, nz, blocks)
    requires |blocks| == BlockCount(ny, nz) && record == PlaneBytes(blocks, |blocks|) && DecodesWith(z, dec)
    requires LawfulPlanes(z) && AcceptsIdentity(cfg.error) && PlaneExponentsFit(rounding, cfg, plane, ny, nz)
    ensures ParsePlane(dec, record, 0, BlockCount(ny, nz)) == Some(cells)
    ensures forall out, p :: |out| == |plane| && Filled(out, cells, ny) && 0 <= p < |plane| ==>
              Accepts(plane[p], out[p], cfg.error)
  {
    cells := AllDecoded(z, rounding, cfg, plane, ny, nz, blocks, dec);
    PlaneParses(dec, blocks, cells, record);
    forall out, p | |out| == |plane| && Filled(out, cells, ny) && 0 <= p < |plane|
      ensures Accepts(plane[p], out[p], cfg.error)
    {
      CellAccepted(z, rounding, cfg, plane, ny, nz, blocks, cells, out, dec, p);
    }
  }
}
