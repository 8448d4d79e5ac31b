/** Writing the compressed file: every superblock is packed, encoded leaf by leaf and appended to the payload. */
module RzfpWriter {
  import opened Basics
  import opened Float32
  import opened Morton
  import opened Layout
  import opened SliceReader
  import opened RzfpFormat
  import opened RzfpFile

  const LEAF: Coord := Coord(4, 4, 4)
  const LEAF_CELLS: nat := 64
  const CHUNK_LEAVES: nat := 64

  type Encoder = (seq<Float>, seq<bool>) -> Record

  ghost predicate EncodesWithin(enc: Encoder)
  {
    forall cells, mask :: |cells| == LEAF_CELLS && |mask| == LEAF_CELLS ==> Encodable(enc(cells, mask))
  }

  // ----- what is to be encoded -----

  /** The 64 cells of leaf number code of superblock s. */
  function LeafInput(h: Header, raw: Raw, s: Coord, code: nat): (r: seq<Float>)
    requires Valid(h) && IsRaw(raw, h.n) && h.leaf == LEAF
  {
    seq(LEAF_CELLS, i requires 0 <= i < LEAF_CELLS => LeafCell(h, raw, s, Decode(code), i))
  }

  function ValidMask(h: Header, s: Coord, leaf: Coord): seq<bool>
    requires Valid(h) && h.leaf == LEAF
  {
    seq(LEAF_CELLS, i requires 0 <= i < LEAF_CELLS => CellInVolume(h, s, leaf, i))
  }

  /** Bit (z * 4 + y) * 4 + x is set when the cell is in the volume. */
  method BuildValidMask(h: Header, s: Coord, leaf: Coord) returns (mask: seq<bool>)
    requires Valid(h) && h.leaf == LEAF
    ensures mask == ValidMask(h, s, leaf)
  {
    var start := Add(Times(s, h.super), Times(leaf, h.leaf));
    mask := [];
    for z := 0 to 4
      invariant |mask| == z * 16 && MaskUpTo(mask, h, s, leaf)
    {
      for y := 0 to 4
        invariant |mask| == z * 16 + y * 4 && MaskUpTo(mask, h, s, leaf)
      {
        for x := 0 to 4
          invariant |mask| == z * 16 + y * 4 + x && MaskUpTo(mask, h, s, leaf)
        {
          MaskBit(h, s, leaf, z, y, x);
          mask := mask + [InBox(Add(start, Coord(x, y, z)), h.n)];
        }
      }
    }
  }

  predicate MaskUpTo(mask: seq<bool>, h: Header, s: Coord, leaf: Coord)
    requires Valid(h) && h.leaf == LEAF
  {
    forall i :: 0 <= i < |mask| ==> mask[i] == CellInVolume(h, s, leaf, i)
  }

  lemma MaskBit(h: Header, s: Coord, leaf: Coord, z: nat, y: nat, x: nat)
    requires Valid(h) && h.leaf == LEAF && z < 4 && y < 4 && x < 4
    ensures CellInVolume(h, s, leaf, z * 16 + y * 4 + x)
            == InBox(Add(Add(Times(s, h.super), Times(leaf, h.leaf)), Coord(x, y, z)), h.n)
  {
    FlatInBox(Coord(x, y, z), LEAF);
  }

  /** Leaves are handed to the encoder in chunks of 64; what is left after the last whole chunk is not. */
  function EncodedLeaves(h: Header): nat
    requires Valid(h)
  {
    LeafCount(h) / CHUNK_LEAVES * CHUNK_LEAVES
  }

  function StoredRecord(h: Header, raw: Raw, s: Coord, m: nat, enc: Encoder): Record
    requires Valid(h) && IsRaw(raw, h.n) && h.leaf == LEAF
  {
    if m < EncodedLeaves(h) then enc(LeafInput(h, raw, s, m), ValidMask(h, s, Decode(m))) else Record(0, [])
  }

  function StoredRecords(h: Header, raw: Raw, s: Coord, enc: Encoder): (r: seq<Record>)
    requires Valid(h) && IsRaw(raw, h.n) && h.leaf == LEAF
    ensures |r| == LeafCount(h)
  {
    seq(LeafCount(h), m requires 0 <= m < LeafCount(h) => StoredRecord(h, raw, s, m, enc))
  }

  lemma StoredEncodable(h: Header, raw: Raw, s: Coord, enc: Encoder)
    requires Valid(h) && IsRaw(raw, h.n) && h.leaf == LEAF && EncodesWithin(enc)
    ensures AllEncodable(StoredRecords(h, raw, s, enc))
  {
  }

  /** Every leaf is encoded exactly when whole chunks fill the superblock. */
  lemma AllLeavesEncoded(h: Header)
    requires Valid(h)
    ensures EncodedLeaves(h) == LeafCount(h) <==> LeafCount(h) % CHUNK_LEAVES == 0
    ensures EncodedLeaves(h) <= LeafCount(h)
  {
    DivModBack(LeafCount(h), CHUNK_LEAVES);
  }

  /** Superblocks of eight leaves lose all their leaves: no record is stored for any of them. */
  lemma SmallSuperblockStoresNothing(raw: Raw, s: Coord, enc: Encoder)
    requires |raw| == 512 && EncodesWithin(enc)
    ensures var h := Header(Coord(8, 8, 8), Coord(8, 8, 8), LEAF, 0);
            && Valid(h) && IsRaw(raw, h.n) && LeafCount(h) == 8
            && forall m :: 0 <= m < 8 ==> StoredRecord(h, raw, s, m, enc) == Record(0, [])
  {
    var h := Header(Coord(8, 8, 8), Coord(8, 8, 8), LEAF, 0);
    assert LeafGrid(h) == Coord(2, 2, 2);
  }

  // ----- encoding a superblock -----

  /** The records of leaves start up to start + count, from the packed superblock. */
  method EncodeLeafChunk(buffer: seq<Float>, h: Header, ghost raw: Raw, s: Coord, start: nat, enc: Encoder)
    returns (records: seq<Record>)
    requires Valid(h) && IsRaw(raw, h.n) && h.leaf == LEAF && |buffer| == LeafCount(h) * LEAF_CELLS
    requires PackedUpTo(buffer, h, raw, s, |buffer|) && start + CHUNK_LEAVES <= EncodedLeaves(h)
    ensures |records| == CHUNK_LEAVES
    ensures forall k :: 0 <= k < CHUNK_LEAVES ==> records[k] == StoredRecord(h, raw, s, start + k, enc)
  {
    AllLeavesEncoded(h);
    records := [];
    for k := 0 to CHUNK_LEAVES
      invariant |records| == k
      invariant forall j :: 0 <= j < k ==> records[j] == StoredRecord(h, raw, s, start + j, enc)
    {
      var morton := start + k;
      InputFromBuffer(buffer, h, raw, s, morton);
      var input := buffer[morton * LEAF_CELLS..morton * LEAF_CELLS + LEAF_CELLS];
      var mask := BuildValidMask(h, s, Decode(morton));
      records := records + [enc(input, mask)];
    }
  }

  lemma InputFromBuffer(buffer: seq<Float>, h: Header, raw: Raw, s: Coord, code: nat)
    requires Valid(h) && IsRaw(raw, h.n) && h.leaf == LEAF && |buffer| == LeafCount(h) * LEAF_CELLS
    requires PackedUpTo(buffer, h, raw, s, |buffer|) && code < LeafCount(h)
    ensures buffer[code * LEAF_CELLS..code * LEAF_CELLS + LEAF_CELLS] == LeafInput(h, raw, s, code)
  {
    forall r | 0 <= r < LEAF_CELLS
      ensures buffer[code * LEAF_CELLS + r] == LeafCell(h, raw, s, Decode(code), r)
    {
      PackedLeaf(h, raw, s, code, r);
    }
  }

  /** The first count records of a superblock, described and concatenated. */
  ghost predicate PackedRecords(descriptors: seq<Descriptor>, payload: seq<Byte>, all: seq<Record>, count: nat)
  {
    && count <= |all| && |descriptors| == count
    && Describes(descriptors, all) && payload == Payload(all, count)
  }

  lemma AppendRecords(all: seq<Record>, front: nat, chunk: seq<Record>, descriptors: seq<Descriptor>,
                      payload: seq<Byte>, more: seq<Descriptor>)
    requires PackedRecords(descriptors, payload, all, front) && front + |chunk| <= |all|
    requires forall i :: 0 <= i < |chunk| ==> chunk[i] == all[front + i]
    requires |more| == |chunk| && Describes(more, chunk)
    ensures PackedRecords(descriptors + more, payload + Payload(chunk, |chunk|), all, front + |chunk|)
  {
    DescribesBoth(all, front, chunk, descriptors, more);
    PayloadBoth(all, front, chunk, payload);
  }

  lemma PayloadBoth(all: seq<Record>, front: nat, chunk: seq<Record>, payload: seq<Byte>)
    requires front + |chunk| <= |all| && payload == Payload(all, front)
    requires forall i :: 0 <= i < |chunk| ==> chunk[i] == all[front + i]
    ensures payload + Payload(chunk, |chunk|) == Payload(all, front + |chunk|)
  {
    PayloadStretch(all, chunk, front, |chunk|);
  }

  lemma DescribesBoth(all: seq<Record>, front: nat, chunk: seq<Record>, descriptors: seq<Descriptor>, more: seq<Descriptor>)
    requires Describes(descriptors, all) && |descriptors| == front && front + |chunk| <= |all|
    requires forall i :: 0 <= i < |chunk| ==> chunk[i] == all[front + i]
    requires |more| == |chunk| && Describes(more, chunk)
    ensures Describes(descriptors + more, all)
  {
  }

  method AppendChunk(buffer: seq<Float>, h: Header, ghost raw: Raw, s: Coord, enc: Encoder, start: nat,
                     descriptors: seq<Descriptor>, payload: seq<Byte>, ghost all: seq<Record>)
    returns (descriptors': seq<Descriptor>, payload': seq<Byte>)
    requires Valid(h) && IsRaw(raw, h.n) && h.leaf == LEAF && |buffer| == LeafCount(h) * LEAF_CELLS
    requires PackedUpTo(buffer, h, raw, s, |buffer|) && start + CHUNK_LEAVES <= EncodedLeaves(h)
    requires all == StoredRecords(h, raw, s, enc) && PackedRecords(descriptors, payload, all, start)
    ensures PackedRecords(descriptors', payload', all, start + CHUNK_LEAVES)
  {
    AllLeavesEncoded(h);
    var chunk := EncodeLeafChunk(buffer, h, raw, s, start, enc);
    assert forall k :: 0 <= k < |chunk| ==> chunk[k] == all[start + k];
    var chunkDescriptors, chunkPayload := PackChunk(chunk);
    AppendRecords(all, start, chunk, descriptors, payload, chunkDescriptors);
    descriptors' := descriptors + chunkDescriptors;
    payload' := payload + chunkPayload;
  }

  /** The leaves that no chunk covers: no payload, and descriptors left at zero. */
  lemma LeftOver(descriptors: seq<Descriptor>, payload: seq<Byte>, all: seq<Record>, done: nat, zeros: seq<Descriptor>)
    requires PackedRecords(descriptors, payload, all, done)
    requires forall i :: done <= i < |all| ==> all[i] == Record(0, [])
    requires |zeros| == |all| - done && forall i :: 0 <= i < |zeros| ==> zeros[i] == 0
    ensures PackedRecords(descriptors + zeros, payload, all, |all|)
  {
    var rest := all[done..];
    EmptyRecords(rest, |rest|);
    AppendRecords(all, done, rest, descriptors, payload, zeros);
  }

  /** All leaves of a superblock. */
  method EncodeSuperblock(buffer: seq<Float>, h: Header, ghost raw: Raw, s: Coord, enc: Encoder)
    returns (descriptors: seq<Descriptor>, payload: seq<Byte>)
    requires Valid(h) && IsRaw(raw, h.n) && h.leaf == LEAF && |buffer| == LeafCount(h) * LEAF_CELLS
    requires PackedUpTo(buffer, h, raw, s, |buffer|) && EncodesWithin(enc)
    ensures PackedRecords(descriptors, payload, StoredRecords(h, raw, s, enc), LeafCount(h))
  {
    var leaves := LeafCount(h);
    var numChunks := leaves / CHUNK_LEAVES;
    AllLeavesEncoded(h);
    StoredEncodable(h, raw, s, enc);
    ghost var all := StoredRecords(h, raw, s, enc);
    descriptors, payload := [], [];
    for c := 0 to numChunks
      invariant PackedRecords(descriptors, payload, all, c * CHUNK_LEAVES)
    {
      descriptors, payload := AppendChunk(buffer, h, raw, s, enc, c * CHUNK_LEAVES, descriptors, payload, all);
    }
    var zeros: seq<Descriptor> := seq(leaves - numChunks * CHUNK_LEAVES, _ => 0);
    LeftOver(descriptors, payload, all, numChunks * CHUNK_LEAVES, zeros);
    descriptors := descriptors + zeros;
  }

  lemma {:induction false} EmptyRecords(records: seq<Record>, count: nat)
    requires count <= |records| && forall i :: 0 <= i < |records| ==> records[i] == Record(0, [])
    ensures Payload(records, count) == [] && forall i :: 0 <= i < count ==> MakeDescriptor(records[i]) == 0
  {
    if count > 0 {
      EmptyRecords(records, count - 1);
    }
  }

  method PackChunk(records: seq<Record>) returns (descriptors: seq<Descriptor>, payload: seq<Byte>)
    requires AllEncodable(records)
    ensures PackedRecords(descriptors, payload, records, |records|)
  {
    descriptors, payload := [], [];
    for k := 0 to |records|
      invariant PackedRecords(descriptors, payload, records, k)
    {
      descriptors := descriptors + [MakeDescriptor(records[k])];
      payload := payload + records[k].payload;
    }
  }
}
