/** Where a leaf lies in the file, and what is stored there. */
module LeafExtents {
  import opened Basics
  import opened Float32
  import opened Morton
  import opened Layout
  import opened Extents

  /** The leaf with the given Morton code in superblock s. */
  function CodeExtent(h: Header, s: Coord, code: nat): Extent
    requires Valid(h)
  {
    Extent(SuperblockOffset(h, SuperblockId(h, s)) + code * Volume(h.leaf), Volume(h.leaf))
  }

  function LeafExtent(h: Header, s: Coord, leaf: Coord): Extent
    requires Valid(h)
  {
    CodeExtent(h, s, Encode(leaf))
  }

  /** A stored leaf, cell by cell. */
  lemma LeafStored(file: seq<Float>, h: Header, raw: Raw, s: Coord, leaf: Coord, c: Coord)
    requires Valid(h) && IsRaw(raw, h.n) && Volume(h.leaf) > 0 && Gapless(LeafGrid(h)) && Stored(file, h, raw)
    requires InBox(s, SuperGrid(h)) && InBox(leaf, LeafGrid(h)) && InBox(c, h.leaf)
    ensures End(LeafExtent(h, s, leaf)) <= |file| && Flat(c, h.leaf) < Volume(h.leaf)
    ensures file[LeafExtent(h, s, leaf).offset + Flat(c, h.leaf)]
         == Layout.Padded(raw, h.n, Add(Add(Times(s, h.super), Times(leaf, h.leaf)), c))
  {
    FlatInBox(c, h.leaf);
    LeafFits(h, leaf);
    PackedLeafCell(h, raw, s, leaf, c);
    assert SuperblockStored(file, h, raw, s);
    StoredPart(file, h, raw, s, Encode(leaf) * Volume(h.leaf), Volume(h.leaf), Flat(c, h.leaf));
  }

  lemma LeafFits(h: Header, leaf: Coord)
    requires Valid(h) && Gapless(LeafGrid(h)) && InBox(leaf, LeafGrid(h))
    ensures Encode(leaf) * Volume(h.leaf) + Volume(h.leaf) <= Volume(h.super)
  {
    DecodeEncode(leaf);
    LeafGridExact(h);
    LeafRoom(Encode(leaf), Volume(LeafGrid(h)), Volume(h.leaf));
  }

  lemma PackedLeafCell(h: Header, raw: Raw, s: Coord, leaf: Coord, c: Coord)
    requires Valid(h) && IsRaw(raw, h.n) && Volume(h.leaf) > 0 && InBox(c, h.leaf)
    ensures PackedCell(h, raw, s, Encode(leaf) * Volume(h.leaf) + Flat(c, h.leaf))
         == Layout.Padded(raw, h.n, Add(Add(Times(s, h.super), Times(leaf, h.leaf)), c))
  {
    FlatInBox(c, h.leaf);
    DecodeEncode(leaf);
    PackedLeaf(h, raw, s, Encode(leaf), Flat(c, h.leaf));
  }

  lemma LeafRoom(code: nat, count: nat, volume: nat)
    requires code < count
    ensures code * volume + volume <= count * volume
  {
    MulMono(code + 1, count, volume);
  }

  lemma StoredPart(file: seq<Float>, h: Header, raw: Raw, s: Coord, start: nat, size: nat, i: nat)
    requires Valid(h) && IsRaw(raw, h.n) && Volume(h.leaf) > 0 && SuperblockStored(file, h, raw, s)
    requires start + size <= Volume(h.super) && i < size
    ensures SuperblockOffset(h, SuperblockId(h, s)) + start + size <= |file|
    ensures file[SuperblockOffset(h, SuperblockId(h, s)) + start + i] == PackedCell(h, raw, s, start + i)
  {
    var offset := SuperblockOffset(h, SuperblockId(h, s));
    assert file[offset..offset + Volume(h.super)][start + i] == file[offset + start + i];
  }
}
