/** Where the cells of a volume live: raw files, superblocks and Morton-ordered leaves. */
module Layout {
  import opened Basics
  import opened Float32
  import opened Morton

  // ----- boxes -----

  function Add(a: Coord, b: Coord): Coord
  {
    Coord(a.x + b.x, a.y + b.y, a.z + b.z)
  }

  function Times(a: Coord, b: Coord): Coord
  {
    Coord(a.x * b.x, a.y * b.y, a.z * b.z)
  }

  function Volume(dims: Coord): nat
  {
    dims.z * dims.y * dims.x
  }

  predicate InBox(c: Coord, dims: Coord)
  {
    c.x < dims.x && c.y < dims.y && c.z < dims.z
  }

  /** X-fastest position of a cell inside a box. */
  function Flat(c: Coord, dims: Coord): nat
  {
    (c.z * dims.y + c.y) * dims.x + c.x
  }

  function Unflat(i: nat, dims: Coord): Coord
    requires dims.x > 0 && dims.y > 0
  {
    Coord(i % dims.x, i / dims.x % dims.y, i / dims.x / dims.y)
  }

  lemma FlatInBox(c: Coord, dims: Coord)
    requires InBox(c, dims)
    ensures Flat(c, dims) < Volume(dims)
    ensures Unflat(Flat(c, dims), dims) == c
  {
    RadixBound(c.z, c.y, dims.z, dims.y);
    RadixBound(c.z * dims.y + c.y, c.x, dims.z * dims.y, dims.x);
    DivMod(c.z * dims.y + c.y, c.x, dims.x);
    DivMod(c.z, c.y, dims.y);
  }

  lemma FlatAscends(s: Coord, s': Coord, grid: Coord)
    requires InBox(s, grid) && InBox(s', grid)
    requires s.z < s'.z || (s.z == s'.z && (s.y < s'.y || (s.y == s'.y && s.x < s'.x)))
    ensures Flat(s, grid) < Flat(s', grid)
  {
    if s.z < s'.z {
      RadixBound(s.z, s.y, s'.z, grid.y);
    }
    if s.z * grid.y + s.y < s'.z * grid.y + s'.y {
      RadixBound(s.z * grid.y + s.y, s.x, s'.z * grid.y + s'.y, grid.x);
    }
  }

  lemma UnflatInBox(i: nat, dims: Coord)
    requires dims.x > 0 && dims.y > 0 && i < Volume(dims)
    ensures InBox(Unflat(i, dims), dims)
    ensures Flat(Unflat(i, dims), dims) == i
  {
    DivBound(i, dims.z * dims.y, dims.x);
    DivBound(i / dims.x, dims.z, dims.y);
    DivModBack(i, dims.x);
    DivModBack(i / dims.x, dims.y);
  }

  lemma RowTail(z: nat, y: nat, x: nat, dims: Coord, base: nat, i: nat)
    requires InBox(Coord(0, y, z), dims) && base == (z * dims.y + y) * dims.x
    requires base + x <= i < base + dims.x
    ensures Unflat(i, dims) == Coord(i - base, y, z) && i - base >= x
  {
    FlatInBox(Coord(i - base, y, z), dims);
  }

  lemma PlaneTail(z: nat, y: nat, dims: Coord, base: nat, end: nat, i: nat)
    requires dims.x > 0 && y <= dims.y && base == (z * dims.y + y) * dims.x && end == (z + 1) * dims.y * dims.x
    requires base <= i < end
    ensures var c := Unflat(i, dims); dims.y > 0 && c.z == z && c.y >= y
  {
    var row := i / dims.x;
    DivBound(i, (z + 1) * dims.y, dims.x);
    DivModBack(i, dims.x);
    if row < z * dims.y + y {
      MulMono(row + 1, z * dims.y + y, dims.x);
      MulNext(row, dims.x);
    }
    MulNext(z, dims.y);
    DivMod(z, row - z * dims.y, dims.y);
  }

  lemma BlockTail(z: nat, dims: Coord, base: nat, i: nat)
    requires dims.x > 0 && dims.y > 0 && base == z * dims.y * dims.x && base <= i
    ensures Unflat(i, dims).z >= z
  {
    QuotientAtLeast(i, z * dims.y, dims.x);
    QuotientAtLeast(Row(i, dims.x), z, dims.y);
  }

  // ----- the raw volume -----

  /** A cell is a float of four bytes. */
  const CELLS_PER_MIB: nat := 0x4_0000

  /** Z-fastest position of a cell in the raw file. */
  function RawIndex(c: Coord, n: Coord): nat
  {
    (c.x * n.y + c.y) * n.z + c.z
  }

  lemma RawIndexBound(c: Coord, n: Coord)
    requires InBox(c, n)
    ensures RawIndex(c, n) < n.x * n.y * n.z
  {
    RadixBound(c.x, c.y, n.x, n.y);
    RadixBound(c.x * n.y + c.y, c.z, n.x * n.y, n.z);
  }

  type Raw = seq<Float>

  predicate IsRaw(raw: Raw, n: Coord)
  {
    |raw| == n.x * n.y * n.z
  }

  /** The cell at c, zero outside the volume. */
  function Padded(raw: Raw, n: Coord, c: Coord): Float
    requires IsRaw(raw, n)
  {
    if InBox(c, n) then
      RawIndexBound(c, n);
      raw[RawIndex(c, n)]
    else ZERO
  }

  /** The cell at the X-fastest position i of a box with its first corner at origin. */
  function BoxCell(raw: Raw, n: Coord, origin: Coord, dims: Coord, i: nat): Float
    requires IsRaw(raw, n) && dims.x > 0 && dims.y > 0
  {
    Padded(raw, n, Add(origin, Unflat(i, dims)))
  }

  // ----- headers -----

  datatype Header = Header(n: Coord, super: Coord, leaf: Coord, dataOffset: nat)

  /** What validateHeader accepts of the dimensions. */
  predicate Valid(h: Header)
  {
    && h.super.x > 0 && h.super.y > 0 && h.super.z > 0
    && h.leaf.x > 0 && h.leaf.y > 0 && h.leaf.z > 0
    && h.super.x % h.leaf.x == 0 && h.super.y % h.leaf.y == 0 && h.super.z % h.leaf.z == 0
  }

  function SuperGrid(h: Header): Coord
    requires Valid(h)
  {
    Coord(CeilDiv(h.n.x, h.super.x), CeilDiv(h.n.y, h.super.y), CeilDiv(h.n.z, h.super.z))
  }

  function LeafGrid(h: Header): Coord
    requires Valid(h)
  {
    Coord(h.super.x / h.leaf.x, h.super.y / h.leaf.y, h.super.z / h.leaf.z)
  }

  lemma LeafGridExact(h: Header)
    requires Valid(h)
    ensures var g := LeafGrid(h);
            g.x > 0 && g.y > 0 && g.z > 0 && Times(g, h.leaf) == h.super && Volume(h.super) == Volume(g) * Volume(h.leaf)
    ensures Volume(h.leaf) > 0
  {
    var g := LeafGrid(h);
    DivModBack(h.super.x, h.leaf.x);
    DivModBack(h.super.y, h.leaf.y);
    DivModBack(h.super.z, h.leaf.z);
    VolumeTimes(g, h.leaf);
    VolumePositive(h.leaf);
  }

  lemma VolumePositive(c: Coord)
    requires c.x > 0 && c.y > 0 && c.z > 0
    ensures Volume(c) > 0
  {
    MulMono(1, c.z, c.y);
    MulMono(1, c.z * c.y, c.x);
  }

  lemma VolumeTimes(a: Coord, b: Coord)
    ensures Volume(Times(a, b)) == Volume(a) * Volume(b)
  {
    var az, ay, ax, bz, cy, bx := a.z, a.y, a.x, b.z, b.y, b.x;
    assert (az * bz) * (ay * cy) == (az * ay) * (bz * cy);
    assert ((az * ay) * (bz * cy)) * (ax * bx) == ((az * ay) * ax) * ((bz * cy) * bx);
  }

  /** The cell c of leaf number l lies inside the superblock. */
  lemma LeafInside(h: Header, l: Coord, c: Coord)
    requires Valid(h) && InBox(l, LeafGrid(h)) && InBox(c, h.leaf)
    ensures InBox(Add(Times(l, h.leaf), c), h.super)
  {
    LeafGridExact(h);
    RadixBound(l.x, c.x, LeafGrid(h).x, h.leaf.x);
    RadixBound(l.y, c.y, LeafGrid(h).y, h.leaf.y);
    RadixBound(l.z, c.z, LeafGrid(h).z, h.leaf.z);
  }

  // ----- which leaf grids the Morton order fills without holes -----

  /** The codes of the leaves of a superblock are exactly the numbers below their count. */
  ghost predicate Gapless(grid: Coord)
  {
    forall code: nat :: code < Volume(grid) <==> InBox(Decode(code), grid)
  }

  function Corner(grid: Coord): Coord
    requires grid.x > 0 && grid.y > 0 && grid.z > 0
  {
    Coord(grid.x - 1, grid.y - 1, grid.z - 1)
  }

  function CodeAt(i: nat, grid: Coord): nat
    requires grid.x > 0 && grid.y > 0
  {
    Encode(Unflat(i, grid))
  }

  lemma CodesDistinct(i: nat, j: nat, grid: Coord)
    requires grid.x > 0 && grid.y > 0 && i < j < Volume(grid)
    ensures CodeAt(i, grid) != CodeAt(j, grid)
  {
    UnflatInBox(i, grid);
    UnflatInBox(j, grid);
    DecodeEncode(Unflat(i, grid));
    DecodeEncode(Unflat(j, grid));
  }

  /** The Morton order leaves no hole exactly when the last leaf's code is below the leaf count. */
  lemma GaplessIffCornerFits(grid: Coord)
    requires grid.x > 0 && grid.y > 0 && grid.z > 0
    ensures Gapless(grid) <==> Encode(Corner(grid)) < Volume(grid)
  {
    DecodeEncode(Corner(grid));
    if Encode(Corner(grid)) < Volume(grid) {
      forall c: Coord | InBox(c, grid)
        ensures Encode(c) < Volume(grid)
      {
        Monotone(c, Corner(grid));
      }
      forall code: nat
        ensures code < Volume(grid) <==> InBox(Decode(code), grid)
      {
        EncodeDecode(code);
        if code < Volume(grid) {
          CodeOccurs(code, grid);
        }
      }
    }
  }

  lemma CodeOccurs(code: nat, grid: Coord)
    requires grid.x > 0 && grid.y > 0 && code < Volume(grid)
    requires forall c: Coord :: InBox(c, grid) ==> Encode(c) < Volume(grid)
    ensures InBox(Decode(code), grid)
  {
    var codes := seq(Volume(grid), i requires 0 <= i < Volume(grid) => CodeAt(i, grid));
    forall i | 0 <= i < |codes|
      ensures codes[i] < |codes|
    {
      UnflatInBox(i, grid);
    }
    forall i, j | 0 <= i < j < |codes|
      ensures codes[i] != codes[j]
    {
      CodesDistinct(i, j, grid);
    }
    Pigeonhole(codes, code);
    var i :| 0 <= i < |codes| && codes[i] == code;
    UnflatInBox(i, grid);
    DecodeEncode(Unflat(i, grid));
  }

  lemma {:induction false} CubeVolume(k: nat)
    ensures Pow2(k) * Pow2(k) * Pow2(k) == Pow8(k)
  {
    if k > 0 {
      CubeVolume(k - 1);
      var p := Pow2(k - 1);
      assert (2 * p) * (2 * p) * (2 * p) == 8 * (p * p * p);
    }
  }

  /** Cubes of side 2^k, such as the default sixteen leaves a side, have no hole. */
  lemma CubeIsGapless(k: nat)
    ensures Gapless(Coord(Pow2(k), Pow2(k), Pow2(k)))
  {
    var side := Pow2(k);
    CubeVolume(k);
    Dense(k, Coord(side - 1, side - 1, side - 1));
    GaplessIffCornerFits(Coord(side, side, side));
  }

  /** A leaf grid has holes exactly when some leaf's code is beyond the leaf count. */
  lemma HolesIff(grid: Coord)
    requires grid.x > 0 && grid.y > 0 && grid.z > 0
    ensures !Gapless(grid) <==> exists c: Coord :: InBox(c, grid) && Encode(c) >= Volume(grid)
  {
    GaplessIffCornerFits(grid);
    assert InBox(Corner(grid), grid);
    forall c: Coord | InBox(c, grid)
      ensures Encode(c) <= Encode(Corner(grid))
    {
      Monotone(c, Corner(grid));
    }
  }

  /** A header that passes validation and whose leaves are nevertheless not stored densely. */
  lemma ValidHeaderWithHoles(h: Header)
    requires h.n == Coord(8, 8, 8) && h.super == Coord(4, 8, 4) && h.leaf == Coord(4, 4, 4)
    ensures Valid(h) && LeafGrid(h) == Coord(1, 2, 1) && Encode(Coord(0, 1, 0)) == 2 && !Gapless(LeafGrid(h))
  {
    var hi := Coord(0, 0, 0);
    assert Push(2, hi) == Coord(0, 1, 0);
    EncodePush(2, hi);
    GaplessIffCornerFits(Coord(1, 2, 1));
  }

  // ----- stored superblocks -----

  /** The cell at position i of superblock s as stored: leaf by leaf in Morton order, X fastest inside a leaf. */
  function PackedCell(h: Header, raw: Raw, s: Coord, i: nat): Float
    requires Valid(h) && IsRaw(raw, h.n) && Volume(h.leaf) > 0
  {
    LeafCell(h, raw, s, Decode(i / Volume(h.leaf)), i % Volume(h.leaf))
  }

  function LeafCell(h: Header, raw: Raw, s: Coord, leaf: Coord, r: nat): Float
    requires Valid(h) && IsRaw(raw, h.n)
  {
    BoxCell(raw, h.n, Add(Times(s, h.super), Times(leaf, h.leaf)), h.leaf, r)
  }

  lemma PackedLeaf(h: Header, raw: Raw, s: Coord, code: nat, r: nat)
    requires Valid(h) && IsRaw(raw, h.n) && r < Volume(h.leaf)
    ensures PackedCell(h, raw, s, code * Volume(h.leaf) + r) == LeafCell(h, raw, s, Decode(code), r)
  {
    DivMod(code, r, Volume(h.leaf));
  }

  predicate PackedUpTo(o: seq<Float>, h: Header, raw: Raw, s: Coord, p: nat)
    requires Valid(h) && IsRaw(raw, h.n) && Volume(h.leaf) > 0
  {
    forall i :: 0 <= i < p && i < |o| ==> o[i] == PackedCell(h, raw, s, i)
  }

  /** Superblocks are numbered X fastest. */
  function SuperblockId(h: Header, s: Coord): nat
    requires Valid(h)
  {
    Flat(s, SuperGrid(h))
  }

  function SuperblockOffset(h: Header, id: nat): nat
  {
    h.dataOffset + id * Volume(h.super)
  }

  /** The file holds every superblock of the volume, packed, at its place. */
  ghost predicate Stored(file: seq<Float>, h: Header, raw: Raw)
    requires Valid(h) && IsRaw(raw, h.n) && Volume(h.leaf) > 0
  {
    forall s: Coord :: InBox(s, SuperGrid(h)) ==> SuperblockStored(file, h, raw, s)
  }

  predicate SuperblockStored(file: seq<Float>, h: Header, raw: Raw, s: Coord)
    requires Valid(h) && IsRaw(raw, h.n) && Volume(h.leaf) > 0
  {
    var offset := SuperblockOffset(h, SuperblockId(h, s));
    && offset + Volume(h.super) <= |file|
    && PackedUpTo(file[offset..offset + Volume(h.super)], h, raw, s, Volume(h.super))
  }

  /** Cell r of leaf l of superblock s, as a cell of the volume. */
  function CellOf(h: Header, s: Coord, l: Coord, r: Coord): Coord
  {
    Coord(s.x * h.super.x + l.x * h.leaf.x + r.x, s.y * h.super.y + l.y * h.leaf.y + r.y,
          s.z * h.super.z + l.z * h.leaf.z + r.z)
  }

  /**
   * Where a cell of the volume is in the file: superblocks X fastest, leaves of a superblock by Morton code, cells of
   * a leaf X fastest; and where it is in the raw file, Z fastest.
   */
  lemma StoredCell(file: seq<Float>, h: Header, raw: Raw, s: Coord, l: Coord, r: Coord, id: nat, cell: nat, p: nat, q: nat)
    requires Valid(h) && IsRaw(raw, h.n) && Volume(h.leaf) > 0 && Stored(file, h, raw)
    requires InBox(s, SuperGrid(h)) && InBox(l, LeafGrid(h)) && InBox(r, h.leaf) && InBox(CellOf(h, s, l, r), h.n)
    requires Encode(l) < Volume(LeafGrid(h))
    requires id == (s.z * SuperGrid(h).y + s.y) * SuperGrid(h).x + s.x
    requires cell == (r.z * h.leaf.y + r.y) * h.leaf.x + r.x
    requires p == h.dataOffset + id * (h.super.z * h.super.y * h.super.x)
                  + Encode(l) * (h.leaf.z * h.leaf.y * h.leaf.x) + cell
    requires var c := CellOf(h, s, l, r); q == (c.x * h.n.y + c.y) * h.n.z + c.z
    ensures p < |file| && q < |raw| && file[p] == raw[q]
  {
    var i := Encode(l) * Volume(h.leaf) + cell;
    PackedPlace(h, raw, s, l, r, Encode(l), cell, i);
    StoredAt(file, h, raw, s, id, i, p);
    RawIndexBound(CellOf(h, s, l, r), h.n);
  }

  lemma PackedPlace(h: Header, raw: Raw, s: Coord, l: Coord, r: Coord, code: nat, cell: nat, i: nat)
    requires Valid(h) && IsRaw(raw, h.n) && Volume(h.leaf) > 0 && InBox(r, h.leaf)
    requires code == Encode(l) < Volume(LeafGrid(h)) && cell == Flat(r, h.leaf) && i == code * Volume(h.leaf) + cell
    ensures i < Volume(h.super) && PackedCell(h, raw, s, i) == Padded(raw, h.n, CellOf(h, s, l, r))
  {
    LeafGridExact(h);
    FlatInBox(r, h.leaf);
    RadixBound(code, cell, Volume(LeafGrid(h)), Volume(h.leaf));
    PackedLeaf(h, raw, s, code, cell);
    DecodeEncode(l);
    assert Add(Add(Times(s, h.super), Times(l, h.leaf)), r) == CellOf(h, s, l, r);
  }

  lemma StoredAt(file: seq<Float>, h: Header, raw: Raw, s: Coord, id: nat, i: nat, p: nat)
    requires Valid(h) && IsRaw(raw, h.n) && Volume(h.leaf) > 0 && Stored(file, h, raw) && InBox(s, SuperGrid(h))
    requires id == SuperblockId(h, s) && i < Volume(h.super) && p == SuperblockOffset(h, id) + i
    ensures p < |file| && file[p] == PackedCell(h, raw, s, i)
  {
    var offset := SuperblockOffset(h, id);
    assert SuperblockStored(file, h, raw, s);
    assert file[offset..offset + Volume(h.super)][i] == file[p];
  }
}
