/** Reading a line of the volume along an axis from the leaves it runs through. */
module LineReader {
  import opened Basics
  import opened Float32
  import opened Morton
  import opened Layout
  import opened SlicePlan
  import opened Extents
  import opened LeafExtents
  import opened LineBatches

  /** The line along the axis at outer coordinate a and inner coordinate b. */
  datatype Spot = Spot(axis: Axis, a: nat, b: nat)

  predicate InVolume(h: Header, p: Spot)
  {
    p.a < Outer(p.axis, h.n) && p.b < Inner(p.axis, h.n)
  }

  function LineCell(h: Header, raw: Raw, p: Spot, i: nat): Float
    requires IsRaw(raw, h.n)
  {
    Layout.Padded(raw, h.n, Make(p.axis, i, p.a, p.b))
  }

  /** An X line runs along x at (y, z) = (a, b), a Y line along y at (x, z), a Z line along z at (x, y). */
  lemma LineIsRaw(h: Header, raw: Raw, axis: Axis, a: nat, b: nat, i: nat, r: nat)
    requires IsRaw(raw, h.n)
    requires match axis
             case X => i < h.n.x && a < h.n.y && b < h.n.z && r == (i * h.n.y + a) * h.n.z + b
             case Y => a < h.n.x && i < h.n.y && b < h.n.z && r == (a * h.n.y + i) * h.n.z + b
             case Z => a < h.n.x && b < h.n.y && i < h.n.z && r == (a * h.n.y + b) * h.n.z + i
    ensures InVolume(h, Spot(axis, a, b)) && r < |raw| && LineCell(h, raw, Spot(axis, a, b), i) == raw[r]
  {
    RawIndexBound(Make(axis, i, a, b), h.n);
  }

  /** The superblock that is the s-th on the line, and its leaf that is the l-th. */
  function LineSuper(h: Header, p: Spot, s: nat): Coord
    requires Valid(h)
  {
    Make(p.axis, s, Row(p.a, Outer(p.axis, h.super)), Row(p.b, Inner(p.axis, h.super)))
  }

  function LineLeaf(h: Header, p: Spot, l: nat): Coord
    requires Valid(h)
  {
    Make(p.axis, l, Row(Column(p.a, Outer(p.axis, h.super)), Outer(p.axis, h.leaf)),
         Row(Column(p.b, Inner(p.axis, h.super)), Inner(p.axis, h.leaf)))
  }

  /** The line's d-th cell in a leaf. */
  function InLeaf(h: Header, p: Spot, d: nat): Coord
    requires Valid(h)
  {
    Make(p.axis, d, Column(Column(p.a, Outer(p.axis, h.super)), Outer(p.axis, h.leaf)),
         Column(Column(p.b, Inner(p.axis, h.super)), Inner(p.axis, h.leaf)))
  }

  /** The cells of so many rows of the given width. */
  function Cells(rows: nat, width: nat): nat
  {
    rows * width
  }

  /** The place of the line's first cell in a leaf, and the distance of one cell to the next. */
  function FirstPlace(h: Header, p: Spot): nat
    requires Valid(h)
  {
    var c := InLeaf(h, p, 0);
    match p.axis
    case X => Cells(Cells(c.z, h.leaf.y) + c.y, h.leaf.x)
    case Y => Cells(Cells(c.z, h.leaf.y), h.leaf.x) + c.x
    case Z => Cells(c.y, h.leaf.x) + c.x
  }

  function Stride(h: Header, p: Spot): nat
  {
    match p.axis
    case X => 1
    case Y => h.leaf.x
    case Z => h.leaf.y * h.leaf.x
  }

  function Leaves(h: Header, p: Spot): nat
    requires Valid(h)
  {
    Fixed(p.axis, LeafGrid(h))
  }

  /** The extent of the k-th leaf on the line. */
  function LineExtent(h: Header, p: Spot, k: nat): Extent
    requires Valid(h) && Leaves(h, p) > 0
  {
    LeafExtent(h, LineSuper(h, p, Row(k, Leaves(h, p))), LineLeaf(h, p, Column(k, Leaves(h, p))))
  }

  /** The first n leaves on the line. */
  ghost predicate Planned(h: Header, p: Spot, extents: seq<Extent>, bases: seq<nat>, n: nat)
    requires Valid(h) && Leaves(h, p) > 0
  {
    && |extents| == |bases| == n
    && (forall k :: 0 <= k < n ==> extents[k] == LineExtent(h, p, k))
    && (forall k :: 0 <= k < n ==> bases[k] == k * Fixed(p.axis, h.leaf))
  }

  lemma AxisLeaves(h: Header, p: Spot)
    requires Valid(h)
    ensures Leaves(h, p) > 0 && Fixed(p.axis, h.super) == Leaves(h, p) * Fixed(p.axis, h.leaf) && Fixed(p.axis, h.leaf) > 0
  {
    LeafGridExact(h);
  }

  /** Leaf l of superblock s is leaf s * Leaves + l on the line; it starts at that many leaf lengths. */
  lemma LeafNumber(h: Header, p: Spot, s: nat, l: nat)
    requires Valid(h) && l < Leaves(h, p)
    ensures var q, step := Number(s, l, Leaves(h, p)), Fixed(p.axis, h.leaf);
            && Row(q, Leaves(h, p)) == s && Column(q, Leaves(h, p)) == l
            && q * step == s * Fixed(p.axis, h.super) + l * step
            && (q * step < Fixed(p.axis, h.n) <==> q < CeilDiv(Fixed(p.axis, h.n), step))
  {
    AxisLeaves(h, p);
    DivMod(s, l, Leaves(h, p));
    LeafStart(s, l, Leaves(h, p), Fixed(p.axis, h.leaf));
    CeilDivBound(s * Leaves(h, p) + l, Fixed(p.axis, h.n), Fixed(p.axis, h.leaf));
  }

  lemma LeafStart(s: nat, l: nat, count: nat, step: nat)
    ensures (s * count + l) * step == s * (count * step) + l * step
  {
  }

  /** Number of leaf l of superblock s on the line. */
  function Number(s: nat, l: nat, count: nat): nat
  {
    s * count + l
  }

  /** Where leaf l of superblock s starts along the line. */
  function LeafBase(h: Header, p: Spot, s: nat, l: nat): nat
  {
    s * Fixed(p.axis, h.super) + l * Fixed(p.axis, h.leaf)
  }

  /** One leaf, unless it starts beyond the volume. */
  method PlanLeaf(h: Header, p: Spot, s: nat, l: nat, extents: seq<Extent>, bases: seq<nat>)
    returns (extents': seq<Extent>, bases': seq<nat>)
    requires Valid(h) && l < Leaves(h, p)
    requires Planned(h, p, extents, bases, Min(Number(s, l, Leaves(h, p)), LeafCount(h, p)))
    ensures Planned(h, p, extents', bases', Min(Number(s, l + 1, Leaves(h, p)), LeafCount(h, p)))
  {
    extents', bases' := extents, bases;
    LeafNumber(h, p, s, l);
    var base: nat := LeafBase(h, p, s, l);
    if base < Fixed(p.axis, h.n) {
      extents' := extents' + [LeafExtent(h, LineSuper(h, p, s), LineLeaf(h, p, l))];
      bases' := bases' + [base];
    }
  }

  /** The leaves of one superblock. */
  method PlanSuperblock(h: Header, p: Spot, s: nat, extents: seq<Extent>, bases: seq<nat>)
    returns (extents': seq<Extent>, bases': seq<nat>)
    requires Valid(h) && Leaves(h, p) > 0
    requires Planned(h, p, extents, bases, Min(Number(s, 0, Leaves(h, p)), LeafCount(h, p)))
    ensures Planned(h, p, extents', bases', Min(Number(s + 1, 0, Leaves(h, p)), LeafCount(h, p)))
  {
    extents', bases' := extents, bases;
    var l: nat := 0;
    while l < Leaves(h, p)
      invariant l <= Leaves(h, p) && Planned(h, p, extents', bases', Min(Number(s, l, Leaves(h, p)), LeafCount(h, p)))
    {
      extents', bases' := PlanLeaf(h, p, s, l, extents', bases');
      l := l + 1;
    }
    MulNext(s, Leaves(h, p));
  }

  /** How many leaves the line runs through. */
  function LeafCount(h: Header, p: Spot): nat
    requires Valid(h)
  {
    CeilDiv(Fixed(p.axis, h.n), Fixed(p.axis, h.leaf))
  }

  /** Enough superblocks for all leaves. */
  lemma SuperblocksSuffice(h: Header, p: Spot)
    requires Valid(h)
    ensures Fixed(p.axis, SuperGrid(h)) * Leaves(h, p) >= LeafCount(h, p)
  {
    var g, n := Fixed(p.axis, SuperGrid(h)), Fixed(p.axis, h.n);
    AxisLeaves(h, p);
    CeilDivBound(g, n, Fixed(p.axis, h.super));
    LeafStart(g, 0, Leaves(h, p), Fixed(p.axis, h.leaf));
    CeilDivBound(g * Leaves(h, p), n, Fixed(p.axis, h.leaf));
  }

  /** The leaves of the line, superblock by superblock. */
  method PlanLine(h: Header, p: Spot) returns (extents: seq<Extent>, bases: seq<nat>)
    requires Valid(h) && Leaves(h, p) > 0
    ensures Planned(h, p, extents, bases, LeafCount(h, p))
  {
    extents, bases := [], [];
    var s: nat := 0;
    while s < Fixed(p.axis, SuperGrid(h))
      invariant s <= Fixed(p.axis, SuperGrid(h))
      invariant Planned(h, p, extents, bases, Min(Number(s, 0, Leaves(h, p)), LeafCount(h, p)))
    {
      extents, bases := PlanSuperblock(h, p, s, extents, bases);
      s := s + 1;
    }
    SuperblocksSuffice(h, p);
  }

  // ----- the line is the volume's -----

  lemma PlaceInLeaf(h: Header, p: Spot, d: nat)
    requires Valid(h)
    ensures FirstPlace(h, p) + d * Stride(h, p) == Flat(InLeaf(h, p, d), h.leaf)
  {
    var c := InLeaf(h, p, d);
    PlaceArithmetic(c.x, c.y, c.z, h.leaf.x, h.leaf.y);
  }

  lemma PlaceArithmetic(x: nat, y: nat, z: nat, lx: nat, ly: nat)
    ensures (z * ly + y) * lx + x == z * ly * lx + x + y * lx
    ensures (z * ly + y) * lx + x == y * lx + x + z * (ly * lx)
  {
  }

  /** Where the k-th leaf's d-th cell on the line lies in the volume. */
  lemma OnLine(h: Header, p: Spot, k: nat, d: nat)
    requires Valid(h) && InVolume(h, p) && k < LeafCount(h, p) && d < Fixed(p.axis, h.leaf)
    ensures Leaves(h, p) > 0
    ensures var s, leaf := LineSuper(h, p, Row(k, Leaves(h, p))), LineLeaf(h, p, Column(k, Leaves(h, p)));
            && InBox(s, SuperGrid(h)) && InBox(leaf, LeafGrid(h)) && InBox(InLeaf(h, p, d), h.leaf)
            && Add(Add(Times(s, h.super), Times(leaf, h.leaf)), InLeaf(h, p, d))
               == Make(p.axis, k * Fixed(p.axis, h.leaf) + d, p.a, p.b)
  {
    AxisLeaves(h, p);
    var count, step := Leaves(h, p), Fixed(p.axis, h.leaf);
    DivModBack(k, count);
    LeafStart(Row(k, count), Column(k, count), count, step);
    SuperblocksSuffice(h, p);
    DivBound(k, Fixed(p.axis, SuperGrid(h)), count);
    LocateOnAxis(p.a, Outer(p.axis, h.n), Outer(p.axis, h.super), Outer(p.axis, h.leaf));
    LocateOnAxis(p.b, Inner(p.axis, h.n), Inner(p.axis, h.super), Inner(p.axis, h.leaf));
    DivModBack(Column(p.a, Outer(p.axis, h.super)), Outer(p.axis, h.leaf));
    DivModBack(Column(p.b, Inner(p.axis, h.super)), Inner(p.axis, h.leaf));
  }

  /** The output is the line. */
  predicate IsLine(output: seq<Float>, h: Header, raw: Raw, p: Spot)
    requires IsRaw(raw, h.n)
  {
    |output| == Fixed(p.axis, h.n) && forall i :: 0 <= i < |output| ==> output[i] == LineCell(h, raw, p, i)
  }

  /** What readLine hands to the batched reader. */
  function LineOf(h: Header, p: Spot, extents: seq<Extent>, bases: seq<nat>): Line
    requires Valid(h)
  {
    Line(extents, bases, FirstPlace(h, p), Stride(h, p), Fixed(p.axis, h.n), Fixed(p.axis, h.leaf))
  }

  lemma LineValid(h: Header, p: Spot, extents: seq<Extent>, bases: seq<nat>)
    requires Valid(h) && InVolume(h, p) && Leaves(h, p) > 0 && Planned(h, p, extents, bases, LeafCount(h, p))
    ensures ValidLine(LineOf(h, p, extents, bases))
  {
    var l := LineOf(h, p, extents, bases);
    AxisLeaves(h, p);
    forall k | 0 <= k < |bases|
      ensures l.bases[k] == Base(l, k) < l.length
    {
      CeilDivBound(k, Fixed(p.axis, h.n), Fixed(p.axis, h.leaf));
    }
    forall k, d: nat | 0 <= k < |extents| && d < l.step
      ensures CellPlace(l, d) < l.extents[k].size
    {
      OnLine(h, p, k, d);
      PlaceInLeaf(h, p, d);
      FlatInBox(InLeaf(h, p, d), h.leaf);
    }
  }

  lemma LineCellDelivered(h: Header, raw: Raw, p: Spot, file: seq<Float>, extents: seq<Extent>, bases: seq<nat>,
                          output: seq<Float>, i: nat)
    requires Valid(h) && IsRaw(raw, h.n) && Volume(h.leaf) > 0 && Gapless(LeafGrid(h)) && Stored(file, h, raw)
    requires InVolume(h, p) && Leaves(h, p) > 0 && Planned(h, p, extents, bases, LeafCount(h, p))
    requires ValidLine(LineOf(h, p, extents, bases)) && i < |output| == Fixed(p.axis, h.n)
    requires DeliveredFirst(output, LineOf(h, p, extents, bases), file, |extents|)
    ensures output[i] == LineCell(h, raw, p, i)
  {
    var l := LineOf(h, p, extents, bases);
    AxisLeaves(h, p);
    var k, d := Row(i, l.step), Column(i, l.step);
    DivModBack(i, l.step);
    CeilDivBound(k, l.length, l.step);
    OnLine(h, p, k, d);
    PlaceInLeaf(h, p, d);
    LeafStored(file, h, raw, LineSuper(h, p, Row(k, Leaves(h, p))), LineLeaf(h, p, Column(k, Leaves(h, p))),
               InLeaf(h, p, d));
    assert LeafDelivered(output, l, file, k);
    assert output[Base(l, k) + d] == file[l.extents[k].offset + CellPlace(l, d)];
  }

  lemma LineDelivered(h: Header, raw: Raw, p: Spot, file: seq<Float>, extents: seq<Extent>, bases: seq<nat>,
                      output: seq<Float>)
    requires Valid(h) && IsRaw(raw, h.n) && Volume(h.leaf) > 0 && Gapless(LeafGrid(h)) && Stored(file, h, raw)
    requires InVolume(h, p) && Leaves(h, p) > 0 && Planned(h, p, extents, bases, LeafCount(h, p))
    requires ValidLine(LineOf(h, p, extents, bases)) && |output| == Fixed(p.axis, h.n)
    requires DeliveredFirst(output, LineOf(h, p, extents, bases), file, |extents|)
    ensures IsLine(output, h, raw, p)
  {
    forall i | 0 <= i < |output|
      ensures output[i] == LineCell(h, raw, p, i)
    {
      LineCellDelivered(h, raw, p, file, extents, bases, output, i);
    }
  }

  /** Memory for buffers, in cells; none given counts as one mebibyte. */
  function Limit(memoryLimitMiB: nat): nat
  {
    if memoryLimitMiB == 0 then CELLS_PER_MIB else memoryLimitMiB * CELLS_PER_MIB
  }

  /**
   * Reading a line. A line outside the volume is refused; otherwise, if all reads succeed, the output is the line,
   * whatever the memory limit.
   */
  method ReadLine(h: Header, ghost raw: Raw, file: seq<Float>, io: (nat, nat) -> bool, p: Spot, memoryLimitMiB: nat,
                  output: array<Float>) returns (ok: bool)
    requires Valid(h) && IsRaw(raw, h.n) && Volume(h.leaf) > 0 && Gapless(LeafGrid(h)) && Stored(file, h, raw)
    requires output.Length == Fixed(p.axis, h.n)
    modifies output
    ensures ok ==> InVolume(h, p) && IsLine(output[..], h, raw, p)
    ensures InVolume(h, p) && (forall o, n :: io(o, n)) ==> ok
    ensures !InVolume(h, p) ==> output[..] == old(output[..])
  {
    if !InVolume(h, p) {
      return false;
    }
    AxisLeaves(h, p);
    var extents, bases := PlanLine(h, p);
    LineValid(h, p, extents, bases);
    ghost var merged;
    var batches;
    ok, merged, batches := ReadLineBatched(LineOf(h, p, extents, bases), file, io, Limit(memoryLimitMiB), output);
    if ok {
      LineDelivered(h, raw, p, file, extents, bases, output[..]);
    } else {
      AllInFile(h, raw, p, file, extents, bases, merged);
    }
  }

  /** Every merged range lies in the file. */
  lemma AllInFile(h: Header, raw: Raw, p: Spot, file: seq<Float>, extents: seq<Extent>, bases: seq<nat>,
                  merged: seq<Extent>)
    requires Valid(h) && IsRaw(raw, h.n) && Volume(h.leaf) > 0 && Gapless(LeafGrid(h)) && Stored(file, h, raw)
    requires InVolume(h, p) && Leaves(h, p) > 0 && Planned(h, p, extents, bases, LeafCount(h, p))
    requires Merged(extents, merged)
    ensures InFile(file, merged, 0, |merged|)
  {
    forall k | 0 <= k < |extents|
      ensures End(extents[k]) <= |file|
    {
      LeafInFile(h, raw, p, file, k);
    }
    MergedInFile(file, extents, merged);
  }

  lemma LeafInFile(h: Header, raw: Raw, p: Spot, file: seq<Float>, k: nat)
    requires Valid(h) && IsRaw(raw, h.n) && Volume(h.leaf) > 0 && Gapless(LeafGrid(h)) && Stored(file, h, raw)
    requires InVolume(h, p) && Leaves(h, p) > 0 && k < LeafCount(h, p)
    ensures End(LineExtent(h, p, k)) <= |file|
  {
    AxisLeaves(h, p);
    OnLine(h, p, k, 0);
    LeafStored(file, h, raw, LineSuper(h, p, Row(k, Leaves(h, p))), LineLeaf(h, p, Column(k, Leaves(h, p))),
               InLeaf(h, p, 0));
  }

  // ----- a line that is read beyond its memory limit -----

  /** A volume of 2 x 4 x 1 superblocks, one leaf each. */
  predicate OneLeafEach(h: Header)
  {
    h.n == Coord(128, 256, 64) && h.super == h.leaf == Coord(64, 64, 64)
  }

  lemma OneLeafGrid(h: Header)
    requires OneLeafEach(h)
    ensures Valid(h) && SuperGrid(h) == Coord(2, 4, 1) && LeafGrid(h) == Coord(1, 1, 1) && Volume(h.leaf) == CELLS_PER_MIB
    ensures Volume(h.super) == CELLS_PER_MIB
  {
  }

  /** The line Y at x = z = 0 meets every second superblock. */
  lemma FourRanges(h: Header, k: nat)
    requires OneLeafEach(h) && Valid(h) && k < 4
    ensures var p := Spot(Y, 0, 0);
            && Leaves(h, p) == 1 && LeafCount(h, p) == 4
            && LineExtent(h, p, k) == Extent(h.dataOffset + 2 * k * CELLS_PER_MIB, CELLS_PER_MIB)
  {
    OneLeafGrid(h);
    var p := Spot(Y, 0, 0);
    assert LineSuper(h, p, k) == Coord(0, k, 0) && LineLeaf(h, p, 0) == Coord(0, 0, 0);
    assert SuperblockId(h, Coord(0, k, 0)) == 2 * k;
    assert Encode(Coord(0, 0, 0)) == 0;
  }

  /** With a limit of one mebibyte, the second batch of that line reads two. */
  lemma LineExceedsLimit(h: Header, p: Spot, extents: seq<Extent>, bases: seq<nat>, merged: seq<Extent>)
    requires OneLeafEach(h) && Valid(h) && p == Spot(Y, 0, 0) && Leaves(h, p) > 0
    requires Planned(h, p, extents, bases, LeafCount(h, p)) && Merged(extents, merged)
    ensures |merged| == 4 && AllOfSize(merged, CELLS_PER_MIB) && Limit(1) == CELLS_PER_MIB
    ensures (1, 3) in Batches(merged, Limit(1), 0, 0, 0) && LoadedSize(merged, 1, 3) == 2 * Limit(1)
    ensures !LimitKept(merged, Limit(1))
  {
    FourRanges(h, 0);
    forall k | 0 <= k < 4
      ensures extents[k] == Extent(h.dataOffset + 2 * k * CELLS_PER_MIB, CELLS_PER_MIB)
    {
      FourRanges(h, k);
    }
    NothingMerged(extents, merged);
    SecondOfFour(merged);
  }

  lemma SecondOfFour(merged: seq<Extent>)
    requires |merged| == 4 && AllOfSize(merged, CELLS_PER_MIB)
    ensures (1, 3) in Batches(merged, Limit(1), 0, 0, 0) && LoadedSize(merged, 1, 3) == 2 * Limit(1)
    ensures !LimitKept(merged, Limit(1))
  {
    FirstBatch(merged, Limit(1), CELLS_PER_MIB, 1);
    SecondBatch(merged, Limit(1), CELLS_PER_MIB, 1, 3);
    LoadedEqual(merged, CELLS_PER_MIB, 1, 3);
    LimitKeptIff(merged, Limit(1), CELLS_PER_MIB);
  }
}
