/** Packing one superblock of the raw volume into Morton-ordered leaves. */
module SuperblockWriter {
  import opened Basics
  import opened Float32
  import opened Morton
  import opened Layout

  // ----- copying a box of the volume, cut off at the volume's faces -----

  /** A box of cells to be copied out of a slab of X planes that starts at plane firstX. */
  datatype Job = Job(n: Coord, firstX: nat, slab: seq<Float>, origin: Coord, dims: Coord)

  function SlabIndex(j: Job, g: Coord): nat
    requires j.firstX <= g.x
  {
    RawIndex(Coord(g.x - j.firstX, g.y, g.z), j.n)
  }

  ghost predicate ValidJob(j: Job)
  {
    && j.dims.x > 0 && j.dims.y > 0 && j.dims.z > 0
    && j.firstX <= j.origin.x
    && forall g: Coord {:trigger InBox(g, j.n)} ::
         InBox(g, j.n) && j.origin.x <= g.x < j.origin.x + j.dims.x ==> SlabIndex(j, g) < |j.slab|
  }

  ghost function Cell(j: Job, g: Coord): Float
    requires ValidJob(j) && j.origin.x <= g.x < j.origin.x + j.dims.x
  {
    if InBox(g, j.n) then j.slab[SlabIndex(j, g)] else ZERO
  }

  ghost function Target(j: Job, i: nat): Float
    requires ValidJob(j)
  {
    Cell(j, Add(j.origin, Unflat(i, j.dims)))
  }

  /** The job copies its box of the volume. */
  ghost predicate Copies(j: Job, raw: Raw)
    requires ValidJob(j) && IsRaw(raw, j.n)
  {
    forall i: nat :: Target(j, i) == BoxCell(raw, j.n, j.origin, j.dims, i)
  }

  /** Positions before p hold their cells; the others are zero unless the box lies inside the volume. */
  ghost predicate CopiedUpTo(b: seq<Float>, j: Job, p: nat)
    requires ValidJob(j)
  {
    && (forall i :: 0 <= i < |b| && i < p ==> b[i] == Target(j, i))
    && (!Below(Add(j.origin, j.dims), j.n) ==> forall i :: p <= i < |b| ==> b[i] == ZERO)
  }

  lemma FinishRow(b: seq<Float>, j: Job, z: nat, y: nat, x: nat, base: nat)
    requires ValidJob(j) && InBox(Coord(0, y, z), j.dims) && x <= j.dims.x
    requires base == (z * j.dims.y + y) * j.dims.x
    requires x == j.dims.x || j.origin.x + x >= j.n.x
    requires CopiedUpTo(b, j, base + x)
    ensures CopiedUpTo(b, j, base + j.dims.x)
  {
    forall i | base + x <= i < base + j.dims.x
      ensures Target(j, i) == ZERO
    {
      RowTail(z, y, x, j.dims, base, i);
    }
  }

  lemma FinishPlane(b: seq<Float>, j: Job, z: nat, y: nat, base: nat, end: nat)
    requires ValidJob(j) && y <= j.dims.y
    requires base == (z * j.dims.y + y) * j.dims.x && end == (z + 1) * j.dims.y * j.dims.x
    requires y == j.dims.y || j.origin.y + y >= j.n.y
    requires CopiedUpTo(b, j, base)
    ensures CopiedUpTo(b, j, end)
  {
    MulNext(z, j.dims.y);
    MulMono(z * j.dims.y + y, (z + 1) * j.dims.y, j.dims.x);
    forall i | base <= i < end
      ensures Target(j, i) == ZERO
    {
      PlaneTail(z, y, j.dims, base, end, i);
    }
  }

  lemma FinishBlock(b: seq<Float>, j: Job, z: nat, base: nat)
    requires ValidJob(j) && |b| == Volume(j.dims) && z <= j.dims.z && base == z * j.dims.y * j.dims.x
    requires z == j.dims.z || j.origin.z + z >= j.n.z
    requires CopiedUpTo(b, j, base)
    ensures CopiedUpTo(b, j, |b|)
  {
    forall i | base <= i < |b|
      ensures Target(j, i) == ZERO
    {
      BlockTail(z, j.dims, base, i);
    }
  }

  lemma RowCell(j: Job, z: nat, y: nat, x: nat, base: nat, g: Coord)
    requires ValidJob(j) && InBox(Coord(x, y, z), j.dims)
    requires base == (z * j.dims.y + y) * j.dims.x && g == Add(j.origin, Coord(x, y, z))
    ensures base + x < Volume(j.dims) && Target(j, base + x) == Cell(j, g)
  {
    FlatInBox(Coord(x, y, z), j.dims);
  }

  method CopyRow(b: array<Float>, off: nat, j: Job, z: nat, y: nat, base: nat)
    requires ValidJob(j) && off + Volume(j.dims) <= b.Length
    requires InBox(Coord(0, y, z), j.dims) && j.origin.z + z < j.n.z && j.origin.y + y < j.n.y
    requires base == (z * j.dims.y + y) * j.dims.x
    requires CopiedUpTo(b[off..off + Volume(j.dims)], j, base)
    modifies b
    ensures CopiedUpTo(b[off..off + Volume(j.dims)], j, base + j.dims.x)
    ensures b[..off] == old(b[..off]) && b[off + Volume(j.dims)..] == old(b[off + Volume(j.dims)..])
  {
    var x: nat := 0;
    ghost var end := off + Volume(j.dims);
    while x < j.dims.x && j.origin.x + x < j.n.x
      invariant x <= j.dims.x
      invariant CopiedUpTo(b[off..end], j, base + x)
      invariant b[..off] == old(b[..off]) && b[end..] == old(b[end..])
    {
      var g := Add(j.origin, Coord(x, y, z));
      RowCell(j, z, y, x, base, g);
      b[off + base + x] := j.slab[SlabIndex(j, g)];
      x := x + 1;
    }
    FinishRow(b[off..end], j, z, y, x, base);
  }

  method CopyPlane(b: array<Float>, off: nat, j: Job, z: nat, base: nat, ghost end: nat)
    requires ValidJob(j) && off + Volume(j.dims) <= b.Length
    requires z < j.dims.z && j.origin.z + z < j.n.z
    requires base == z * j.dims.y * j.dims.x && end == (z + 1) * j.dims.y * j.dims.x
    requires CopiedUpTo(b[off..off + Volume(j.dims)], j, base)
    modifies b
    ensures CopiedUpTo(b[off..off + Volume(j.dims)], j, end)
    ensures b[..off] == old(b[..off]) && b[off + Volume(j.dims)..] == old(b[off + Volume(j.dims)..])
  {
    var y: nat := 0;
    var row: nat := base;
    ghost var stop := off + Volume(j.dims);
    while y < j.dims.y && j.origin.y + y < j.n.y
      invariant y <= j.dims.y && row == (z * j.dims.y + y) * j.dims.x
      invariant CopiedUpTo(b[off..stop], j, row)
      invariant b[..off] == old(b[..off]) && b[stop..] == old(b[stop..])
    {
      CopyRow(b, off, j, z, y, row);
      MulNext(z * j.dims.y + y, j.dims.x);
      row := row + j.dims.x;
      y := y + 1;
    }
    FinishPlane(b[off..stop], j, z, y, row, end);
  }

  /** The three nested copy loops, X fastest, each left at the face of the volume. */
  method CopyBox(b: array<Float>, off: nat, j: Job)
    requires ValidJob(j) && off + Volume(j.dims) <= b.Length
    requires CopiedUpTo(b[off..off + Volume(j.dims)], j, 0)
    modifies b
    ensures CopiedUpTo(b[off..off + Volume(j.dims)], j, Volume(j.dims))
    ensures b[..off] == old(b[..off]) && b[off + Volume(j.dims)..] == old(b[off + Volume(j.dims)..])
  {
    var z: nat := 0;
    var base: nat := 0;
    ghost var stop := off + Volume(j.dims);
    while z < j.dims.z && j.origin.z + z < j.n.z
      invariant z <= j.dims.z && base == z * j.dims.y * j.dims.x
      invariant CopiedUpTo(b[off..stop], j, base)
      invariant b[..off] == old(b[..off]) && b[stop..] == old(b[stop..])
    {
      var next := (z + 1) * j.dims.y * j.dims.x;
      CopyPlane(b, off, j, z, base, next);
      base := next;
      z := z + 1;
    }
    FinishBlock(b[off..stop], j, z, base);
  }

  // ----- superblocks -----

  lemma WholeVolumeJob(raw: Raw, n: Coord, origin: Coord, dims: Coord)
    requires IsRaw(raw, n) && dims.x > 0 && dims.y > 0 && dims.z > 0
    ensures var j := Job(n, 0, raw, origin, dims); ValidJob(j) && Copies(j, raw)
  {
    forall g: Coord | InBox(g, n)
      ensures RawIndex(g, n) < |raw|
    {
      RawIndexBound(g, n);
    }
  }

  /** Copies the part of the volume covered by superblock s into a buffer zeroed first. */
  method FillSuperBuffer(b: array<Float>, h: Header, raw: Raw, s: Coord)
    requires Valid(h) && IsRaw(raw, h.n) && b.Length == Volume(h.super)
    modifies b
    ensures IsFilled(b[..], h, raw, s)
  {
    forall i | 0 <= i < b.Length {
      b[i] := ZERO;
    }
    WholeVolumeJob(raw, h.n, Times(s, h.super), h.super);
    assert b[0..b.Length] == b[..];
    CopyBox(b, 0, Job(h.n, 0, raw, Times(s, h.super), h.super));
    assert b[0..b.Length] == b[..];
  }

  /** Where cell r of a leaf sits in the X-fastest superblock buffer. */
  function LeafSource(h: Header, leaf: Coord, r: nat): nat
    requires Valid(h)
  {
    Flat(Add(Times(leaf, h.leaf), Unflat(r, h.leaf)), h.super)
  }

  lemma LeafSourceCell(h: Header, raw: Raw, s: Coord, leaf: Coord, r: nat)
    requires Valid(h) && IsRaw(raw, h.n) && InBox(leaf, LeafGrid(h)) && r < Volume(h.leaf)
    ensures LeafSource(h, leaf, r) < Volume(h.super)
    ensures BoxCell(raw, h.n, Times(s, h.super), h.super, LeafSource(h, leaf, r)) == LeafCell(h, raw, s, leaf, r)
  {
    UnflatInBox(r, h.leaf);
    LeafInside(h, leaf, Unflat(r, h.leaf));
    FlatInBox(Add(Times(leaf, h.leaf), Unflat(r, h.leaf)), h.super);
  }

  lemma LeafRow(h: Header, leaf: Coord, z: nat, y: nat, x: nat, i: nat)
    requires Valid(h) && InBox(leaf, LeafGrid(h)) && InBox(Coord(x, y, z), h.leaf)
    requires i == Flat(Coord(x, y, z), h.leaf)
    ensures i < Volume(h.leaf)
    ensures LeafSource(h, leaf, i) == Flat(Add(Times(leaf, h.leaf), Coord(x, y, z)), h.super) < Volume(h.super)
  {
    FlatInBox(Coord(x, y, z), h.leaf);
    LeafInside(h, leaf, Coord(x, y, z));
    FlatInBox(Add(Times(leaf, h.leaf), Coord(x, y, z)), h.super);
  }

  /** The first p cells of the leaf have been gathered from the superblock buffer. */
  ghost predicate Gathered(o: seq<Float>, b: seq<Float>, h: Header, leaf: Coord, p: nat)
    requires Valid(h)
  {
    forall i :: 0 <= i < p && i < |o| ==> LeafSource(h, leaf, i) < |b| && o[i] == b[LeafSource(h, leaf, i)]
  }

  method GatherRow(out: array<Float>, off: nat, b: array<Float>, h: Header, leaf: Coord, z: nat, y: nat, base: nat)
    requires Valid(h) && InBox(leaf, LeafGrid(h)) && InBox(Coord(0, y, z), h.leaf)
    requires out != b && b.Length == Volume(h.super) && off + Volume(h.leaf) <= out.Length
    requires base == (z * h.leaf.y + y) * h.leaf.x
    requires Gathered(out[off..off + Volume(h.leaf)], b[..], h, leaf, base)
    modifies out
    ensures Gathered(out[off..off + Volume(h.leaf)], b[..], h, leaf, base + h.leaf.x)
    ensures out[..off] == old(out[..off]) && out[off + Volume(h.leaf)..] == old(out[off + Volume(h.leaf)..])
  {
    var x: nat := 0;
    ghost var stop := off + Volume(h.leaf);
    var corner := Times(leaf, h.leaf);
    while x < h.leaf.x
      invariant x <= h.leaf.x
      invariant Gathered(out[off..stop], b[..], h, leaf, base + x)
      invariant out[..off] == old(out[..off]) && out[stop..] == old(out[stop..])
    {
      LeafRow(h, leaf, z, y, x, base + x);
      out[off + base + x] := b[Flat(Add(corner, Coord(x, y, z)), h.super)];
      x := x + 1;
    }
  }

  method GatherLeaf(out: array<Float>, off: nat, b: array<Float>, h: Header, leaf: Coord)
    requires Valid(h) && InBox(leaf, LeafGrid(h))
    requires out != b && b.Length == Volume(h.super) && off + Volume(h.leaf) <= out.Length
    modifies out
    ensures Gathered(out[off..off + Volume(h.leaf)], b[..], h, leaf, Volume(h.leaf))
    ensures out[..off] == old(out[..off]) && out[off + Volume(h.leaf)..] == old(out[off + Volume(h.leaf)..])
  {
    var z, base := 0, 0;
    ghost var stop := off + Volume(h.leaf);
    while z < h.leaf.z
      invariant z <= h.leaf.z && base == z * h.leaf.y * h.leaf.x
      invariant Gathered(out[off..stop], b[..], h, leaf, base)
      invariant out[..off] == old(out[..off]) && out[stop..] == old(out[stop..])
    {
      var y: nat := 0;
      while y < h.leaf.y
        invariant y <= h.leaf.y && base == (z * h.leaf.y + y) * h.leaf.x
        invariant Gathered(out[off..stop], b[..], h, leaf, base)
        invariant out[..off] == old(out[..off]) && out[stop..] == old(out[stop..])
      {
        GatherRow(out, off, b, h, leaf, z, y, base);
        MulNext(z * h.leaf.y + y, h.leaf.x);
        base := base + h.leaf.x;
        y := y + 1;
      }
      MulNext(z, h.leaf.y);
      z := z + 1;
    }
  }

  /** o holds the stored cells from position p on. */
  ghost predicate LeafPacked(o: seq<Float>, h: Header, raw: Raw, s: Coord, p: nat)
    requires Valid(h) && IsRaw(raw, h.n) && Volume(h.leaf) > 0
  {
    forall r :: 0 <= r < |o| ==> o[r] == PackedCell(h, raw, s, p + r)
  }

  ghost predicate IsFilled(b: seq<Float>, h: Header, raw: Raw, s: Coord)
    requires Valid(h) && IsRaw(raw, h.n)
  {
    && |b| == Volume(h.super)
    && forall i :: 0 <= i < |b| ==> b[i] == BoxCell(raw, h.n, Times(s, h.super), h.super, i)
  }

  // ----- the leaves written -----

  /** The codes below j that are leaves of the grid, in ascending order. */
  function Codes(grid: Coord, j: nat): seq<nat>
  {
    if j == 0 then [] else Codes(grid, j - 1) + (if InBox(Decode(j - 1), grid) then [j - 1] else [])
  }

  lemma {:induction false} CodesInGrid(grid: Coord, j: nat)
    ensures |Codes(grid, j)| <= j
    ensures forall q :: 0 <= q < |Codes(grid, j)| ==> Codes(grid, j)[q] < j && InBox(Decode(Codes(grid, j)[q]), grid)
  {
    if j > 0 {
      CodesInGrid(grid, j - 1);
    }
  }

  lemma {:induction false} GaplessCodes(grid: Coord, j: nat)
    requires Gapless(grid) && j <= Volume(grid)
    ensures Codes(grid, j) == Natural(j)
  {
    if j > 0 {
      GaplessCodes(grid, j - 1);
    }
  }

  /** Cell r of slot q. */
  function Place(q: nat, v: nat, r: nat): nat
  {
    q * v + r
  }

  /** Slot after slot, the leaves with the given codes. */
  ghost predicate Slots(o: seq<Float>, h: Header, raw: Raw, s: Coord, codes: seq<nat>)
    requires Valid(h) && IsRaw(raw, h.n)
  {
    forall q: nat, r: nat :: q < |codes| && r < Volume(h.leaf) && Place(q, Volume(h.leaf), r) < |o| ==>
      o[Place(q, Volume(h.leaf), r)] == LeafCell(h, raw, s, Decode(codes[q]), r)
  }

  /** What writing a superblock leaves in a buffer: its leaves with codes below the leaf count, and the rest as before. */
  ghost predicate LeavesWritten(before: seq<Float>, o: seq<Float>, h: Header, raw: Raw, s: Coord, codes: seq<nat>)
    requires Valid(h) && IsRaw(raw, h.n)
  {
    && |o| == |before| && Slots(o, h, raw, s, codes)
    && forall i :: Place(|codes|, Volume(h.leaf), 0) <= i < |o| ==> o[i] == before[i]
  }

  lemma SlotCells(o: seq<Float>, b: seq<Float>, h: Header, raw: Raw, s: Coord, leaf: Coord)
    requires Valid(h) && IsRaw(raw, h.n) && InBox(leaf, LeafGrid(h)) && |o| == Volume(h.leaf)
    requires IsFilled(b, h, raw, s) && Gathered(o, b, h, leaf, |o|)
    ensures forall r :: 0 <= r < |o| ==> o[r] == LeafCell(h, raw, s, leaf, r)
  {
    forall r | 0 <= r < |o|
      ensures o[r] == LeafCell(h, raw, s, leaf, r)
    {
      LeafSourceCell(h, raw, s, leaf, r);
    }
  }

  lemma NextSlot(before: seq<Float>, o: seq<Float>, o': seq<Float>, h: Header, raw: Raw, s: Coord, codes: seq<nat>,
                 code: nat, pos: nat, v: nat)
    requires Valid(h) && IsRaw(raw, h.n) && v == Volume(h.leaf) > 0 && pos == Place(|codes|, v, 0) && pos + v <= |o| == |o'|
    requires LeavesWritten(before, o, h, raw, s, codes) && o'[..pos] == o[..pos] && o'[pos + v..] == o[pos + v..]
    requires forall r :: 0 <= r < v ==> o'[pos + r] == LeafCell(h, raw, s, Decode(code), r)
    ensures LeavesWritten(before, o', h, raw, s, codes + [code]) && Place(|codes + [code]|, v, 0) == pos + v
  {
    MulNext(|codes|, v);
    var codes' := codes + [code];
    forall q: nat, r: nat | q < |codes'| && r < v && Place(q, v, r) < |o'|
      ensures o'[Place(q, v, r)] == LeafCell(h, raw, s, Decode(codes'[q]), r)
    {
      if q < |codes| {
        RadixBound(q, r, |codes|, v);
        assert o'[..pos][Place(q, v, r)] == o[..pos][Place(q, v, r)];
      }
    }
    forall i | pos + v <= i < |o'|
      ensures o'[i] == before[i]
    {
      assert o'[pos + v..][i - (pos + v)] == o[pos + v..][i - (pos + v)];
    }
  }

  lemma ExtendPacked(o: seq<Float>, h: Header, raw: Raw, s: Coord, p: nat, v: nat)
    requires Valid(h) && IsRaw(raw, h.n) && Volume(h.leaf) > 0 && p + v <= |o|
    requires PackedUpTo(o, h, raw, s, p)
    requires LeafPacked(o[p..p + v], h, raw, s, p)
    ensures PackedUpTo(o, h, raw, s, p + v)
  {
    forall i | 0 <= i < p + v && i < |o|
      ensures o[i] == PackedCell(h, raw, s, i)
    {
      if i >= p {
        assert o[i] == o[p..p + v][i - p];
      }
    }
  }

  /** Puts one leaf behind those written so far. */
  method StoreLeaf(out: array<Float>, pos: nat, h: Header, ghost raw: Raw, ghost s: Coord, b: array<Float>, code: nat,
                   ghost before: seq<Float>, ghost codes: seq<nat>)
    requires Valid(h) && IsRaw(raw, h.n) && Volume(h.leaf) > 0 && InBox(Decode(code), LeafGrid(h))
    requires out != b && pos + Volume(h.leaf) <= out.Length && IsFilled(b[..], h, raw, s)
    requires LeavesWritten(before, out[..], h, raw, s, codes) && pos == Place(|codes|, Volume(h.leaf), 0)
    modifies out
    ensures LeavesWritten(before, out[..], h, raw, s, codes + [code])
    ensures pos + Volume(h.leaf) == Place(|codes| + 1, Volume(h.leaf), 0)
  {
    ghost var o, v := out[..], Volume(h.leaf);
    GatherLeaf(out, pos, b, h, Decode(code));
    ghost var leaf := out[pos..pos + v];
    SlotCells(leaf, b[..], h, raw, s, Decode(code));
    assert forall r :: 0 <= r < v ==> out[pos + r] == leaf[r];
    NextSlot(before, o, out[..], h, raw, s, codes, code, pos, v);
  }

  /**
   * Rearranges the superblock buffer b leaf by leaf in Morton order. Codes outside the leaf grid are skipped
   * without leaving room for them, and leaves with codes from the leaf count on are not written; without such, the
   * result is addressed by Morton code.
   */
  method WriteLeavesToBuffer(out: array<Float>, h: Header, ghost raw: Raw, ghost s: Coord, b: array<Float>)
    requires Valid(h) && IsRaw(raw, h.n)
    requires out != b && out.Length == Volume(h.super) && IsFilled(b[..], h, raw, s)
    modifies out
    ensures Volume(h.leaf) > 0
    ensures LeavesWritten(old(out[..]), out[..], h, raw, s, Codes(LeafGrid(h), Volume(LeafGrid(h))))
    ensures Gapless(LeafGrid(h)) ==> PackedUpTo(out[..], h, raw, s, out.Length)
  {
    LeafGridExact(h);
    var v := Volume(h.leaf);
    var total := Volume(LeafGrid(h));
    var pos: nat, j: nat := 0, 0;
    while j < total
      invariant j <= total && pos == Place(|Codes(LeafGrid(h), j)|, v, 0)
      invariant LeavesWritten(old(out[..]), out[..], h, raw, s, Codes(LeafGrid(h), j))
    {
      CodesInGrid(LeafGrid(h), j);
      Room(|Codes(LeafGrid(h), j)|, total, v);
      if InBox(Decode(j), LeafGrid(h)) {
        StoreLeaf(out, pos, h, raw, s, b, j, old(out[..]), Codes(LeafGrid(h), j));
        pos := pos + v;
      }
      j := j + 1;
    }
    GaplessPacked(old(out[..]), out[..], h, raw, s);
  }

  lemma GaplessPacked(before: seq<Float>, o: seq<Float>, h: Header, raw: Raw, s: Coord)
    requires Valid(h) && IsRaw(raw, h.n) && |o| == Volume(h.super) && Volume(h.leaf) > 0
    requires LeavesWritten(before, o, h, raw, s, Codes(LeafGrid(h), Volume(LeafGrid(h))))
    ensures Gapless(LeafGrid(h)) ==> PackedUpTo(o, h, raw, s, |o|)
  {
    if Gapless(LeafGrid(h)) {
      LeafGridExact(h);
      GaplessCodes(LeafGrid(h), Volume(LeafGrid(h)));
      forall i | 0 <= i < |o|
        ensures o[i] == PackedCell(h, raw, s, i)
      {
        var q, r := Row(i, Volume(h.leaf)), Column(i, Volume(h.leaf));
        DivModBack(i, Volume(h.leaf));
        DivBound(i, Volume(LeafGrid(h)), Volume(h.leaf));
        assert Place(q, Volume(h.leaf), r) == i;
      }
    }
  }

  // ----- leaves that are lost -----

  /** A leaf whose code is beyond the leaf count is in no slot. */
  lemma LostLeaf(grid: Coord, c: Coord)
    requires InBox(c, grid)
    ensures Encode(c) >= Volume(grid) <==>
              forall q :: 0 <= q < |Codes(grid, Volume(grid))| ==> Decode(Codes(grid, Volume(grid))[q]) != c
  {
    DecodeEncode(c);
    CodesInGrid(grid, Volume(grid));
    forall q | 0 <= q < |Codes(grid, Volume(grid))|
      ensures Encode(Decode(Codes(grid, Volume(grid))[q])) < Volume(grid)
    {
      EncodeDecode(Codes(grid, Volume(grid))[q]);
    }
    if Encode(c) < Volume(grid) {
      CodeListed(grid, Volume(grid), Encode(c));
    }
  }

  lemma {:induction false} CodeListed(grid: Coord, j: nat, code: nat)
    requires code < j && InBox(Decode(code), grid)
    ensures code in Codes(grid, j)
  {
    if code < j - 1 {
      CodeListed(grid, j - 1, code);
    }
  }

  /** Volumes that differ in the lost leaf alone are written alike. */
  lemma WrittenAlike(h: Header, raw: Raw, raw': Raw, s: Coord, c: Coord, before: seq<Float>, o: seq<Float>)
    requires Valid(h) && IsRaw(raw, h.n) && IsRaw(raw', h.n)
    requires InBox(c, LeafGrid(h)) && Encode(c) >= Volume(LeafGrid(h))
    requires forall l: Coord, r: nat :: InBox(l, LeafGrid(h)) && l != c && r < Volume(h.leaf) ==>
               LeafCell(h, raw, s, l, r) == LeafCell(h, raw', s, l, r)
    ensures LeavesWritten(before, o, h, raw, s, Codes(LeafGrid(h), Volume(LeafGrid(h)))) <==>
            LeavesWritten(before, o, h, raw', s, Codes(LeafGrid(h), Volume(LeafGrid(h))))
  {
    LostLeaf(LeafGrid(h), c);
    CodesInGrid(LeafGrid(h), Volume(LeafGrid(h)));
  }

  lemma OtherCellKept(raw: Raw, raw': Raw, n: Coord, value: Float, g: Coord)
    requires n == Coord(8, 8, 8) && IsRaw(raw, n) && raw' == raw[32 := value] && g.y != 4
    ensures IsRaw(raw', n) && Padded(raw', n, g) == Padded(raw, n, g)
  {
  }

  lemma FirstLeafKept(h: Header, raw: Raw, raw': Raw, value: Float, s: Coord, r: nat)
    requires h.n == Coord(8, 8, 8) && h.super == Coord(4, 8, 4) && h.leaf == Coord(4, 4, 4) && Valid(h)
    requires IsRaw(raw, h.n) && raw' == raw[32 := value] && s.y == 0 && r < Volume(h.leaf)
    ensures LeafCell(h, raw, s, Coord(0, 0, 0), r) == LeafCell(h, raw', s, Coord(0, 0, 0), r)
  {
    UnflatInBox(r, h.leaf);
    var g := Add(Add(Times(s, h.super), Times(Coord(0, 0, 0), h.leaf)), Unflat(r, h.leaf));
    assert g.y < 4;
    OtherCellKept(raw, raw', h.n, value, g);
  }

  /** With two leaves of side 4 along y in a superblock, cell (0, 4, 0) may have any value: the same is written. */
  lemma CellLost(h: Header, raw: Raw, raw': Raw, value: Float, s: Coord, before: seq<Float>, o: seq<Float>)
    requires h.n == Coord(8, 8, 8) && h.super == Coord(4, 8, 4) && h.leaf == Coord(4, 4, 4) && Valid(h)
    requires IsRaw(raw, h.n) && raw' == raw[32 := value] && InBox(s, SuperGrid(h))
    ensures IsRaw(raw', h.n) && RawIndex(Coord(0, 4, 0), h.n) == 32 && Padded(raw', h.n, Coord(0, 4, 0)) == value
    ensures LeavesWritten(before, o, h, raw, s, Codes(LeafGrid(h), Volume(LeafGrid(h)))) <==>
            LeavesWritten(before, o, h, raw', s, Codes(LeafGrid(h), Volume(LeafGrid(h))))
  {
    ValidHeaderWithHoles(h);
    forall l: Coord, r: nat | InBox(l, LeafGrid(h)) && l != Coord(0, 1, 0) && r < Volume(h.leaf)
      ensures LeafCell(h, raw, s, l, r) == LeafCell(h, raw', s, l, r)
    {
      FirstLeafKept(h, raw, raw', value, s, r);
    }
    WrittenAlike(h, raw, raw', s, Coord(0, 1, 0), before, o);
  }

  // ----- the compressed writer's packing, straight from a slab of X planes -----

  /** The X planes of the raw file from firstX on, as many as the slab holds. */
  predicate IsSlab(raw: Raw, n: Coord, slab: seq<Float>, firstX: nat, planes: nat)
  {
    && firstX * (n.y * n.z) + planes * (n.y * n.z) <= |raw|
    && slab == raw[firstX * (n.y * n.z)..firstX * (n.y * n.z) + planes * (n.y * n.z)]
  }

  lemma SlabCell(raw: Raw, n: Coord, slab: seq<Float>, firstX: nat, planes: nat, g: Coord)
    requires IsRaw(raw, n) && IsSlab(raw, n, slab, firstX, planes)
    requires InBox(g, n) && firstX <= g.x < firstX + planes
    ensures var i := RawIndex(Coord(g.x - firstX, g.y, g.z), n);
            i < |slab| && slab[i] == Padded(raw, n, g)
  {
    var x := g.x - firstX;
    RawIndexBound(g, n);
    RawIndexBound(Coord(x, g.y, g.z), Coord(planes, n.y, n.z));
    PlaneArithmetic(firstX, x, g.y, g.z, n.y, n.z);
    PlaneArithmetic(0, planes, 0, 0, n.y, n.z);
  }

  lemma PlaneArithmetic(first: nat, x: nat, y: nat, z: nat, ny: nat, nz: nat)
    ensures ((first + x) * ny + y) * nz + z == first * (ny * nz) + ((x * ny + y) * nz + z)
    ensures x * ny * nz == x * (ny * nz)
  {
  }

  function LeafJob(h: Header, s: Coord, slab: seq<Float>, leaf: Coord): Job
  {
    Job(h.n, s.x * h.super.x, slab, Add(Times(s, h.super), Times(leaf, h.leaf)), h.leaf)
  }

  lemma LeafJobValid(h: Header, raw: Raw, s: Coord, slab: seq<Float>, planes: nat, leaf: Coord)
    requires Valid(h) && IsRaw(raw, h.n) && InBox(leaf, LeafGrid(h))
    requires IsSlab(raw, h.n, slab, s.x * h.super.x, planes)
    requires s.x * h.super.x < h.n.x && planes == Min(h.super.x, h.n.x - s.x * h.super.x)
    ensures var j := LeafJob(h, s, slab, leaf); ValidJob(j) && Copies(j, raw)
    ensures Below(Add(Times(leaf, h.leaf), h.leaf), h.super)
  {
    var j := LeafJob(h, s, slab, leaf);
    LeafInside(h, leaf, Coord(h.leaf.x - 1, h.leaf.y - 1, h.leaf.z - 1));
    forall g: Coord | InBox(g, h.n) && j.origin.x <= g.x < j.origin.x + j.dims.x
      ensures SlabIndex(j, g) < |slab| && slab[SlabIndex(j, g)] == Padded(raw, h.n, g)
    {
      SlabCell(raw, h.n, slab, s.x * h.super.x, planes, g);
    }
  }

  ghost predicate ZeroFrom(o: seq<Float>, p: nat)
  {
    forall i :: p <= i < |o| ==> o[i] == ZERO
  }

  /** Part of the superblock lies outside the volume. */
  predicate Ragged(h: Header, s: Coord)
  {
    !Below(Add(Times(s, h.super), h.super), h.n)
  }

  /** A leaf that starts outside the volume has only zero cells, which the buffer already holds. */
  lemma SkipLeaf(o: seq<Float>, h: Header, raw: Raw, s: Coord, code: nat, p: nat)
    requires Valid(h) && IsRaw(raw, h.n) && Volume(h.leaf) > 0 && p == code * Volume(h.leaf)
    requires p + Volume(h.leaf) <= |o| && PackedUpTo(o, h, raw, s, p) && ZeroFrom(o, p)
    requires !InBox(Add(Times(s, h.super), Times(Decode(code), h.leaf)), h.n)
    ensures PackedUpTo(o, h, raw, s, p + Volume(h.leaf))
  {
    forall i | p <= i < p + Volume(h.leaf)
      ensures PackedCell(h, raw, s, i) == ZERO
    {
      PackedLeaf(h, raw, s, code, i - p);
    }
  }

  lemma BeforeLeaf(o: seq<Float>, h: Header, s: Coord, j: Job, p: nat, v: nat)
    requires Valid(h) && ValidJob(j) && p + v <= |o| && (Ragged(h, s) ==> ZeroFrom(o, p))
    requires Below(Add(Times(s, h.super), h.super), j.n) ==> Below(Add(j.origin, j.dims), j.n)
    requires j.n == h.n
    ensures CopiedUpTo(o[p..p + v], j, 0)
  {
  }

  lemma AfterLeaf(o: seq<Float>, o': seq<Float>, h: Header, raw: Raw, s: Coord, j: Job, code: nat, p: nat, v: nat)
    requires Valid(h) && IsRaw(raw, h.n) && v == Volume(h.leaf) > 0 && p == code * v && p + v <= |o| == |o'|
    requires PackedUpTo(o, h, raw, s, p) && (Ragged(h, s) ==> ZeroFrom(o, p))
    requires o'[..p] == o[..p] && o'[p + v..] == o[p + v..]
    requires j.n == h.n && ValidJob(j) && Copies(j, raw) && j.dims == h.leaf
    requires j.origin == Add(Times(s, h.super), Times(Decode(code), h.leaf))
    requires CopiedUpTo(o'[p..p + v], j, v)
    ensures PackedUpTo(o', h, raw, s, p + v)
    ensures Ragged(h, s) ==> ZeroFrom(o', p + v)
  {
    forall i | 0 <= i < p
      ensures o'[i] == o[i]
    {
      assert o'[i] == o'[..p][i] && o[i] == o[..p][i];
    }
    forall i | p + v <= i < |o|
      ensures o'[i] == o[i]
    {
      assert o'[i] == o'[p + v..][i - (p + v)] && o[i] == o[p + v..][i - (p + v)];
    }
    var leaf := o'[p..p + v];
    forall r | 0 <= r < |leaf|
      ensures leaf[r] == PackedCell(h, raw, s, p + r)
    {
      PackedLeaf(h, raw, s, code, r);
    }
    ExtendPacked(o', h, raw, s, p, v);
  }

  method PackLeaf(out: array<Float>, h: Header, ghost raw: Raw, s: Coord, slab: seq<Float>, ghost planes: nat,
                  code: nat, p: nat, v: nat)
    requires Valid(h) && IsRaw(raw, h.n) && v == Volume(h.leaf) > 0 && p == code * v && p + v <= out.Length
    requires InBox(Decode(code), LeafGrid(h)) && IsSlab(raw, h.n, slab, s.x * h.super.x, planes)
    requires s.x * h.super.x < h.n.x && planes == Min(h.super.x, h.n.x - s.x * h.super.x)
    requires PackedUpTo(out[..], h, raw, s, p) && (Ragged(h, s) ==> ZeroFrom(out[..], p))
    modifies out
    ensures PackedUpTo(out[..], h, raw, s, p + v)
    ensures Ragged(h, s) ==> ZeroFrom(out[..], p + v)
  {
    var j := LeafJob(h, s, slab, Decode(code));
    ghost var before := out[..];
    LeafJobValid(h, raw, s, slab, planes, Decode(code));
    BeforeLeaf(before, h, s, j, p, v);
    CopyBox(out, p, j);
    AfterLeaf(before, out[..], h, raw, s, j, code, p, v);
  }

  /**
   * Packs superblock s leaf by leaf from the slab that starts at its first X plane. Leaves that start outside the
   * volume are left out, and the others are cut off at its faces: the buffer is zeroed first where that happens.
   */
  method PackLeavesFromSlab(out: array<Float>, h: Header, ghost raw: Raw, s: Coord, slab: seq<Float>, ghost planes: nat)
    requires Valid(h) && IsRaw(raw, h.n) && Gapless(LeafGrid(h)) && out.Length == Volume(h.super)
    requires InBox(Times(s, h.super), h.n) && IsSlab(raw, h.n, slab, s.x * h.super.x, planes)
    requires planes == Min(h.super.x, h.n.x - s.x * h.super.x)
    modifies out
    ensures Volume(h.leaf) > 0 && PackedUpTo(out[..], h, raw, s, out.Length)
  {
    LeafGridExact(h);
    var start := Times(s, h.super);
    var valid := Coord(Min(h.super.x, h.n.x - start.x), Min(h.super.y, h.n.y - start.y), Min(h.super.z, h.n.z - start.z));
    if valid != h.super {
      forall i | 0 <= i < out.Length {
        out[i] := ZERO;
      }
    }
    var v := Volume(h.leaf);
    var total := Volume(LeafGrid(h));
    var p: nat := 0;
    var code: nat := 0;
    while code < total
      invariant code <= total && p == code * v
      invariant PackedUpTo(out[..], h, raw, s, p) && (Ragged(h, s) ==> ZeroFrom(out[..], p))
    {
      MulNext(code, v);
      MulMono(code + 1, total, v);
      if InBox(Times(Decode(code), h.leaf), valid) {
        PackLeaf(out, h, raw, s, slab, planes, code, p, v);
      } else {
        LeafInside(h, Decode(code), Coord(0, 0, 0));
        SkipLeaf(out[..], h, raw, s, code, p);
      }
      p := p + v;
      code := code + 1;
    }
  }

  /** Both packings of a superblock produce the same cells. */
  lemma PackingsAgree(a: seq<Float>, b: seq<Float>, h: Header, raw: Raw, s: Coord)
    requires Valid(h) && IsRaw(raw, h.n) && Volume(h.leaf) > 0 && |a| == |b|
    requires PackedUpTo(a, h, raw, s, |a|) && PackedUpTo(b, h, raw, s, |b|)
    ensures a == b
  {
  }

  // ----- the whole volume -----

  /** The superblocks numbered below count are in the file, one after another behind the header. */
  ghost predicate StoredBelow(file: seq<Float>, h: Header, raw: Raw, count: nat)
    requires Valid(h) && IsRaw(raw, h.n) && Volume(h.leaf) > 0
  {
    && |file| == SuperblockOffset(h, count)
    && forall s: Coord :: InBox(s, SuperGrid(h)) && SuperblockId(h, s) < count ==> SuperblockStored(file, h, raw, s)
  }

  lemma AppendSuperblock(file: seq<Float>, block: seq<Float>, h: Header, raw: Raw, s: Coord)
    requires Valid(h) && IsRaw(raw, h.n) && Volume(h.leaf) > 0 && InBox(s, SuperGrid(h))
    requires StoredBelow(file, h, raw, SuperblockId(h, s))
    requires |block| == Volume(h.super) && PackedUpTo(block, h, raw, s, |block|)
    ensures StoredBelow(file + block, h, raw, SuperblockId(h, s) + 1)
  {
    var id := SuperblockId(h, s);
    var v := Volume(h.super);
    MulNext(id, v);
    forall s': Coord | InBox(s', SuperGrid(h)) && SuperblockId(h, s') < id + 1
      ensures SuperblockStored(file + block, h, raw, s')
    {
      var id' := SuperblockId(h, s');
      var o := SuperblockOffset(h, id');
      if id' < id {
        MulNext(id', v);
        MulMono(id' + 1, id, v);
        assert (file + block)[o..o + v] == file[o..o + v];
      } else {
        FlatInBox(s, SuperGrid(h));
        FlatInBox(s', SuperGrid(h));
        assert (file + block)[o..o + v] == block;
      }
    }
  }

  /** One superblock as it goes into the file. */
  method PackSuperblock(h: Header, raw: Raw, s: Coord) returns (block: seq<Float>)
    requires Valid(h) && IsRaw(raw, h.n) && Gapless(LeafGrid(h))
    ensures Volume(h.leaf) > 0 && |block| == Volume(h.super) && PackedUpTo(block, h, raw, s, |block|)
  {
    var buffer := new Float[Volume(h.super)];
    var leaves := new Float[Volume(h.super)];
    FillSuperBuffer(buffer, h, raw, s);
    WriteLeavesToBuffer(leaves, h, raw, s, buffer);
    block := leaves[..];
  }

  method WriteRow(h: Header, raw: Raw, before: seq<Float>, y: nat, z: nat, ghost base: nat) returns (file: seq<Float>)
    requires Valid(h) && IsRaw(raw, h.n) && Gapless(LeafGrid(h)) && Volume(h.leaf) > 0
    requires y < SuperGrid(h).y && z < SuperGrid(h).z
    requires base == (z * SuperGrid(h).y + y) * SuperGrid(h).x && StoredBelow(before, h, raw, base)
    ensures StoredBelow(file, h, raw, base + SuperGrid(h).x)
  {
    file := before;
    var x: nat := 0;
    while x < SuperGrid(h).x
      invariant x <= SuperGrid(h).x && StoredBelow(file, h, raw, base + x)
    {
      var block := PackSuperblock(h, raw, Coord(x, y, z));
      assert SuperblockId(h, Coord(x, y, z)) == base + x;
      AppendSuperblock(file, block, h, raw, Coord(x, y, z));
      file := file + block;
      x := x + 1;
    }
  }

  method WritePlane(h: Header, raw: Raw, before: seq<Float>, z: nat, ghost base: nat) returns (file: seq<Float>)
    requires Valid(h) && IsRaw(raw, h.n) && Gapless(LeafGrid(h)) && Volume(h.leaf) > 0 && z < SuperGrid(h).z
    requires base == z * SuperGrid(h).y * SuperGrid(h).x && StoredBelow(before, h, raw, base)
    ensures StoredBelow(file, h, raw, (z + 1) * SuperGrid(h).y * SuperGrid(h).x)
  {
    file := before;
    var y: nat := 0;
    ghost var row := base;
    while y < SuperGrid(h).y
      invariant y <= SuperGrid(h).y && row == (z * SuperGrid(h).y + y) * SuperGrid(h).x
      invariant StoredBelow(file, h, raw, row)
    {
      file := WriteRow(h, raw, file, y, z, row);
      MulNext(z * SuperGrid(h).y + y, SuperGrid(h).x);
      row := row + SuperGrid(h).x;
      y := y + 1;
    }
    MulNext(z, SuperGrid(h).y);
  }

  /** Writes every superblock behind the header, in the order of their numbers. */
  method WriteVolume(h: Header, raw: Raw, header: seq<Float>) returns (file: seq<Float>)
    requires Valid(h) && IsRaw(raw, h.n) && Gapless(LeafGrid(h)) && |header| == h.dataOffset
    ensures Volume(h.leaf) > 0 && Stored(file, h, raw)
    ensures |file| == SuperblockOffset(h, Volume(SuperGrid(h)))
  {
    LeafGridExact(h);
    file := header;
    var z: nat := 0;
    ghost var base: nat := 0;
    while z < SuperGrid(h).z
      invariant z <= SuperGrid(h).z && base == z * SuperGrid(h).y * SuperGrid(h).x && StoredBelow(file, h, raw, base)
    {
      file := WritePlane(h, raw, file, z, base);
      z := z + 1;
      base := z * SuperGrid(h).y * SuperGrid(h).x;
    }
    forall s: Coord | InBox(s, SuperGrid(h))
      ensures SuperblockStored(file, h, raw, s)
    {
      FlatInBox(s, SuperGrid(h));
    }
  }
}
