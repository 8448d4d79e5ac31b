/** Writing the sidecar of one axis: planes as single records, or slab by slab within a memory limit. */
module Lz4SidecarWriter {
  import opened Basics
  import opened Float32
  import opened Morton
  import opened Layout
  import opened SlicePlan
  import opened Lz4Sidecar

  const MIB: nat := 0x10_0000
  const U32_MAX: nat := 0xFFFF_FFFF
  const U64_MAX: nat := 0xFFFF_FFFF_FFFF_FFFF
  const INT_MAX: nat := 0x7FFF_FFFF
  const HEADER_BYTES: nat := 256
  const ENTRY_BYTES: nat := 16

  datatype Job = Job(raw: Raw, n: Coord, axis: Axis, codec: Codec)

  /** A job on a Y or Z axis of a nonempty volume. */
  predicate ValidJob(j: Job)
  {
    && j.axis != X && j.n.x > 0 && j.n.y > 0 && j.n.z > 0 && IsRaw(j.raw, j.n)
  }

  function Planes(j: Job): nat
  {
    Fixed(j.axis, j.n)
  }

  function Width(j: Job): nat
  {
    Inner(j.axis, j.n)
  }

  /** Cells of one X slab of one row. */
  function SlabCells(j: Job): nat
  {
    j.n.y * j.n.z
  }

  // ----- gathering a fragment from a slab -----

  /** Where cell column of row x of plane p lies in a slab of X rows. */
  function SlabIndex(j: Job, x: nat, p: nat, column: nat): nat
  {
    if j.axis == Y then (x * j.n.y + p) * j.n.z + column else x * j.n.y * j.n.z + column * j.n.z + p
  }

  lemma SlabCell(j: Job, first: nat, x: nat, p: nat, column: nat)
    requires ValidJob(j) && p < Planes(j) && column < Width(j) && first + x < j.n.x
    ensures SlabIndex(j, x, p, column) < Cells(x + 1, SlabCells(j))
    ensures Cells(first, SlabCells(j)) + SlabIndex(j, x, p, column) < |j.raw|
    ensures j.raw[Cells(first, SlabCells(j)) + SlabIndex(j, x, p, column)]
         == Layout.Padded(j.raw, j.n, Make(j.axis, p, first + x, column))
  {
    var c := Make(j.axis, p, first + x, column);
    RawIndexBound(c, j.n);
    SlabArithmetic(first, x, c.y, c.z, j.n.y, j.n.z);
    RadixBound(c.y, c.z, j.n.y, j.n.z);
  }

  lemma SlabArithmetic(first: nat, x: nat, y: nat, z: nat, ny: nat, nz: nat)
    ensures ((first + x) * ny + y) * nz + z == first * (ny * nz) + (x * ny * nz + y * nz + z)
    ensures (x * ny + y) * nz + z == x * ny * nz + y * nz + z
    ensures (x + 1) * (ny * nz) == x * ny * nz + ny * nz
  {
  }

  /** The first count cells of the fragment are in place. */
  predicate Gathered(out: seq<Float>, j: Job, first: nat, p: nat, count: nat)
    requires ValidJob(j)
  {
    && count <= |out|
    && forall i :: 0 <= i < count ==> out[i] == PlaneCell(j.raw, j.n, j.axis, p, Cells(first, Width(j)) + i)
  }

  /** The slab holds the given X rows of the volume. */
  predicate IsSlab(slab: seq<Float>, j: Job, first: nat, rows: nat)
    requires ValidJob(j)
  {
    && first + rows <= j.n.x && |slab| == Cells(rows, SlabCells(j))
    && Cells(first, SlabCells(j)) + |slab| <= |j.raw|
    && slab == j.raw[Cells(first, SlabCells(j))..Cells(first, SlabCells(j)) + |slab|]
  }

  /** The cell that belongs next in the fragment. */
  lemma NextCell(j: Job, first: nat, rows: nat, slab: seq<Float>, x: nat, p: nat, column: nat)
    requires ValidJob(j) && p < Planes(j) && column < Width(j) && x < rows && IsSlab(slab, j, first, rows)
    ensures SlabIndex(j, x, p, column) < |slab|
    ensures slab[SlabIndex(j, x, p, column)]
         == PlaneCell(j.raw, j.n, j.axis, p, Cells(first, Width(j)) + Cells(x, Width(j)) + column)
  {
    SlabCell(j, first, x, p, column);
    MulMono(x + 1, rows, SlabCells(j));
    JoinSizes(first, first, x, Width(j));
    DivMod(first + x, column, Width(j));
  }

  /** One X row of a fragment. */
  method GatherRow(j: Job, ghost first: nat, ghost rows: nat, slab: seq<Float>, x: nat, p: nat, out: array<Float>,
                   start: nat)
    requires ValidJob(j) && p < Planes(j) && x < rows && IsSlab(slab, j, first, rows)
    requires start == Cells(x, Width(j)) && start + Width(j) <= out.Length
    requires Gathered(out[..], j, first, p, start)
    modifies out
    ensures Gathered(out[..], j, first, p, start + Width(j))
  {
    var column: nat := 0;
    while column < Width(j)
      invariant column <= Width(j) && Gathered(out[..], j, first, p, start + column)
    {
      NextCell(j, first, rows, slab, x, p, column);
      out[start + column] := slab[SlabIndex(j, x, p, column)];
      column := column + 1;
    }
  }

  /** A worker's task: the slab's part of plane p. */
  method Gather(j: Job, ghost first: nat, rows: nat, slab: seq<Float>, p: nat) returns (f: seq<Float>)
    requires ValidJob(j) && p < Planes(j) && IsSlab(slab, j, first, rows)
    ensures f == Fragment(j.raw, j.n, j.axis, p, first, rows)
  {
    var out := new Float[Cells(rows, Width(j))](_ => ZERO);
    var x: nat := 0;
    assert Cells(0, Width(j)) == 0;
    while x < rows
      invariant x <= rows && Gathered(out[..], j, first, p, Cells(x, Width(j)))
    {
      JoinSizes(0, x, 1, Width(j));
      MulMono(x + 1, rows, Width(j));
      assert Cells(1, Width(j)) == Width(j);
      GatherRow(j, first, rows, slab, x, p, out, Cells(x, Width(j)));
      x := x + 1;
    }
    f := out[..];
  }

  /** Reading a slab from the raw file. */
  function Slab(j: Job, first: nat, rows: nat): (slab: seq<Float>)
    requires ValidJob(j) && first + rows <= j.n.x
    ensures IsSlab(slab, j, first, rows)
  {
    JoinSizes(0, first, rows, SlabCells(j));
    MulMono(first + rows, j.n.x, SlabCells(j));
    RawSize(j);
    j.raw[Cells(first, SlabCells(j))..Cells(first, SlabCells(j)) + Cells(rows, SlabCells(j))]
  }

  lemma RawSize(j: Job)
    requires ValidJob(j)
    ensures |j.raw| == j.n.x * SlabCells(j)
  {
    RawSizeArithmetic(j.n.x, j.n.y, j.n.z);
  }

  lemma RawSizeArithmetic(x: nat, y: nat, z: nat)
    ensures x * y * z == x * (y * z)
  {
  }

  // ----- writing records -----

  /** Slots filled so far hold the entries in the order they were written. */
  predicate Filled(index: seq<Entry>, order: seq<Entry>, planes: nat, chunks: nat)
    requires planes > 0
  {
    && |index| == planes * chunks && |order| <= |index|
    && forall k :: 0 <= k < |order| ==> EntryWritten(index, planes, chunks, k) == order[k]
  }

  lemma FillNext(index: seq<Entry>, order: seq<Entry>, planes: nat, chunks: nat, e: Entry)
    requires planes > 0 && Filled(index, order, planes, chunks) && |order| < |index|
    ensures var slot := Slot(Column(|order|, planes), Row(|order|, planes), chunks);
            slot < |index| && Filled(index[slot := e], order + [e], planes, chunks)
  {
    SlotOfPart(planes, chunks, |order|);
    var slot := Slot(Column(|order|, planes), Row(|order|, planes), chunks);
    var index', order' := index[slot := e], order + [e];
    forall k | 0 <= k < |order'|
      ensures EntryWritten(index', planes, chunks, k) == order'[k]
    {
      if k < |order| {
        SlotsDiffer(planes, chunks, k, |order|);
        SlotOfPart(planes, chunks, k);
        assert EntryWritten(index, planes, chunks, k) == order[k];
      }
    }
  }

  /** Records one behind the other, from the start to the end given. */
  predicate Chained(order: seq<Entry>, start: nat, end: nat)
  {
    if order == [] then start == end
    else
      && order[0].offset == start && order[|order| - 1].offset + order[|order| - 1].size == end
      && forall k :: 0 < k < |order| ==> order[k].offset == order[k - 1].offset + order[k - 1].size
  }

  /** The records written so far are those of the first parts. */
  ghost predicate PartsHeld(bytes: seq<Byte>, order: seq<Entry>, j: Job, rows: nat)
    requires ValidJob(j)
  {
    forall k :: 0 <= k < |order| ==> RecordHolds(bytes, order[k], j.codec, Part(j.raw, j.n, j.axis, rows, k))
  }

  lemma HeldNext(bytes: seq<Byte>, order: seq<Entry>, j: Job, rows: nat, record: seq<Byte>)
    requires ValidJob(j) && PartsHeld(bytes, order, j, rows) && record != []
    requires j.codec.compress(Part(j.raw, j.n, j.axis, rows, |order|)) == Some(record)
    ensures PartsHeld(bytes + record,
                      order + [Entry(|bytes|, |record|, |Part(j.raw, j.n, j.axis, rows, |order|)|)], j, rows)
  {
    var bytes', e := bytes + record, Entry(|bytes|, |record|, |Part(j.raw, j.n, j.axis, rows, |order|)|);
    assert bytes'[e.offset..e.offset + e.size] == record;
    forall k | 0 <= k < |order|
      ensures RecordHolds(bytes', order[k], j.codec, Part(j.raw, j.n, j.axis, rows, k))
    {
      var f := order[k];
      assert RecordHolds(bytes, f, j.codec, Part(j.raw, j.n, j.axis, rows, k));
      assert bytes'[f.offset..f.offset + f.size] == bytes[f.offset..f.offset + f.size];
    }
  }

  /** The index, the file and the records written so far agree. */
  ghost predicate Writing(index: seq<Entry>, bytes: seq<Byte>, order: seq<Entry>, j: Job, rows: nat, chunks: nat,
                          start: nat)
    requires ValidJob(j)
  {
    Filled(index, order, Planes(j), chunks) && Chained(order, start, |bytes|) && PartsHeld(bytes, order, j, rows)
  }

  predicate Compressible(codec: Codec, data: seq<Float>)
  {
    codec.compress(data).Some? && codec.compress(data).value != []
  }

  predicate PartCompressible(j: Job, rows: nat, k: nat)
    requires ValidJob(j)
  {
    Compressible(j.codec, Part(j.raw, j.n, j.axis, rows, k))
  }

  /** One record: compressed, entered in the index, and put at the end of the file. */
  method WriteRecord(j: Job, ghost rows: nat, chunks: nat, ghost start: nat, index: seq<Entry>, bytes: seq<Byte>,
                     ghost order: seq<Entry>, p: nat, chunk: nat, data: seq<Float>)
    returns (ok: bool, index': seq<Entry>, bytes': seq<Byte>, ghost order': seq<Entry>)
    requires ValidJob(j) && Writing(index, bytes, order, j, rows, chunks, start)
    requires p < Planes(j) && chunk < chunks && |order| == Slot(chunk, p, Planes(j))
    requires data == Part(j.raw, j.n, j.axis, rows, |order|)
    ensures |index'| == |index| && (ok <==> PartCompressible(j, rows, |order|))
    ensures ok ==> Writing(index', bytes', order', j, rows, chunks, start) && |order'| == |order| + 1
  {
    index', bytes', order' := index, bytes, order;
    var record := j.codec.compress(data);
    ok := record.Some? && record.value != [];
    if !ok {
      return;
    }
    PartOfSlot(Planes(j), chunks, p, chunk);
    ghost var e := Entry(|bytes|, |record.value|, |data|);
    FillNext(index, order, Planes(j), chunks, e);
    HeldNext(bytes, order, j, rows, record.value);
    index' := index[Slot(p, chunk, chunks) := Entry(|bytes|, |record.value|, |data|)];
    bytes' := bytes + record.value;
    order' := order + [e];
  }

  /** An index with no entry filled. */
  function Unfilled(size: nat): (index: seq<Entry>)
    ensures |index| == size
  {
    seq(size, _ => Entry(0, 0, 0))
  }

  lemma NothingWritten(j: Job, rows: nat, chunks: nat, front: seq<Byte>)
    requires ValidJob(j)
    ensures Writing(Unfilled(Planes(j) * chunks), front, [], j, rows, chunks, |front|)
  {
  }

  predicate SomePartFails(j: Job, rows: nat, parts: nat)
    requires ValidJob(j)
  {
    exists k :: 0 <= k < parts && !PartCompressible(j, rows, k)
  }

  // ----- slab by slab -----

  /** The records of one slab: a fragment of every plane. */
  method WriteSlab(j: Job, rows: nat, chunks: nat, ghost start: nat, index: seq<Entry>, bytes: seq<Byte>,
                   ghost order: seq<Entry>, chunk: nat)
    returns (ok: bool, index': seq<Entry>, bytes': seq<Byte>, ghost order': seq<Entry>)
    requires ValidJob(j) && rows > 0 && chunks == CeilDiv(j.n.x, rows) && chunk < chunks
    requires Writing(index, bytes, order, j, rows, chunks, start) && |order| == Slot(chunk, 0, Planes(j))
    ensures |index'| == |index|
    ensures ok ==> Writing(index', bytes', order', j, rows, chunks, start) && |order'| == Slot(chunk + 1, 0, Planes(j))
    ensures !ok ==> SomePartFails(j, rows, |index|)
  {
    index', bytes', order', ok := index, bytes, order, true;
    ChunkRows(j.n, rows, chunk);
    var first, count := First(chunk, rows), Min(rows, j.n.x - First(chunk, rows));
    var slab := Slab(j, first, count);
    var p: nat := 0;
    while p < Planes(j)
      invariant ok && p <= Planes(j) && |index'| == |index|
      invariant Writing(index', bytes', order', j, rows, chunks, start) && |order'| == Slot(chunk, p, Planes(j))
    {
      PartOfSlot(Planes(j), chunks, p, chunk);
      var data := Gather(j, first, count, slab, p);
      ghost var k := |order'|;
      ok, index', bytes', order' := WriteRecord(j, rows, chunks, start, index', bytes', order', p, chunk, data);
      if !ok {
        return;
      }
      p := p + 1;
    }
    MulNext(chunk, Planes(j));
  }

  /** Memory-bounded mode: every slab is read once, and its fragment of every plane compressed on its own. */
  method WriteChunks(j: Job, rows: nat, front: seq<Byte>)
    returns (ok: bool, index: seq<Entry>, bytes: seq<Byte>, ghost order: seq<Entry>)
    requires ValidJob(j) && rows > 0
    ensures |index| == Planes(j) * CeilDiv(j.n.x, rows)
    ensures ok ==> Writing(index, bytes, order, j, rows, CeilDiv(j.n.x, rows), |front|) && |order| == |index|
    ensures !ok ==> SomePartFails(j, rows, |index|)
  {
    var chunks := CeilDiv(j.n.x, rows);
    index, bytes, order, ok := Unfilled(Planes(j) * chunks), front, [], true;
    NothingWritten(j, rows, chunks, front);
    SlotEnds(Planes(j), chunks);
    var chunk: nat := 0;
    while chunk < chunks
      invariant ok && chunk <= chunks && |index| == Planes(j) * chunks
      invariant Writing(index, bytes, order, j, rows, chunks, |front|) && |order| == Slot(chunk, 0, Planes(j))
    {
      ok, index, bytes, order := WriteSlab(j, rows, chunks, |front|, index, bytes, order, chunk);
      if !ok {
        return;
      }
      chunk := chunk + 1;
    }
  }

  lemma SlotEnds(planes: nat, chunks: nat)
    ensures Slot(0, 0, planes) == 0 && Slot(chunks, 0, planes) == planes * chunks
  {
  }

  // ----- whole planes -----

  /** Every plane's buffer holds its first rows. */
  predicate Buffered(planes: seq<seq<Float>>, j: Job, first: nat)
    requires ValidJob(j)
  {
    && |planes| == Planes(j)
    && forall p :: 0 <= p < |planes| ==> planes[p] == Fragment(j.raw, j.n, j.axis, p, 0, first)
  }

  /** The planes before the given one have the slab's rows too. */
  predicate BufferedHalf(planes: seq<seq<Float>>, j: Job, first: nat, rows: nat, done: nat)
    requires ValidJob(j)
  {
    && |planes| == Planes(j)
    && forall p :: 0 <= p < |planes| ==>
         planes[p] == Fragment(j.raw, j.n, j.axis, p, 0, if p < done then first + rows else first)
  }

  /** The scatter of one slab over the plane buffers. */
  method ScatterSlab(j: Job, planes: seq<seq<Float>>, first: nat, rows: nat) returns (planes': seq<seq<Float>>)
    requires ValidJob(j) && first + rows <= j.n.x && Buffered(planes, j, first)
    ensures Buffered(planes', j, first + rows)
  {
    planes' := planes;
    var slab := Slab(j, first, rows);
    var p: nat := 0;
    while p < Planes(j)
      invariant p <= Planes(j) && BufferedHalf(planes', j, first, rows, p)
    {
      var data := Gather(j, first, rows, slab, p);
      FragmentsJoin(j.raw, j.n, j.axis, p, 0, first, rows);
      planes' := planes'[p := planes'[p] + data];
      p := p + 1;
    }
  }

  method BufferPlanes(j: Job, slabRows: nat) returns (planes: seq<seq<Float>>)
    requires ValidJob(j) && slabRows > 0
    ensures Buffered(planes, j, j.n.x)
  {
    planes := seq(Planes(j), _ => []);
    assert Cells(0, Width(j)) == 0;
    var first: nat := 0;
    while first < j.n.x
      invariant first <= j.n.x && Buffered(planes, j, first)
    {
      var rows := Min(slabRows, j.n.x - first);
      planes := ScatterSlab(j, planes, first, rows);
      first := first + rows;
    }
  }

  lemma WholePart(j: Job, p: nat)
    requires ValidJob(j) && p < Planes(j)
    ensures CeilDiv(j.n.x, j.n.x) == 1 && Slot(0, p, Planes(j)) == p
    ensures Part(j.raw, j.n, j.axis, j.n.x, p) == Fragment(j.raw, j.n, j.axis, p, 0, j.n.x)
  {
    DivMod(0, p, Planes(j));
    DivMod(1, j.n.x - 1, j.n.x);
    ChunkRows(j.n, j.n.x, 0);
  }

  /** Whole-plane mode: the slabs are scattered over plane buffers, and each plane becomes one record. */
  method WriteWhole(j: Job, slabRows: nat, front: seq<Byte>)
    returns (ok: bool, index: seq<Entry>, bytes: seq<Byte>, ghost order: seq<Entry>)
    requires ValidJob(j) && slabRows > 0
    ensures |index| == Planes(j)
    ensures ok ==> Writing(index, bytes, order, j, j.n.x, 1, |front|) && |order| == |index|
    ensures !ok ==> SomePartFails(j, j.n.x, |index|)
  {
    var planes := BufferPlanes(j, slabRows);
    index, bytes, order, ok := Unfilled(Planes(j)), front, [], true;
    NothingWritten(j, j.n.x, 1, front);
    var p: nat := 0;
    while p < Planes(j)
      invariant ok && p <= Planes(j) && |index| == Planes(j)
      invariant Writing(index, bytes, order, j, j.n.x, 1, |front|) && |order| == p
    {
      WholePart(j, p);
      ok, index, bytes, order := WriteRecord(j, j.n.x, 1, |front|, index, bytes, order, p, 0, planes[p]);
      if !ok {
        return;
      }
      p := p + 1;
    }
  }

  // ----- the sidecar as a whole -----

  /** All parts are written: the index leads to every record, and the records fill the file. */
  lemma AllWritten(j: Job, rows: nat, index: seq<Entry>, bytes: seq<Byte>, order: seq<Entry>, start: nat)
    requires ValidJob(j) && rows > 0 && Writing(index, bytes, order, j, rows, CeilDiv(j.n.x, rows), start)
    requires |order| == |index| > 0
    ensures HoldsPlanes(bytes, index, j.n, j.axis, rows, j.codec, j.raw)
    ensures Tiles(Sidecar(j.n, j.axis, CeilDiv(j.n.x, rows), index, start, bytes))
  {
  }

  /** The size of the first k records. */
  function RecordsSize(j: Job, rows: nat, k: nat): nat
    requires ValidJob(j)
  {
    if k == 0 then 0
    else
      var record := j.codec.compress(Part(j.raw, j.n, j.axis, rows, k - 1));
      RecordsSize(j, rows, k - 1) + if record.Some? then |record.value| else 0
  }

  lemma {:induction false} SizeWritten(j: Job, rows: nat, bytes: seq<Byte>, order: seq<Entry>, k: nat, start: nat)
    requires ValidJob(j) && k <= |order| && order != [] && Chained(order, start, |bytes|) && PartsHeld(bytes, order, j, rows)
    ensures start + RecordsSize(j, rows, k) == if k < |order| then order[k].offset else |bytes|
  {
    if k > 0 {
      SizeWritten(j, rows, bytes, order, k - 1, start);
      assert RecordHolds(bytes, order[k - 1], j.codec, Part(j.raw, j.n, j.axis, rows, k - 1));
    }
  }

  /** Memory the caller allows, in bytes; no limit means all there is. */
  function MemoryBudget(limitMiB: nat): nat
  {
    if limitMiB == 0 || limitMiB > U64_MAX / MIB then U64_MAX else limitMiB * MIB
  }

  /** Planes are buffered whole if each is small and all of them, with headroom, fit the memory allowed. */
  predicate WholePlanes(n: Coord, axis: Axis, limitMiB: nat)
  {
    && 4 * (n.x * Inner(axis, n)) <= 128 * MIB
    && (limitMiB == 0 || 4 * (n.x * n.y * n.z) + 512 * MIB <= Min(U64_MAX, MemoryBudget(limitMiB)))
  }

  function SlabBudget(n: Coord, axis: Axis, limitMiB: nat): nat
  {
    if WholePlanes(n, axis, limitMiB) || limitMiB == 0 then 512 * MIB
    else Max(4 * (n.y * n.z), MemoryBudget(limitMiB) - MemoryBudget(limitMiB) / 4)
  }

  /** How many X rows are read at a time. */
  function SlabRows(n: Coord, axis: Axis, chunkElements: nat, limitMiB: nat): (rows: nat)
    requires 0 < Inner(axis, n) && 0 < n.y * n.z
    ensures rows > 0
  {
    var requested := if WholePlanes(n, axis, limitMiB) then n.x else Max(1, Pieces(chunkElements, Inner(axis, n)));
    var byCodec := Pieces(INT_MAX, 4 * Inner(axis, n));
    Max(1, Min(Min(Min(n.x, byCodec), requested), Max(1, Pieces(SlabBudget(n, axis, limitMiB), 4 * (n.y * n.z)))))
  }

  /** A slab is one row, or fits the slab budget; a fragment is one the codec's int sizes can express. */
  lemma SlabFits(n: Coord, axis: Axis, chunkElements: nat, limitMiB: nat, slab: nat, width: nat)
    requires width == Inner(axis, n) && slab == n.y * n.z && 0 < width && 0 < slab && 4 * width <= INT_MAX
    ensures var rows := SlabRows(n, axis, chunkElements, limitMiB);
            (rows == 1 || rows * (4 * slab) <= SlabBudget(n, axis, limitMiB)) && rows * (4 * width) <= INT_MAX
  {
    var rows := SlabRows(n, axis, chunkElements, limitMiB);
    var fits, byCodec := Pieces(SlabBudget(n, axis, limitMiB), 4 * slab), Pieces(INT_MAX, 4 * width);
    DivModBack(SlabBudget(n, axis, limitMiB), 4 * slab);
    DivModBack(INT_MAX, 4 * width);
    OnePiece(INT_MAX, 4 * width);
    MulMono(rows, byCodec, 4 * width);
    if rows > 1 {
      MulMono(rows, fits, 4 * slab);
    }
  }

  /** More rows would be more than there are, or than the codec, the chunk size or the slab budget allow. */
  lemma SlabLargest(n: Coord, axis: Axis, chunkElements: nat, limitMiB: nat, slab: nat, width: nat, more: nat)
    requires width == Inner(axis, n) && slab == n.y * n.z && 0 < width && 0 < slab
    requires more > SlabRows(n, axis, chunkElements, limitMiB)
    ensures || more > n.x
            || more * (4 * width) > INT_MAX
            || (!WholePlanes(n, axis, limitMiB) && more * width > chunkElements)
            || more * (4 * slab) > SlabBudget(n, axis, limitMiB)
    ensures WholePlanes(n, axis, limitMiB) || SlabRows(n, axis, chunkElements, limitMiB) <= Max(1, Pieces(chunkElements, width))
    ensures SlabRows(n, axis, chunkElements, limitMiB) <= Max(1, n.x)
  {
    TooMany(INT_MAX, 4 * width, more);
    TooMany(chunkElements, width, more);
    TooMany(SlabBudget(n, axis, limitMiB), 4 * slab, more);
  }

  lemma TooMany(total: nat, size: nat, more: nat)
    requires size > 0
    ensures Pieces(total, size) < more ==> more * size > total
  {
    DivModBack(total, size);
    if Pieces(total, size) < more {
      Room(Pieces(total, size), more, size);
    }
  }

  lemma OnePiece(total: nat, size: nat)
    requires 0 < size <= total
    ensures Pieces(total, size) >= 1
  {
    DivModBack(total, size);
  }

  /** What the writer demands of its arguments before it reads anything. */
  predicate Admissible(raw: seq<Float>, n: Coord, axis: Axis, budget: real)
  {
    && axis != X && n.x > 0 && n.y > 0 && n.z > 0 && budget > 0.0
    && Fixed(axis, n) <= U32_MAX && 4 * (n.x * n.y * n.z) <= U64_MAX && |raw| == n.x * n.y * n.z
    && 4 * Inner(axis, n) <= INT_MAX
  }

  function ChunkHeight(n: Coord, axis: Axis, chunkElements: nat, limitMiB: nat): (rows: nat)
    requires n.x > 0 && n.y > 0 && n.z > 0
    ensures rows > 0
  {
    SomeCells(n);
    if WholePlanes(n, axis, limitMiB) then n.x else SlabRows(n, axis, chunkElements, limitMiB)
  }

  lemma SomeCells(n: Coord)
    requires n.y > 0 && n.z > 0
    ensures n.y * n.z > 0
  {
  }

  /** Records in total; as many index entries. */
  function Parts(j: Job, rows: nat): nat
    requires rows > 0
  {
    Planes(j) * CeilDiv(j.n.x, rows)
  }

  function DataOffset(parts: nat): nat
  {
    HEADER_BYTES + ENTRY_BYTES * parts
  }

  function SidecarSize(j: Job, rows: nat): nat
    requires ValidJob(j) && rows > 0
  {
    DataOffset(Parts(j, rows)) + RecordsSize(j, rows, Parts(j, rows))
  }

  /** The main file and the sidecar together stay within the given multiple of the raw size. */
  predicate WithinBudget(size: nat, mainBytes: nat, rawCells: nat, budget: real)
    requires rawCells > 0
  {
    mainBytes + size <= U64_MAX && (mainBytes + size) as real / (4 * rawCells) as real <= budget
  }

  /** When a sidecar comes about: the index fits memory, every part compresses, the size is within budget. */
  predicate Writable(j: Job, rows: nat, mainBytes: nat, budget: real)
    requires ValidJob(j) && rows > 0
  {
    && Parts(j, rows) <= U64_MAX / ENTRY_BYTES && DataOffset(Parts(j, rows)) <= U64_MAX
    && !SomePartFails(j, rows, Parts(j, rows))
    && 0 < |j.raw| && WithinBudget(SidecarSize(j, rows), mainBytes, |j.raw|, budget)
  }

  lemma SomeParts(j: Job, rows: nat)
    requires ValidJob(j) && rows > 0
    ensures Parts(j, rows) > 0 && |j.raw| > 0
  {
    CeilDivBound(0, j.n.x, rows);
    MulMono(1, Planes(j), CeilDiv(j.n.x, rows));
    RawSize(j);
    SomeCells(j.n);
    MulMono(1, j.n.x, SlabCells(j));
  }

  lemma Finished(j: Job, rows: nat, index: seq<Entry>, bytes: seq<Byte>, order: seq<Entry>, start: nat)
    requires ValidJob(j) && rows > 0 && Writing(index, bytes, order, j, rows, CeilDiv(j.n.x, rows), start)
    requires |order| == |index| == Parts(j, rows) > 0
    ensures !SomePartFails(j, rows, Parts(j, rows))
    ensures HoldsPlanes(bytes, index, j.n, j.axis, rows, j.codec, j.raw)
    ensures Tiles(Sidecar(j.n, j.axis, CeilDiv(j.n.x, rows), index, start, bytes))
    ensures |bytes| == start + RecordsSize(j, rows, Parts(j, rows))
  {
    AllWritten(j, rows, index, bytes, order, start);
    SizeWritten(j, rows, bytes, order, |order|, start);
    NoneFails(j, rows, bytes, order);
  }

  /** Both modes. */
  method WriteRecords(j: Job, whole: bool, rows: nat, slabRows: nat, front: seq<Byte>)
    returns (ok: bool, index: seq<Entry>, bytes: seq<Byte>)
    requires ValidJob(j) && rows > 0 && slabRows > 0 && rows == if whole then j.n.x else slabRows
    ensures ok <==> !SomePartFails(j, rows, Parts(j, rows))
    ensures ok ==> HoldsPlanes(bytes, index, j.n, j.axis, rows, j.codec, j.raw)
    ensures ok ==> Tiles(Sidecar(j.n, j.axis, CeilDiv(j.n.x, rows), index, |front|, bytes))
    ensures ok ==> |bytes| == |front| + RecordsSize(j, rows, Parts(j, rows))
  {
    ghost var order;
    SomeParts(j, rows);
    if whole {
      WholePart(j, 0);
      ok, index, bytes, order := WriteWhole(j, slabRows, front);
    } else {
      ok, index, bytes, order := WriteChunks(j, rows, front);
    }
    if ok {
      Finished(j, rows, index, bytes, order, |front|);
    }
  }

  lemma NoneFails(j: Job, rows: nat, bytes: seq<Byte>, order: seq<Entry>)
    requires ValidJob(j) && PartsHeld(bytes, order, j, rows)
    ensures !SomePartFails(j, rows, |order|)
  {
    forall k | 0 <= k < |order|
      ensures PartCompressible(j, rows, k)
    {
      assert RecordHolds(bytes, order[k], j.codec, Part(j.raw, j.n, j.axis, rows, k));
    }
  }

  /** What the result of the writer is a sidecar of. */
  ghost predicate IsSidecar(s: Sidecar, j: Job, rows: nat)
    requires ValidJob(j) && rows > 0
  {
    && s.n == j.n && s.axis == j.axis && s.chunks == CeilDiv(j.n.x, rows) <= U32_MAX
    && s.dataOffset == DataOffset(|s.index|) <= |s.bytes|
    && HoldsPlanes(s.bytes, s.index, j.n, j.axis, rows, j.codec, j.raw) && Tiles(s)
  }

  /** Encoding and the final check against the storage budget; an attempt that fails leaves no sidecar behind. */
  method EncodeSidecar(j: Job, whole: bool, rows: nat, slabRows: nat, mainBytes: nat, budget: real)
    returns (s: Option<Sidecar>)
    requires ValidJob(j) && rows > 0 && slabRows > 0 && rows == (if whole then j.n.x else slabRows) && j.n.x <= U32_MAX
    ensures s.Some? <==> Writable(j, rows, mainBytes, budget)
    ensures s.Some? ==> IsSidecar(s.value, j, rows)
  {
    SomeParts(j, rows);
    ChunkCount(j.n.x, rows);
    var parts := Parts(j, rows);
    if parts > U64_MAX / ENTRY_BYTES || DataOffset(parts) > U64_MAX {
      return None;
    }
    var front := seq(DataOffset(parts), _ => 0);
    var ok, index, bytes := WriteRecords(j, whole, rows, slabRows, front);
    if !ok || !WithinBudget(|bytes|, mainBytes, |j.raw|, budget) {
      return None;
    }
    s := Some(Sidecar(j.n, j.axis, CeilDiv(j.n.x, rows), index, |front|, bytes));
  }

  lemma ChunkCount(n: nat, rows: nat)
    requires rows > 0
    ensures CeilDiv(n, rows) <= n
  {
    CeilDivBound(n, n, rows);
    MulMono(1, rows, n);
  }

  /**
   * Writing the sidecar of a Y or Z axis. It comes about exactly when the arguments are admissible, all parts
   * compress and the storage budget is kept, whichever mode the memory limit selects; and then it holds the planes.
   */
  method WriteSidecar(raw: seq<Float>, n: Coord, axis: Axis, codec: Codec, chunkElements: nat, limitMiB: nat,
                      mainBytes: nat, budget: real) returns (s: Option<Sidecar>)
    requires n.x <= U32_MAX
    ensures s.Some? <==> Admissible(raw, n, axis, budget)
                         && Writable(Job(raw, n, axis, codec), ChunkHeight(n, axis, chunkElements, limitMiB), mainBytes, budget)
    ensures s.Some? ==> IsSidecar(s.value, Job(raw, n, axis, codec), ChunkHeight(n, axis, chunkElements, limitMiB))
  {
    if !Admissible(raw, n, axis, budget) {
      return None;
    }
    SomeCells(n);
    s := EncodeSidecar(Job(raw, n, axis, codec), WholePlanes(n, axis, limitMiB),
                       ChunkHeight(n, axis, chunkElements, limitMiB), SlabRows(n, axis, chunkElements, limitMiB),
                       mainBytes, budget);
  }
}
