/** Sidecar files of LZ4-compressed Y or Z planes: fragments of rows, indexed by plane, stored by slab. */
module Lz4Sidecar {
  import opened Basics
  import opened Float32
  import opened Morton
  import opened Layout
  import opened SlicePlan
  import opened SliceReader

  /** LZ4, as far as the sidecar depends on it. */
  datatype Codec = Codec(compress: seq<Float> -> Option<seq<Byte>>, decompress: (seq<Byte>, nat) -> Option<seq<Float>>)

  /** Decompressing what was compressed gives it back; a compressed record is never empty and its size an int. */
  ghost predicate Inverse(codec: Codec)
  {
    forall data: seq<Float> ::
      var packed := codec.compress(data);
      packed.Some? ==> 0 < |packed.value| < 0x8000_0000 && codec.decompress(packed.value, |data|) == Some(data)
  }

  /** An index entry; sizes of raw data count cells of four bytes. */
  datatype Entry = Entry(offset: nat, size: nat, cells: nat)

  /** The sidecar: its index, and the bytes of the file, the records of which start at dataOffset. */
  datatype Sidecar = Sidecar(n: Coord, axis: Axis, chunks: nat, index: seq<Entry>, dataOffset: nat, bytes: seq<Byte>)

  /** Cell i of plane p, rows along X. */
  function PlaneCell(raw: Raw, n: Coord, axis: Axis, p: nat, i: nat): Float
    requires IsRaw(raw, n) && Inner(axis, n) > 0
  {
    Layout.Padded(raw, n, Make(axis, p, Row(i, Inner(axis, n)), Column(i, Inner(axis, n))))
  }

  function Cells(rows: nat, width: nat): nat
  {
    rows * width
  }

  /** Rows first up to first + rows of plane p. */
  function Fragment(raw: Raw, n: Coord, axis: Axis, p: nat, first: nat, rows: nat): (f: seq<Float>)
    requires IsRaw(raw, n) && Inner(axis, n) > 0
    ensures |f| == Cells(rows, Inner(axis, n))
    ensures forall i :: 0 <= i < |f| ==> f[i] == PlaneCell(raw, n, axis, p, Cells(first, Inner(axis, n)) + i)
  {
    var start := Cells(first, Inner(axis, n));
    seq<Float>(Cells(rows, Inner(axis, n)), i requires 0 <= i => PlaneCell(raw, n, axis, p, start + i))
  }

  lemma FragmentsJoin(raw: Raw, n: Coord, axis: Axis, p: nat, first: nat, rows: nat, more: nat)
    requires IsRaw(raw, n) && Inner(axis, n) > 0
    ensures Fragment(raw, n, axis, p, first, rows) + Fragment(raw, n, axis, p, first + rows, more)
         == Fragment(raw, n, axis, p, first, rows + more)
  {
    var b := Inner(axis, n);
    JoinSizes(first, rows, more, b);
    var whole := Fragment(raw, n, axis, p, first, rows + more);
    var front, back := Fragment(raw, n, axis, p, first, rows), Fragment(raw, n, axis, p, first + rows, more);
    assert forall i :: 0 <= i < |back| ==> back[i] == whole[|front| + i];
    assert front + back == whole;
  }

  lemma JoinSizes(first: nat, rows: nat, more: nat, b: nat)
    ensures Cells(rows + more, b) == Cells(rows, b) + Cells(more, b) && Cells(first + rows, b) == Cells(first, b) + Cells(rows, b)
  {
  }

  /** A whole plane, read as a slice of the volume, whatever the volume's blocks are. */
  lemma PlaneIsSlice(h: Header, raw: Raw, axis: Axis, p: nat)
    requires IsRaw(raw, h.n) && Inner(axis, h.n) > 0
    ensures IsSlice(Fragment(raw, h.n, axis, p, 0, Outer(axis, h.n)), h, raw, axis, p)
  {
    assert Cells(0, Inner(axis, h.n)) == 0;
  }

  // ----- chunks -----

  function First(chunk: nat, rows: nat): nat
  {
    chunk * rows
  }

  /** How many rows of a plane come before the chunk. */
  function RowsBefore(n: Coord, rows: nat, chunk: nat): nat
  {
    Min(First(chunk, rows), n.x)
  }

  function RowsOf(n: Coord, rows: nat, chunk: nat): nat
  {
    RowsBefore(n, rows, chunk + 1) - RowsBefore(n, rows, chunk)
  }

  /** Each of the chunks has at least one row, at most the given number, and together they have all. */
  lemma ChunkRows(n: Coord, rows: nat, chunk: nat)
    requires rows > 0 && chunk < CeilDiv(n.x, rows)
    ensures First(chunk, rows) < n.x && RowsBefore(n, rows, chunk) == First(chunk, rows)
    ensures 0 < RowsOf(n, rows, chunk) == Min(rows, n.x - First(chunk, rows))
  {
    CeilDivBound(chunk, n.x, rows);
    MulNext(chunk, rows);
  }

  lemma AllRows(n: Coord, rows: nat)
    requires rows > 0
    ensures RowsBefore(n, rows, CeilDiv(n.x, rows)) == n.x && RowsBefore(n, rows, 0) == 0
  {
    CeilDivBound(CeilDiv(n.x, rows), n.x, rows);
  }

  /** The place of a plane's chunk in the index: plane by plane. */
  function Slot(p: nat, chunk: nat, chunks: nat): nat
  {
    p * chunks + chunk
  }

  /** The chunk that is written k-th: slab by slab. */
  function Part(raw: Raw, n: Coord, axis: Axis, rows: nat, k: nat): (f: seq<Float>)
    requires IsRaw(raw, n) && Inner(axis, n) > 0 && Fixed(axis, n) > 0
  {
    var chunk, p := Row(k, Fixed(axis, n)), Column(k, Fixed(axis, n));
    Fragment(raw, n, axis, p, First(chunk, rows), RowsOf(n, rows, chunk))
  }

  function EntryWritten(index: seq<Entry>, planes: nat, chunks: nat, k: nat): Entry
    requires 0 < planes && k < planes * chunks && |index| == planes * chunks
  {
    SlotOfPart(planes, chunks, k);
    index[Slot(Column(k, planes), Row(k, planes), chunks)]
  }

  lemma SlotOfPart(planes: nat, chunks: nat, k: nat)
    requires 0 < planes && k < planes * chunks
    ensures Row(k, planes) < chunks && Column(k, planes) < planes
    ensures Slot(Column(k, planes), Row(k, planes), chunks) < planes * chunks
  {
    DivModBack(k, planes);
    DivBound(k, chunks, planes);
    RadixBound(Column(k, planes), Row(k, planes), planes, chunks);
  }

  lemma SlotsDiffer(planes: nat, chunks: nat, j: nat, k: nat)
    requires 0 < planes && j < planes * chunks && k < planes * chunks && j != k
    ensures Slot(Column(j, planes), Row(j, planes), chunks) != Slot(Column(k, planes), Row(k, planes), chunks)
  {
    SlotOfPart(planes, chunks, j);
    SlotOfPart(planes, chunks, k);
    DivMod(Column(j, planes), Row(j, planes), chunks);
    DivMod(Column(k, planes), Row(k, planes), chunks);
    DivModBack(j, planes);
    DivModBack(k, planes);
  }

  /** The position in write order of a plane's chunk. */
  lemma PartOfSlot(planes: nat, chunks: nat, p: nat, chunk: nat)
    requires p < planes && chunk < chunks
    ensures var k := Slot(chunk, p, planes); k < planes * chunks && Row(k, planes) == chunk && Column(k, planes) == p
    ensures Slot(p, chunk, chunks) < planes * chunks
  {
    DivMod(chunk, p, planes);
    RadixBound(chunk, p, chunks, planes);
    RadixBound(p, chunk, planes, chunks);
  }

  // ----- what a sidecar holds -----

  /** The entry's record, compressed, is the data. */
  ghost predicate RecordHolds(bytes: seq<Byte>, e: Entry, codec: Codec, data: seq<Float>)
  {
    && 0 < e.size && e.offset + e.size <= |bytes| && e.cells == |data|
    && codec.compress(data) == Some(bytes[e.offset..e.offset + e.size])
  }

  /** For every plane and chunk, the index refers to a record of that chunk's rows. */
  ghost predicate HoldsPlanes(bytes: seq<Byte>, index: seq<Entry>, n: Coord, axis: Axis, rows: nat, codec: Codec, raw: Raw)
    requires IsRaw(raw, n) && Inner(axis, n) > 0 && Fixed(axis, n) > 0 && rows > 0
  {
    && |index| == Fixed(axis, n) * CeilDiv(n.x, rows)
    && forall k :: 0 <= k < |index| ==>
         RecordHolds(bytes, EntryWritten(index, Fixed(axis, n), CeilDiv(n.x, rows), k), codec, Part(raw, n, axis, rows, k))
  }

  /** In the order they were written, the records fill the file from dataOffset to its end. */
  predicate Tiles(s: Sidecar)
    requires Fixed(s.axis, s.n) > 0
  {
    var planes := Fixed(s.axis, s.n);
    && |s.index| == planes * s.chunks && 0 < |s.index|
    && EntryWritten(s.index, planes, s.chunks, 0).offset == s.dataOffset
    && (forall k :: 0 < k < |s.index| ==>
          EntryWritten(s.index, planes, s.chunks, k).offset
          == EntryWritten(s.index, planes, s.chunks, k - 1).offset + EntryWritten(s.index, planes, s.chunks, k - 1).size)
    && var last := EntryWritten(s.index, planes, s.chunks, |s.index| - 1);
    last.offset + last.size == |s.bytes|
  }

  /** The record of a plane's chunk. */
  lemma ChunkHeld(bytes: seq<Byte>, index: seq<Entry>, n: Coord, axis: Axis, rows: nat, codec: Codec, raw: Raw,
                  p: nat, chunk: nat)
    requires IsRaw(raw, n) && Inner(axis, n) > 0 && Fixed(axis, n) > 0 && rows > 0
    requires HoldsPlanes(bytes, index, n, axis, rows, codec, raw)
    requires p < Fixed(axis, n) && chunk < CeilDiv(n.x, rows)
    ensures Slot(p, chunk, CeilDiv(n.x, rows)) < |index|
    ensures RecordHolds(bytes, index[Slot(p, chunk, CeilDiv(n.x, rows))], codec,
                        Fragment(raw, n, axis, p, First(chunk, rows), RowsOf(n, rows, chunk)))
  {
    PartOfSlot(Fixed(axis, n), CeilDiv(n.x, rows), p, chunk);
    var k := Slot(chunk, p, Fixed(axis, n));
    assert RecordHolds(bytes, EntryWritten(index, Fixed(axis, n), CeilDiv(n.x, rows), k), codec, Part(raw, n, axis, rows, k));
  }
}
