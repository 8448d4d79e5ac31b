/** The superblocks of a compressed file, written slab by slab while the index and the payload grow. */
module RzfpFileWriter {
  import opened Basics
  import opened Float32
  import opened Morton
  import opened Layout
  import opened SuperblockWriter
  import opened RzfpFormat
  import opened RzfpFile
  import opened RzfpWriter

  /** Index, descriptors and file bytes as written so far. */
  datatype Output = Output(index: seq<IndexEntry>, descriptors: seq<Descriptor>, bytes: seq<Byte>)

  /** What is being written. */
  datatype Source = Source(h: Header, order: Order, raw: Raw, enc: Encoder)

  ghost predicate ValidSource(c: Source)
  {
    && Valid(c.h) && c.h.leaf == LEAF && Gapless(LeafGrid(c.h)) && IsRaw(c.raw, c.h.n) && EncodesWithin(c.enc)
  }

  predicate Sized(c: Source, o: Output)
    requires Valid(c.h)
  {
    |o.index| == SuperblockCount(c.h) && |o.descriptors| == TotalLeaves(|o.index|, LeafCount(c.h))
  }

  function TableOf(c: Source, o: Output, id: nat): (t: seq<Descriptor>)
    requires Valid(c.h) && Sized(c, o) && id < |o.index|
    ensures |t| == LeafCount(c.h)
  {
    TableInside(id, |o.index|, LeafCount(c.h));
    Table(o.descriptors, id, LeafCount(c.h))
  }

  /** Superblock s is in the file: its index entry says where, its descriptors say what. */
  ghost predicate Written(c: Source, o: Output, s: Coord)
    requires ValidSource(c) && Sized(c, o)
  {
    var id := PhysicalId(c.h, c.order, s);
    && id < |o.index|
    && WrittenAt(o.bytes, o.index[id], TableOf(c, o, id), StoredRecords(c.h, c.raw, s, c.enc))
  }

  ghost predicate WrittenAt(bytes: seq<Byte>, e: IndexEntry, table: seq<Descriptor>, records: seq<Record>)
  {
    && |table| == |records| && Describes(table, records)
    && e.offset + e.bytes <= |bytes| && bytes[e.offset..e.offset + e.bytes] == Payload(records, |records|)
  }

  lemma WrittenAtGrows(bytes: seq<Byte>, more: seq<Byte>, e: IndexEntry, table: seq<Descriptor>, records: seq<Record>)
    requires WrittenAt(bytes, e, table, records)
    ensures WrittenAt(bytes + more, e, table, records)
  {
    assert (bytes + more)[e.offset..e.offset + e.bytes] == bytes[e.offset..e.offset + e.bytes];
  }

  // ----- one superblock -----

  function StoreTable(descriptors: seq<Descriptor>, id: nat, table: seq<Descriptor>): (r: seq<Descriptor>)
    requires id * |table| + |table| <= |descriptors|
    ensures |r| == |descriptors|
  {
    descriptors[..id * |table|] + table + descriptors[id * |table| + |table|..]
  }

  lemma StoreTableKeeps(descriptors: seq<Descriptor>, id: nat, table: seq<Descriptor>, other: nat, n: nat)
    requires n == |table| && id * n + n <= |descriptors| && other * n + n <= |descriptors|
    ensures Table(StoreTable(descriptors, id, table), other, n)
            == if other == id then table else Table(descriptors, other, n)
  {
    var from, at := id * n, other * n;
    if other < id {
      MulNext(other, n);
      MulMono(other + 1, id, n);
    } else if other > id {
      MulNext(id, n);
      MulMono(id + 1, other, n);
    }
    ReplacedSlice(descriptors, from, table, at);
  }

  lemma ReplacedSlice(s: seq<Descriptor>, from: nat, table: seq<Descriptor>, at: nat)
    requires from + |table| <= |s| && at + |table| <= |s|
    requires at == from || at + |table| <= from || from + |table| <= at
    ensures (s[..from] + table + s[from + |table|..])[at..at + |table|]
            == if at == from then table else s[at..at + |table|]
  {
  }

  function Appended(c: Source, o: Output, id: nat, table: seq<Descriptor>, payload: seq<Byte>): (r: Output)
    requires Valid(c.h) && Sized(c, o) && id < |o.index| && |table| == LeafCount(c.h)
    ensures Sized(c, r)
  {
    TableInside(id, |o.index|, LeafCount(c.h));
    Output(o.index[id := IndexEntry(|o.bytes|, |payload|)], StoreTable(o.descriptors, id, table), o.bytes + payload)
  }

  lemma AppendedTable(c: Source, o: Output, id: nat, table: seq<Descriptor>, payload: seq<Byte>, other: nat)
    requires Valid(c.h) && Sized(c, o) && id < |o.index| && other < |o.index| && |table| == LeafCount(c.h)
    ensures TableOf(c, Appended(c, o, id, table, payload), other) == if other == id then table else TableOf(c, o, other)
  {
    TableInside(id, |o.index|, LeafCount(c.h));
    TableInside(other, |o.index|, LeafCount(c.h));
    StoreTableKeeps(o.descriptors, id, table, other, LeafCount(c.h));
  }

  lemma AppendedWritten(c: Source, o: Output, s: Coord, table: seq<Descriptor>, payload: seq<Byte>, t: Coord)
    requires ValidSource(c) && Sized(c, o) && InBox(s, SuperGrid(c.h)) && InBox(t, SuperGrid(c.h))
    requires PackedRecords(table, payload, StoredRecords(c.h, c.raw, s, c.enc), LeafCount(c.h))
    requires t == s || Written(c, o, t)
    requires PhysicalId(c.h, c.order, s) < |o.index|
    ensures Written(c, Appended(c, o, PhysicalId(c.h, c.order, s), table, payload), t)
  {
    var id, other := PhysicalId(c.h, c.order, s), PhysicalId(c.h, c.order, t);
    PhysicalIdBijection(c.h, c.order, s);
    PhysicalIdBijection(c.h, c.order, t);
    AppendedTable(c, o, id, table, payload, other);
    if t == s {
      assert (o.bytes + payload)[|o.bytes|..|o.bytes| + |payload|] == payload;
    } else {
      assert other != id;
      WrittenAtGrows(o.bytes, payload, o.index[other], TableOf(c, o, other), StoredRecords(c.h, c.raw, t, c.enc));
    }
  }

  // ----- all superblocks -----

  /** s comes before the loop position: slabs along X, in a slab Z outside Y. */
  predicate Before(s: Coord, x: nat, z: nat, y: nat)
  {
    s.x < x || (s.x == x && (s.z < z || (s.z == z && s.y < y)))
  }

  /** The payload ranges of the superblocks written follow one another from the start of the payload to its end. */
  ghost predicate Tiles(c: Source, o: Output, payloadStart: nat, done: seq<Coord>)
    requires Valid(c.h) && Sized(c, o)
    requires forall i :: 0 <= i < |done| ==> PhysicalId(c.h, c.order, done[i]) < |o.index|
  {
    if done == [] then |o.bytes| == payloadStart
    else
      && EntryOf(c, o, done[0]).offset == payloadStart
      && (forall i, j :: 0 <= i < j < |done| && j == i + 1 ==>
            EntryOf(c, o, done[j]).offset == EntryOf(c, o, done[i]).offset + EntryOf(c, o, done[i]).bytes)
      && EntryOf(c, o, done[|done| - 1]).offset + EntryOf(c, o, done[|done| - 1]).bytes == |o.bytes|
  }

  function EntryOf(c: Source, o: Output, s: Coord): IndexEntry
    requires Valid(c.h) && Sized(c, o) && PhysicalId(c.h, c.order, s) < |o.index|
  {
    o.index[PhysicalId(c.h, c.order, s)]
  }

  /** The superblocks before the position have been written, each once. */
  ghost predicate Progress(c: Source, o: Output, payloadStart: nat, done: seq<Coord>, x: nat, z: nat, y: nat)
    requires ValidSource(c)
  {
    && Sized(c, o)
    && (forall i :: 0 <= i < |done| ==>
          InBox(done[i], SuperGrid(c.h)) && Before(done[i], x, z, y) && Written(c, o, done[i]))
    && (forall i, j :: 0 <= i < j < |done| ==> done[i] != done[j])
    && (forall s: Coord :: InBox(s, SuperGrid(c.h)) && Before(s, x, z, y) ==> s in done)
    && Tiles(c, o, payloadStart, done)
  }

  lemma AppendProgress(c: Source, o: Output, payloadStart: nat, done: seq<Coord>, s: Coord,
                       table: seq<Descriptor>, payload: seq<Byte>)
    requires ValidSource(c) && Progress(c, o, payloadStart, done, s.x, s.z, s.y) && InBox(s, SuperGrid(c.h))
    requires PackedRecords(table, payload, StoredRecords(c.h, c.raw, s, c.enc), LeafCount(c.h))
    requires PhysicalId(c.h, c.order, s) < |o.index|
    ensures var o' := Appended(c, o, PhysicalId(c.h, c.order, s), table, payload);
            Progress(c, o', payloadStart, done + [s], s.x, s.z, s.y + 1)
  {
    var o' := Appended(c, o, PhysicalId(c.h, c.order, s), table, payload);
    var done' := done + [s];
    forall i | 0 <= i < |done'|
      ensures InBox(done'[i], SuperGrid(c.h)) && Before(done'[i], s.x, s.z, s.y + 1) && Written(c, o', done'[i])
    {
      AppendedWritten(c, o, s, table, payload, done'[i]);
    }
    forall t: Coord | InBox(t, SuperGrid(c.h)) && Before(t, s.x, s.z, s.y + 1)
      ensures t in done'
    {
      if !Before(t, s.x, s.z, s.y) {
        assert t == s;
        assert done'[|done|] == s;
      }
    }
    AppendTiles(c, o, payloadStart, done, s, table, payload);
  }

  lemma AppendTiles(c: Source, o: Output, payloadStart: nat, done: seq<Coord>, s: Coord,
                    table: seq<Descriptor>, payload: seq<Byte>)
    requires ValidSource(c) && Sized(c, o) && InBox(s, SuperGrid(c.h)) && PhysicalId(c.h, c.order, s) < |o.index|
    requires forall i :: 0 <= i < |done| ==> done[i] != s && InBox(done[i], SuperGrid(c.h)) &&
                                             PhysicalId(c.h, c.order, done[i]) < |o.index|
    requires Tiles(c, o, payloadStart, done) && |table| == LeafCount(c.h)
    ensures var o' := Appended(c, o, PhysicalId(c.h, c.order, s), table, payload);
            && (forall i :: 0 <= i < |done| + 1 ==> PhysicalId(c.h, c.order, (done + [s])[i]) < |o'.index|)
            && Tiles(c, o', payloadStart, done + [s])
  {
    var o' := Appended(c, o, PhysicalId(c.h, c.order, s), table, payload);
    var done' := done + [s];
    forall i | 0 <= i < |done|
      ensures EntryOf(c, o', done'[i]) == EntryOf(c, o, done[i])
    {
      PhysicalIdBijection(c.h, c.order, s);
      PhysicalIdBijection(c.h, c.order, done[i]);
    }
    assert EntryOf(c, o', s) == IndexEntry(|o.bytes|, |payload|);
  }

  // ----- the loops -----

  lemma SuperInVolume(h: Header, s: Coord)
    requires Valid(h) && InBox(s, SuperGrid(h))
    ensures InBox(Times(s, h.super), h.n)
  {
    CeilDivBound(s.x, h.n.x, h.super.x);
    CeilDivBound(s.y, h.n.y, h.super.y);
    CeilDivBound(s.z, h.n.z, h.super.z);
  }

  /** X planes read from the raw file. */
  datatype Slab = Slab(cells: seq<Float>, first: nat, planes: nat)

  /** The planes that the superblocks of column sx cover. */
  ghost predicate IsSlabOf(c: Source, slab: Slab, sx: nat)
  {
    && slab.first == sx * c.h.super.x && slab.first < c.h.n.x
    && slab.planes == Min(c.h.super.x, c.h.n.x - slab.first)
    && IsSlab(c.raw, c.h.n, slab.cells, slab.first, slab.planes)
  }

  method ReadSlab(c: Source, xStart: nat, ghost sx: nat) returns (slab: Slab)
    requires ValidSource(c) && xStart < c.h.n.x && xStart == sx * c.h.super.x
    ensures IsSlabOf(c, slab, sx)
  {
    var planes := Min(c.h.super.x, c.h.n.x - xStart);
    slab := Slab(SlabCells(c.raw, c.h.n, xStart, planes), xStart, planes);
  }

  /** The cells of the X planes, contiguous in the raw file. */
  function SlabCells(raw: Raw, n: Coord, first: nat, planes: nat): (cells: seq<Float>)
    requires IsRaw(raw, n) && first + planes <= n.x
    ensures IsSlab(raw, n, cells, first, planes)
  {
    var plane := n.y * n.z;
    SlabInRaw(n, first, planes, plane);
    raw[first * plane..first * plane + planes * plane]
  }

  method PackFromSlab(c: Source, slab: Slab, s: Coord) returns (buffer: seq<Float>)
    requires ValidSource(c) && InBox(s, SuperGrid(c.h)) && IsSlabOf(c, slab, s.x)
    ensures |buffer| == LeafCount(c.h) * LEAF_CELLS && PackedUpTo(buffer, c.h, c.raw, s, |buffer|)
  {
    LeafGridExact(c.h);
    SuperInVolume(c.h, s);
    var leafBuffer := new Float[Volume(c.h.super)];
    PackLeavesFromSlab(leafBuffer, c.h, c.raw, s, slab.cells, slab.planes);
    buffer := leafBuffer[..];
  }

  lemma SlabInRaw(n: Coord, first: nat, planes: nat, plane: nat)
    requires first + planes <= n.x && plane == n.y * n.z
    ensures first * plane + planes * plane <= n.x * n.y * n.z
  {
    MulMono(first + planes, n.x, plane);
    assert (first + planes) * plane == first * plane + planes * plane;
    assert n.x * plane == n.x * n.y * n.z;
  }

  /** Packs, encodes and appends superblock s. */
  method WriteSuperblock(c: Source, slab: Slab, s: Coord, o: Output, ghost payloadStart: nat, ghost done: seq<Coord>)
    returns (o': Output)
    requires ValidSource(c) && InBox(s, SuperGrid(c.h)) && IsSlabOf(c, slab, s.x)
    requires Progress(c, o, payloadStart, done, s.x, s.z, s.y)
    ensures Progress(c, o', payloadStart, done + [s], s.x, s.z, s.y + 1)
  {
    PhysicalIdBijection(c.h, c.order, s);
    var buffer := PackFromSlab(c, slab, s);
    var table, payload := EncodeSuperblock(buffer, c.h, c.raw, s, c.enc);
    AppendProgress(c, o, payloadStart, done, s, table, payload);
    o' := Appended(c, o, PhysicalId(c.h, c.order, s), table, payload);
  }

  /** The end of an inner loop is the next position of the loop around it. */
  lemma Advance(c: Source, o: Output, payloadStart: nat, done: seq<Coord>, x: nat, z: nat)
    requires ValidSource(c)
    ensures Progress(c, o, payloadStart, done, x, z, SuperGrid(c.h).y) ==> Progress(c, o, payloadStart, done, x, z + 1, 0)
    ensures Progress(c, o, payloadStart, done, x, SuperGrid(c.h).z, 0) ==> Progress(c, o, payloadStart, done, x + 1, 0, 0)
  {
  }

  method WriteSlabRow(c: Source, slab: Slab, x: nat, z: nat, o: Output, ghost payloadStart: nat, ghost done: seq<Coord>)
    returns (o': Output, ghost done': seq<Coord>)
    requires ValidSource(c) && x < SuperGrid(c.h).x && z < SuperGrid(c.h).z && IsSlabOf(c, slab, x)
    requires Progress(c, o, payloadStart, done, x, z, 0)
    ensures Progress(c, o', payloadStart, done', x, z + 1, 0)
  {
    o', done' := o, done;
    var y: nat := 0;
    while y < SuperGrid(c.h).y
      invariant y <= SuperGrid(c.h).y && Progress(c, o', payloadStart, done', x, z, y)
    {
      o' := WriteSuperblock(c, slab, Coord(x, y, z), o', payloadStart, done');
      done' := done' + [Coord(x, y, z)];
      y := y + 1;
    }
    Advance(c, o', payloadStart, done', x, z);
  }

  method WriteSlab(c: Source, slab: Slab, x: nat, o: Output, ghost payloadStart: nat, ghost done: seq<Coord>)
    returns (o': Output, ghost done': seq<Coord>)
    requires ValidSource(c) && x < SuperGrid(c.h).x && IsSlabOf(c, slab, x)
    requires Progress(c, o, payloadStart, done, x, 0, 0)
    ensures Progress(c, o', payloadStart, done', x + 1, 0, 0)
  {
    o', done' := o, done;
    var z: nat := 0;
    while z < SuperGrid(c.h).z
      invariant z <= SuperGrid(c.h).z && Progress(c, o', payloadStart, done', x, z, 0)
    {
      o', done' := WriteSlabRow(c, slab, x, z, o', payloadStart, done');
      z := z + 1;
    }
    Advance(c, o', payloadStart, done', x, z);
  }

  function FileOf(c: Source, o: Output): File
    requires Valid(c.h)
  {
    var descriptorOffset := HEADER_BYTES + SuperblockCount(c.h) * INDEX_ENTRY_BYTES;
    File(c.h, c.order, descriptorOffset, PayloadStart(c.h), o.index, o.descriptors, o.bytes)
  }

  function PayloadStart(h: Header): nat
    requires Valid(h)
  {
    HEADER_BYTES + SuperblockCount(h) * INDEX_ENTRY_BYTES + TotalLeaves(SuperblockCount(h), LeafCount(h)) * DESCRIPTOR_BYTES
  }

  /** The whole file is written: each superblock at its place, the payload without gap or overlap. */
  ghost predicate FileWritten(c: Source, o: Output, done: seq<Coord>)
    requires ValidSource(c)
  {
    && Sized(c, o)
    && (forall s: Coord :: InBox(s, SuperGrid(c.h)) <==> s in done)
    && (forall i :: 0 <= i < |done| ==> Written(c, o, done[i]))
    && (forall i, j :: 0 <= i < j < |done| ==> done[i] != done[j])
    && Tiles(c, o, PayloadStart(c.h), done)
  }

  /** No superblock written yet. */
  function Unwritten(c: Source, tables: seq<Byte>): Output
    requires ValidSource(c)
  {
    Output(seq(SuperblockCount(c.h), _ => IndexEntry(0, 0)),
           seq(TotalLeaves(SuperblockCount(c.h), LeafCount(c.h)), _ => 0), tables)
  }

  lemma NothingWritten(c: Source, tables: seq<Byte>)
    requires ValidSource(c) && |tables| == PayloadStart(c.h)
    ensures Progress(c, Unwritten(c, tables), PayloadStart(c.h), [], 0, 0, 0)
  {
  }

  lemma EverythingWritten(c: Source, o: Output, done: seq<Coord>, sx: nat, xStart: nat)
    requires ValidSource(c) && Progress(c, o, PayloadStart(c.h), done, sx, 0, 0)
    requires xStart == sx * c.h.super.x && xStart >= c.h.n.x
    ensures FileWritten(c, o, done)
  {
    CeilDivBound(sx, c.h.n.x, c.h.super.x);
  }

  /** One slab: the superblocks of column sx. */
  method WriteColumn(c: Source, o: Output, ghost done: seq<Coord>, sx: nat, xStart: nat)
    returns (o': Output, ghost done': seq<Coord>, next: nat)
    requires ValidSource(c) && xStart == sx * c.h.super.x && xStart < c.h.n.x
    requires Progress(c, o, PayloadStart(c.h), done, sx, 0, 0)
    ensures Progress(c, o', PayloadStart(c.h), done', sx + 1, 0, 0)
    ensures next == (sx + 1) * c.h.super.x && next > xStart
  {
    var slab := ReadSlab(c, xStart, sx);
    CeilDivBound(sx, c.h.n.x, c.h.super.x);
    o', done' := WriteSlab(c, slab, sx, o, PayloadStart(c.h), done);
    MulNext(sx, c.h.super.x);
    next := xStart + c.h.super.x;
  }

  /** Encodes the raw file slab by slab into the space behind the tables. */
  method WriteRzfpFile(c: Source, tables: seq<Byte>) returns (f: File, o: Output, ghost done: seq<Coord>)
    requires ValidSource(c) && |tables| == PayloadStart(c.h)
    ensures FileWritten(c, o, done) && f == FileOf(c, o)
  {
    o, done := Unwritten(c, tables), [];
    NothingWritten(c, tables);
    var xStart: nat, sx: nat := 0, 0;
    while xStart < c.h.n.x
      invariant xStart == sx * c.h.super.x && Progress(c, o, PayloadStart(c.h), done, sx, 0, 0)
      decreases c.h.n.x - xStart
    {
      o, done, xStart := WriteColumn(c, o, done, sx, xStart);
      sx := sx + 1;
    }
    EverythingWritten(c, o, done, sx, xStart);
    f := FileOf(c, o);
  }

  // ----- the reader accepts what was written, and finds every record -----

  lemma GridNonEmpty(g: Coord)
    requires Volume(g) > 0
    ensures InBox(Coord(0, 0, 0), g)
  {
  }

  /** The superblock an index entry belongs to has been written. */
  lemma EntryWritten(c: Source, o: Output, done: seq<Coord>, id: nat) returns (i: nat)
    requires ValidSource(c) && FileWritten(c, o, done) && id < |o.index|
    ensures i < |done| && PhysicalId(c.h, c.order, done[i]) == id && Written(c, o, done[i])
  {
    GridNonEmpty(SuperGrid(c.h));
    SuperblockAtBijection(c.h, c.order, id);
    var s := SuperblockAt(c.h, c.order, id);
    assert s in done;
    i :| 0 <= i < |done| && done[i] == s;
  }

  lemma {:induction false} TilesFrom(c: Source, o: Output, payloadStart: nat, done: seq<Coord>, i: nat)
    requires Valid(c.h) && Sized(c, o) && i < |done|
    requires forall k :: 0 <= k < |done| ==> PhysicalId(c.h, c.order, done[k]) < |o.index|
    requires Tiles(c, o, payloadStart, done)
    ensures EntryOf(c, o, done[i]).offset >= payloadStart
  {
    if i > 0 {
      TilesFrom(c, o, payloadStart, done, i - 1);
    }
  }

  lemma DescriptorOfTable(c: Source, o: Output, d: nat) returns (id: nat, m: nat)
    requires Valid(c.h) && Sized(c, o) && d < |o.descriptors|
    ensures id < |o.index| && m < LeafCount(c.h) && TableOf(c, o, id)[m] == o.descriptors[d]
  {
    LeafGridExact(c.h);
    VolumePositive(LeafGrid(c.h));
    id, m := Locate(d, |o.index|, LeafCount(c.h));
    TableInside(id, |o.index|, LeafCount(c.h));
    TableAt(o.descriptors, id, LeafCount(c.h), m, d);
  }

  lemma Locate(d: nat, superblocks: nat, leaves: nat) returns (id: nat, m: nat)
    requires leaves > 0 && d < TotalLeaves(superblocks, leaves)
    ensures id < superblocks && m < leaves && id * leaves + m == d
  {
    id, m := Row(d, leaves), Column(d, leaves);
    DivBound(d, superblocks, leaves);
    DivModBack(d, leaves);
  }

  lemma WrittenCodecs(c: Source, o: Output, done: seq<Coord>)
    requires ValidSource(c) && FileWritten(c, o, done)
    ensures CodecsKnown(o.descriptors, |o.descriptors|)
  {
    forall d | 0 <= d < |o.descriptors|
      ensures DescriptorCodec(o.descriptors[d]) <= LAST_CODEC
    {
      var id, m := DescriptorOfTable(c, o, d);
      var i := EntryWritten(c, o, done, id);
      DescriptorRoundTrip(StoredRecords(c.h, c.raw, done[i], c.enc)[m]);
    }
  }

  lemma WrittenSizes(c: Source, o: Output, done: seq<Coord>, id: nat)
    requires ValidSource(c) && FileWritten(c, o, done) && id < |o.index| && Parsed(FileOf(c, o))
    ensures SizesAddUp(FileOf(c, o), id) && EntryInPayload(FileOf(c, o), o.index[id])
  {
    var i := EntryWritten(c, o, done, id);
    TilesFrom(c, o, PayloadStart(c.h), done, i);
    PrefixIsPayload(TableOf(c, o, id), StoredRecords(c.h, c.raw, done[i], c.enc), LeafCount(c.h));
  }

  lemma {:induction false} TilesEnd(c: Source, o: Output, done: seq<Coord>)
    requires ValidSource(c) && FileWritten(c, o, done)
    ensures |o.bytes| >= PayloadStart(c.h)
  {
    if done != [] {
      TilesFrom(c, o, PayloadStart(c.h), done, |done| - 1);
    }
  }

  /** The reader's constructor accepts every file the writer produces. */
  lemma WrittenAccepted(c: Source, o: Output, done: seq<Coord>)
    requires ValidSource(c) && FileWritten(c, o, done)
    ensures Accepted(FileOf(c, o))
  {
    var f := FileOf(c, o);
    TilesEnd(c, o, done);
    WrittenCodecs(c, o, done);
    forall id | 0 <= id < |f.index|
      ensures SizesAddUp(f, id) && EntryInPayload(f, f.index[id])
    {
      WrittenSizes(c, o, done, id);
    }
  }

  lemma RecordOfTable(f: File, id: nat, records: seq<Record>, m: nat)
    requires Accepted(f) && id < |f.index| && m < LeafCount(f.h)
    requires WrittenAt(f.bytes, f.index[id], LeafTable(f, id), records)
    ensures RecordAt(f, id, m) == records[m]
  {
    RecordInSuperblock(f, id, m);
    SlicedRecord(f.bytes, f.index[id], LeafTable(f, id), records, m, Prefix(LeafTable(f, id), m));
  }

  /** The record the reader finds for a leaf is the one that was encoded for it. */
  lemma WrittenRecord(c: Source, o: Output, done: seq<Coord>, s: Coord, m: nat)
    requires ValidSource(c) && FileWritten(c, o, done) && Accepted(FileOf(c, o))
    requires InBox(s, SuperGrid(c.h)) && m < LeafCount(c.h) && PhysicalId(c.h, c.order, s) < |o.index|
    ensures RecordAt(FileOf(c, o), PhysicalId(c.h, c.order, s), m) == StoredRecord(c.h, c.raw, s, m, c.enc)
  {
    var records := StoredRecords(c.h, c.raw, s, c.enc);
    assert s in done;
    assert Written(c, o, s);
    RecordOfTable(FileOf(c, o), PhysicalId(c.h, c.order, s), records, m);
    assert records[m] == StoredRecord(c.h, c.raw, s, m, c.enc);
  }

  lemma SlicedRecord(bytes: seq<Byte>, e: IndexEntry, table: seq<Descriptor>, records: seq<Record>, m: nat, from: nat)
    requires WrittenAt(bytes, e, table, records) && m < |records| && from == Prefix(table, m)
    ensures DescriptorCodec(table[m]) == records[m].codec && DescriptorSize(table[m]) == |records[m].payload|
    ensures e.offset + from + |records[m].payload| <= |bytes|
    ensures bytes[e.offset + from..e.offset + from + |records[m].payload|] == records[m].payload
  {
    PayloadAt(table, records, m, from);
    SliceOfSlice(bytes, e.offset, e.bytes, Payload(records, |records|), from, records[m].payload);
  }

  lemma SliceOfSlice(s: seq<Byte>, a: nat, n: nat, t: seq<Byte>, b: nat, r: seq<Byte>)
    requires a + n <= |s| && s[a..a + n] == t && b + |r| <= |t| && t[b..b + |r|] == r
    ensures a + b + |r| <= |s| && s[a + b..a + b + |r|] == r
  {
    forall i | 0 <= i < |r|
      ensures s[a + b + i] == r[i]
    {
      assert t[b..b + |r|][i] == t[b + i] == s[a + (b + i)];
    }
  }
}
