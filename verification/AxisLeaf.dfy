/** Replicas of the leaf records, sorted along one axis into slabs one leaf thick. */
module AxisLeaf {
  import opened Basics
  import opened Morton
  import opened Layout
  import opened SlicePlan
  import opened RzfpFormat
  import opened RzfpFile

  const MAX_ID: nat := 0xFFFF_FFFF

  /** The leaves have numbers in the file's own order: superblock by superblock, Morton order inside. */
  predicate ReplicaSource(f: File)
  {
    && Parsed(f) && LeafCount(f.h) > 0 && SuperblockCount(f.h) > 0
    && |f.descriptors| == TotalLeaves(|f.index|, LeafCount(f.h)) <= MAX_ID + 1
  }

  function SuperOfId(f: File, id: nat): nat
    requires ReplicaSource(f)
  {
    Row(id, LeafCount(f.h))
  }

  function MortonOfId(f: File, id: nat): (m: nat)
    requires ReplicaSource(f)
    ensures m < LeafCount(f.h)
  {
    Column(id, LeafCount(f.h))
  }

  function LeafId(sb: nat, leaves: nat, m: nat): nat
  {
    sb * leaves + m
  }

  lemma IdParts(f: File, id: nat)
    requires ReplicaSource(f)
    ensures id < |f.descriptors| <==> SuperOfId(f, id) < |f.index|
    ensures SuperOfId(f, id) * LeafCount(f.h) + MortonOfId(f, id) == id
  {
    var leaves := LeafCount(f.h);
    DivModBack(id, leaves);
    if id < |f.descriptors| {
      DivBound(id, |f.index|, leaves);
    } else if SuperOfId(f, id) < |f.index| {
      RadixBound(SuperOfId(f, id), MortonOfId(f, id), |f.index|, leaves);
    }
  }

  lemma IdOf(f: File, sb: nat, m: nat, id: nat)
    requires ReplicaSource(f) && sb < |f.index| && m < LeafCount(f.h) && id == LeafId(sb, LeafCount(f.h), m)
    ensures id < |f.descriptors| && SuperOfId(f, id) == sb && MortonOfId(f, id) == m
  {
    RadixBound(sb, m, |f.index|, LeafCount(f.h));
    DivMod(sb, m, LeafCount(f.h));
  }

  lemma SourceGrid(f: File)
    requires ReplicaSource(f)
    ensures InBox(Coord(0, 0, 0), SuperGrid(f.h))
  {
  }

  /** The superblock and the leaf a number stands for. */
  function SuperCoord(f: File, id: nat): Coord
    requires ReplicaSource(f)
  {
    SourceGrid(f);
    SuperblockAt(f.h, f.order, SuperOfId(f, id))
  }

  function LeafCoord(f: File, id: nat): Coord
    requires ReplicaSource(f)
  {
    Decode(MortonOfId(f, id))
  }

  lemma CoordsInGrid(f: File, id: nat)
    requires ReplicaSource(f) && Gapless(LeafGrid(f.h)) && id < |f.descriptors|
    ensures InBox(SuperCoord(f, id), SuperGrid(f.h)) && InBox(LeafCoord(f, id), LeafGrid(f.h))
    ensures PhysicalId(f.h, f.order, SuperCoord(f, id)) == SuperOfId(f, id)
  {
    IdParts(f, id);
    SourceGrid(f);
    SuperblockAtBijection(f.h, f.order, SuperOfId(f, id));
  }

  // ----- slabs -----

  function SlabCount(h: Header, axis: Axis): nat
    requires Valid(h)
  {
    Fixed(axis, SuperGrid(h)) * Fixed(axis, LeafGrid(h))
  }

  function SlabAt(h: Header, axis: Axis, s: Coord, leaf: Coord): nat
    requires Valid(h)
  {
    Fixed(axis, s) * Fixed(axis, LeafGrid(h)) + Fixed(axis, leaf)
  }

  /** The leaf coordinate of a record along the axis. */
  function SlabOf(f: File, axis: Axis, id: nat): nat
    requires ReplicaSource(f)
  {
    SlabAt(f.h, axis, SuperCoord(f, id), LeafCoord(f, id))
  }

  /** The slab of leaf l of superblock s counts the leaves before it along the axis. */
  lemma SlabIs(f: File, axis: Axis, s: Coord, l: Coord, sb: nat, id: nat)
    requires ReplicaSource(f) && Gapless(LeafGrid(f.h)) && InBox(s, SuperGrid(f.h)) && InBox(l, LeafGrid(f.h))
    requires IsTablePlace(f, s, sb) && id == sb * LeafCount(f.h) + Encode(l)
    ensures id < |f.descriptors|
    ensures SlabOf(f, axis, id) == match axis
                                   case X => s.x * (f.h.super.x / f.h.leaf.x) + l.x
                                   case Y => s.y * (f.h.super.y / f.h.leaf.y) + l.y
                                   case Z => s.z * (f.h.super.z / f.h.leaf.z) + l.z
  {
    TablePlace(f, s, l, sb, Encode(l));
    IdOf(f, sb, Encode(l), id);
    PhysicalIdBijection(f.h, f.order, s);
    DecodeEncode(l);
  }

  lemma SlabBound(f: File, axis: Axis, id: nat)
    requires ReplicaSource(f) && Gapless(LeafGrid(f.h)) && id < |f.descriptors|
    ensures SlabOf(f, axis, id) < SlabCount(f.h, axis)
  {
    CoordsInGrid(f, id);
    RadixBound(Fixed(axis, SuperCoord(f, id)), Fixed(axis, LeafCoord(f, id)),
               Fixed(axis, SuperGrid(f.h)), Fixed(axis, LeafGrid(f.h)));
  }

  // ----- entries: the number of the leaf in four bytes, then its record -----

  function IdBytes(id: nat): seq<Byte>
  {
    [id % 256, id / 256 % 256, id / 65536 % 256, id / 16777216 % 256]
  }

  function ParseId(b0: Byte, b1: Byte, b2: Byte, b3: Byte): nat
  {
    var n0: nat, n1: nat, n2: nat, n3: nat := b0, b1, b2, b3;
    n0 + 256 * n1 + 65536 * n2 + 16777216 * n3
  }

  lemma IdRoundTrip(id: nat)
    requires id <= MAX_ID
    ensures ParseId(id % 256, id / 256 % 256, id / 65536 % 256, id / 16777216 % 256) == id
  {
    var a := id / 256;
    var b := a / 256;
    DivTwice(id, 256, 256);
    DivTwice(id, 65536, 256);
    assert id == 256 * a + id % 256 && a == 256 * b + a % 256 && b == 256 * (b / 256) + b % 256;
  }

  function RecordOfId(f: File, id: nat): seq<Byte>
    requires ReplicaSource(f) && Accepted(f) && id < |f.descriptors|
  {
    IdParts(f, id);
    RecordAt(f, SuperOfId(f, id), MortonOfId(f, id)).payload
  }

  function Entry(f: File, id: nat): (e: seq<Byte>)
    requires ReplicaSource(f) && Accepted(f) && id < |f.descriptors|
    ensures |e| == 4 + |RecordOfId(f, id)|
  {
    IdBytes(id) + RecordOfId(f, id)
  }

  predicate ValidIds(f: File, ids: seq<nat>)
  {
    forall i :: 0 <= i < |ids| ==> ids[i] < |f.descriptors|
  }

  /** The entries of the first n leaves of the list, one after the other. */
  function Entries(f: File, ids: seq<nat>, n: nat): seq<Byte>
    requires ReplicaSource(f) && Accepted(f) && ValidIds(f, ids) && n <= |ids|
  {
    if n == 0 then [] else Entries(f, ids, n - 1) + Entry(f, ids[n - 1])
  }

  lemma {:induction false} EntriesGrow(f: File, ids: seq<nat>, a: nat, b: nat)
    requires ReplicaSource(f) && Accepted(f) && ValidIds(f, ids) && a <= b <= |ids|
    ensures Entries(f, ids, a) <= Entries(f, ids, b)
  {
    if a < b {
      EntriesGrow(f, ids, a, b - 1);
    }
  }

  lemma {:induction false} EntriesFront(f: File, ids: seq<nat>, more: seq<nat>, n: nat)
    requires ReplicaSource(f) && Accepted(f) && ValidIds(f, ids) && ValidIds(f, more) && n <= |ids| && ids <= more
    ensures Entries(f, more, n) == Entries(f, ids, n)
  {
    if n > 0 {
      EntriesFront(f, ids, more, n - 1);
    }
  }

  lemma EntriesSnoc(f: File, ids: seq<nat>, id: nat)
    requires ReplicaSource(f) && Accepted(f) && ValidIds(f, ids) && id < |f.descriptors|
    ensures ValidIds(f, ids + [id])
    ensures Entries(f, ids + [id], |ids| + 1) == Entries(f, ids, |ids|) + Entry(f, id)
  {
    EntriesFront(f, ids, ids + [id], |ids|);
  }

  lemma EntryBytesAt(front: seq<Byte>, id: nat, record: seq<Byte>, data: seq<Byte>, offset: nat)
    requires id <= MAX_ID && offset == |front| && front + (IdBytes(id) + record) <= data
    ensures offset + 4 + |record| <= |data|
    ensures ParseId(data[offset], data[offset + 1], data[offset + 2], data[offset + 3]) == id
    ensures data[offset + 4..offset + 4 + |record|] == record
  {
    var entry := IdBytes(id) + record;
    InsideOf(front, entry, data, 4);
    IdRoundTrip(id);
    assert entry[4..] == record;
    assert data[offset + 0] == entry[0] && data[offset + 1] == entry[1];
    assert data[offset + 2] == entry[2] && data[offset + 3] == entry[3];
  }

  /** The bytes at the offset of entry k are its number and its record. */
  lemma EntryAt(f: File, ids: seq<nat>, k: nat, data: seq<Byte>, offset: nat, record: seq<Byte>)
    requires ReplicaSource(f) && Accepted(f) && ValidIds(f, ids) && k < |ids| && record == RecordOfId(f, ids[k])
    requires data == Entries(f, ids, |ids|) && offset == |Entries(f, ids, k)|
    ensures offset + 4 + |record| == |Entries(f, ids, k + 1)| <= |data|
    ensures ParseId(data[offset], data[offset + 1], data[offset + 2], data[offset + 3]) == ids[k]
    ensures data[offset + 4..offset + 4 + |record|] == record
  {
    EntriesGrow(f, ids, k + 1, |ids|);
    EntryBytesAt(Entries(f, ids, k), ids[k], record, data, offset);
  }

  lemma InsideOf(front: seq<Byte>, part: seq<Byte>, data: seq<Byte>, n: nat)
    requires front + part <= data && n <= |part|
    ensures forall i :: 0 <= i < |part| ==> data[|front| + i] == part[i]
    ensures data[|front| + n..|front| + |part|] == part[n..]
  {
    forall i | 0 <= i < |part|
      ensures data[|front| + i] == part[i]
    {
      assert (front + part)[|front| + i] == part[i];
    }
  }

  // ----- replicas -----

  /** A replica file: where each slab's entries are, and all its bytes. */
  datatype Replica = Replica(payloadOffset: nat, index: seq<IndexEntry>, bytes: seq<Byte>)

  /** The leaves of a slab, each once, in some order. */
  ghost predicate IdsOfSlab(f: File, axis: Axis, slab: nat, ids: seq<nat>)
    requires ReplicaSource(f)
  {
    && ValidIds(f, ids)
    && (forall i :: 0 <= i < |ids| ==> SlabOf(f, axis, ids[i]) == slab)
    && (forall i, j :: 0 <= i < j < |ids| ==> ids[i] != ids[j])
    && (forall id :: 0 <= id < |f.descriptors| && SlabOf(f, axis, id) == slab ==> id in ids)
  }

  /** The index entry of a slab covers exactly the entries of its leaves. */
  ghost predicate SlabStored(f: File, axis: Axis, r: Replica, slab: nat, ids: seq<nat>)
    requires ReplicaSource(f) && Accepted(f) && slab < |r.index|
  {
    && IdsOfSlab(f, axis, slab, ids)
    && r.index[slab].offset + r.index[slab].bytes <= |r.bytes|
    && r.bytes[r.index[slab].offset..r.index[slab].offset + r.index[slab].bytes] == Entries(f, ids, |ids|)
  }

  /** What the reader checks: the slabs follow one another from the start of the payload to the end of the file. */
  predicate Contiguous(r: Replica, count: nat)
    requires count <= |r.index|
  {
    forall i :: 0 <= i < count ==>
      r.index[i].offset == (if i == 0 then r.payloadOffset else r.index[i - 1].offset + r.index[i - 1].bytes) &&
      r.index[i].offset + r.index[i].bytes <= |r.bytes|
  }

  function EndOf(r: Replica, count: nat): nat
    requires count <= |r.index|
  {
    if count == 0 then r.payloadOffset else r.index[count - 1].offset + r.index[count - 1].bytes
  }

  const REPLICA_HEADER_BYTES: nat := 256
  const SLAB_ENTRY_BYTES: nat := 16

  /** The replica accepted by the reader for an axis of the file. */
  predicate ReplicaAccepted(f: File, axis: Axis, r: Replica)
    requires Valid(f.h)
  {
    && |r.index| == SlabCount(f.h, axis)
    && r.payloadOffset == REPLICA_HEADER_BYTES + |r.index| * SLAB_ENTRY_BYTES <= |r.bytes|
    && Contiguous(r, |r.index|) && EndOf(r, |r.index|) == |r.bytes|
  }

  method OpenReplica(f: File, axis: Axis, r: Replica) returns (ok: bool)
    requires Valid(f.h)
    ensures ok == ReplicaAccepted(f, axis, r)
  {
    if |r.index| != SlabCount(f.h, axis) ||
       r.payloadOffset != REPLICA_HEADER_BYTES + |r.index| * SLAB_ENTRY_BYTES || r.payloadOffset > |r.bytes| {
      return false;
    }
    var previousEnd := r.payloadOffset;
    for i := 0 to |r.index|
      invariant previousEnd == EndOf(r, i) && Contiguous(r, i)
    {
      var e := r.index[i];
      if e.offset != previousEnd || e.offset > |r.bytes| || e.bytes > |r.bytes| - e.offset {
        return false;
      }
      previousEnd := e.offset + e.bytes;
    }
    ok := previousEnd == |r.bytes|;
  }
}
