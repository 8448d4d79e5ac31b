/** The compressed file: superblock index, leaf descriptors and the payload they address. */
module RzfpFormat {
  import opened Basics
  import opened Morton
  import opened Layout

  // ----- the order of superblocks in the file -----

  datatype Order = ZYX | YZX

  /** Y and Z exchanged. */
  function Swap(c: Coord): Coord
  {
    Coord(c.x, c.z, c.y)
  }

  /** A superblock's place in the index and descriptor tables: X fastest, then Y or Z. */
  function PhysicalId(h: Header, order: Order, s: Coord): nat
    requires Valid(h)
  {
    match order
    case ZYX => Flat(s, SuperGrid(h))
    case YZX => Flat(Swap(s), Swap(SuperGrid(h)))
  }

  /** The same, from the number the slice planner gives the superblock. */
  function PhysicalSuperblockId(h: Header, order: Order, id: nat): nat
    requires Valid(h) && SuperGrid(h).x > 0 && SuperGrid(h).y > 0
  {
    PhysicalId(h, order, Unflat(id, SuperGrid(h)))
  }

  function SuperblockCount(h: Header): nat
    requires Valid(h)
  {
    Volume(SuperGrid(h))
  }

  /** The superblock that an index entry belongs to. */
  function SuperblockAt(h: Header, order: Order, id: nat): Coord
    requires Valid(h) && InBox(Coord(0, 0, 0), SuperGrid(h))
  {
    match order
    case ZYX => Unflat(id, SuperGrid(h))
    case YZX => Swap(Unflat(id, Swap(SuperGrid(h))))
  }

  lemma SwappedVolume(c: Coord)
    ensures Volume(Swap(c)) == Volume(c)
  {
  }

  /** In both orders the superblocks have the numbers below their count, each its own. */
  lemma PhysicalIdBijection(h: Header, order: Order, s: Coord)
    requires Valid(h) && InBox(s, SuperGrid(h))
    ensures PhysicalId(h, order, s) < SuperblockCount(h)
    ensures SuperblockAt(h, order, PhysicalId(h, order, s)) == s
    ensures PhysicalSuperblockId(h, order, SuperblockId(h, s)) == PhysicalId(h, order, s)
  {
    FlatInBox(s, SuperGrid(h));
    FlatInBox(Swap(s), Swap(SuperGrid(h)));
    SwappedVolume(SuperGrid(h));
  }

  /** The place is counted X fastest, then Y and Z in the first order, Z and Y in the second. */
  lemma PhysicalIdIs(h: Header, order: Order, s: Coord)
    requires Valid(h)
    ensures var gx, gy, gz := CeilDiv(h.n.x, h.super.x), CeilDiv(h.n.y, h.super.y), CeilDiv(h.n.z, h.super.z);
            PhysicalId(h, order, s) == if order == ZYX then (s.z * gy + s.y) * gx + s.x else (s.y * gz + s.z) * gx + s.x
  {
  }

  /** a comes before b where the first of the coordinates named that differs is smaller. */
  predicate Before3(a: nat, b: nat, c: nat, a': nat, b': nat, c': nat)
  {
    a < a' || (a == a' && (b < b' || (b == b' && c < c')))
  }

  /** Superblocks are numbered in the order of (z, y, x), or of (y, z, x). */
  lemma PhysicalOrder(h: Header, order: Order, a: Coord, b: Coord)
    requires Valid(h) && InBox(a, SuperGrid(h)) && InBox(b, SuperGrid(h))
    ensures PhysicalId(h, order, a) < PhysicalId(h, order, b) <==>
            match order
            case ZYX => Before3(a.z, a.y, a.x, b.z, b.y, b.x)
            case YZX => Before3(a.y, a.z, a.x, b.y, b.z, b.x)
  {
    match order
    case ZYX => FlatOrder(a, b, SuperGrid(h));
    case YZX => FlatOrder(Swap(a), Swap(b), Swap(SuperGrid(h)));
  }

  lemma FlatOrder(a: Coord, b: Coord, grid: Coord)
    requires InBox(a, grid) && InBox(b, grid)
    ensures Flat(a, grid) < Flat(b, grid) <==> Before3(a.z, a.y, a.x, b.z, b.y, b.x)
  {
    if Before3(a.z, a.y, a.x, b.z, b.y, b.x) {
      FlatAscends(a, b, grid);
    } else if a != b {
      FlatAscends(b, a, grid);
    }
  }

  lemma SuperblockAtBijection(h: Header, order: Order, id: nat)
    requires Valid(h) && id < SuperblockCount(h) && InBox(Coord(0, 0, 0), SuperGrid(h))
    ensures InBox(SuperblockAt(h, order, id), SuperGrid(h))
    ensures PhysicalId(h, order, SuperblockAt(h, order, id)) == id
  {
    SwappedVolume(SuperGrid(h));
    UnflatInBox(id, SuperGrid(h));
    UnflatInBox(id, Swap(SuperGrid(h)));
  }

  // ----- descriptors: three bits of codec above thirteen bits of size -----

  const MAX_RECORD: nat := 8191
  const LAST_CODEC: nat := 5

  type Descriptor = d: nat | d < 65536

  /** A leaf as encoded. */
  datatype Record = Record(codec: nat, payload: seq<Byte>)

  /** What makeDescriptor does not throw on, for the codecs there are. */
  predicate Encodable(r: Record)
  {
    r.codec <= LAST_CODEC && |r.payload| <= MAX_RECORD
  }

  function MakeDescriptor(r: Record): Descriptor
    requires Encodable(r)
  {
    r.codec * 8192 + |r.payload|
  }

  function DescriptorCodec(d: Descriptor): nat
  {
    d / 8192
  }

  function DescriptorSize(d: Descriptor): nat
  {
    d % 8192
  }

  lemma DescriptorRoundTrip(r: Record)
    requires Encodable(r)
    ensures DescriptorCodec(MakeDescriptor(r)) == r.codec && DescriptorSize(MakeDescriptor(r)) == |r.payload|
  {
    DivMod(r.codec, |r.payload|, 8192);
  }

  // ----- where records start -----

  /** The bytes of the first count records described. */
  function Prefix(sizes: seq<Descriptor>, count: nat): nat
    requires count <= |sizes|
  {
    if count == 0 then 0 else Prefix(sizes, count - 1) + DescriptorSize(sizes[count - 1])
  }

  lemma {:induction false} PrefixMono(sizes: seq<Descriptor>, a: nat, b: nat)
    requires a <= b <= |sizes|
    ensures Prefix(sizes, a) <= Prefix(sizes, b)
    decreases b
  {
    if a < b {
      PrefixMono(sizes, a, b - 1);
    }
  }

  /** A record ends within the bytes of all records. */
  lemma RecordEnds(sizes: seq<Descriptor>, m: nat)
    requires m < |sizes|
    ensures Prefix(sizes, m) + DescriptorSize(sizes[m]) <= Prefix(sizes, |sizes|)
  {
    PrefixMono(sizes, m + 1, |sizes|);
  }

  ghost predicate AllEncodable(records: seq<Record>)
  {
    forall i :: 0 <= i < |records| ==> Encodable(records[i])
  }

  /** The first count records one after the other. */
  function Payload(records: seq<Record>, count: nat): seq<Byte>
    requires count <= |records|
  {
    if count == 0 then [] else Payload(records, count - 1) + records[count - 1].payload
  }

  /** The descriptors of the first records. */
  ghost predicate Describes(descriptors: seq<Descriptor>, records: seq<Record>)
  {
    && |descriptors| <= |records| && AllEncodable(records)
    && forall i :: 0 <= i < |descriptors| ==> descriptors[i] == MakeDescriptor(records[i])
  }

  /** The prefix sums of the descriptors are the sizes of the payload so far. */
  lemma {:induction false} PrefixIsPayload(descriptors: seq<Descriptor>, records: seq<Record>, count: nat)
    requires Describes(descriptors, records) && count <= |descriptors|
    ensures Prefix(descriptors, count) == |Payload(records, count)|
  {
    if count > 0 {
      PrefixIsPayload(descriptors, records, count - 1);
      DescriptorRoundTrip(records[count - 1]);
    }
  }

  lemma {:induction false} PayloadGrows(records: seq<Record>, a: nat, b: nat)
    requires a <= b <= |records|
    ensures Payload(records, a) <= Payload(records, b)
  {
    if a < b {
      PayloadGrows(records, a, b - 1);
    }
  }

  /** The prefix sums of the descriptors find every record in the payload. */
  lemma PayloadAt(descriptors: seq<Descriptor>, records: seq<Record>, m: nat, from: nat)
    requires Describes(descriptors, records) && m < |descriptors| == |records| && from == Prefix(descriptors, m)
    ensures DescriptorCodec(descriptors[m]) == records[m].codec
    ensures DescriptorSize(descriptors[m]) == |records[m].payload|
    ensures from + |records[m].payload| <= |Payload(records, |records|)|
    ensures Payload(records, |records|)[from..from + |records[m].payload|] == records[m].payload
  {
    DescriptorRoundTrip(records[m]);
    PrefixIsPayload(descriptors, records, m);
    PayloadGrows(records, m + 1, |records|);
  }

  /** Packing a later stretch of records on its own gives the same bytes. */
  lemma {:induction false} PayloadStretch(records: seq<Record>, chunk: seq<Record>, from: nat, count: nat)
    requires count <= |chunk| && from + count <= |records|
    requires forall i :: 0 <= i < count ==> chunk[i] == records[from + i]
    ensures Payload(records, from + count) == Payload(records, from) + Payload(chunk, count)
  {
    if count > 0 {
      PayloadStretch(records, chunk, from, count - 1);
    }
  }
}
