/** A compressed file as the reader sees it, and what it checks before accepting one. */
module RzfpFile {
  import opened Basics
  import opened Morton
  import opened Layout
  import opened RzfpFormat

  const HEADER_BYTES: nat := 256
  const INDEX_ENTRY_BYTES: nat := 16
  const DESCRIPTOR_BYTES: nat := 2

  datatype IndexEntry = IndexEntry(offset: nat, bytes: nat)

  /** Header fields, index and descriptors as parsed, and the bytes of the whole file. */
  datatype File = File(h: Header, order: Order, descriptorOffset: nat, payloadOffset: nat,
                       index: seq<IndexEntry>, descriptors: seq<Descriptor>, bytes: seq<Byte>)

  function LeafCount(h: Header): nat
    requires Valid(h)
  {
    Volume(LeafGrid(h))
  }

  function TotalLeaves(superblocks: nat, leaves: nat): nat
  {
    superblocks * leaves
  }

  /** The tables have an entry for each superblock and each leaf. */
  predicate Parsed(f: File)
  {
    Valid(f.h) && |f.index| == SuperblockCount(f.h) && |f.descriptors| == TotalLeaves(SuperblockCount(f.h), LeafCount(f.h))
  }

  lemma TableInside(sb: nat, count: nat, leaves: nat)
    requires sb < count
    ensures sb * leaves + leaves <= count * leaves
  {
    MulNext(sb, leaves);
    MulMono(sb + 1, count, leaves);
  }

  /** The descriptors of one superblock. */
  function Table(descriptors: seq<Descriptor>, sb: nat, leaves: nat): (t: seq<Descriptor>)
    requires sb * leaves + leaves <= |descriptors|
    ensures |t| == leaves
  {
    descriptors[sb * leaves..sb * leaves + leaves]
  }

  function LeafTable(f: File, sb: nat): (t: seq<Descriptor>)
    requires Parsed(f) && sb < |f.index|
    ensures |t| == LeafCount(f.h)
  {
    TableInside(sb, |f.index|, LeafCount(f.h));
    Table(f.descriptors, sb, LeafCount(f.h))
  }

  /** A superblock's place in the tables by the file's order. */
  ghost predicate IsTablePlace(f: File, s: Coord, sb: nat)
    requires Valid(f.h)
  {
    var g := SuperGrid(f.h);
    sb == if f.order == ZYX then (s.z * g.y + s.y) * g.x + s.x else (s.y * g.z + s.z) * g.x + s.x
  }

  lemma PlaceIsId(f: File, s: Coord, sb: nat)
    requires Valid(f.h) && IsTablePlace(f, s, sb)
    ensures sb == PhysicalId(f.h, f.order, s)
  {
    PhysicalIdIs(f.h, f.order, s);
  }

  lemma TablePlace(f: File, s: Coord, l: Coord, sb: nat, m: nat)
    requires Parsed(f) && Gapless(LeafGrid(f.h)) && InBox(s, SuperGrid(f.h)) && InBox(l, LeafGrid(f.h))
    requires IsTablePlace(f, s, sb) && m == Encode(l)
    ensures sb == PhysicalId(f.h, f.order, s) < |f.index| && m < LeafCount(f.h)
    ensures sb * LeafCount(f.h) + m < |f.descriptors|
  {
    PlaceIsId(f, s, sb);
    PhysicalIdBijection(f.h, f.order, s);
    DecodeEncode(l);
    InTables(sb, m, |f.index|, LeafCount(f.h), |f.descriptors|);
  }

  lemma InTables(sb: nat, m: nat, count: nat, leaves: nat, total: nat)
    requires sb < count && m < leaves && total == TotalLeaves(count, leaves)
    ensures sb * leaves + m < total
  {
    RadixBound(sb, m, count, leaves);
  }

  predicate AreasOrdered(f: File)
    requires Parsed(f)
  {
    && HEADER_BYTES + |f.index| * INDEX_ENTRY_BYTES <= f.descriptorOffset
    && f.descriptorOffset + |f.descriptors| * DESCRIPTOR_BYTES <= f.payloadOffset <= |f.bytes|
  }

  predicate EntryInPayload(f: File, e: IndexEntry)
  {
    f.payloadOffset <= e.offset && e.offset + e.bytes <= |f.bytes|
  }

  predicate EntriesInPayload(f: File, count: nat)
    requires count <= |f.index|
  {
    forall i :: 0 <= i < count ==> EntryInPayload(f, f.index[i])
  }

  predicate CodecsKnown(descriptors: seq<Descriptor>, count: nat)
    requires count <= |descriptors|
  {
    forall i :: 0 <= i < count ==> DescriptorCodec(descriptors[i]) <= LAST_CODEC
  }

  /** A superblock's byte count is the sum of its leaves' sizes. */
  predicate SizesAddUp(f: File, sb: nat)
    requires Parsed(f) && sb < |f.index|
  {
    Prefix(LeafTable(f, sb), LeafCount(f.h)) == f.index[sb].bytes
  }

  predicate AllSizesAddUp(f: File, count: nat)
    requires Parsed(f) && count <= |f.index|
  {
    forall sb :: 0 <= sb < count ==> SizesAddUp(f, sb)
  }

  ghost predicate Accepted(f: File)
  {
    && Parsed(f) && AreasOrdered(f) && EntriesInPayload(f, |f.index|)
    && CodecsKnown(f.descriptors, |f.descriptors|) && AllSizesAddUp(f, |f.index|)
  }

  method CheckEntries(f: File) returns (ok: bool)
    ensures ok == EntriesInPayload(f, |f.index|)
  {
    for i := 0 to |f.index|
      invariant EntriesInPayload(f, i)
    {
      var e := f.index[i];
      if e.offset < f.payloadOffset || e.offset > |f.bytes| || e.bytes > |f.bytes| - e.offset {
        return false;
      }
    }
    ok := true;
  }

  method CheckCodecs(descriptors: seq<Descriptor>) returns (ok: bool)
    ensures ok == CodecsKnown(descriptors, |descriptors|)
  {
    for i := 0 to |descriptors|
      invariant CodecsKnown(descriptors, i)
    {
      if DescriptorCodec(descriptors[i]) > LAST_CODEC {
        return false;
      }
    }
    ok := true;
  }

  method SumSizes(table: seq<Descriptor>) returns (sum: nat)
    ensures sum == Prefix(table, |table|)
  {
    sum := 0;
    for j := 0 to |table|
      invariant sum == Prefix(table, j)
    {
      sum := sum + DescriptorSize(table[j]);
    }
  }

  method CheckSizes(f: File) returns (ok: bool)
    requires Parsed(f)
    ensures ok == AllSizesAddUp(f, |f.index|)
  {
    for sb := 0 to |f.index|
      invariant AllSizesAddUp(f, sb)
    {
      var sum := SumSizes(LeafTable(f, sb));
      if sum != f.index[sb].bytes {
        assert !SizesAddUp(f, sb);
        return false;
      }
    }
    ok := true;
  }

  /** What the reader's constructor does with a file whose tables could be read. */
  method Open(f: File) returns (ok: bool)
    requires Parsed(f)
    ensures ok == Accepted(f)
  {
    if HEADER_BYTES > |f.bytes| || |f.index| * INDEX_ENTRY_BYTES > |f.bytes| - HEADER_BYTES {
      return false;
    }
    if f.descriptorOffset < HEADER_BYTES + |f.index| * INDEX_ENTRY_BYTES ||
       f.descriptorOffset + |f.descriptors| * DESCRIPTOR_BYTES > |f.bytes| {
      return false;
    }
    if f.payloadOffset < f.descriptorOffset + |f.descriptors| * DESCRIPTOR_BYTES || f.payloadOffset > |f.bytes| {
      return false;
    }
    var entriesOk := CheckEntries(f);
    if !entriesOk {
      return false;
    }
    var codecsOk := CheckCodecs(f.descriptors);
    if !codecsOk {
      return false;
    }
    ok := CheckSizes(f);
  }

  // ----- records -----

  function RecordOffset(f: File, sb: nat, m: nat): nat
    requires Parsed(f) && sb < |f.index| && m < LeafCount(f.h)
  {
    f.index[sb].offset + Prefix(LeafTable(f, sb), m)
  }

  function RecordSize(f: File, sb: nat, m: nat): nat
    requires Parsed(f) && sb < |f.index| && m < LeafCount(f.h)
  {
    DescriptorSize(LeafTable(f, sb)[m])
  }

  /** In an accepted file every record lies within its superblock's bytes. */
  lemma RecordInSuperblock(f: File, sb: nat, m: nat)
    requires Accepted(f) && sb < |f.index| && m < LeafCount(f.h)
    ensures f.index[sb].offset <= RecordOffset(f, sb, m)
    ensures RecordOffset(f, sb, m) + RecordSize(f, sb, m) <= f.index[sb].offset + f.index[sb].bytes <= |f.bytes|
  {
    assert SizesAddUp(f, sb) && EntryInPayload(f, f.index[sb]);
    RecordEnds(LeafTable(f, sb), m);
  }

  /** The record of leaf m of superblock sb. */
  function RecordAt(f: File, sb: nat, m: nat): Record
    requires Accepted(f) && sb < |f.index| && m < LeafCount(f.h)
  {
    RecordInSuperblock(f, sb, m);
    Record(DescriptorCodec(LeafTable(f, sb)[m]), f.bytes[RecordOffset(f, sb, m)..RecordOffset(f, sb, m) + RecordSize(f, sb, m)])
  }

  lemma TableAt(descriptors: seq<Descriptor>, sb: nat, leaves: nat, m: nat, k: nat)
    requires sb * leaves + leaves <= |descriptors| && m < leaves && k == sb * leaves + m
    ensures Table(descriptors, sb, leaves)[m] == descriptors[k]
  {
  }

  /** A leaf's descriptor, codec above size, finds its record in the file. */
  lemma RecordBytes(f: File, sb: nat, m: nat, leaves: nat, k: nat)
    requires Accepted(f) && sb < |f.index| && m < leaves == LeafCount(f.h) && k == sb * leaves + m < |f.descriptors|
    ensures var d, from := f.descriptors[k], RecordOffset(f, sb, m);
            && from + d % 8192 <= |f.bytes|
            && RecordAt(f, sb, m) == Record(d / 8192, f.bytes[from..from + d % 8192])
  {
    RecordInSuperblock(f, sb, m);
    TableInside(sb, |f.index|, leaves);
    TableAt(f.descriptors, sb, leaves, m, k);
  }

  /** The leaf records of a superblock follow one another without gap and end where its bytes end. */
  lemma RecordsTile(f: File, sb: nat, m: nat)
    requires Accepted(f) && sb < |f.index| && m < LeafCount(f.h)
    ensures m == 0 ==> RecordOffset(f, sb, m) == f.index[sb].offset
    ensures m + 1 < LeafCount(f.h) ==> RecordOffset(f, sb, m + 1) == RecordOffset(f, sb, m) + RecordSize(f, sb, m)
    ensures m + 1 == LeafCount(f.h) ==>
              RecordOffset(f, sb, m) + RecordSize(f, sb, m) == f.index[sb].offset + f.index[sb].bytes
  {
    assert SizesAddUp(f, sb);
  }
}
