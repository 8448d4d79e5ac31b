/** From the sidecar writer to the reader, with or without a package in between. */
module Lz4RoundTrip {
  import opened Basics
  import opened SlicePlan
  import opened Lz4Sidecar
  import Writer = Lz4SidecarWriter
  import Reader = Lz4SidecarReader
  import Package = SectionLayout
  import Header = PackageHeader

  /** The sidecar as the writer leaves it. */
  ghost predicate Written(s: Sidecar, j: Writer.Job, chunkElements: nat, limitMiB: nat)
  {
    && Writer.ValidJob(j) && 4 * Writer.Width(j) <= Writer.INT_MAX
    && Writer.IsSidecar(s, j, Writer.ChunkHeight(j.n, j.axis, chunkElements, limitMiB))
  }

  /** Whichever mode the memory limit selects, the codec can express the size of a fragment. */
  lemma HeightFits(j: Writer.Job, chunkElements: nat, limitMiB: nat)
    requires Writer.ValidJob(j) && 4 * Writer.Width(j) <= Writer.INT_MAX
    ensures 4 * Cells(Writer.ChunkHeight(j.n, j.axis, chunkElements, limitMiB), Writer.Width(j)) <= Writer.INT_MAX
  {
    Writer.SomeCells(j.n);
    if !Writer.WholePlanes(j.n, j.axis, limitMiB) {
      Writer.SlabFits(j.n, j.axis, chunkElements, limitMiB, j.n.y * j.n.z, Writer.Width(j));
      FourTimes(Writer.SlabRows(j.n, j.axis, chunkElements, limitMiB), Writer.Width(j));
    }
  }

  lemma FourTimes(rows: nat, width: nat)
    ensures rows * (4 * width) == 4 * (rows * width)
  {
  }

  /** Every entry of a written index is inside the sidecar. */
  lemma EntriesInside(s: Sidecar, j: Writer.Job, rows: nat, i: nat, base: nat)
    requires Writer.ValidJob(j) && rows > 0 && Writer.IsSidecar(s, j, rows) && i < |s.index|
    requires base + |s.bytes| <= Reader.U64_MAX
    ensures Reader.EntryInside(s.index[i], |s.bytes|, base)
  {
    var chunks := CeilDiv(j.n.x, rows);
    CeilDivBound(0, j.n.x, rows);
    DivBound(i, Fixed(j.axis, j.n), chunks);
    DivModBack(i, chunks);
    ChunkHeld(s.bytes, s.index, j.n, j.axis, rows, j.codec, j.raw, Row(i, chunks), Column(i, chunks));
  }

  /** Opening the sidecar of a file it was put into succeeds, and what the reader then works with is sound. */
  lemma WrittenSound(s: Sidecar, j: Writer.Job, chunkElements: nat, limitMiB: nat, file: seq<Byte>, base: nat,
                     shifted: seq<Entry>, io: (nat, nat) -> bool)
    requires Written(s, j, chunkElements, limitMiB) && Inverse(j.codec)
    requires Reader.EmbeddedAt(file, base, s.bytes) && |file| <= Reader.U64_MAX
    requires Reader.IndexShifted(s.index, shifted, |s.index|, base)
    ensures forall i :: 0 <= i < |s.index| ==> Reader.EntryInside(s.index[i], |s.bytes|, base)
    ensures Reader.Sound(Reader.Opened(s.n, s.axis, s.chunks, shifted, file, io, j.codec),
                         Writer.ChunkHeight(j.n, j.axis, chunkElements, limitMiB), j.raw)
  {
    var rows := Writer.ChunkHeight(j.n, j.axis, chunkElements, limitMiB);
    forall i | 0 <= i < |s.index|
      ensures Reader.EntryInside(s.index[i], |s.bytes|, base)
    {
      EntriesInside(s, j, rows, i, base);
    }
    HeightFits(j, chunkElements, limitMiB);
    Reader.EmbeddedPlanes(file, base, s, rows, j.codec, j.raw, shifted);
  }

  /** A sidecar embedded in a package is found at its section's offset. */
  lemma PackagedSidecar(bytes: seq<Byte>, original: seq<Byte>, sources: seq<Package.Source>, i: nat, s: Sidecar)
    requires Package.IsPackage(bytes, original, sources) && i < |sources| && sources[i].data == s.bytes
    ensures var section := Header.PackageSections(bytes).value[i];
            section.kind == sources[i].kind && section.size == |s.bytes|
            && Reader.EmbeddedAt(bytes, section.offset, s.bytes)
  {
    var section := Header.PackageSections(bytes).value[i];
    assert Package.SectionHolds(bytes, section, sources[i], |original|);
  }
}
