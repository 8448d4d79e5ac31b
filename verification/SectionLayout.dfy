/** Where the sections of a package lie, as a function of the original file and the files to embed. */
module SectionLayout {
  import opened Basics
  import opened EmbeddedSections
  import opened PackageFile
  import opened PackageHeader

  /** One file to embed; its source is none if it cannot be opened or is the package itself. */
  datatype Input = Input(kind: nat, source: Option<seq<Byte>>)

  datatype Source = Source(kind: nat, data: seq<Byte>)

  predicate Usable(i: Input)
  {
    ValidKind(i.kind) && i.source.Some? && i.source.value != []
  }

  /** At least one input, each usable, no kind twice. */
  predicate Acceptable(inputs: seq<Input>)
  {
    && inputs != []
    && (forall i :: 0 <= i < |inputs| ==> Usable(inputs[i]))
    && (forall i, j :: 0 <= i < j < |inputs| ==> inputs[i].kind != inputs[j].kind)
  }

  function Opened(inputs: seq<Input>): (sources: seq<Source>)
    requires Acceptable(inputs)
    ensures |sources| == |inputs| && ValidSources(sources)
  {
    seq(|inputs|, i requires 0 <= i < |inputs| => Source(inputs[i].kind, inputs[i].source.value))
  }

  predicate ValidSources(sources: seq<Source>)
  {
    && (forall i :: 0 <= i < |sources| ==> ValidKind(sources[i].kind) && sources[i].data != [])
    && (forall i, j :: 0 <= i < j < |sources| ==> sources[i].kind != sources[j].kind)
  }

  /** There are only six kinds. */
  lemma FewInputs(inputs: seq<Input>)
    requires Acceptable(inputs)
    ensures Fits32(|inputs|)
  {
    var kinds := seq(|inputs|, i requires 0 <= i < |inputs| => inputs[i].kind);
    DistinctElements(kinds);
    SubsetSize(Elements(kinds), {1, 2, 3, 16, 17, 18});
  }

  function Aligned(n: nat): (a: nat)
    ensures n <= a < n + ALIGNMENT && a % ALIGNMENT == 0
  {
    AlignUp(n);
    CeilDiv(n, ALIGNMENT) * ALIGNMENT
  }

  lemma AlignUp(n: nat)
    ensures n <= CeilDiv(n, ALIGNMENT) * ALIGNMENT < n + ALIGNMENT
  {
    DivModBack(n + ALIGNMENT - 1, ALIGNMENT);
  }

  function Padded(bytes: seq<Byte>): (p: seq<Byte>)
    ensures |p| == Aligned(|bytes|) && bytes <= p
  {
    Resized(bytes, Aligned(|bytes|))
  }

  /** The end of the file after the first n sources were appended, each at the next aligned offset. */
  function Cursor(size: nat, sources: seq<Source>, n: nat): (c: nat)
    requires n <= |sources|
    ensures c >= size
  {
    if n == 0 then size else Aligned(Cursor(size, sources, n - 1)) + |sources[n - 1].data|
  }

  /** The contents of the file then. */
  function Packed(original: seq<Byte>, sources: seq<Source>, n: nat): (p: seq<Byte>)
    requires n <= |sources|
    ensures |p| == Cursor(|original|, sources, n) && original <= p
  {
    if n == 0 then original else Padded(Packed(original, sources, n - 1)) + sources[n - 1].data
  }

  function PlacedSection(size: nat, sources: seq<Source>, i: nat): Section
    requires i < |sources|
  {
    Section(sources[i].kind, Aligned(Cursor(size, sources, i)), |sources[i].data|)
  }

  /** The directory's entries, for an original of the given size. */
  function Placed(size: nat, sources: seq<Source>, n: nat): (s: seq<Section>)
    requires n <= |sources|
    ensures |s| == n
  {
    seq(n, i requires 0 <= i < n => PlacedSection(size, sources, i))
  }

  function PackageSize(original: seq<Byte>, sources: seq<Source>): nat
  {
    Aligned(Cursor(|original|, sources, |sources|)) + DirectorySize(|sources|)
  }

  function DataBytes(sources: seq<Source>, n: nat): nat
    requires n <= |sources|
  {
    if n == 0 then 0 else DataBytes(sources, n - 1) + |sources[n - 1].data|
  }

  lemma {:induction false} CursorGrows(size: nat, sources: seq<Source>, n: nat, m: nat)
    requires n <= m <= |sources|
    ensures Cursor(size, sources, n) <= Cursor(size, sources, m)
    decreases m
  {
    if n < m {
      CursorGrows(size, sources, n, m - 1);
    }
  }

  /** A section ends where the next padding starts. */
  lemma PlacedWithin(size: nat, sources: seq<Source>, i: nat, n: nat)
    requires i < n <= |sources|
    ensures var s := PlacedSection(size, sources, i);
            size <= s.offset && s.offset % ALIGNMENT == 0 && s.offset + s.size <= Cursor(size, sources, n)
  {
    CursorGrows(size, sources, i + 1, n);
  }

  lemma PlacedApart(size: nat, sources: seq<Source>, i: nat, j: nat)
    requires i < j < |sources|
    ensures var s, t := PlacedSection(size, sources, i), PlacedSection(size, sources, j);
            s.offset + s.size <= t.offset
  {
    PlacedWithin(size, sources, i, j);
  }

  /** A section's bytes are its source's. */
  lemma {:induction false} PackedData(original: seq<Byte>, sources: seq<Source>, n: nat, i: nat)
    requires i < n <= |sources|
    ensures var s := PlacedSection(|original|, sources, i);
            && s.offset + s.size <= Cursor(|original|, sources, n)
            && Packed(original, sources, n)[s.offset..s.offset + s.size] == sources[i].data
    decreases n
  {
    var p := Packed(original, sources, n - 1);
    var s := PlacedSection(|original|, sources, i);
    if i < n - 1 {
      PackedData(original, sources, n - 1, i);
      PaddedSlice(p, sources[n - 1].data, s.offset, s.offset + s.size);
    } else {
      assert s.offset == |Padded(p)|;
    }
  }

  lemma PaddedSlice(p: seq<Byte>, data: seq<Byte>, from: nat, to: nat)
    requires from <= to <= |p|
    ensures (Padded(p) + data)[from..to] == p[from..to]
  {
  }

  /** The directory may list the sections where they were placed. */
  lemma PlacedListed(size: nat, sources: seq<Source>, directory: nat)
    requires ValidSources(sources) && size >= HEADER_BYTES && directory >= Cursor(size, sources, |sources|)
    ensures ListedBefore(Placed(size, sources, |sources|), directory)
  {
    var s := Placed(size, sources, |sources|);
    forall i | 0 <= i < |s|
      ensures SectionOk(s[i], directory) && s[i].kind == sources[i].kind
    {
      PlacedWithin(size, sources, i, |sources|);
    }
  }

  /** The package with its directory, before the header is committed. */
  function Complete(original: seq<Byte>, sources: seq<Source>): (p: seq<Byte>)
    ensures |p| == PackageSize(original, sources) && original <= p
  {
    Padded(Packed(original, sources, |sources|))
    + DirectoryBytes(Placed(|original|, sources, |sources|), PackageSize(original, sources))
  }

  predicate SectionHolds(bytes: seq<Byte>, s: Section, source: Source, start: nat)
  {
    && s.kind == source.kind && s.offset % ALIGNMENT == 0 && start <= s.offset
    && s.offset + s.size <= |bytes| && bytes[s.offset..s.offset + s.size] == source.data
  }

  /** Header bytes outside the flag and the link are the original's. */
  predicate HeaderKept(bytes: seq<Byte>, original: seq<Byte>, format: Format)
    requires |bytes| >= HEADER_BYTES && |original| >= HEADER_BYTES
  {
    forall i :: 0 <= i < HEADER_BYTES && i != FlagsAt(format) + 1 && !(LinkAt(format) <= i < LinkAt(format) + 24)
      ==> bytes[i] == original[i]
  }

  /** The sections a reader finds hold the sources, one behind the other. */
  predicate SectionsHold(bytes: seq<Byte>, s: seq<Section>, sources: seq<Source>, start: nat)
  {
    && |s| == |sources|
    && (forall i :: 0 <= i < |s| ==> SectionHolds(bytes, s[i], sources[i], start))
    && (forall i, j :: 0 <= i < j < |s| ==> s[i].offset + s[i].size <= s[j].offset)
  }

  /**
   * The file is the original with the sources embedded: a reader finds exactly one section for each source, in
   * order, aligned, disjoint, behind the original, with the source's bytes; and everything else is the original's.
   */
  predicate IsPackage(bytes: seq<Byte>, original: seq<Byte>, sources: seq<Source>)
  {
    && |original| >= HEADER_BYTES && |bytes| >= |original| && bytes[HEADER_BYTES..|original|] == original[HEADER_BYTES..]
    && FormatOf(bytes).Some? && FormatOf(bytes) == FormatOf(original)
    && HeaderKept(bytes, original, FormatOf(bytes).value)
    && PackageSections(bytes).Some?
    && SectionsHold(bytes, PackageSections(bytes).value, sources, |original|)
  }

  /** The header that makes the sections visible. */
  function NewHeader(original: seq<Byte>, sources: seq<Source>): (h: seq<Byte>)
    requires Bare(original)
    ensures |h| == HEADER_BYTES
  {
    Committed(original[..HEADER_BYTES], FormatOf(original).value, PackageLink(original, sources))
  }

  /** The complete file with its header committed. */
  function Linked(original: seq<Byte>, sources: seq<Source>): (p: seq<Byte>)
    requires Bare(original)
  {
    NewHeader(original, sources) + Complete(original, sources)[HEADER_BYTES..]
  }

  function PackageLink(original: seq<Byte>, sources: seq<Source>): (b: seq<Byte>)
    ensures |b| == 24
  {
    Link(Aligned(Cursor(|original|, sources, |sources|)), DirectorySize(|sources|), PackageSize(original, sources))
  }

  lemma BareHeader(original: seq<Byte>)
    requires Bare(original)
    ensures Bare(original[..HEADER_BYTES]) && FormatOf(original[..HEADER_BYTES]) == FormatOf(original)
  {
    var h := original[..HEADER_BYTES];
    assert h[..72] == original[..72];
    SameFormat(h, original);
  }

  /** Beyond the header, the linked file is the complete one. */
  lemma LinkedBody(original: seq<Byte>, sources: seq<Source>, from: nat, to: nat)
    requires Bare(original) && HEADER_BYTES <= from <= to <= PackageSize(original, sources)
    ensures |Linked(original, sources)| == PackageSize(original, sources)
    ensures Linked(original, sources)[from..to] == Complete(original, sources)[from..to]
  {
    BodySlice(NewHeader(original, sources), Complete(original, sources), from, to);
  }

  /** A stretch behind the header is what the complete file has there. */
  lemma BodySlice(header: seq<Byte>, complete: seq<Byte>, from: nat, to: nat)
    requires |header| == HEADER_BYTES <= from <= to <= |complete|
    ensures (header + complete[HEADER_BYTES..])[from..to] == complete[from..to]
  {
  }

  lemma CompleteEnds(original: seq<Byte>, sources: seq<Source>, directory: nat)
    requires directory == Aligned(Cursor(|original|, sources, |sources|))
    ensures var c := Complete(original, sources);
            && directory <= |c| == PackageSize(original, sources)
            && c[directory..|c|] == DirectoryBytes(Placed(|original|, sources, |sources|), |c|)
  {
    var c := Complete(original, sources);
    assert c[directory..] == DirectoryBytes(Placed(|original|, sources, |sources|), |c|);
  }

  lemma EndsWithDirectory(bytes: seq<Byte>, directory: nat, entries: seq<Section>)
    requires directory <= |bytes| && bytes[directory..|bytes|] == DirectoryBytes(entries, |bytes|)
    ensures HoldsDirectory(bytes, directory, entries)
  {
  }

  lemma LinkedDirectory(original: seq<Byte>, sources: seq<Source>)
    requires Bare(original)
    ensures HoldsDirectory(Linked(original, sources), Aligned(Cursor(|original|, sources, |sources|)),
                           Placed(|original|, sources, |sources|))
  {
    var directory := Aligned(Cursor(|original|, sources, |sources|));
    CompleteEnds(original, sources, directory);
    CursorGrows(|original|, sources, 0, |sources|);
    LinkedBody(original, sources, directory, PackageSize(original, sources));
    EndsWithDirectory(Linked(original, sources), directory, Placed(|original|, sources, |sources|));
  }

  lemma LinkedFound(original: seq<Byte>, sources: seq<Source>)
    requires Bare(original) && Fits64(PackageSize(original, sources))
    ensures var bytes := Linked(original, sources);
            && FormatOf(bytes) == FormatOf(original)
            && PackageSections(bytes)
               == ParseDirectory(bytes, Aligned(Cursor(|original|, sources, |sources|)), DirectorySize(|sources|))
  {
    var bytes, h := Linked(original, sources), original[..HEADER_BYTES];
    BareHeader(original);
    LinkedBody(original, sources, HEADER_BYTES, HEADER_BYTES);
    assert bytes[..HEADER_BYTES] == Committed(h, FormatOf(original).value, PackageLink(original, sources));
    CommittedLinks(bytes, h, FormatOf(original).value, Aligned(Cursor(|original|, sources, |sources|)),
                   DirectorySize(|sources|));
  }

  lemma LinkedSections(original: seq<Byte>, sources: seq<Source>)
    requires Bare(original) && ValidSources(sources) && 0 < |sources| && Fits32(|sources|)
    requires Fits64(PackageSize(original, sources))
    ensures FormatOf(Linked(original, sources)) == FormatOf(original)
    ensures PackageSections(Linked(original, sources)) == Some(Placed(|original|, sources, |sources|))
  {
    var directory := Aligned(Cursor(|original|, sources, |sources|));
    LinkedFound(original, sources);
    LinkedDirectory(original, sources);
    LinkedBody(original, sources, HEADER_BYTES, HEADER_BYTES);
    PlacedListed(|original|, sources, directory);
    DirectoryRoundTrip(Linked(original, sources), directory, Placed(|original|, sources, |sources|));
  }

  lemma LinkedHolds(original: seq<Byte>, sources: seq<Source>, i: nat)
    requires Bare(original) && i < |sources|
    ensures SectionHolds(Linked(original, sources), PlacedSection(|original|, sources, i), sources[i], |original|)
  {
    var p, s := Packed(original, sources, |sources|), PlacedSection(|original|, sources, i);
    PackedData(original, sources, |sources|, i);
    PlacedWithin(|original|, sources, i, |sources|);
    var directory := DirectoryBytes(Placed(|original|, sources, |sources|), PackageSize(original, sources));
    var header := Committed(original[..HEADER_BYTES], FormatOf(original).value, PackageLink(original, sources));
    PaddedSlice(p, directory, s.offset, s.offset + s.size);
    BodySlice(header, Padded(p) + directory, s.offset, s.offset + s.size);
  }

  lemma LinkedHeader(original: seq<Byte>, sources: seq<Source>)
    requires Bare(original)
    ensures HeaderKept(Linked(original, sources), original, FormatOf(original).value)
  {
    BareHeader(original);
    CommittedParts(original[..HEADER_BYTES], FormatOf(original).value, PackageLink(original, sources));
  }

  lemma LinkedRest(original: seq<Byte>, sources: seq<Source>)
    requires Bare(original)
    ensures |Linked(original, sources)| >= |original|
    ensures Linked(original, sources)[HEADER_BYTES..|original|] == original[HEADER_BYTES..]
  {
    LinkedBody(original, sources, HEADER_BYTES, |original|);
    var c := Complete(original, sources);
    assert original == c[..|original|];
  }

  lemma LinkedSectionsHold(original: seq<Byte>, sources: seq<Source>)
    requires Bare(original)
    ensures SectionsHold(Linked(original, sources), Placed(|original|, sources, |sources|), sources, |original|)
  {
    forall i | 0 <= i < |sources|
      ensures SectionHolds(Linked(original, sources), PlacedSection(|original|, sources, i), sources[i], |original|)
    {
      LinkedHolds(original, sources, i);
    }
    forall i, j | 0 <= i < j < |sources|
      ensures var s := Placed(|original|, sources, |sources|);
              s[i].offset + s[i].size <= s[j].offset
    {
      PlacedApart(|original|, sources, i, j);
    }
  }

  /** The committed file is a package of the original and the sources. */
  lemma LinkedIsPackage(original: seq<Byte>, sources: seq<Source>)
    requires Bare(original) && ValidSources(sources) && 0 < |sources| && Fits32(|sources|)
    requires Fits64(PackageSize(original, sources))
    ensures IsPackage(Linked(original, sources), original, sources)
  {
    LinkedSections(original, sources);
    LinkedSectionsHold(original, sources);
    LinkedHeader(original, sources);
    LinkedRest(original, sources);
  }
}
