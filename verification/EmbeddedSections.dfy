/** The directory at the end of a package: what is embedded, where, and how many bytes. */
module EmbeddedSections {
  import opened Basics
  import opened Bytes

  const SECTION_MAGIC: seq<Byte> := [0x45, 0x52, 0x57, 0x54, 0x53, 0x45, 0x43, 0]
  const SECTION_VERSION: nat := 1
  const ALIGNMENT: nat := 4096
  const HEADER_BYTES: nat := 256
  const RECORD_BYTES: nat := 64

  /** A section of a package. */
  datatype Section = Section(kind: nat, offset: nat, size: nat)

  predicate ValidKind(kind: nat)
  {
    kind in {1, 2, 3, 16, 17, 18}
  }

  // ----- printing -----

  function U32(v: nat): (s: seq<Byte>)
    ensures |s| == 4
  {
    Le(v, 4)
  }

  function U64(v: nat): (s: seq<Byte>)
    ensures |s| == 8
  {
    Le(v, 8)
  }

  function Zeros(n: nat): (s: seq<Byte>)
    ensures |s| == n
  {
    seq(n, _ => 0)
  }

  function SectionBytes(s: Section): (b: seq<Byte>)
    ensures |b| == RECORD_BYTES
  {
    U32(s.kind) + U32(0) + U64(s.offset) + U64(s.size) + Zeros(40)
  }

  function SectionsBytes(sections: seq<Section>, n: nat): (b: seq<Byte>)
    requires n <= |sections|
    ensures |b| == RECORD_BYTES * n
  {
    if n == 0 then [] else SectionsBytes(sections, n - 1) + SectionBytes(sections[n - 1])
  }

  function DirectorySize(count: nat): nat
  {
    RECORD_BYTES + RECORD_BYTES * count
  }

  function DirectoryHeader(count: nat, packageBytes: nat): (b: seq<Byte>)
    ensures |b| == RECORD_BYTES
  {
    SECTION_MAGIC + U32(SECTION_VERSION) + U32(count) + U64(DirectorySize(count)) + U64(packageBytes) + Zeros(32)
  }

  function DirectoryBytes(sections: seq<Section>, packageBytes: nat): (b: seq<Byte>)
    ensures |b| == DirectorySize(|sections|)
  {
    DirectoryHeader(|sections|, packageBytes) + SectionsBytes(sections, |sections|)
  }

  // ----- parsing -----

  function At(bytes: seq<Byte>, offset: nat, n: nat): nat
    requires offset + n <= |bytes|
  {
    FromLe(bytes[offset..offset + n])
  }

  predicate HeaderOk(bytes: seq<Byte>, offset: nat, size: nat)
    requires offset + size <= |bytes| && size >= RECORD_BYTES
  {
    && bytes[offset..offset + 8] == SECTION_MAGIC
    && At(bytes, offset + 8, 4) == SECTION_VERSION
    && At(bytes, offset + 16, 8) == size
    && At(bytes, offset + 24, 8) == |bytes|
  }

  function SectionAt(bytes: seq<Byte>, offset: nat): Section
    requires offset + RECORD_BYTES <= |bytes|
  {
    Section(At(bytes, offset, 4), At(bytes, offset + 8, 8), At(bytes, offset + 16, 8))
  }

  /** A section of a known kind, not empty, between the primary header and the directory. */
  predicate SectionOk(s: Section, directory: nat)
  {
    ValidKind(s.kind) && s.size > 0 && HEADER_BYTES <= s.offset && s.offset + s.size <= directory
  }

  predicate HasKind(sections: seq<Section>, kind: nat)
  {
    exists i :: 0 <= i < |sections| && sections[i].kind == kind
  }

  /** The first n sections of the directory; none if one is malformed or of a kind that occurred before. */
  function ParseSections(bytes: seq<Byte>, directory: nat, n: nat): Option<seq<Section>>
    requires directory + RECORD_BYTES + RECORD_BYTES * n <= |bytes|
  {
    if n == 0 then Some([])
    else match ParseSections(bytes, directory, n - 1)
      case None => None
      case Some(front) =>
        var s := SectionAt(bytes, directory + RECORD_BYTES * n);
        if !SectionOk(s, directory) || HasKind(front, s.kind) then None else Some(front + [s])
  }

  /** The sections a package holds, read from the directory said to be at the offset. */
  function ParseDirectory(bytes: seq<Byte>, offset: nat, size: nat): Option<seq<Section>>
  {
    if size < RECORD_BYTES || offset + size > |bytes| || !HeaderOk(bytes, offset, size) then None
    else
      var count := At(bytes, offset + 12, 4);
      if count == 0 || DirectorySize(count) != size then None else ParseSections(bytes, offset, count)
  }

  /** The reader's checks, then its loop over the entries. */
  method ReadDirectory(bytes: seq<Byte>, offset: nat, size: nat) returns (sections: Option<seq<Section>>)
    ensures sections == ParseDirectory(bytes, offset, size)
  {
    if size < RECORD_BYTES || offset > |bytes| || size > |bytes| - offset || !HeaderOk(bytes, offset, size) {
      return None;
    }
    var count := At(bytes, offset + 12, 4);
    var maxEntries := Pieces(size - RECORD_BYTES, RECORD_BYTES);
    DivModBack(size - RECORD_BYTES, RECORD_BYTES);
    if count == 0 || count > maxEntries || RECORD_BYTES + count * RECORD_BYTES != size {
      return None;
    }
    sections := ReadEntries(bytes, offset, count);
  }

  /** The loop over the entries. */
  method ReadEntries(bytes: seq<Byte>, offset: nat, count: nat) returns (sections: Option<seq<Section>>)
    requires offset + RECORD_BYTES + RECORD_BYTES * count <= |bytes|
    ensures sections == ParseSections(bytes, offset, count)
  {
    var found: seq<Section> := [];
    var n: nat := 0;
    while n < count
      invariant n <= count && ParseSections(bytes, offset, n) == Some(found)
    {
      var s := SectionAt(bytes, offset + RECORD_BYTES + RECORD_BYTES * n);
      if !ValidKind(s.kind) || s.size == 0 || s.offset < HEADER_BYTES || s.offset > offset ||
         s.size > offset - s.offset || HasKind(found, s.kind) {
        ParseFails(bytes, offset, n + 1, count);
        return None;
      }
      found := found + [s];
      n := n + 1;
    }
    sections := Some(found);
  }

  lemma {:induction false} ParseFails(bytes: seq<Byte>, directory: nat, n: nat, count: nat)
    requires n <= count && directory + RECORD_BYTES + RECORD_BYTES * count <= |bytes|
    requires ParseSections(bytes, directory, n) == None
    ensures ParseSections(bytes, directory, count) == None
    decreases count
  {
    if n < count {
      ParseFails(bytes, directory, n, count - 1);
    }
  }

  // ----- parsing undoes printing -----

  predicate Fits32(v: nat)
  {
    v < 0x1_0000_0000
  }

  predicate Fits64(v: nat)
  {
    v < 0x1_0000_0000_0000_0000
  }

  lemma Power32(n: nat)
    requires n == 4
    ensures Power(256, n) == 0x1_0000_0000
  {
    assert Power(256, n) == 256 * Power(256, n - 1) && Power(256, n - 1) == 256 * Power(256, n - 2);
    assert Power(256, n - 2) == 256 * Power(256, n - 3) && Power(256, n - 3) == 256 * Power(256, n - 4);
  }

  lemma Power64(n: nat)
    requires n == 8
    ensures Power(256, n) == 0x1_0000_0000_0000_0000
  {
    Power32(n - 4);
    assert Power(256, n) == 256 * Power(256, n - 1) && Power(256, n - 1) == 256 * Power(256, n - 2);
    assert Power(256, n - 2) == 256 * Power(256, n - 3) && Power(256, n - 3) == 256 * Power(256, n - 4);
  }

  lemma U32RoundTrip(v: nat, n: nat)
    requires Fits32(v) && n == 4
    ensures FromLe(Le(v, n)) == v
  {
    Power32(n);
    LeRoundTrip(v, n);
  }

  lemma U64RoundTrip(v: nat, n: nat)
    requires Fits64(v) && n == 8
    ensures FromLe(Le(v, n)) == v
  {
    Power64(n);
    LeRoundTrip(v, n);
  }

  /** The value of a field is what was printed there. */
  lemma FieldAt(bytes: seq<Byte>, offset: nat, part: seq<Byte>, at: nat, field: seq<Byte>, n: nat)
    requires offset + |part| <= |bytes| && bytes[offset..offset + |part|] == part
    requires at + n <= |part| && part[at..at + n] == field
    ensures bytes[offset + at..offset + at + n] == field
  {
    forall i | 0 <= i < n
      ensures bytes[offset + at + i] == field[i]
    {
      assert bytes[offset..offset + |part|][at + i] == part[at + i];
      assert part[at..at + n][i] == part[at + i];
    }
  }

  lemma SectionFields(s: Section)
    ensures SectionBytes(s)[0..4] == U32(s.kind) && SectionBytes(s)[8..16] == U64(s.offset)
    ensures SectionBytes(s)[16..24] == U64(s.size)
  {
  }

  lemma SectionRoundTrip(bytes: seq<Byte>, offset: nat, s: Section)
    requires offset + RECORD_BYTES <= |bytes| && bytes[offset..offset + RECORD_BYTES] == SectionBytes(s)
    requires Fits32(s.kind) && Fits64(s.offset) && Fits64(s.size)
    ensures SectionAt(bytes, offset) == s
  {
    SectionFields(s);
    FieldAt(bytes, offset, SectionBytes(s), 0, U32(s.kind), 4);
    FieldAt(bytes, offset, SectionBytes(s), 8, U64(s.offset), 8);
    FieldAt(bytes, offset, SectionBytes(s), 16, U64(s.size), 8);
    U32RoundTrip(s.kind, 4);
    U64RoundTrip(s.offset, 8);
    U64RoundTrip(s.size, 8);
  }

  lemma HeaderFields(count: nat, packageBytes: nat)
    ensures var h := DirectoryHeader(count, packageBytes);
            && h[0..8] == SECTION_MAGIC && h[8..12] == U32(SECTION_VERSION) && h[12..16] == U32(count)
            && h[16..24] == U64(DirectorySize(count)) && h[24..32] == U64(packageBytes)
  {
  }

  lemma HeaderRoundTrip(bytes: seq<Byte>, offset: nat, count: nat)
    requires offset + DirectorySize(count) <= |bytes| && Fits32(count) && Fits64(|bytes|)
    requires bytes[offset..offset + RECORD_BYTES] == DirectoryHeader(count, |bytes|)
    ensures HeaderOk(bytes, offset, DirectorySize(count)) && At(bytes, offset + 12, 4) == count
  {
    var h := DirectoryHeader(count, |bytes|);
    HeaderFields(count, |bytes|);
    FieldAt(bytes, offset, h, 0, SECTION_MAGIC, 8);
    FieldAt(bytes, offset, h, 8, U32(SECTION_VERSION), 4);
    FieldAt(bytes, offset, h, 12, U32(count), 4);
    FieldAt(bytes, offset, h, 16, U64(DirectorySize(count)), 8);
    FieldAt(bytes, offset, h, 24, U64(|bytes|), 8);
    U32RoundTrip(SECTION_VERSION, 4);
    U32RoundTrip(count, 4);
    U64RoundTrip(DirectorySize(count), 8);
    U64RoundTrip(|bytes|, 8);
  }

  lemma {:induction false} EntryOfFront(sections: seq<Section>, n: nat, i: nat)
    requires i < n <= |sections|
    ensures SectionsBytes(sections, n)[RECORD_BYTES * i..RECORD_BYTES * i + RECORD_BYTES] == SectionBytes(sections[i])
  {
    if i < n - 1 {
      EntryOfFront(sections, n - 1, i);
      SliceOfLongerFront(SectionsBytes(sections, n - 1), SectionBytes(sections[n - 1]), RECORD_BYTES * i);
    }
  }

  lemma SliceOfLongerFront(a: seq<Byte>, b: seq<Byte>, i: nat)
    requires i + RECORD_BYTES <= |a|
    ensures (a + b)[i..i + RECORD_BYTES] == a[i..i + RECORD_BYTES]
  {
  }

  /** The bytes hold the directory of these sections at the offset. */
  predicate HoldsDirectory(bytes: seq<Byte>, offset: nat, sections: seq<Section>)
  {
    && offset + DirectorySize(|sections|) <= |bytes|
    && bytes[offset..offset + DirectorySize(|sections|)] == DirectoryBytes(sections, |bytes|)
  }

  lemma EntryBytes(bytes: seq<Byte>, offset: nat, sections: seq<Section>, i: nat, at: nat)
    requires HoldsDirectory(bytes, offset, sections) && i < |sections| && at == RECORD_BYTES * i
    ensures bytes[offset + RECORD_BYTES + at..offset + RECORD_BYTES + at + RECORD_BYTES] == SectionBytes(sections[i])
  {
    EntryOfFront(sections, |sections|, i);
    var all := DirectoryBytes(sections, |bytes|);
    var entries := SectionsBytes(sections, |sections|);
    assert all[RECORD_BYTES + at..RECORD_BYTES + at + RECORD_BYTES] == entries[at..at + RECORD_BYTES] by {
      assert all[RECORD_BYTES..] == entries;
    }
    FieldAt(bytes, offset, all, RECORD_BYTES + at, SectionBytes(sections[i]), RECORD_BYTES);
  }

  /** Sections the directory at the offset may list: each one acceptable, no kind twice. */
  predicate ListedBefore(sections: seq<Section>, directory: nat)
  {
    && (forall i :: 0 <= i < |sections| ==> SectionOk(sections[i], directory))
    && (forall i, j :: 0 <= i < j < |sections| ==> sections[i].kind != sections[j].kind)
  }

  lemma {:induction false} ParsesBack(bytes: seq<Byte>, offset: nat, sections: seq<Section>, n: nat)
    requires HoldsDirectory(bytes, offset, sections) && ListedBefore(sections, offset) && Fits64(offset)
    requires n <= |sections|
    ensures ParseSections(bytes, offset, n) == Some(sections[..n])
  {
    if n > 0 {
      ParsesBack(bytes, offset, sections, n - 1);
      EntryBytes(bytes, offset, sections, n - 1, RECORD_BYTES * (n - 1));
      var s := sections[n - 1];
      SectionRoundTrip(bytes, offset + RECORD_BYTES * n, s);
      assert !HasKind(sections[..n - 1], s.kind);
      assert sections[..n] == sections[..n - 1] + [s];
    }
  }

  /** What was written as the directory is what the reader finds there. */
  lemma DirectoryRoundTrip(bytes: seq<Byte>, offset: nat, sections: seq<Section>)
    requires HoldsDirectory(bytes, offset, sections) && ListedBefore(sections, offset)
    requires 0 < |sections| && Fits32(|sections|) && Fits64(|bytes|)
    ensures ParseDirectory(bytes, offset, DirectorySize(|sections|)) == Some(sections)
  {
    FieldAt(bytes, offset, DirectoryBytes(sections, |bytes|), 0, DirectoryHeader(|sections|, |bytes|), RECORD_BYTES);
    HeaderRoundTrip(bytes, offset, |sections|);
    ParsesBack(bytes, offset, sections, |sections|);
    assert sections[..|sections|] == sections;
  }

  lemma {:induction false} ParsedListed(bytes: seq<Byte>, directory: nat, n: nat)
    requires directory + RECORD_BYTES + RECORD_BYTES * n <= |bytes| && ParseSections(bytes, directory, n).Some?
    ensures |ParseSections(bytes, directory, n).value| == n && ListedBefore(ParseSections(bytes, directory, n).value, directory)
  {
    if n > 0 {
      ParsedListed(bytes, directory, n - 1);
      var front := ParseSections(bytes, directory, n - 1).value;
      assert !HasKind(front, SectionAt(bytes, directory + RECORD_BYTES * n).kind);
    }
  }

  /** Whatever the bytes are, sections the reader accepts lie between the header and the directory, each kind once. */
  lemma AcceptedSectionsListed(bytes: seq<Byte>, offset: nat, size: nat)
    ensures var r := ParseDirectory(bytes, offset, size);
            r.Some? ==> r.value != [] && ListedBefore(r.value, offset) && offset + DirectorySize(|r.value|) <= |bytes|
  {
    if ParseDirectory(bytes, offset, size).Some? {
      ParsedListed(bytes, offset, At(bytes, offset + 12, 4));
    }
  }
}
