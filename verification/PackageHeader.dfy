/** The 256-byte primary headers of the two file formats, as bytes, and the commit that links in a directory. */
module PackageHeader {
  import opened Basics
  import opened EmbeddedSections

  const ERWT3D_MAGIC: seq<Byte> := [0x45, 0x52, 0x57, 0x54, 0x33, 0x44, 0, 0]
  const RZFP_MAGIC: seq<Byte> := [0x45, 0x52, 0x57, 0x54, 0x33, 0x44, 0x52, 0]

  datatype Format = Erwt3d | Rzfp

  function Magic(format: Format): seq<Byte>
  {
    if format.Erwt3d? then ERWT3D_MAGIC else RZFP_MAGIC
  }

  /** Where the flags word starts; the flag for embedded sections is bit 10 of it. */
  function FlagsAt(format: Format): nat
  {
    if format.Erwt3d? then 72 else 88
  }

  /** Where the three words that locate the directory start: reserved words 11 to 13. */
  function LinkAt(format: Format): nat
  {
    if format.Erwt3d? then 168 else 184
  }

  predicate DivisibleAt(h: seq<Byte>, super: nat, leaf: nat)
    requires |h| >= HEADER_BYTES && super <= 60 && leaf <= 60
  {
    var s, l := At(h, super, 4), At(h, leaf, 4);
    s != 0 && l != 0 && s % l == 0
  }

  /** The header checks of the format. */
  predicate HeaderValid(h: seq<Byte>, format: Format)
    requires |h| >= HEADER_BYTES
  {
    && h[..8] == Magic(format)
    && At(h, 8, 4) == 1 && At(h, 36, 4) == 1
    && DivisibleAt(h, 40, 52) && DivisibleAt(h, 44, 56) && DivisibleAt(h, 48, 60)
    && (format.Erwt3d? ==> At(h, 64, 8) >= HEADER_BYTES)
  }

  predicate Flagged(h: seq<Byte>, format: Format)
    requires |h| >= HEADER_BYTES
  {
    h[FlagsAt(format) + 1] / 4 % 2 == 1
  }

  /** The format of a file that starts with a valid header; none for anything else. */
  function FormatOf(bytes: seq<Byte>): Option<Format>
  {
    if |bytes| < HEADER_BYTES then None
    else if HeaderValid(bytes, Erwt3d) then Some(Erwt3d)
    else if HeaderValid(bytes, Rzfp) then Some(Rzfp)
    else None
  }

  /** A primary file that can take embedded sections: valid, and without any so far. */
  predicate Bare(bytes: seq<Byte>)
  {
    FormatOf(bytes).Some? && !Flagged(bytes, FormatOf(bytes).value)
  }

  /** What a reader that opens the file finds embedded: nothing without the flag, else what the directory lists. */
  function PackageSections(bytes: seq<Byte>): Option<seq<Section>>
    requires FormatOf(bytes).Some?
  {
    var format := FormatOf(bytes).value;
    if !Flagged(bytes, format) then Some([])
    else ParseDirectory(bytes, At(bytes, LinkAt(format), 8), At(bytes, LinkAt(format) + 8, 8))
  }

  /** The directory's place in the three words of the header. */
  function Link(offset: nat, size: nat, packageBytes: nat): (b: seq<Byte>)
    ensures |b| == 24
  {
    U64(offset) + U64(size) + U64(packageBytes)
  }

  /** The header with the flag set and the link filled in. */
  function Committed(h: seq<Byte>, format: Format, link: seq<Byte>): (c: seq<Byte>)
    requires |h| == HEADER_BYTES && !Flagged(h, format) && |link| == 24
    ensures |c| == HEADER_BYTES
  {
    FlagFits(h[FlagsAt(format) + 1]);
    h[..FlagsAt(format) + 1] + [h[FlagsAt(format) + 1] + 4]
    + h[FlagsAt(format) + 2..LinkAt(format)] + link + h[LinkAt(format) + 24..]
  }

  lemma FlagFits(b: Byte)
    requires b / 4 % 2 == 0
    ensures b + 4 < 256 && (b + 4) / 4 % 2 == 1
  {
  }

  lemma CommittedParts(h: seq<Byte>, format: Format, link: seq<Byte>)
    requires |h| == HEADER_BYTES && !Flagged(h, format) && |link| == 24
    ensures var c := Committed(h, format, link);
            && c[..72] == h[..72] && Flagged(c, format) && c[LinkAt(format)..LinkAt(format) + 24] == link
            && forall i :: 0 <= i < HEADER_BYTES && i != FlagsAt(format) + 1 && !(LinkAt(format) <= i < LinkAt(format) + 24)
                 ==> c[i] == h[i]
  {
    FlagFits(h[FlagsAt(format) + 1]);
  }

  lemma AtPrefix(a: seq<Byte>, b: seq<Byte>, n: nat, offset: nat, size: nat)
    requires n <= |a| && n <= |b| && a[..n] == b[..n] && offset + size <= n
    ensures At(a, offset, size) == At(b, offset, size)
  {
    forall i | offset <= i < offset + size
      ensures a[i] == b[i]
    {
      assert a[..n][i] == b[..n][i];
    }
    assert a[offset..offset + size] == b[offset..offset + size];
  }

  /** Validity and format depend on the first 72 bytes alone. */
  lemma SameFormat(a: seq<Byte>, b: seq<Byte>)
    requires |a| >= HEADER_BYTES && |b| >= HEADER_BYTES && a[..72] == b[..72]
    ensures FormatOf(a) == FormatOf(b)
  {
    assert a[..8] == a[..72][..8] == b[..8];
    AtPrefix(a, b, 72, 8, 4);
    AtPrefix(a, b, 72, 36, 4);
    AtPrefix(a, b, 72, 40, 4);
    AtPrefix(a, b, 72, 44, 4);
    AtPrefix(a, b, 72, 48, 4);
    AtPrefix(a, b, 72, 52, 4);
    AtPrefix(a, b, 72, 56, 4);
    AtPrefix(a, b, 72, 60, 4);
    AtPrefix(a, b, 72, 64, 8);
    assert HeaderValid(a, Erwt3d) == HeaderValid(b, Erwt3d);
    assert HeaderValid(a, Rzfp) == HeaderValid(b, Rzfp);
  }

  lemma CommittedFormat(bytes: seq<Byte>, h: seq<Byte>, format: Format, link: seq<Byte>)
    requires |bytes| >= HEADER_BYTES == |h| && Bare(h) && FormatOf(h) == Some(format) && |link| == 24
    requires bytes[..HEADER_BYTES] == Committed(h, format, link)
    ensures FormatOf(bytes) == Some(format) && Flagged(bytes, format)
    ensures bytes[LinkAt(format)..LinkAt(format) + 24] == link
  {
    var c := Committed(h, format, link);
    CommittedParts(h, format, link);
    FirstBytes(bytes, c, 0, 72);
    SameFormat(bytes, h);
    assert bytes[FlagsAt(format) + 1] == c[FlagsAt(format) + 1];
    FirstBytes(bytes, c, LinkAt(format), LinkAt(format) + 24);
  }

  lemma FirstBytes(bytes: seq<Byte>, c: seq<Byte>, from: nat, to: nat)
    requires from <= to <= |c| <= |bytes| && bytes[..|c|] == c
    ensures bytes[from..to] == c[from..to]
  {
    forall i | from <= i < to
      ensures bytes[i] == c[i]
    {
      assert bytes[..|c|][i] == c[i];
    }
  }

  lemma LinkRead(bytes: seq<Byte>, at: nat, offset: nat, size: nat, packageBytes: nat)
    requires at + 24 <= |bytes| && bytes[at..at + 24] == Link(offset, size, packageBytes)
    requires Fits64(offset) && Fits64(size)
    ensures At(bytes, at, 8) == offset && At(bytes, at + 8, 8) == size
  {
    var link := Link(offset, size, packageBytes);
    LinkFields(offset, size, packageBytes);
    FieldAt(bytes, at, link, 0, U64(offset), 8);
    FieldAt(bytes, at, link, 8, U64(size), 8);
    U64RoundTrip(offset, 8);
    U64RoundTrip(size, 8);
  }

  lemma LinkFields(offset: nat, size: nat, packageBytes: nat)
    ensures Link(offset, size, packageBytes)[0..8] == U64(offset) && Link(offset, size, packageBytes)[8..16] == U64(size)
  {
  }

  /** A reader of a file with a committed header looks for the directory where it was put. */
  lemma CommittedLinks(bytes: seq<Byte>, h: seq<Byte>, format: Format, offset: nat, size: nat)
    requires |bytes| >= HEADER_BYTES == |h| && Bare(h) && FormatOf(h) == Some(format)
    requires Fits64(offset) && Fits64(size)
    requires bytes[..HEADER_BYTES] == Committed(h, format, Link(offset, size, |bytes|))
    ensures FormatOf(bytes) == Some(format)
    ensures PackageSections(bytes) == ParseDirectory(bytes, offset, size)
  {
    var link := Link(offset, size, |bytes|);
    CommittedFormat(bytes, h, format, link);
    LinkRead(bytes, LinkAt(format), offset, size, |bytes|);
  }
}
