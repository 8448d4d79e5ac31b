/** Byte ranges of a file, merged where they touch, and how to find a range in what was read of the merged ones. */
module Extents {
  import opened Basics
  import opened Float32
  import opened Sorting

  /** Offsets and sizes in cells of four bytes. */
  datatype Extent = Extent(offset: nat, size: nat)

  function End(e: Extent): nat
  {
    e.offset + e.size
  }

  predicate Inside(e: Extent, m: Extent)
  {
    m.offset <= e.offset && End(e) <= End(m)
  }

  predicate Has(e: Extent, p: nat)
  {
    e.offset <= p < End(e)
  }

  predicate Covered(s: seq<Extent>, p: nat)
  {
    exists i :: 0 <= i < |s| && Has(s[i], p)
  }

  predicate InsideSome(e: Extent, merged: seq<Extent>)
  {
    exists j :: 0 <= j < |merged| && Inside(e, merged[j])
  }

  /** Ascending, and never touching. */
  predicate Gaps(merged: seq<Extent>)
  {
    forall i, j :: 0 <= i < j < |merged| ==> End(merged[i]) < merged[j].offset
  }

  /** The merged ranges lie apart, each given range is inside one, and they cover nothing else. */
  ghost predicate Merged(extents: seq<Extent>, merged: seq<Extent>)
  {
    && Gaps(merged)
    && (forall e :: e in extents ==> InsideSome(e, merged))
    && (forall p: nat :: Covered(merged, p) ==> Covered(extents, p))
    && (forall m :: m in merged && m.size == 0 ==> m in extents)
  }

  function ByOffset(): (Extent, Extent) -> bool
  {
    (a: Extent, b: Extent) => a.offset <= b.offset
  }

  /** The merged ranges after another one, which starts no earlier than those before. */
  function Absorb(merged: seq<Extent>, e: Extent): (r: seq<Extent>)
    requires merged != []
  {
    var last := merged[|merged| - 1];
    if e.offset <= End(last) then merged[..|merged| - 1] + [last.(size := Max(End(last), End(e)) - last.offset)]
    else merged + [e]
  }

  lemma AbsorbInside(merged: seq<Extent>, e: Extent, f: Extent)
    requires merged != [] && merged[|merged| - 1].offset <= e.offset
    requires f == e || InsideSome(f, merged)
    ensures InsideSome(f, Absorb(merged, e))
  {
    var r := Absorb(merged, e);
    if f == e {
      assert Inside(f, r[|r| - 1]);
    } else {
      var j :| 0 <= j < |merged| && Inside(f, merged[j]);
      assert Inside(f, r[j]);
    }
  }

  lemma AbsorbCovers(merged: seq<Extent>, e: Extent, p: nat)
    requires merged != [] && merged[|merged| - 1].offset <= e.offset && Covered(Absorb(merged, e), p)
    ensures Covered(merged, p) || Has(e, p)
  {
    var r := Absorb(merged, e);
    var j :| 0 <= j < |r| && Has(r[j], p);
    if j < |merged| && Has(merged[j], p) {
      assert Covered(merged, p);
    }
  }

  lemma AbsorbNext(extents: seq<Extent>, n: nat, merged: seq<Extent>)
    requires 0 < n < |extents| && Merged(extents[..n], merged) && merged != []
    requires merged[|merged| - 1].offset <= extents[n].offset
    ensures Merged(extents[..n + 1], Absorb(merged, extents[n]))
  {
    var r, more := Absorb(merged, extents[n]), extents[..n + 1];
    forall f | f in more
      ensures InsideSome(f, r)
    {
      assert f == extents[n] || f in extents[..n];
      AbsorbInside(merged, extents[n], f);
    }
    forall p: nat | Covered(r, p)
      ensures Covered(more, p)
    {
      AbsorbCovers(merged, extents[n], p);
      if Has(extents[n], p) {
        assert Has(more[n], p);
      } else {
        var i :| 0 <= i < n && Has(extents[..n][i], p);
        assert Has(more[i], p);
      }
    }
  }

  lemma MergedPermuted(sorted: seq<Extent>, extents: seq<Extent>, merged: seq<Extent>)
    requires multiset(sorted) == multiset(extents) && Merged(sorted, merged)
    ensures Merged(extents, merged)
  {
    SameElements(sorted, extents);
    forall p: nat | Covered(merged, p)
      ensures Covered(extents, p)
    {
      var i :| 0 <= i < |sorted| && Has(sorted[i], p);
      assert sorted[i] in extents;
    }
  }

  /** Merging: sort a copy, then extend the last range or begin a new one. */
  method MergeExtents(extents: seq<Extent>) returns (merged: seq<Extent>)
    ensures Merged(extents, merged)
    ensures merged == [] <==> extents == []
  {
    if extents == [] {
      return [];
    }
    var sorted := Sort(extents, ByOffset());
    SameElements(sorted, extents);
    merged := [sorted[0]];
    StartMerged(sorted);
    var n: nat := 1;
    while n < |sorted|
      invariant 1 <= n <= |sorted| && merged != [] && Merged(sorted[..n], merged)
      invariant merged[|merged| - 1].offset <= sorted[n - 1].offset
    {
      assert ByOffset()(sorted[n - 1], sorted[n]);
      AbsorbNext(sorted, n, merged);
      merged := Absorb(merged, sorted[n]);
      n := n + 1;
    }
    assert sorted[..n] == sorted;
    MergedPermuted(sorted, extents, merged);
  }

  lemma StartMerged(sorted: seq<Extent>)
    requires sorted != []
    ensures Merged(sorted[..1], [sorted[0]])
  {
    assert Inside(sorted[0], [sorted[0]][0]);
    forall p: nat | Covered([sorted[0]], p)
      ensures Covered(sorted[..1], p)
    {
      assert Has(sorted[..1][0], p);
    }
  }

  // ----- reading the merged ranges -----

  /** Merged ranges first up to last lie in the file. */
  predicate InFile(file: seq<Float>, merged: seq<Extent>, first: nat, last: nat)
    requires last <= |merged|
  {
    forall j :: first <= j < last ==> End(merged[j]) <= |file|
  }

  /** What lies in the file in ranges first up to last, one behind the other. */
  function Loaded(file: seq<Float>, merged: seq<Extent>, first: nat, last: nat): (b: seq<Float>)
    requires first <= last <= |merged| && InFile(file, merged, first, last)
    ensures |b| == LoadedSize(merged, first, last)
  {
    if first == last then []
    else Loaded(file, merged, first, last - 1) + file[merged[last - 1].offset..End(merged[last - 1])]
  }

  function LoadedSize(merged: seq<Extent>, first: nat, last: nat): nat
    requires first <= last <= |merged|
  {
    if first == last then 0 else LoadedSize(merged, first, last - 1) + merged[last - 1].size
  }

  lemma {:induction false} LoadedSizeGrows(merged: seq<Extent>, first: nat, mid: nat, last: nat)
    requires first <= mid <= last <= |merged|
    ensures LoadedSize(merged, first, mid) <= LoadedSize(merged, first, last)
    decreases last
  {
    if mid < last {
      LoadedSizeGrows(merged, first, mid, last - 1);
    }
  }

  lemma {:induction false} LoadedAt(file: seq<Float>, merged: seq<Extent>, first: nat, last: nat, j: nat)
    requires first <= j < last <= |merged| && InFile(file, merged, first, last)
    ensures LoadedSize(merged, first, j) + merged[j].size <= LoadedSize(merged, first, last)
    ensures Loaded(file, merged, first, last)[LoadedSize(merged, first, j)..LoadedSize(merged, first, j) + merged[j].size]
         == file[merged[j].offset..End(merged[j])]
    decreases last
  {
    if j < last - 1 {
      LoadedAt(file, merged, first, last - 1, j);
      FrontSlice(Loaded(file, merged, first, last - 1), file[merged[last - 1].offset..End(merged[last - 1])],
                 LoadedSize(merged, first, j), LoadedSize(merged, first, j) + merged[j].size);
    }
  }

  lemma FrontSlice(a: seq<Float>, b: seq<Float>, from: nat, to: nat)
    requires from <= to <= |a|
    ensures (a + b)[from..to] == a[from..to]
  {
  }

  /** Equal stretches have equal parts. */
  lemma PartOfStretch(a: seq<Float>, from: nat, b: seq<Float>, start: nat, size: nat, delta: nat, n: nat)
    requires from + size <= |a| && start + size <= |b| && a[from..from + size] == b[start..start + size]
    requires delta + n <= size
    ensures a[from + delta..from + delta + n] == b[start + delta..start + delta + n]
  {
    var x, y := a[from + delta..from + delta + n], b[start + delta..start + delta + n];
    forall i | 0 <= i < n
      ensures x[i] == y[i]
    {
      assert a[from..from + size][delta + i] == b[start..start + size][delta + i];
    }
  }

  /** The merged range that has a range's first cell has all of it. */
  lemma Enclosed(extents: seq<Extent>, merged: seq<Extent>, j: nat, e: Extent)
    requires Merged(extents, merged) && e in extents && e.size > 0 && j < |merged| && Has(merged[j], e.offset)
    ensures Inside(e, merged[j])
  {
    var i :| 0 <= i < |merged| && Inside(e, merged[i]);
    assert i == j;
  }

  /** Where a range lies in the buffer that its merged range was read into. */
  function BufferOffset(merged: seq<Extent>, first: nat, j: nat, e: Extent): nat
    requires first <= j < |merged| && Inside(e, merged[j])
  {
    LoadedSize(merged, first, j) + (e.offset - merged[j].offset)
  }

  /** The range is in the buffer what it is in the file. */
  lemma Located(file: seq<Float>, merged: seq<Extent>, first: nat, last: nat, j: nat, e: Extent)
    requires first <= j < last <= |merged| && InFile(file, merged, first, last) && Inside(e, merged[j])
    ensures var at := BufferOffset(merged, first, j, e);
            && at + e.size <= LoadedSize(merged, first, last)
            && Loaded(file, merged, first, last)[at..at + e.size] == file[e.offset..End(e)]
  {
    LoadedAt(file, merged, first, last, j);
    PartOfStretch(Loaded(file, merged, first, last), LoadedSize(merged, first, j), file, merged[j].offset,
                  merged[j].size, e.offset - merged[j].offset, e.size);
  }

  /** Each nonempty range is found in one merged range and no other. */
  lemma FoundOnce(extents: seq<Extent>, merged: seq<Extent>, e: Extent)
    requires Merged(extents, merged) && e in extents && e.size > 0
    ensures exists j :: 0 <= j < |merged| && Has(merged[j], e.offset)
    ensures forall i, j :: 0 <= i < |merged| && 0 <= j < |merged| && Has(merged[i], e.offset) && Has(merged[j], e.offset)
              ==> i == j
  {
    var j :| 0 <= j < |merged| && Inside(e, merged[j]);
    assert Has(merged[j], e.offset);
  }

  /** If the given ranges lie in the file, so do the merged ones. */
  lemma MergedInFile(file: seq<Float>, extents: seq<Extent>, merged: seq<Extent>)
    requires Merged(extents, merged) && InFile(file, extents, 0, |extents|)
    ensures InFile(file, merged, 0, |merged|)
  {
    forall j | 0 <= j < |merged|
      ensures End(merged[j]) <= |file|
    {
      if merged[j].size > 0 {
        var last := End(merged[j]) - 1;
        assert Has(merged[j], last) && Covered(merged, last);
      }
    }
  }

  /** A file whose reads may fail; one past the end always does. */
  predicate Readable(file: seq<Float>, io: (nat, nat) -> bool, e: Extent)
  {
    End(e) <= |file| && io(e.offset, e.size)
  }

  // ----- ranges that do not touch -----

  lemma NotCovered(extents: seq<Extent>, k: nat, p: nat)
    requires k < |extents| && (p == End(extents[k]) || p + 1 == extents[k].offset)
    requires forall i :: 0 <= i < |extents| && i != k ==>
               End(extents[i]) < extents[k].offset || End(extents[k]) < extents[i].offset
    ensures !Covered(extents, p)
  {
  }

  lemma CoversToo(s: seq<Extent>, j: nat, p: nat)
    requires j < |s|
    ensures Has(s[j], p) ==> Covered(s, p)
  {
  }

  /** A merged range that holds one that touches no other is that range. */
  lemma StaysAlone(extents: seq<Extent>, merged: seq<Extent>, j: nat, k: nat)
    requires Merged(extents, merged) && j < |merged| && k < |extents| && Inside(extents[k], merged[j])
    requires forall i :: 0 <= i < |extents| && i != k ==>
               End(extents[i]) < extents[k].offset || End(extents[k]) < extents[i].offset
    ensures merged[j] == extents[k]
  {
    var m, e := merged[j], extents[k];
    NotCovered(extents, k, End(e));
    CoversToo(merged, j, End(e));
    if e.offset > 0 {
      NotCovered(extents, k, e.offset - 1);
      CoversToo(merged, j, e.offset - 1);
    }
  }

  lemma HasElement(s: seq<Extent>)
    ensures s != [] <==> exists e :: e in s
  {
    if s != [] {
      assert s[0] in s;
    }
  }

  lemma NotBehindLast(s: seq<Extent>, e: Extent)
    requires Gaps(s) && e in s
    ensures e == s[|s| - 1] || End(e) < s[|s| - 1].offset
  {
  }

  lemma BeforeLast(s: seq<Extent>)
    requires Gaps(s) && s != []
    ensures forall e :: e in s[..|s| - 1] <==> e in s && e != s[|s| - 1]
  {
    var front := s[..|s| - 1];
    assert s == front + [s[|s| - 1]];
  }

  /** Ranges in ascending order are determined by which they are. */
  lemma {:induction false} SameAscending(a: seq<Extent>, b: seq<Extent>)
    requires Gaps(a) && Gaps(b) && (forall e :: e in a <==> e in b)
    ensures a == b
  {
    HasElement(a);
    HasElement(b);
    if a != [] {
      var x, y, a', b' := a[|a| - 1], b[|b| - 1], a[..|a| - 1], b[..|b| - 1];
      assert x in a && y in b;
      NotBehindLast(b, x);
      NotBehindLast(a, y);
      BeforeLast(a);
      BeforeLast(b);
      forall e
        ensures e in a' <==> e in b'
      {
        assert e in a' <==> e in a && e != x;
        assert e in b' <==> e in b && e != y;
      }
      SameAscending(a', b');
    }
  }

  lemma KeptOne(extents: seq<Extent>, merged: seq<Extent>, k: nat)
    requires Merged(extents, merged) && Gaps(extents) && k < |extents|
    ensures extents[k] in merged
  {
    assert extents[k] in extents;
    var j :| 0 <= j < |merged| && Inside(extents[k], merged[j]);
    StaysAlone(extents, merged, j, k);
  }

  lemma NoneAdded(extents: seq<Extent>, merged: seq<Extent>, j: nat)
    requires Merged(extents, merged) && Gaps(extents) && j < |merged|
    ensures merged[j] in extents
  {
    var m := merged[j];
    if m.size > 0 {
      assert Has(m, m.offset) && Covered(merged, m.offset);
      var k :| 0 <= k < |extents| && Has(extents[k], m.offset);
      KeptOne(extents, merged, k);
      var i :| 0 <= i < |merged| && merged[i] == extents[k];
      assert i == j;
    } else {
      assert m in merged;
    }
  }

  /** Ranges in ascending order that do not touch stay as they are. */
  lemma NothingMerged(extents: seq<Extent>, merged: seq<Extent>)
    requires Merged(extents, merged) && Gaps(extents)
    ensures merged == extents
  {
    forall k | 0 <= k < |extents|
      ensures extents[k] in merged
    {
      KeptOne(extents, merged, k);
    }
    forall j | 0 <= j < |merged|
      ensures merged[j] in extents
    {
      NoneAdded(extents, merged, j);
    }
    SameAscending(extents, merged);
  }
}
