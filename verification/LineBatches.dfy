/** Reading a line that is scattered over leaves: merged reads in batches within a memory limit. */
module LineBatches {
  import opened Basics
  import opened Float32
  import opened Extents

  /** Where the line's cells are: one range per leaf, in the order of the line, and the cells' places in a leaf. */
  datatype Line = Line(extents: seq<Extent>, bases: seq<nat>, srcOff: nat, srcStride: nat, length: nat, step: nat)

  /** Leaf k holds cells from k * step on; together the leaves hold the line. */
  ghost predicate ValidLine(l: Line)
  {
    && l.step > 0 && |l.extents| == |l.bases| == CeilDiv(l.length, l.step)
    && (forall k :: 0 <= k < |l.bases| ==> l.bases[k] == Base(l, k) < l.length)
    && (forall k, d: nat :: 0 <= k < |l.extents| && d < l.step ==> CellPlace(l, d) < l.extents[k].size)
  }

  function Base(l: Line, k: nat): nat
  {
    k * l.step
  }

  /** The place of the d-th of its cells in a leaf. */
  function CellPlace(l: Line, d: nat): nat
  {
    d * l.srcStride + l.srcOff
  }

  function CellsOf(l: Line, k: nat): nat
    requires l.step > 0 && Base(l, k) < l.length
  {
    Min(l.step, l.length - Base(l, k))
  }

  /** The output has leaf k's cells of the line. */
  predicate LeafDelivered(output: seq<Float>, l: Line, file: seq<Float>, k: nat)
    requires l.step > 0 && k < |l.extents| && Base(l, k) < l.length
  {
    forall d :: 0 <= d < CellsOf(l, k) && Base(l, k) + d < |output| && l.extents[k].offset + CellPlace(l, d) < |file| ==>
      output[Base(l, k) + d] == file[l.extents[k].offset + CellPlace(l, d)]
  }

  /** The part of the output that leaf k does not reach. */
  predicate OthersKept(before: seq<Float>, after: seq<Float>, l: Line, k: nat)
  {
    |after| == |before| && forall i :: 0 <= i < |after| && !(Base(l, k) <= i < Base(l, k) + l.step) ==> after[i] == before[i]
  }

  /** Copying one leaf's cells from the buffer. */
  method CopyLeaf(l: Line, ghost file: seq<Float>, k: nat, buffer: seq<Float>, at: nat, output: array<Float>)
    requires ValidLine(l) && k < |l.extents| && output.Length == l.length
    requires End(l.extents[k]) <= |file| && at + l.extents[k].size <= |buffer|
    requires buffer[at..at + l.extents[k].size] == file[l.extents[k].offset..End(l.extents[k])]
    modifies output
    ensures LeafDelivered(output[..], l, file, k) && OthersKept(old(output[..]), output[..], l, k)
  {
    var d: nat := 0;
    while d < CellsOf(l, k)
      invariant d <= CellsOf(l, k) && OthersKept(old(output[..]), output[..], l, k)
      invariant forall c :: 0 <= c < d ==> output[Base(l, k) + c] == file[l.extents[k].offset + CellPlace(l, c)]
    {
      BufferCell(l, file, k, buffer, at, d);
      output[l.bases[k] + d] := buffer[at + CellPlace(l, d)];
      d := d + 1;
    }
  }

  lemma BufferCell(l: Line, file: seq<Float>, k: nat, buffer: seq<Float>, at: nat, d: nat)
    requires ValidLine(l) && k < |l.extents| && d < l.step
    requires End(l.extents[k]) <= |file| && at + l.extents[k].size <= |buffer|
    requires buffer[at..at + l.extents[k].size] == file[l.extents[k].offset..End(l.extents[k])]
    ensures CellPlace(l, d) < l.extents[k].size
    ensures buffer[at + CellPlace(l, d)] == file[l.extents[k].offset + CellPlace(l, d)]
  {
    assert CellPlace(l, d) < l.extents[k].size;
    assert buffer[at..at + l.extents[k].size][CellPlace(l, d)]
        == file[l.extents[k].offset..End(l.extents[k])][CellPlace(l, d)];
  }

  /** Different leaves, different parts of the line. */
  lemma Apart(l: Line, k: nat, q: nat)
    requires l.step > 0 && k != q
    ensures Base(l, k) + l.step <= Base(l, q) || Base(l, q) + l.step <= Base(l, k)
  {
    if k < q {
      MulMono(k + 1, q, l.step);
    } else {
      MulMono(q + 1, k, l.step);
    }
  }

  lemma StillDelivered(before: seq<Float>, after: seq<Float>, l: Line, file: seq<Float>, k: nat, q: nat)
    requires ValidLine(l) && k < |l.extents| && q < |l.extents| && OthersKept(before, after, l, k)
    requires LeafDelivered(before, l, file, q) && LeafDelivered(after, l, file, k)
    ensures LeafDelivered(after, l, file, q)
  {
    if k != q {
      Apart(l, k, q);
    }
  }

  // ----- everything in one read -----

  predicate DeliveredFirst(output: seq<Float>, l: Line, file: seq<Float>, n: nat)
    requires l.step > 0 && n <= |l.extents| && forall k :: 0 <= k < n ==> Base(l, k) < l.length
  {
    forall k :: 0 <= k < n ==> LeafDelivered(output, l, file, k)
  }

  /** The first merged range that has the range's start, and where the range lies in the buffer. */
  method Locate(extents: seq<Extent>, merged: seq<Extent>, e: Extent) returns (j: nat, at: nat)
    requires Merged(extents, merged) && e in extents && e.size > 0
    ensures j < |merged| && Inside(e, merged[j]) && at == BufferOffset(merged, 0, j, e)
  {
    FoundOnce(extents, merged, e);
    var start: nat := 0;
    j := 0;
    while !Has(merged[j], e.offset)
      invariant j < |merged| && start == LoadedSize(merged, 0, j)
      invariant forall i :: 0 <= i < j ==> !Has(merged[i], e.offset)
      decreases |merged| - j
    {
      start := start + merged[j].size;
      assert exists i :: 0 <= i < |merged| && Has(merged[i], e.offset) && i > j;
      j := j + 1;
    }
    Enclosed(extents, merged, j, e);
    at := start + (e.offset - merged[j].offset);
  }

  /** Reading merged ranges first up to last into a buffer; the first read that fails ends it. */
  method Load(file: seq<Float>, io: (nat, nat) -> bool, merged: seq<Extent>, first: nat, last: nat)
    returns (ok: bool, buffer: seq<Float>)
    requires first <= last <= |merged|
    ensures ok <==> forall j :: first <= j < last ==> Readable(file, io, merged[j])
    ensures ok ==> InFile(file, merged, first, last) && buffer == Loaded(file, merged, first, last)
  {
    buffer, ok := [], true;
    var j: nat := first;
    while j < last
      invariant ok && first <= j <= last && forall i :: first <= i < j ==> Readable(file, io, merged[i])
      invariant InFile(file, merged, first, j) && buffer == Loaded(file, merged, first, j)
    {
      ok := Readable(file, io, merged[j]);
      if !ok {
        return;
      }
      buffer := buffer + file[merged[j].offset..End(merged[j])];
      j := j + 1;
    }
  }

  predicate AllReadable(file: seq<Float>, io: (nat, nat) -> bool, merged: seq<Extent>)
  {
    forall j :: 0 <= j < |merged| ==> Readable(file, io, merged[j])
  }

  method DeliverLeaf(l: Line, file: seq<Float>, merged: seq<Extent>, buffer: seq<Float>, k: nat, output: array<Float>)
    requires ValidLine(l) && k < |l.extents| && output.Length == l.length
    requires Merged(l.extents, merged) && InFile(file, merged, 0, |merged|)
    requires buffer == Loaded(file, merged, 0, |merged|)
    requires DeliveredFirst(output[..], l, file, k)
    modifies output
    ensures DeliveredFirst(output[..], l, file, k + 1)
  {
    NotEmpty(l, k);
    var j, at := Locate(l.extents, merged, l.extents[k]);
    Located(file, merged, 0, |merged|, j, l.extents[k]);
    assert End(l.extents[k]) <= End(merged[j]) <= |file|;
    ghost var before := output[..];
    CopyLeaf(l, file, k, buffer, at, output);
    forall q | 0 <= q < k
      ensures LeafDelivered(output[..], l, file, q)
    {
      StillDelivered(before, output[..], l, file, k, q);
    }
  }

  lemma NotEmpty(l: Line, k: nat)
    requires ValidLine(l) && k < |l.extents|
    ensures l.extents[k].size > 0
  {
    assert CellPlace(l, 0) < l.extents[k].size;
  }

  /** All ranges in one buffer. */
  method ReadAtOnce(l: Line, file: seq<Float>, io: (nat, nat) -> bool, merged: seq<Extent>, output: array<Float>)
    returns (ok: bool)
    requires ValidLine(l) && output.Length == l.length && Merged(l.extents, merged)
    modifies output
    ensures ok <==> AllReadable(file, io, merged)
    ensures ok ==> DeliveredFirst(output[..], l, file, |l.extents|)
  {
    var buffer;
    ok, buffer := Load(file, io, merged, 0, |merged|);
    if !ok {
      return;
    }
    var k: nat := 0;
    while k < |l.extents|
      invariant k <= |l.extents| && DeliveredFirst(output[..], l, file, k)
    {
      DeliverLeaf(l, file, merged, buffer, k, output);
      k := k + 1;
    }
  }

  // ----- batches -----

  /** Leaves found in merged ranges below m. */
  predicate DeliveredBelow(output: seq<Float>, l: Line, file: seq<Float>, merged: seq<Extent>, m: nat)
    requires l.step > 0 && m <= |merged| && forall k :: 0 <= k < |l.extents| ==> Base(l, k) < l.length
  {
    forall k, j :: 0 <= k < |l.extents| && 0 <= j < m && Has(merged[j], l.extents[k].offset) ==>
      LeafDelivered(output, l, file, k)
  }

  /** Of the leaves found in merged range m, those before leaf n. */
  predicate DeliveredPart(output: seq<Float>, l: Line, file: seq<Float>, merged: seq<Extent>, m: nat, n: nat)
    requires l.step > 0 && m < |merged| && n <= |l.extents| && forall k :: 0 <= k < |l.extents| ==> Base(l, k) < l.length
  {
    && DeliveredBelow(output, l, file, merged, m)
    && forall k :: 0 <= k < n && Has(merged[m], l.extents[k].offset) ==> LeafDelivered(output, l, file, k)
  }

  lemma PartKept(before: seq<Float>, after: seq<Float>, l: Line, file: seq<Float>, merged: seq<Extent>, m: nat, n: nat)
    requires ValidLine(l) && m < |merged| && n < |l.extents| && DeliveredPart(before, l, file, merged, m, n)
    requires OthersKept(before, after, l, n) && LeafDelivered(after, l, file, n)
    ensures DeliveredPart(after, l, file, merged, m, n + 1)
  {
    forall k | 0 <= k < |l.extents| && LeafDelivered(before, l, file, k)
      ensures LeafDelivered(after, l, file, k)
    {
      StillDelivered(before, after, l, file, n, k);
    }
  }

  /** The leaves of one merged range of a batch: the scan over all leaves. */
  method DeliverRange(l: Line, file: seq<Float>, merged: seq<Extent>, first: nat, last: nat, buffer: seq<Float>, m: nat,
                      start: nat, output: array<Float>)
    requires ValidLine(l) && output.Length == l.length && Merged(l.extents, merged)
    requires first <= m < last <= |merged| && InFile(file, merged, first, last) && buffer == Loaded(file, merged, first, last)
    requires start == LoadedSize(merged, first, m) && DeliveredBelow(output[..], l, file, merged, m)
    modifies output
    ensures DeliveredBelow(output[..], l, file, merged, m + 1)
  {
    var k: nat := 0;
    while k < |l.extents|
      invariant k <= |l.extents| && DeliveredPart(output[..], l, file, merged, m, k)
    {
      var e := l.extents[k];
      if Has(merged[m], e.offset) {
        NotEmpty(l, k);
        Enclosed(l.extents, merged, m, e);
        Located(file, merged, first, last, m, e);
        ghost var before := output[..];
        CopyLeaf(l, file, k, buffer, start + (e.offset - merged[m].offset), output);
        PartKept(before, output[..], l, file, merged, m, k);
      }
      k := k + 1;
    }
  }

  /** One batch: its merged ranges are read, then delivered one after the other. */
  method ReadBatch(l: Line, file: seq<Float>, io: (nat, nat) -> bool, merged: seq<Extent>, first: nat, last: nat,
                   output: array<Float>) returns (ok: bool)
    requires ValidLine(l) && output.Length == l.length && Merged(l.extents, merged) && first <= last <= |merged|
    requires DeliveredBelow(output[..], l, file, merged, first)
    modifies output
    ensures ok <==> forall j :: first <= j < last ==> Readable(file, io, merged[j])
    ensures ok ==> DeliveredBelow(output[..], l, file, merged, last)
  {
    var buffer;
    ok, buffer := Load(file, io, merged, first, last);
    if !ok {
      return;
    }
    var m: nat, start: nat := first, 0;
    while m < last
      invariant first <= m <= last && start == LoadedSize(merged, first, m)
      invariant DeliveredBelow(output[..], l, file, merged, m)
    {
      DeliverRange(l, file, merged, first, last, buffer, m, start, output);
      start := start + merged[m].size;
      m := m + 1;
    }
  }

  /** The batches from range i on, when the current one began at range start and counts size cells so far. */
  function Batches(merged: seq<Extent>, limit: nat, i: nat, start: nat, size: nat): seq<(nat, nat)>
    requires start <= i
    decreases |merged| + 1 - i
  {
    if i > |merged| then []
    else if i < |merged| && size + merged[i].size <= limit then Batches(merged, limit, i + 1, start, size + merged[i].size)
    else if i < |merged| && size == 0 then Batches(merged, limit, i + 1, start, merged[i].size)
    else (if start < i then [(start, i)] else []) + Batches(merged, limit, i + 1, i, 0)
  }

  /** Nonempty runs of ranges, one behind the other, from the given one to the end. */
  predicate Consecutive(b: seq<(nat, nat)>, from: nat, n: nat)
  {
    if b == [] then from == n else b[0].0 == from < b[0].1 && Consecutive(b[1..], b[0].1, n)
  }

  /** Each merged range is in exactly one batch. */
  lemma {:induction false} BatchesPartition(merged: seq<Extent>, limit: nat, i: nat, start: nat, size: nat)
    requires start <= i <= |merged| && (size > 0 ==> start < i)
    ensures Consecutive(Batches(merged, limit, i, start, size), start, |merged|)
    decreases |merged| + 1 - i
  {
    var n := |merged|;
    if i < n {
      if size + merged[i].size <= limit {
        BatchesPartition(merged, limit, i + 1, start, size + merged[i].size);
      } else if size == 0 {
        BatchesPartition(merged, limit, i + 1, start, merged[i].size);
      } else {
        BatchesPartition(merged, limit, i + 1, i, 0);
        assert ([(start, i)] + Batches(merged, limit, i + 1, i, 0))[1..] == Batches(merged, limit, i + 1, i, 0);
      }
    } else {
      assert Batches(merged, limit, n + 1, n, 0) == [];
    }
  }

  /** The cap is at least the limit and at least every range. */
  predicate Capped(merged: seq<Extent>, limit: nat, cap: nat)
  {
    limit <= cap && forall j :: 0 <= j < |merged| ==> merged[j].size <= cap
  }

  predicate BatchBounded(merged: seq<Extent>, cap: nat, b: (nat, nat))
  {
    b.0 < b.1 <= |merged| && LoadedSize(merged, b.0, b.1) <= cap + merged[b.0].size
  }

  /**
   * A batch holds at most its first range beyond the limit, or beyond the largest range if that is larger: the range
   * that closes one batch begins the next without being counted there.
   */
  lemma {:induction false} BatchesBounded(merged: seq<Extent>, limit: nat, cap: nat, i: nat, start: nat, size: nat)
    requires start <= i <= |merged| && size <= cap && Capped(merged, limit, cap)
    requires LoadedSize(merged, start, i) <= size + (if start < i then merged[start].size else 0)
    ensures forall b :: b in Batches(merged, limit, i, start, size) ==> BatchBounded(merged, cap, b)
    decreases |merged| + 1 - i
  {
    if i < |merged| {
      assert LoadedSize(merged, start, i + 1) == LoadedSize(merged, start, i) + merged[i].size;
      if size + merged[i].size <= limit {
        BatchesBounded(merged, limit, cap, i + 1, start, size + merged[i].size);
      } else if size == 0 {
        BatchesBounded(merged, limit, cap, i + 1, start, merged[i].size);
      } else {
        assert LoadedSize(merged, i, i + 1) == LoadedSize(merged, i, i) + merged[i].size;
        BatchesBounded(merged, limit, cap, i + 1, i, 0);
      }
    } else {
      assert Batches(merged, limit, i + 1, i, 0) == [];
    }
  }

  // ----- when the limit is kept -----

  /** No batch loads more than the limit. */
  predicate LimitKept(merged: seq<Extent>, limit: nat)
  {
    forall b :: b in Batches(merged, limit, 0, 0, 0) ==> b.0 <= b.1 <= |merged| && LoadedSize(merged, b.0, b.1) <= limit
  }

  predicate AllOfSize(merged: seq<Extent>, size: nat)
  {
    forall j :: 0 <= j < |merged| ==> merged[j].size == size
  }

  lemma {:induction false} LoadedEqual(merged: seq<Extent>, s: nat, a: nat, b: nat)
    requires AllOfSize(merged, s) && a <= b <= |merged|
    ensures LoadedSize(merged, a, b) == Total(b - a, s)
    decreases b
  {
    if a < b {
      LoadedEqual(merged, s, a, b - 1);
      MulNext(b - 1 - a, s);
    }
  }

  function Total(n: nat, s: nat): nat
  {
    n * s
  }

  /** While there is room the loop counts on. */
  lemma {:induction false} Counting(merged: seq<Extent>, limit: nat, s: nat, i: nat, start: nat, c: nat, m: nat)
    requires AllOfSize(merged, s) && start <= i && i + m <= |merged| && Total(c + m, s) <= limit
    ensures Batches(merged, limit, i, start, Total(c, s)) == Batches(merged, limit, i + m, start, Total(c + m, s))
    decreases m
  {
    if m > 0 {
      MulNext(c, s);
      MulMono(c + 1, c + m, s);
      Counting(merged, limit, s, i + 1, start, c + 1, m - 1);
    }
  }

  /** At the end, or when there is no more room, the batch is closed. */
  lemma Closing(merged: seq<Extent>, limit: nat, i: nat, start: nat, size: nat)
    requires start < i <= |merged| && (i < |merged| ==> size > 0 && size + merged[i].size > limit)
    ensures Batches(merged, limit, i, start, size) == [(start, i)] + Batches(merged, limit, i + 1, i, 0)
  {
  }

  lemma AllClosed(merged: seq<Extent>, limit: nat)
    ensures Batches(merged, limit, |merged| + 1, |merged|, 0) == []
  {
  }

  /** Ranges that fit together are one batch. */
  lemma {:induction false} CountingAll(merged: seq<Extent>, limit: nat, i: nat)
    requires i <= |merged| && LoadedSize(merged, 0, |merged|) <= limit
    ensures LoadedSize(merged, 0, i) <= limit
    ensures Batches(merged, limit, 0, 0, 0) == Batches(merged, limit, i, 0, LoadedSize(merged, 0, i))
  {
    if i > 0 {
      CountingAll(merged, limit, i - 1);
      LoadedSizeGrows(merged, 0, i, |merged|);
    }
  }

  /** Whatever their sizes, ranges that fit the limit together are read in one batch, within the limit. */
  lemma OneBatchKept(merged: seq<Extent>, limit: nat)
    requires LoadedSize(merged, 0, |merged|) <= limit
    ensures Batches(merged, limit, 0, 0, 0) == if merged == [] then [] else [(0, |merged|)]
    ensures LimitKept(merged, limit)
  {
    CountingAll(merged, limit, |merged|);
    AllClosed(merged, limit);
    if merged != [] {
      Closing(merged, limit, |merged|, 0, LoadedSize(merged, 0, |merged|));
    }
  }

  /** The first batch of ranges of one size, when they do not all fit. */
  lemma FirstBatch(merged: seq<Extent>, limit: nat, s: nat, k: nat)
    requires AllOfSize(merged, s) && s > 0 && 0 < k < |merged| && Total(k, s) <= limit < Total(k + 1, s)
    ensures Batches(merged, limit, 0, 0, 0) == [(0, k)] + Batches(merged, limit, k + 1, k, 0)
  {
    Counting(merged, limit, s, 0, 0, 0, k);
    MulMono(1, k, s);
    MulNext(k, s);
    Closing(merged, limit, k, 0, Total(k, s));
  }

  /** The second batch: it begins with a range that is not counted. */
  lemma SecondBatch(merged: seq<Extent>, limit: nat, s: nat, k: nat, last: nat)
    requires AllOfSize(merged, s) && s > 0 && 0 < k < |merged| && Total(k, s) <= limit < Total(k + 1, s)
    requires last == Min(|merged|, 2 * k + 1)
    ensures Batches(merged, limit, k + 1, k, 0) == [(k, last)] + Batches(merged, limit, last + 1, last, 0)
  {
    var m: nat := last - (k + 1);
    MulMono(m, k, s);
    Counting(merged, limit, s, k + 1, k, 0, m);
    MulMono(1, k, s);
    MulNext(k, s);
    Closing(merged, limit, last, k, Total(m, s));
  }

  /**
   * Ranges of one size stay within the limit exactly when two full batches take them all: the second batch loads the
   * range that closed the first one and then counts as many again.
   */
  lemma LimitKeptIff(merged: seq<Extent>, limit: nat, s: nat)
    requires AllOfSize(merged, s) && 0 < s <= limit
    ensures LimitKept(merged, limit) <==> |merged| <= 2 * Pieces(limit, s)
  {
    var k, n := Pieces(limit, s), |merged|;
    FullBatch(limit, s, k);
    LoadedEqual(merged, s, 0, n);
    if n <= k {
      MulMono(n, k, s);
      OneBatchKept(merged, limit);
    } else {
      var last := Min(n, 2 * k + 1);
      FirstBatch(merged, limit, s, k);
      SecondBatch(merged, limit, s, k, last);
      LoadedEqual(merged, s, 0, k);
      LoadedEqual(merged, s, k, last);
      if n <= 2 * k {
        MulMono(n - k, k, s);
        AllClosed(merged, limit);
      } else {
        assert (k, last) in [(k, last)] + Batches(merged, limit, last + 1, last, 0);
      }
    }
  }

  lemma FullBatch(limit: nat, s: nat, k: nat)
    requires 0 < s <= limit && k == Pieces(limit, s)
    ensures 0 < k && Total(k, s) <= limit < Total(k + 1, s)
  {
    DivModBack(limit, s);
    MulNext(k, s);
    QuotientAtLeast(limit, 1, s);
  }

  lemma AllDelivered(output: seq<Float>, l: Line, file: seq<Float>, merged: seq<Extent>)
    requires ValidLine(l) && Merged(l.extents, merged) && DeliveredBelow(output, l, file, merged, |merged|)
    ensures DeliveredFirst(output, l, file, |l.extents|)
  {
    forall k | 0 <= k < |l.extents|
      ensures LeafDelivered(output, l, file, k)
    {
      NotEmpty(l, k);
      FoundOnce(l.extents, merged, l.extents[k]);
      var j :| 0 <= j < |merged| && Has(merged[j], l.extents[k].offset);
    }
  }

  /** The batches read so far, and those still to come from the state of the loop. */
  predicate Pending(batches: seq<(nat, nat)>, merged: seq<Extent>, limit: nat, i: nat, start: nat, size: nat)
  {
    && start <= i <= |merged| + 1 && start <= |merged| && (i == |merged| + 1 ==> start == |merged|)
    && (size > 0 ==> start < i)
    && batches + Batches(merged, limit, i, start, size) == Batches(merged, limit, 0, 0, 0)
  }

  /** Counting range i, or closing the batch before it. */
  lemma PendingNext(batches: seq<(nat, nat)>, merged: seq<Extent>, limit: nat, i: nat, start: nat, size: nat)
    requires Pending(batches, merged, limit, i, start, size) && i <= |merged|
    ensures if i < |merged| && (size + merged[i].size <= limit || size == 0)
            then Pending(batches, merged, limit, i + 1, start, size + merged[i].size)
            else Pending(if start < i then batches + [(start, i)] else batches, merged, limit, i + 1, i, 0)
  {
    if !(i < |merged| && (size + merged[i].size <= limit || size == 0)) && start < i {
      assert batches + ([(start, i)] + Batches(merged, limit, i + 1, i, 0))
          == (batches + [(start, i)]) + Batches(merged, limit, i + 1, i, 0);
    }
  }

  lemma PendingNone(batches: seq<(nat, nat)>, merged: seq<Extent>, limit: nat, start: nat, size: nat)
    requires Pending(batches, merged, limit, |merged| + 1, start, size)
    ensures batches == Batches(merged, limit, 0, 0, 0) && start == |merged|
  {
  }

  /** The loop that closes a batch when the next range would exceed the limit. */
  method ReadInBatches(l: Line, file: seq<Float>, io: (nat, nat) -> bool, merged: seq<Extent>, limit: nat,
                       output: array<Float>) returns (ok: bool, batches: seq<(nat, nat)>)
    requires ValidLine(l) && output.Length == l.length && Merged(l.extents, merged)
    modifies output
    ensures ok <==> AllReadable(file, io, merged)
    ensures ok ==> DeliveredFirst(output[..], l, file, |l.extents|)
    ensures ok ==> batches == Batches(merged, limit, 0, 0, 0)
  {
    ok, batches := true, [];
    var size: nat, start: nat, i: nat := 0, 0, 0;
    while i <= |merged|
      invariant ok && Pending(batches, merged, limit, i, start, size)
      invariant DeliveredBelow(output[..], l, file, merged, start)
      invariant forall j :: 0 <= j < start ==> Readable(file, io, merged[j])
    {
      PendingNext(batches, merged, limit, i, start, size);
      if i < |merged| && size + merged[i].size <= limit {
        size := size + merged[i].size;
      } else if i < |merged| && size == 0 {
        size := merged[i].size;
      } else {
        if start < i {
          ok := ReadBatch(l, file, io, merged, start, i, output);
          if !ok {
            return;
          }
          batches := batches + [(start, i)];
        }
        start, size := i, 0;
      }
      i := i + 1;
    }
    PendingNone(batches, merged, limit, start, size);
    AllDelivered(output[..], l, file, merged);
  }

  /** Reading a line: in one go if the merged ranges fit the limit, otherwise in batches. */
  method ReadLineBatched(l: Line, file: seq<Float>, io: (nat, nat) -> bool, limit: nat, output: array<Float>)
    returns (ok: bool, ghost merged: seq<Extent>, batches: seq<(nat, nat)>)
    requires ValidLine(l) && output.Length == l.length
    modifies output
    ensures Merged(l.extents, merged)
    ensures ok <==> AllReadable(file, io, merged)
    ensures ok ==> DeliveredFirst(output[..], l, file, |l.extents|)
    ensures ok ==> batches == Batches(merged, limit, 0, 0, 0) && Consecutive(batches, 0, |merged|)
    ensures ok ==> forall b, cap :: b in batches && Capped(merged, limit, cap) ==> BatchBounded(merged, cap, b)
  {
    var ranges := MergeExtents(l.extents);
    merged := ranges;
    var total := TotalSize(ranges);
    if total <= limit {
      ok := ReadAtOnce(l, file, io, ranges, output);
      batches := if ranges == [] then [] else [(0, |ranges|)];
      OneBatchKept(ranges, limit);
    } else {
      ok, batches := ReadInBatches(l, file, io, ranges, limit, output);
    }
    BatchesPartition(ranges, limit, 0, 0, 0);
    forall cap: nat | Capped(merged, limit, cap)
      ensures forall b :: b in Batches(ranges, limit, 0, 0, 0) ==> BatchBounded(ranges, cap, b)
    {
      BatchesBounded(ranges, limit, cap, 0, 0, 0);
    }
  }

  method TotalSize(merged: seq<Extent>) returns (total: nat)
    ensures total == LoadedSize(merged, 0, |merged|)
  {
    total := 0;
    var j: nat := 0;
    while j < |merged|
      invariant j <= |merged| && total == LoadedSize(merged, 0, j)
    {
      total := total + merged[j].size;
      j := j + 1;
    }
  }
}
