/** Reading a slice from merged leaf extents: plan, prepare once, execute batch by batch. */
module PreparedSlice {
  import opened Basics
  import opened Float32
  import opened Morton
  import opened Layout
  import opened SlicePlan
  import opened SliceReader
  import opened Extents
  import opened LeafExtents
  import LineBatches

  // ----- planning -----

  /** Operation i copies from extent i, the leaf of key i. */
  ghost predicate ExtentsPlanned(h: Header, axis: Axis, index: nat, extents: seq<Extent>, keys: seq<Key>)
    requires Valid(h)
  {
    && |extents| == |keys|
    && forall i :: 0 <= i < |extents| ==> extents[i] == LeafExtent(h, SuperOf(h, axis, index, keys[i]), LeafOf(h, axis, index, keys[i]))
  }

  /** The extents of a superblock's operations. */
  method PlanExtents(h: Header, axis: Axis, index: nat, ops: seq<LeafOp>, ghost keys: seq<Key>, s: Coord,
                     extents: seq<Extent>) returns (extents': seq<Extent>)
    requires Valid(h) && |extents| <= |ops| == |keys| && ExtentsPlanned(h, axis, index, extents, keys[..|extents|])
    requires forall i :: |extents| <= i < |ops| ==>
               ops[i].morton == Encode(LeafOf(h, axis, index, keys[i])) && SuperOf(h, axis, index, keys[i]) == s
    ensures ExtentsPlanned(h, axis, index, extents', keys)
  {
    extents' := extents;
    while |extents'| < |ops|
      invariant |extents| <= |extents'| <= |ops|
      invariant ExtentsPlanned(h, axis, index, extents', keys[..|extents'|])
    {
      extents' := extents' + [CodeExtent(h, s, ops[|extents'|].morton)];
    }
    assert keys[..|extents'|] == keys;
  }

  /** Planning one superblock. */
  method PlanSuper(h: Header, axis: Axis, index: nat, sInner: nat, sOuter: nat, ops0: seq<LeafOp>, ghost keys0: seq<Key>,
                   extents0: seq<Extent>)
    returns (ops: seq<LeafOp>, ghost keys: seq<Key>, extents: seq<Extent>)
    requires Valid(h) && sInner < Inner(axis, SuperGrid(h)) && sOuter < Outer(axis, SuperGrid(h))
    requires Planned(h, axis, index, ops0, keys0, sInner, sOuter, 0, 0) && ExtentsPlanned(h, axis, index, extents0, keys0)
    ensures Planned(h, axis, index, ops, keys, sInner, sOuter + 1, 0, 0) && ExtentsPlanned(h, axis, index, extents, keys)
  {
    ops, keys := PlanSuperblock(h, axis, index, sInner, sOuter, ops0, keys0);
    assert keys[..|keys0|] == keys0;
    extents := PlanExtents(h, axis, index, ops, keys, SuperOf(h, axis, index, Key(sOuter, sInner, 0, 0)), extents0);
    Advance(h, axis, index, ops, keys, sInner, sOuter);
  }

  /** The whole plan of a slice. */
  ghost predicate SlicePlanned(h: Header, axis: Axis, index: nat, ops: seq<LeafOp>, keys: seq<Key>, extents: seq<Extent>)
    requires Valid(h)
  {
    && Planned(h, axis, index, ops, keys, Inner(axis, SuperGrid(h)), 0, 0, 0)
    && ExtentsPlanned(h, axis, index, extents, keys)
  }

  method PlanSlice(h: Header, axis: Axis, index: nat)
    returns (ops: seq<LeafOp>, extents: seq<Extent>, ghost keys: seq<Key>)
    requires Valid(h)
    ensures SlicePlanned(h, axis, index, ops, keys, extents)
  {
    ops, extents, keys := [], [], [];
    var sInner: nat := 0;
    while sInner < Inner(axis, SuperGrid(h))
      invariant sInner <= Inner(axis, SuperGrid(h))
      invariant Planned(h, axis, index, ops, keys, sInner, 0, 0, 0) && ExtentsPlanned(h, axis, index, extents, keys)
    {
      var sOuter: nat := 0;
      while sOuter < Outer(axis, SuperGrid(h))
        invariant sOuter <= Outer(axis, SuperGrid(h))
        invariant Planned(h, axis, index, ops, keys, sInner, sOuter, 0, 0) && ExtentsPlanned(h, axis, index, extents, keys)
      {
        ops, keys, extents := PlanSuper(h, axis, index, sInner, sOuter, ops, keys, extents);
        sOuter := sOuter + 1;
      }
      Advance(h, axis, index, ops, keys, sInner, sOuter);
      sInner := sInner + 1;
    }
  }

  // ----- preparing -----

  /** The plan with its extents merged, and for each operation the merged range and the place of its leaf. */
  datatype Prepared = Prepared(ops: seq<LeafOp>, merged: seq<Extent>, starts: seq<nat>, index: seq<nat>, offset: seq<nat>)

  /** The operation's leaf lies in its merged range, and in a buffer of all merged ranges at its offset. */
  predicate Found(merged: seq<Extent>, e: Extent, j: nat, at: nat)
  {
    j < |merged| && Inside(e, merged[j]) && at == BufferOffset(merged, 0, j, e)
  }

  ghost predicate IsPrepared(p: Prepared, extents: seq<Extent>)
  {
    && Merged(extents, p.merged) && |p.ops| == |extents| == |p.index| == |p.offset|
    && |p.starts| == |p.merged| && (forall j :: 0 <= j < |p.starts| ==> p.starts[j] == LoadedSize(p.merged, 0, j))
    && (forall i :: 0 <= i < |extents| ==> Found(p.merged, extents[i], p.index[i], p.offset[i]))
  }

  method BufferOffsets(merged: seq<Extent>) returns (starts: seq<nat>)
    ensures |starts| == |merged| && forall j :: 0 <= j < |starts| ==> starts[j] == LoadedSize(merged, 0, j)
  {
    starts := [];
    var total: nat := 0;
    while |starts| < |merged|
      invariant |starts| <= |merged| && total == LoadedSize(merged, 0, |starts|)
      invariant forall j :: 0 <= j < |starts| ==> starts[j] == LoadedSize(merged, 0, j)
    {
      var size := merged[|starts|].size;
      starts := starts + [total];
      total := total + size;
    }
  }

  /** Preparing a plan of nonempty extents. */
  method PrepareSlicePlan(ops: seq<LeafOp>, extents: seq<Extent>) returns (p: Prepared)
    requires |ops| == |extents| && forall e :: e in extents ==> e.size > 0
    ensures IsPrepared(p, extents) && p.ops == ops
  {
    var merged := MergeExtents(extents);
    var starts := BufferOffsets(merged);
    var index: seq<nat>, offset: seq<nat> := [], [];
    var i: nat := 0;
    while i < |extents|
      invariant i <= |extents| && |index| == |offset| == i
      invariant forall k :: 0 <= k < i ==> Found(merged, extents[k], index[k], offset[k])
    {
      var j, at := LineBatches.Locate(extents, merged, extents[i]);
      index, offset := index + [j], offset + [at];
      i := i + 1;
    }
    p := Prepared(ops, merged, starts, index, offset);
  }

  // ----- executing -----

  /** Some operation done so far covers cell c of the output. */
  ghost predicate CoveredIn(h: Header, axis: Axis, keys: seq<Key>, done: set<nat>, c: nat)
    requires Inner(axis, h.n) > 0
  {
    exists i :: i in done && i < |keys| && CoversAt(h, axis, keys[i], c)
  }

  /** Cells of the operations done have their values; the others are as they were. */
  ghost predicate DoneSoFar(output: seq<Float>, init: seq<Float>, h: Header, raw: Raw, axis: Axis, index: nat,
                            keys: seq<Key>, done: set<nat>)
    requires IsRaw(raw, h.n)
  {
    && |output| == |init| == SliceSize(h, axis)
    && (Inner(axis, h.n) > 0 ==> forall c :: 0 <= c < |output| ==>
          output[c] == if CoveredIn(h, axis, keys, done, c) then SliceCell(h, raw, axis, index, c) else init[c])
  }

  lemma StepDone(h: Header, axis: Axis, keys: seq<Key>, done: set<nat>, i: nat, c: nat)
    requires Inner(axis, h.n) > 0 && i < |keys|
    ensures CoveredIn(h, axis, keys, done + {i}, c) <==> CoveredIn(h, axis, keys, done, c) || CoversAt(h, axis, keys[i], c)
  {
  }

  /** What stays fixed while a plan is executed. */
  ghost predicate Executing(h: Header, raw: Raw, file: seq<Float>, axis: Axis, index: nat, p: Prepared, keys: seq<Key>,
                            extents: seq<Extent>)
  {
    && Valid(h) && IsRaw(raw, h.n) && Volume(h.leaf) > 0 && Gapless(LeafGrid(h)) && Stored(file, h, raw)
    && index < Fixed(axis, h.n) && SlicePlanned(h, axis, index, p.ops, keys, extents) && IsPrepared(p, extents)
  }

  lemma {:induction false} LoadedSizeSplit(merged: seq<Extent>, first: nat, mid: nat, last: nat)
    requires first <= mid <= last <= |merged|
    ensures LoadedSize(merged, first, last) == LoadedSize(merged, first, mid) + LoadedSize(merged, mid, last)
    decreases last
  {
    if mid < last {
      LoadedSizeSplit(merged, first, mid, last - 1);
    }
  }

  /** The leaf of an operation, found in the buffer of its batch. */
  lemma LeafInBuffer(h: Header, raw: Raw, file: seq<Float>, axis: Axis, index: nat, p: Prepared, keys: seq<Key>,
                     extents: seq<Extent>, first: nat, last: nat, i: nat)
    requires Executing(h, raw, file, axis, index, p, keys, extents)
    requires i < |p.ops| && first <= p.index[i] < last <= |p.merged| && InFile(file, p.merged, first, last)
    ensures p.starts[first] <= p.offset[i]
    ensures var at, buffer := p.offset[i] - p.starts[first], Loaded(file, p.merged, first, last);
            && at + Volume(h.leaf) <= |buffer|
            && HoldsLeaf(h, raw, axis, index, keys[i], buffer[at..at + Volume(h.leaf)])
  {
    FoundInBatch(file, p.merged, first, last, p.index[i], extents[i], p.offset[i]);
    ExtentHoldsLeaf(h, raw, file, axis, index, keys[i]);
  }

  /** An extent's place in the buffer of all ranges, less the start of a batch, is its place in the batch's buffer. */
  lemma FoundInBatch(file: seq<Float>, merged: seq<Extent>, first: nat, last: nat, j: nat, e: Extent, offset: nat)
    requires Found(merged, e, j, offset) && first <= j < last <= |merged| && InFile(file, merged, first, last)
    ensures LoadedSize(merged, 0, first) <= offset && End(e) <= |file|
    ensures var at, buffer := offset - LoadedSize(merged, 0, first), Loaded(file, merged, first, last);
            at + e.size <= |buffer| && buffer[at..at + e.size] == file[e.offset..End(e)]
  {
    LoadedSizeSplit(merged, 0, first, j);
    Located(file, merged, first, last, j, e);
  }

  lemma ExtentHoldsLeaf(h: Header, raw: Raw, file: seq<Float>, axis: Axis, index: nat, k: Key)
    requires Valid(h) && IsRaw(raw, h.n) && Volume(h.leaf) > 0 && Gapless(LeafGrid(h)) && Stored(file, h, raw)
    requires ValidKey(h, axis, k) && index < Fixed(axis, h.n)
    ensures var e := LeafExtent(h, SuperOf(h, axis, index, k), LeafOf(h, axis, index, k));
            End(e) <= |file| && HoldsLeaf(h, raw, axis, index, k, file[e.offset..End(e)])
  {
    var s, leaf := SuperOf(h, axis, index, k), LeafOf(h, axis, index, k);
    var e := LeafExtent(h, s, leaf);
    LeafInGrid(h, axis, index, k);
    LeafStored(file, h, raw, s, leaf, Coord(0, 0, 0));
    forall r: nat | r < Volume(h.leaf)
      ensures file[e.offset + r] == LeafCell(h, raw, s, leaf, r)
    {
      UnflatInBox(r, h.leaf);
      LeafStored(file, h, raw, s, leaf, Unflat(r, h.leaf));
    }
  }

  /** One operation: its leaf scattered from the buffer. */
  method ExecuteCopy(h: Header, ghost raw: Raw, ghost file: seq<Float>, axis: Axis, index: nat, p: Prepared,
                     ghost keys: seq<Key>, ghost extents: seq<Extent>, first: nat, ghost last: nat, buffer: seq<Float>,
                     i: nat, output: array<Float>, ghost init: seq<Float>, ghost done: set<nat>)
    requires Executing(h, raw, file, axis, index, p, keys, extents)
    requires i < |p.ops| && first <= p.index[i] < last <= |p.merged| && InFile(file, p.merged, first, last)
    requires buffer == Loaded(file, p.merged, first, last)
    requires DoneSoFar(output[..], init, h, raw, axis, index, keys, done)
    modifies output
    ensures DoneSoFar(output[..], init, h, raw, axis, index, keys, done + {i})
  {
    LeafInBuffer(h, raw, file, axis, index, p, keys, extents, first, last, i);
    OpForFits(h, axis, index, keys[i]);
    var at := p.offset[i] - p.starts[first];
    var leaf := buffer[at..at + Volume(h.leaf)];
    ghost var before := output[..];
    ScatterDecodedLeaf(h, p.ops[i], leaf, output, FirstOuter(h, axis, keys[i]), FirstInner(h, axis, keys[i]));
    CopyDone(h, raw, axis, index, keys, i, leaf, before, output[..], init, done);
  }

  lemma CopyDone(h: Header, raw: Raw, axis: Axis, index: nat, keys: seq<Key>, i: nat, leaf: seq<Float>,
                 before: seq<Float>, after: seq<Float>, init: seq<Float>, done: set<nat>)
    requires Valid(h) && IsRaw(raw, h.n) && index < Fixed(axis, h.n) && i < |keys| && ValidKey(h, axis, keys[i])
    requires HoldsLeaf(h, raw, axis, index, keys[i], leaf) && OpFits(h, OpFor(h, axis, index, keys[i]))
    requires OpFor(h, axis, index, keys[i]).outStride > 0 && |after| == |before|
    requires DoneSoFar(before, init, h, raw, axis, index, keys, done)
    requires forall c :: 0 <= c < |after| ==>
               after[c] == Scattered(h, OpFor(h, axis, index, keys[i]), leaf, FirstOuter(h, axis, keys[i]),
                                     FirstInner(h, axis, keys[i]), c, before[c])
    ensures DoneSoFar(after, init, h, raw, axis, index, keys, done + {i})
  {
    forall c | 0 <= c < |after|
      ensures after[c] == if CoveredIn(h, axis, keys, done + {i}, c) then SliceCell(h, raw, axis, index, c) else init[c]
    {
      OpDelivers(h, raw, axis, index, keys[i], leaf, c, before[c]);
      StepDone(h, axis, keys, done, i, c);
    }
  }

  /** The operations whose merged range is below m. */
  function OpsBelow(p: Prepared, m: nat): (s: set<nat>)
    ensures forall i: nat :: i in s <==> i < |p.index| && p.index[i] < m
  {
    set i: nat | 0 <= i < |p.index| && p.index[i] < m
  }

  /** The operations of earlier batches, and of the batch first up to last those before operation n. */
  function OpsSoFar(p: Prepared, first: nat, last: nat, n: nat): (s: set<nat>)
    ensures forall i: nat :: i in s <==> i < |p.index| && (p.index[i] < first || (i < n && p.index[i] < last))
  {
    set i: nat | 0 <= i < |p.index| && (p.index[i] < first || (i < n && p.index[i] < last))
  }

  lemma OpsStep(p: Prepared, first: nat, last: nat, n: nat)
    requires first <= last && n < |p.index|
    ensures OpsSoFar(p, first, last, n + 1)
         == if first <= p.index[n] < last then OpsSoFar(p, first, last, n) + {n} else OpsSoFar(p, first, last, n)
  {
  }

  lemma OpsEnds(p: Prepared, first: nat, last: nat)
    requires first <= last
    ensures OpsSoFar(p, first, last, 0) == OpsBelow(p, first) && OpsSoFar(p, first, last, |p.index|) == OpsBelow(p, last)
  {
  }

  /** Executing a prepared plan on the buffer of one batch: exactly the operations of the batch are done. */
  method ExecutePreparedSlice(h: Header, ghost raw: Raw, ghost file: seq<Float>, axis: Axis, index: nat, p: Prepared,
                              ghost keys: seq<Key>, ghost extents: seq<Extent>, first: nat, last: nat,
                              buffer: seq<Float>, output: array<Float>, ghost init: seq<Float>)
    requires Executing(h, raw, file, axis, index, p, keys, extents)
    requires first < last <= |p.merged| && InFile(file, p.merged, first, last)
    requires buffer == Loaded(file, p.merged, first, last)
    requires DoneSoFar(output[..], init, h, raw, axis, index, keys, OpsBelow(p, first))
    modifies output
    ensures DoneSoFar(output[..], init, h, raw, axis, index, keys, OpsBelow(p, last))
  {
    var i: nat := 0;
    OpsEnds(p, first, last);
    while i < |p.ops|
      invariant i <= |p.ops|
      invariant DoneSoFar(output[..], init, h, raw, axis, index, keys, OpsSoFar(p, first, last, i))
    {
      OpsStep(p, first, last, i);
      if first <= p.index[i] < last {
        ExecuteCopy(h, raw, file, axis, index, p, keys, extents, first, last, buffer, i, output, init,
                    OpsSoFar(p, first, last, i));
      }
      i := i + 1;
    }
  }

  lemma AllDone(h: Header, raw: Raw, axis: Axis, index: nat, p: Prepared, keys: seq<Key>, extents: seq<Extent>,
                output: seq<Float>, init: seq<Float>)
    requires Valid(h) && IsRaw(raw, h.n) && SlicePlanned(h, axis, index, p.ops, keys, extents) && IsPrepared(p, extents)
    requires DoneSoFar(output, init, h, raw, axis, index, keys, OpsBelow(p, |p.merged|))
    ensures IsSlice(output, h, raw, axis, index)
  {
    var width := Inner(axis, h.n);
    if width > 0 {
      forall c | 0 <= c < |output|
        ensures output[c] == SliceCell(h, raw, axis, index, c)
      {
        DivBound(c, Outer(axis, h.n), width);
        DivModBack(c, width);
        PlanCoversOnce(h, axis, index, Plan([], p.ops), keys, Row(c, width), Column(c, width));
        var i :| 0 <= i < |keys| && Covers(h, axis, keys[i], Row(c, width), Column(c, width));
        assert Found(p.merged, extents[i], p.index[i], p.offset[i]);
        assert i in OpsBelow(p, |p.merged|) && CoversAt(h, axis, keys[i], c);
      }
    }
  }

  lemma PlanInFile(h: Header, raw: Raw, file: seq<Float>, axis: Axis, index: nat, p: Prepared, keys: seq<Key>,
                   extents: seq<Extent>)
    requires Executing(h, raw, file, axis, index, p, keys, extents)
    ensures InFile(file, p.merged, 0, |p.merged|)
  {
    forall i | 0 <= i < |extents|
      ensures End(extents[i]) <= |file|
    {
      ExtentHoldsLeaf(h, raw, file, axis, index, keys[i]);
    }
    MergedInFile(file, extents, p.merged);
  }

  /** Reading a slice by merged extents, in whatever consecutive batches: the output is the slice. */
  method ReadPreparedSlice(h: Header, ghost raw: Raw, file: seq<Float>, io: (nat, nat) -> bool, axis: Axis, index: nat,
                           limit: nat, output: array<Float>) returns (ok: bool)
    requires Valid(h) && IsRaw(raw, h.n) && Volume(h.leaf) > 0 && Gapless(LeafGrid(h)) && Stored(file, h, raw)
    requires index < Fixed(axis, h.n) && output.Length == SliceSize(h, axis)
    modifies output
    ensures ok ==> IsSlice(output[..], h, raw, axis, index)
    ensures (forall o, n :: io(o, n)) ==> ok
  {
    var ops, extents;
    ghost var keys;
    ops, extents, keys := PlanSlice(h, axis, index);
    var p := PrepareSlicePlan(ops, extents);
    PlanInFile(h, raw, file, axis, index, p, keys, extents);
    var batches := BatchList(p.merged, limit);
    ghost var init := output[..];
    assert OpsBelow(p, 0) == {};
    var b: nat := 0;
    var m: nat := 0;
    ok := true;
    while b < |batches|
      invariant ok && b <= |batches| && m <= |p.merged| && LineBatches.Consecutive(batches[b..], m, |p.merged|)
      invariant DoneSoFar(output[..], init, h, raw, axis, index, keys, OpsBelow(p, m))
    {
      var buffer;
      FirstOfRest(batches, b, m, |p.merged|);
      ok, buffer := LineBatches.Load(file, io, p.merged, batches[b].0, batches[b].1);
      if !ok {
        return;
      }
      ExecutePreparedSlice(h, raw, file, axis, index, p, keys, extents, batches[b].0, batches[b].1, buffer, output, init);
      m, b := batches[b].1, b + 1;
    }
    AllDone(h, raw, axis, index, p, keys, extents, output[..], init);
  }

  function BatchList(merged: seq<Extent>, limit: nat): (b: seq<(nat, nat)>)
    ensures LineBatches.Consecutive(b, 0, |merged|)
  {
    LineBatches.BatchesPartition(merged, limit, 0, 0, 0);
    LineBatches.Batches(merged, limit, 0, 0, 0)
  }

  lemma {:induction false} ConsecutiveEnds(b: seq<(nat, nat)>, from: nat, n: nat)
    requires LineBatches.Consecutive(b, from, n)
    ensures from <= n && (b != [] ==> b[0].1 <= n)
  {
    if b != [] {
      ConsecutiveEnds(b[1..], b[0].1, n);
    }
  }

  lemma FirstOfRest(batches: seq<(nat, nat)>, b: nat, m: nat, n: nat)
    requires b < |batches| && LineBatches.Consecutive(batches[b..], m, n)
    ensures batches[b].0 == m < batches[b].1 <= n
    ensures LineBatches.Consecutive(batches[b + 1..], batches[b].1, n)
  {
    ConsecutiveEnds(batches[b..], m, n);
    assert batches[b..][1..] == batches[b + 1..];
  }
}
