/** Reading batches of slices from the replicas: one slab of leaves holds everything a slice needs. */
module AxisLeafReader {
  import opened Basics
  import opened Float32
  import opened Morton
  import opened Layout
  import opened SlicePlan
  import opened SliceReader
  import opened RzfpFormat
  import opened RzfpFile
  import opened RzfpTasks
  import opened RzfpStrategies
  import opened RzfpReader
  import opened AxisLeaf
  import opened AxisLeafRepack

  // ----- scattering a leaf column by column -----

  lemma OneCell(p: nat, stride: nat, row: nat, column: nat)
    requires stride > 0 && column < stride
    ensures InBlock(p, stride, row, 1, column, 1) <==> p == row * stride + column
  {
    RowOfBlock(p, stride, row, column, 1);
  }

  /** Writes column inner of the block, row by row. */
  method ScatterColumn(h: Header, op: LeafOp, leaf: seq<Float>, output: array<Float>, row: nat, column: nat, inner: nat)
    requires OpFits(h, op) && |leaf| == Volume(h.leaf) && op.outStride > 0
    requires column + op.vInner <= op.outStride && inner < op.vInner
    requires (row + op.vOuter) * op.outStride <= output.Length
    modifies output
    ensures forall p :: 0 <= p < output.Length ==>
              output[p] == if InBlock(p, op.outStride, row, op.vOuter, column + inner, 1)
                           then Scattered(h, op, leaf, row, column, p, old(output[p])) else old(output[p])
  {
    var outer: nat := 0;
    while outer < op.vOuter
      invariant outer <= op.vOuter
      invariant forall p :: 0 <= p < output.Length ==>
                  output[p] == if InBlock(p, op.outStride, row, outer, column + inner, 1)
                               then Scattered(h, op, leaf, row, column, p, old(output[p])) else old(output[p])
    {
      ghost var before := output[..];
      WriteAt(h, op, leaf, output, row, column, outer, inner);
      forall p | 0 <= p < output.Length
        ensures output[p] == if InBlock(p, op.outStride, row, outer + 1, column + inner, 1)
                             then Scattered(h, op, leaf, row, column, p, old(output[p])) else old(output[p])
      {
        OneCell(p, op.outStride, row + outer, column + inner);
      }
      outer := outer + 1;
    }
  }

  method WriteAt(h: Header, op: LeafOp, leaf: seq<Float>, output: array<Float>, row: nat, column: nat, outer: nat, inner: nat)
    requires OpFits(h, op) && |leaf| == Volume(h.leaf) && op.outStride > 0
    requires column + op.vInner <= op.outStride && inner < op.vInner && outer < op.vOuter
    requires (row + op.vOuter) * op.outStride <= output.Length
    modifies output
    ensures forall p :: 0 <= p < output.Length ==>
              output[p] == if p == (row + outer) * op.outStride + column + inner
                           then LeafIndexOr(h, op, leaf, outer, inner, old(output[p])) else old(output[p])
  {
    RadixBound(row + outer, column + inner, row + op.vOuter, op.outStride);
    LeafIndexInLeaf(h, op, outer, inner);
    output[(row + outer) * op.outStride + column + inner] := leaf[LeafIndex(h, op, outer, inner)];
  }

  /** The replica reader's own copy loops; they write what ScatterDecodedLeaf writes. */
  method ScatterReplicaLeaf(h: Header, op: LeafOp, leaf: seq<Float>, output: array<Float>, row: nat, column: nat)
    requires OpFits(h, op) && |leaf| == Volume(h.leaf) && op.outStride > 0
    requires column + op.vInner <= op.outStride && (row + op.vOuter) * op.outStride <= output.Length
    modifies output
    ensures forall p :: 0 <= p < output.Length ==>
              output[p] == Scattered(h, op, leaf, row, column, p, old(output[p]))
  {
    var inner: nat := 0;
    while inner < op.vInner
      invariant inner <= op.vInner
      invariant forall p :: 0 <= p < output.Length ==>
                  output[p] == if InBlock(p, op.outStride, row, op.vOuter, column, inner)
                               then Scattered(h, op, leaf, row, column, p, old(output[p])) else old(output[p])
    {
      ScatterColumn(h, op, leaf, output, row, column, inner);
      inner := inner + 1;
    }
  }

  // ----- which references a record of a slab serves -----

  function KeyOfId(f: File, axis: Axis, id: nat): Key
    requires ReplicaSource(f)
  {
    var s, leaf := SuperCoord(f, id), LeafCoord(f, id);
    Key(Outer(axis, s), Inner(axis, s), Outer(axis, leaf), Inner(axis, leaf))
  }

  /** The first cell of the record's leaf. */
  function FirstCell(f: File, id: nat): Coord
    requires ReplicaSource(f)
  {
    Add(Times(SuperCoord(f, id), f.h.super), Times(LeafCoord(f, id), f.h.leaf))
  }

  /** The slab that a slice lies in. */
  function SlabOfIndex(h: Header, axis: Axis, index: nat): nat
    requires Valid(h)
  {
    Row(index, Fixed(axis, h.leaf))
  }

  lemma SlabSplits(v: nat, s: nat, l: nat, S: nat, L: nat)
    requires S > 0 && L > 0 && S % L == 0 && l < S / L
    ensures v / L == s * (S / L) + l <==> v / S == s && v % S / L == l
  {
    var g := S / L;
    DivModBack(S, L);
    DivModBack(v, L);
    assert (s * g + l) * L == s * S + l * L;
    if v / L == s * g + l {
      MulNext(s * g + l, L);
      assert s * S + l * L <= v < s * S + l * L + L;
      MulMono(l + 1, g, L);
      MulNext(l, L);
      DivMod(s, v - s * S, S);
      DivMod(l, v - s * S - l * L, L);
    }
    if v / S == s && v % S / L == l {
      DivModBack(v, S);
      DivModBack(v % S, L);
      DivMod(s * g + l, v - s * S - l * L, L);
    }
  }

  /** A record of the slice's slab that meets the volume is exactly the leaf of one of the slice's keys. */
  lemma RecordIsKey(f: File, axis: Axis, index: nat, id: nat)
    requires Repackable(f) && id < |f.descriptors| && index < Fixed(axis, f.h.n)
    requires SlabOf(f, axis, id) == SlabOfIndex(f.h, axis, index) && InBox(FirstCell(f, id), f.h.n)
    ensures ValidKey(f.h, axis, KeyOfId(f, axis, id))
    ensures SuperOf(f.h, axis, index, KeyOfId(f, axis, id)) == SuperCoord(f, id)
    ensures LeafOf(f.h, axis, index, KeyOfId(f, axis, id)) == LeafCoord(f, id)
  {
    CoordsInGrid(f, id);
    SlabSplits(index, Fixed(axis, SuperCoord(f, id)), Fixed(axis, LeafCoord(f, id)),
               Fixed(axis, f.h.super), Fixed(axis, f.h.leaf));
  }

  /** Every leaf has a number. */
  lemma LeafHasId(f: File, s: Coord, leaf: Coord) returns (id: nat)
    requires Repackable(f) && InBox(s, SuperGrid(f.h)) && InBox(leaf, LeafGrid(f.h))
    ensures id < |f.descriptors| && SuperCoord(f, id) == s && LeafCoord(f, id) == leaf
  {
    PhysicalIdBijection(f.h, f.order, s);
    DecodeEncode(leaf);
    var sb, m := PhysicalId(f.h, f.order, s), Encode(leaf);
    id := LeafId(sb, LeafCount(f.h), m);
    IdOf(f, sb, m, id);
  }

  lemma KeySlab(h: Header, axis: Axis, index: nat, k: Key)
    requires Valid(h) && index < Fixed(axis, h.n) && ValidKey(h, axis, k)
    ensures SlabAt(h, axis, SuperOf(h, axis, index, k), LeafOf(h, axis, index, k)) == SlabOfIndex(h, axis, index)
    ensures InBox(Add(Times(SuperOf(h, axis, index, k), h.super), Times(LeafOf(h, axis, index, k), h.leaf)), h.n)
  {
    LeafInGrid(h, axis, index, k);
    SlabSplits(index, index / Fixed(axis, h.super), index % Fixed(axis, h.super) / Fixed(axis, h.leaf),
               Fixed(axis, h.super), Fixed(axis, h.leaf));
    FixedInside(h, axis, index);
  }

  /** And every key of the slice is the leaf of such a record. */
  lemma KeyHasRecord(f: File, axis: Axis, index: nat, k: Key) returns (id: nat)
    requires Repackable(f) && index < Fixed(axis, f.h.n) && ValidKey(f.h, axis, k)
    ensures id < |f.descriptors| && SlabOf(f, axis, id) == SlabOfIndex(f.h, axis, index)
    ensures InBox(FirstCell(f, id), f.h.n) && KeyOfId(f, axis, id) == k
  {
    LeafInGrid(f.h, axis, index, k);
    id := LeafHasId(f, SuperOf(f.h, axis, index, k), LeafOf(f.h, axis, index, k));
    KeySlab(f.h, axis, index, k);
  }

  lemma FixedInside(h: Header, axis: Axis, index: nat)
    requires Valid(h) && index < Fixed(axis, h.n)
    ensures index / Fixed(axis, h.super) * Fixed(axis, h.super) +
            index % Fixed(axis, h.super) / Fixed(axis, h.leaf) * Fixed(axis, h.leaf) < Fixed(axis, h.n)
  {
    LocateOnAxis(index, Fixed(axis, h.n), Fixed(axis, h.super), Fixed(axis, h.leaf));
  }

  // ----- delivering a record to the requests of its slab -----

  datatype PlaneTarget = PlaneTarget(local: nat, requests: seq<nat>)

  /** A slab to be read and the planes wanted from it. */
  datatype SlabJob = SlabJob(axis: Axis, slab: nat, targets: seq<PlaneTarget>)

  /** Request p is for this plane of this slab. */
  predicate Wants(b: Batch, axis: Axis, slab: nat, local: nat, p: nat)
  {
    && p < |b.requests| && b.requests[p].axis == axis
    && SlabOfIndex(b.h, axis, b.requests[p].index) == slab
    && Column(b.requests[p].index, Fixed(axis, b.h.leaf)) == local
  }

  ghost predicate GoodTarget(b: Batch, job: SlabJob, t: PlaneTarget)
  {
    forall i :: 0 <= i < |t.requests| ==> Wants(b, job.axis, job.slab, t.local, t.requests[i])
  }

  ghost predicate GoodJob(b: Batch, job: SlabJob)
  {
    forall t :: 0 <= t < |job.targets| ==> GoodTarget(b, job, job.targets[t])
  }

  predicate InTargets(targets: seq<PlaneTarget>, n: nat, p: nat)
    requires n <= |targets|
  {
    exists t :: 0 <= t < n && p in targets[t].requests
  }

  /** The file, its decoder, the volume it decodes to, and the batch being read. */
  ghost predicate Setting(f: File, dec: Decoder, v: Raw, b: Batch)
  {
    Repackable(f) && Readable(f, dec) && VolumeOf(f, dec, v) && Matches(f, b)
  }

  /** A leaf of the job's slab that meets the volume. */
  ghost predicate Needed(f: File, job: SlabJob, id: nat)
    requires Repackable(f)
  {
    id < |f.descriptors| && SlabOf(f, job.axis, id) == job.slab && InBox(FirstCell(f, id), f.h.n)
  }

  function RefOf(f: File, axis: Axis, id: nat, p: nat): Ref
    requires ReplicaSource(f)
  {
    Ref(p, KeyOfId(f, axis, id))
  }

  lemma RefOfValid(f: File, b: Batch, job: SlabJob, local: nat, id: nat, p: nat)
    requires Repackable(f) && Matches(f, b) && Needed(f, job, id) && Wants(b, job.axis, job.slab, local, p)
    ensures ValidRef(b, RefOf(f, job.axis, id, p))
    ensures SuperOfRef(b, RefOf(f, job.axis, id, p)) == SuperCoord(f, id)
    ensures LeafOfRef(b, RefOf(f, job.axis, id, p)) == LeafCoord(f, id)
  {
    RecordIsKey(f, job.axis, b.requests[p].index, id);
  }

  /** The decoded record is the leaf of the volume. */
  lemma DecodedRecord(f: File, dec: Decoder, v: Raw, id: nat, record: seq<Byte>)
    requires Repackable(f) && Readable(f, dec) && VolumeOf(f, dec, v) && id < |f.descriptors|
    requires record == RecordOfId(f, id)
    ensures PhysicalId(f.h, f.order, SuperCoord(f, id)) < |f.index| && Encode(LeafCoord(f, id)) < LeafCount(f.h)
    ensures dec(DescriptorCodec(f.descriptors[id]), record) == DecodedLeaf(f, dec, SuperCoord(f, id), LeafCoord(f, id))
    ensures dec(DescriptorCodec(f.descriptors[id]), record).Some? ==>
              IsLeaf(f.h, v, SuperCoord(f, id), LeafCoord(f, id), dec(DescriptorCodec(f.descriptors[id]), record).value)
  {
    CoordsInGrid(f, id);
    IdParts(f, id);
    EncodeDecode(MortonOfId(f, id));
    DescriptorOfId(f, id);
    assert LeafAgrees(f, dec, v, SuperCoord(f, id), LeafCoord(f, id));
  }

  lemma DescriptorOfId(f: File, id: nat)
    requires ReplicaSource(f) && id < |f.descriptors|
    ensures SuperOfId(f, id) < |f.index| && LeafTable(f, SuperOfId(f, id))[MortonOfId(f, id)] == f.descriptors[id]
  {
    IdParts(f, id);
    TableInside(SuperOfId(f, id), |f.index|, LeafCount(f.h));
  }

  /** References done before are still done. */
  twostate predicate StillDone(b: Batch, v: Raw, outputs: seq<array<Float>>)
    requires Outputs(b, outputs) && IsRaw(v, b.h.n)
    reads outputs
  {
    forall r: Ref :: ValidRef(b, r) && old(RefDone(b, v, outputs, r)) ==> RefDone(b, v, outputs, r)
  }

  method DeliverToRequest(f: File, ghost v: Raw, b: Batch, job: SlabJob, id: nat, cells: seq<Float>, p: nat,
                          ghost local: nat, outputs: seq<array<Float>>)
    requires Repackable(f) && Matches(f, b) && IsRaw(v, b.h.n) && Needed(f, job, id)
    requires Wants(b, job.axis, job.slab, local, p) && Outputs(b, outputs)
    requires IsLeaf(f.h, v, SuperCoord(f, id), LeafCoord(f, id), cells)
    modifies outputs[p]
    ensures ValidRef(b, RefOf(f, job.axis, id, p)) && RefDone(b, v, outputs, RefOf(f, job.axis, id, p))
    ensures StillDone(b, v, outputs)
  {
    ghost var r := RefOf(f, job.axis, id, p);
    RefOfValid(f, b, job, local, id, p);
    var q := b.requests[p];
    var k := KeyOfId(f, job.axis, id);
    var op := OpFor(b.h, q.axis, q.index, k);
    OpForFits(b.h, q.axis, q.index, k);
    ScatterReplicaLeaf(b.h, op, cells, outputs[p], FirstOuter(b.h, q.axis, k), FirstInner(b.h, q.axis, k));
    ScatteredCells(b.h, v, q, k, cells, old(outputs[p][..]), outputs[p][..]);
  }

  /** After its leaf was scattered, the output has the key's cells of the slice and is otherwise as before. */
  lemma ScatteredCells(h: Header, v: Raw, q: Request, k: Key, leaf: seq<Float>, before: seq<Float>, after: seq<Float>)
    requires Valid(h) && IsRaw(v, h.n) && ValidKey(h, q.axis, k) && q.index < Fixed(q.axis, h.n)
    requires HoldsLeaf(h, v, q.axis, q.index, k, leaf) && |after| == |before| == SliceSize(h, q.axis)
    requires OpFits(h, OpFor(h, q.axis, q.index, k)) && OpFor(h, q.axis, q.index, k).outStride > 0
    requires forall c :: 0 <= c < |after| ==>
               after[c] == Scattered(h, OpFor(h, q.axis, q.index, k), leaf, FirstOuter(h, q.axis, k),
                                     FirstInner(h, q.axis, k), c, before[c])
    ensures Inner(q.axis, h.n) > 0
    ensures forall c :: 0 <= c < |after| ==>
              after[c] == if CoversAt(h, q.axis, k, c) then SliceCell(h, v, q.axis, q.index, c) else before[c]
  {
    forall c | 0 <= c < |after|
      ensures after[c] == if CoversAt(h, q.axis, k, c) then SliceCell(h, v, q.axis, q.index, c) else before[c]
    {
      OpDelivers(h, v, q.axis, q.index, k, leaf, c, before[c]);
    }
  }

  /** The request has got its part of the record. */
  ghost predicate Got(f: File, b: Batch, v: Raw, job: SlabJob, id: nat, outputs: seq<array<Float>>, p: nat)
    requires Repackable(f) && Outputs(b, outputs) && IsRaw(v, b.h.n)
    reads outputs
  {
    ValidRef(b, RefOf(f, job.axis, id, p)) && RefDone(b, v, outputs, RefOf(f, job.axis, id, p))
  }

  ghost predicate Delivering(f: File, b: Batch, v: Raw, job: SlabJob, id: nat, cells: seq<Float>, outputs: seq<array<Float>>)
  {
    && Repackable(f) && Matches(f, b) && IsRaw(v, b.h.n) && Needed(f, job, id) && GoodJob(b, job) && Outputs(b, outputs)
    && IsLeaf(f.h, v, SuperCoord(f, id), LeafCoord(f, id), cells)
  }

  /** Copies the leaf to all outputs that want this plane of the slab. */
  method DeliverToTarget(f: File, ghost v: Raw, b: Batch, job: SlabJob, id: nat, cells: seq<Float>, t: nat,
                         outputs: seq<array<Float>>)
    requires t < |job.targets| && Delivering(f, b, v, job, id, cells, outputs)
    modifies outputs
    ensures forall i :: 0 <= i < |job.targets[t].requests| ==> Got(f, b, v, job, id, outputs, job.targets[t].requests[i])
    ensures StillDone(b, v, outputs)
  {
    var requests := job.targets[t].requests;
    assert GoodTarget(b, job, job.targets[t]);
    for i := 0 to |requests|
      invariant forall j :: 0 <= j < i ==> Got(f, b, v, job, id, outputs, requests[j])
      invariant StillDone(b, v, outputs)
    {
      label Before:
      DeliverToRequest(f, v, b, job, id, cells, requests[i], job.targets[t].local, outputs);
      assert StillDone@Before(b, v, outputs);
    }
  }

  /** Copies the leaf to every output of the job. */
  method DeliverRecord(f: File, ghost v: Raw, b: Batch, job: SlabJob, id: nat, cells: seq<Float>, outputs: seq<array<Float>>)
    requires Delivering(f, b, v, job, id, cells, outputs)
    modifies outputs
    ensures forall p :: InTargets(job.targets, |job.targets|, p) ==> Got(f, b, v, job, id, outputs, p)
    ensures StillDone(b, v, outputs)
  {
    for t := 0 to |job.targets|
      invariant forall p :: InTargets(job.targets, t, p) ==> Got(f, b, v, job, id, outputs, p)
      invariant StillDone(b, v, outputs)
    {
      label Before:
      DeliverToTarget(f, v, b, job, id, cells, t, outputs);
      assert StillDone@Before(b, v, outputs);
      forall p | InTargets(job.targets, t + 1, p)
        ensures Got(f, b, v, job, id, outputs, p)
      {
        if !InTargets(job.targets, t, p) {
          assert p in job.targets[t].requests;
        }
      }
    }
  }

  // ----- one slab -----

  predicate IdDecodes(f: File, dec: Decoder, id: nat)
    requires ReplicaSource(f) && Accepted(f) && id < |f.descriptors|
  {
    dec(DescriptorCodec(f.descriptors[id]), RecordOfId(f, id)).Some?
  }

  /** Records that decode hold their leaf of the volume. */
  ghost predicate RecordLeaf(f: File, dec: Decoder, v: Raw, id: nat)
    requires ReplicaSource(f) && Accepted(f) && id < |f.descriptors| && IsRaw(v, f.h.n)
  {
    IdDecodes(f, dec, id) ==>
      IsLeaf(f.h, v, SuperCoord(f, id), LeafCoord(f, id), dec(DescriptorCodec(f.descriptors[id]), RecordOfId(f, id)).value)
  }

  /** What delivering the records of a job rests on. */
  ghost predicate JobReady(f: File, dec: Decoder, v: Raw, b: Batch, job: SlabJob)
  {
    && Repackable(f) && Matches(f, b) && IsRaw(v, b.h.n) && GoodJob(b, job)
    && forall id :: 0 <= id < |f.descriptors| ==> RecordLeaf(f, dec, v, id)
  }

  lemma SettingReady(f: File, dec: Decoder, v: Raw, b: Batch, job: SlabJob)
    requires Setting(f, dec, v, b) && GoodJob(b, job)
    ensures JobReady(f, dec, v, b, job)
  {
    forall id | 0 <= id < |f.descriptors|
      ensures RecordLeaf(f, dec, v, id)
    {
      DecodedRecord(f, dec, v, id, RecordOfId(f, id));
    }
  }

  /** Every leaf the job needs decodes. */
  ghost predicate JobDecodes(f: File, dec: Decoder, job: SlabJob)
    requires Repackable(f)
  {
    forall id :: Needed(f, job, id) ==> IdDecodes(f, dec, id)
  }

  /** Every output of the job has got its part of the record. */
  ghost predicate AllGot(f: File, b: Batch, v: Raw, job: SlabJob, outputs: seq<array<Float>>, id: nat)
    requires Repackable(f) && Outputs(b, outputs) && IsRaw(v, b.h.n)
    reads outputs
  {
    forall p :: InTargets(job.targets, |job.targets|, p) ==> Got(f, b, v, job, id, outputs, p)
  }

  /** The records before number k of the slab have been decoded and delivered. */
  ghost predicate DoneUpTo(f: File, dec: Decoder, b: Batch, v: Raw, job: SlabJob, ids: seq<nat>, k: nat,
                           outputs: seq<array<Float>>)
    requires Repackable(f) && Outputs(b, outputs) && IsRaw(v, b.h.n) && k <= |ids|
    reads outputs
  {
    forall i :: 0 <= i < k && Needed(f, job, ids[i]) ==>
      IdDecodes(f, dec, ids[i]) && AllGot(f, b, v, job, outputs, ids[i])
  }

  lemma EntriesLonger(f: File, ids: seq<nat>, k: nat)
    requires ReplicaSource(f) && Accepted(f) && ValidIds(f, ids) && k < |ids|
    ensures |Entries(f, ids, k)| < |Entries(f, ids, |ids|)|
  {
    EntriesGrow(f, ids, k + 1, |ids|);
  }

  lemma RecordSizeOfId(f: File, id: nat)
    requires ReplicaSource(f) && Accepted(f) && id < |f.descriptors|
    ensures |RecordOfId(f, id)| == DescriptorSize(f.descriptors[id])
  {
    DescriptorOfId(f, id);
    RecordInSuperblock(f, SuperOfId(f, id), MortonOfId(f, id));
  }


  /** Delivers a leaf; what was delivered before stays in place. */
  method DeliverNext(f: File, dec: Decoder, ghost v: Raw, b: Batch, job: SlabJob, id: nat, cells: seq<Float>,
                     ghost ids: seq<nat>, ghost k: nat, outputs: seq<array<Float>>)
    requires Delivering(f, b, v, job, id, cells, outputs) && k <= |ids| && DoneUpTo(f, dec, b, v, job, ids, k, outputs)
    modifies outputs
    ensures DoneUpTo(f, dec, b, v, job, ids, k, outputs) && AllGot(f, b, v, job, outputs, id)
    ensures StillDone(b, v, outputs)
  {
    DeliverRecord(f, v, b, job, id, cells, outputs);
    forall i, p | 0 <= i < k && Needed(f, job, ids[i]) && InTargets(job.targets, |job.targets|, p)
      ensures Got(f, b, v, job, ids[i], outputs, p)
    {
      assert old(AllGot(f, b, v, job, outputs, ids[i]));
      assert old(Got(f, b, v, job, ids[i], outputs, p));
    }
  }

  /** What the bytes at an offset say: a leaf's number and record. Anything malformed gives none. */
  function ParseEntry(f: File, axis: Axis, slab: nat, data: seq<Byte>, offset: nat): Option<(nat, seq<Byte>)>
    requires ReplicaSource(f) && offset <= |data|
  {
    if |data| - offset < 4 then None
    else
      var id := ParseId(data[offset], data[offset + 1], data[offset + 2], data[offset + 3]);
      if id >= |f.descriptors| then None
      else
        var recordSize := DescriptorSize(f.descriptors[id]);
        if recordSize > |data| - offset - 4 || SlabOf(f, axis, id) != slab then None
        else Some((id, data[offset + 4..offset + 4 + recordSize]))
  }

  lemma ParseEntryIs(f: File, axis: Axis, slab: nat, data: seq<Byte>, offset: nat, id: nat, record: seq<Byte>)
    requires ReplicaSource(f) && offset + 4 + |record| <= |data| && id < |f.descriptors|
    requires ParseId(data[offset], data[offset + 1], data[offset + 2], data[offset + 3]) == id
    requires |record| == DescriptorSize(f.descriptors[id]) && SlabOf(f, axis, id) == slab
    requires data[offset + 4..offset + 4 + |record|] == record
    ensures ParseEntry(f, axis, slab, data, offset) == Some((id, record))
  {
  }

  lemma EntryParses(f: File, axis: Axis, slab: nat, data: seq<Byte>, offset: nat, ids: seq<nat>, k: nat)
    requires Repackable(f) && IdsOfSlab(f, axis, slab, ids) && k < |ids|
    requires data == Entries(f, ids, |ids|) && offset == |Entries(f, ids, k)| <= |data|
    ensures ParseEntry(f, axis, slab, data, offset) == Some((ids[k], RecordOfId(f, ids[k])))
    ensures offset + 4 + |RecordOfId(f, ids[k])| == |Entries(f, ids, k + 1)| <= |data|
  {
    var id := ids[k];
    var record := RecordOfId(f, id);
    EntryAt(f, ids, k, data, offset, record);
    RecordSizeOfId(f, id);
    ParseEntryIs(f, axis, slab, data, offset, id, record);
  }

  lemma DoneNext(f: File, dec: Decoder, b: Batch, v: Raw, job: SlabJob, ids: seq<nat>, k: nat, outputs: seq<array<Float>>)
    requires Repackable(f) && Outputs(b, outputs) && IsRaw(v, b.h.n) && k < |ids|
    requires DoneUpTo(f, dec, b, v, job, ids, k, outputs)
    requires Needed(f, job, ids[k]) ==> IdDecodes(f, dec, ids[k]) && AllGot(f, b, v, job, outputs, ids[k])
    ensures DoneUpTo(f, dec, b, v, job, ids, k + 1, outputs)
  {
  }

  lemma JobFails(f: File, dec: Decoder, job: SlabJob, id: nat)
    requires Repackable(f) && Needed(f, job, id) && !IdDecodes(f, dec, id)
    ensures !JobDecodes(f, dec, job)
  {
  }

  method RunNext(f: File, dec: Decoder, ghost v: Raw, b: Batch, job: SlabJob, id: nat, record: seq<Byte>,
                 ghost ids: seq<nat>, ghost k: nat, outputs: seq<array<Float>>)
    returns (ok: bool)
    requires JobReady(f, dec, v, b, job) && Outputs(b, outputs)
    requires IdsOfSlab(f, job.axis, job.slab, ids) && k < |ids| && id == ids[k] && record == RecordOfId(f, id)
    requires DoneUpTo(f, dec, b, v, job, ids, k, outputs)
    modifies outputs
    ensures ok ==> DoneUpTo(f, dec, b, v, job, ids, k + 1, outputs)
    ensures !ok ==> !JobDecodes(f, dec, job)
    ensures StillDone(b, v, outputs)
  {
    if InBox(FirstCell(f, id), f.h.n) {
      var cells := dec(DescriptorCodec(f.descriptors[id]), record);
      assert RecordLeaf(f, dec, v, id);
      if cells == None {
        JobFails(f, dec, job, id);
        return false;
      }
      DeliverNext(f, dec, v, b, job, id, cells.value, ids, k, outputs);
    }
    DoneNext(f, dec, b, v, job, ids, k, outputs);
    ok := true;
  }

  /** The first k entries of the slab, up to the offset, have been handled. */
  ghost predicate RunningJob(f: File, dec: Decoder, v: Raw, b: Batch, job: SlabJob, data: seq<Byte>, ids: seq<nat>,
                             k: nat, offset: nat, outputs: seq<array<Float>>)
    reads outputs
  {
    && JobReady(f, dec, v, b, job) && Outputs(b, outputs)
    && IdsOfSlab(f, job.axis, job.slab, ids) && data == Entries(f, ids, |ids|)
    && k <= |ids| && offset == |Entries(f, ids, k)| <= |data|
    && DoneUpTo(f, dec, b, v, job, ids, k, outputs)
  }

  /** Handles the entry at the offset. */
  method RunEntry(f: File, dec: Decoder, ghost v: Raw, b: Batch, job: SlabJob, data: seq<Byte>, offset: nat,
                  ghost ids: seq<nat>, ghost k: nat, outputs: seq<array<Float>>)
    returns (ok: bool, offset': nat)
    requires k < |ids| && RunningJob(f, dec, v, b, job, data, ids, k, offset, outputs)
    modifies outputs
    ensures ok ==> RunningJob(f, dec, v, b, job, data, ids, k + 1, offset', outputs)
    ensures !ok ==> !JobDecodes(f, dec, job)
    ensures StillDone(b, v, outputs)
  {
    EntryParses(f, job.axis, job.slab, data, offset, ids, k);
    var entry := ParseEntry(f, job.axis, job.slab, data, offset);
    if entry == None {
      return false, offset;
    }
    ok := RunNext(f, dec, v, b, job, entry.value.0, entry.value.1, ids, k, outputs);
    offset' := offset + 4 + |entry.value.1|;
  }

  lemma EntriesLeft(f: File, ids: seq<nat>, k: nat)
    requires ReplicaSource(f) && Accepted(f) && ValidIds(f, ids) && k <= |ids|
    ensures k < |ids| <==> |Entries(f, ids, k)| < |Entries(f, ids, |ids|)|
  {
    if k < |ids| {
      EntriesLonger(f, ids, k);
    }
  }

  method RunEntries(f: File, dec: Decoder, ghost v: Raw, b: Batch, job: SlabJob, data: seq<Byte>, ghost ids: seq<nat>,
                    outputs: seq<array<Float>>)
    returns (ok: bool)
    requires RunningJob(f, dec, v, b, job, data, ids, 0, 0, outputs)
    modifies outputs
    ensures ok ==> RunningJob(f, dec, v, b, job, data, ids, |ids|, |data|, outputs)
    ensures !ok ==> !JobDecodes(f, dec, job)
    ensures StillDone(b, v, outputs)
  {
    var offset: nat := 0;
    ghost var k: nat := 0;
    while offset < |data|
      invariant RunningJob(f, dec, v, b, job, data, ids, k, offset, outputs) && StillDone(b, v, outputs)
      decreases |ids| - k
    {
      EntriesLeft(f, ids, k);
      label Before:
      ok, offset := RunEntry(f, dec, v, b, job, data, offset, ids, k, outputs);
      assert StillDone@Before(b, v, outputs);
      if !ok {
        return;
      }
      k := k + 1;
    }
    EntriesLeft(f, ids, k);
    ok := true;
  }

  /** Parses the slab record by record, and delivers each. */
  method RunJob(f: File, dec: Decoder, ghost v: Raw, b: Batch, job: SlabJob, data: seq<Byte>, ghost ids: seq<nat>,
                outputs: seq<array<Float>>)
    returns (ok: bool)
    requires JobReady(f, dec, v, b, job) && Outputs(b, outputs)
    requires IdsOfSlab(f, job.axis, job.slab, ids) && data == Entries(f, ids, |ids|)
    modifies outputs
    ensures ok <==> JobDecodes(f, dec, job)
    ensures ok ==> forall id :: Needed(f, job, id) ==> AllGot(f, b, v, job, outputs, id)
    ensures StillDone(b, v, outputs)
  {
    ok := RunEntries(f, dec, v, b, job, data, ids, outputs);
    if ok {
      SlabCovered(f, dec, b, v, job, ids, outputs);
    }
  }

  lemma SlabCovered(f: File, dec: Decoder, b: Batch, v: Raw, job: SlabJob, ids: seq<nat>, outputs: seq<array<Float>>)
    requires Repackable(f) && Outputs(b, outputs) && IsRaw(v, b.h.n) && IdsOfSlab(f, job.axis, job.slab, ids)
    requires DoneUpTo(f, dec, b, v, job, ids, |ids|, outputs)
    ensures JobDecodes(f, dec, job)
    ensures forall id :: Needed(f, job, id) ==> AllGot(f, b, v, job, outputs, id)
  {
    forall id | Needed(f, job, id)
      ensures IdDecodes(f, dec, id) && AllGot(f, b, v, job, outputs, id)
    {
      assert id in ids;
      var i :| 0 <= i < |ids| && ids[i] == id;
    }
  }

  // ----- the jobs of a batch -----

  /** Adds request p to the target of its plane, or as a new target. */
  method AddToTargets(targets: seq<PlaneTarget>, local: nat, p: nat) returns (r: seq<PlaneTarget>)
    ensures IsAdded(targets, local, p, r)
  {
    for t := 0 to |targets|
    {
      if targets[t].local == local {
        r := targets[t := PlaneTarget(local, targets[t].requests + [p])];
        AddedAt(targets, local, p, t);
        return;
      }
    }
    r := targets + [PlaneTarget(local, [p])];
    AddedNew(targets, local, p);
  }

  /** The targets hold what they held, and p for its plane. */
  ghost predicate IsAdded(targets: seq<PlaneTarget>, local: nat, p: nat, r: seq<PlaneTarget>)
  {
    && |targets| <= |r| && InTargets(r, |r|, p)
    && (forall q :: InTargets(targets, |targets|, q) ==> InTargets(r, |r|, q))
    && forall t, i :: 0 <= t < |r| && 0 <= i < |r[t].requests| ==>
         (r[t].requests[i] == p && r[t].local == local) ||
         (t < |targets| && targets[t].local == r[t].local && r[t].requests[i] in targets[t].requests)
  }

  lemma AddedAt(targets: seq<PlaneTarget>, local: nat, p: nat, t: nat)
    requires t < |targets| && targets[t].local == local
    ensures IsAdded(targets, local, p, targets[t := PlaneTarget(local, targets[t].requests + [p])])
  {
    var r := targets[t := PlaneTarget(local, targets[t].requests + [p])];
    assert r[t].requests[|targets[t].requests|] == p;
    forall q | InTargets(targets, |targets|, q)
      ensures InTargets(r, |r|, q)
    {
      var u :| 0 <= u < |targets| && q in targets[u].requests;
      assert q in r[u].requests;
    }
  }

  lemma AddedNew(targets: seq<PlaneTarget>, local: nat, p: nat)
    ensures IsAdded(targets, local, p, targets + [PlaneTarget(local, [p])])
  {
    var r := targets + [PlaneTarget(local, [p])];
    assert p in r[|targets|].requests;
    forall q | InTargets(targets, |targets|, q)
      ensures InTargets(r, |r|, q)
    {
      var u :| 0 <= u < |targets| && q in targets[u].requests;
      assert q in r[u].requests;
    }
  }

  lemma AddedGood(b: Batch, job: SlabJob, local: nat, p: nat, r: seq<PlaneTarget>)
    requires GoodJob(b, job) && Wants(b, job.axis, job.slab, local, p) && IsAdded(job.targets, local, p, r)
    ensures GoodJob(b, job.(targets := r))
  {
    forall t | 0 <= t < |r|
      ensures GoodTarget(b, job.(targets := r), r[t])
    {
      forall i | 0 <= i < |r[t].requests|
        ensures Wants(b, job.axis, job.slab, r[t].local, r[t].requests[i])
      {
        if t < |job.targets| && r[t].requests[i] in job.targets[t].requests {
          assert GoodTarget(b, job, job.targets[t]);
        }
      }
    }
  }

  /** The job that reads the slab of request p, and has p among its targets. */
  ghost predicate Assigned(b: Batch, job: SlabJob, p: nat)
    requires p < |b.requests|
  {
    && job.axis == b.requests[p].axis && job.slab == SlabOfIndex(b.h, job.axis, b.requests[p].index)
    && InTargets(job.targets, |job.targets|, p)
  }

  ghost predicate HasJob(b: Batch, jobs: seq<SlabJob>, p: nat)
    requires p < |b.requests|
  {
    exists j :: 0 <= j < |jobs| && Assigned(b, jobs[j], p)
  }

  /** Each job is for one slab and wants something of it; the map finds it by axis and slab. */
  ghost predicate JobsOk(b: Batch, jobs: seq<SlabJob>, jobMap: map<(Axis, nat), nat>, n: nat)
    requires n <= |b.requests|
  {
    && (forall j :: 0 <= j < |jobs| ==> GoodJob(b, jobs[j]) && Wanted(b, jobs[j]))
    && (forall k :: k in jobMap ==> jobMap[k] < |jobs| && (jobs[jobMap[k]].axis, jobs[jobMap[k]].slab) == k)
    && (forall p :: 0 <= p < n ==> HasJob(b, jobs, p))
  }

  /** The map finds each job by its axis and slab. */
  predicate Keyed(jobs: seq<SlabJob>, jobMap: map<(Axis, nat), nat>)
  {
    forall j :: 0 <= j < |jobs| ==> (jobs[j].axis, jobs[j].slab) in jobMap && jobMap[(jobs[j].axis, jobs[j].slab)] == j
  }

  /** No two jobs are for the same slab. */
  predicate DistinctSlabs(jobs: seq<SlabJob>)
  {
    forall i, j :: 0 <= i < j < |jobs| ==> (jobs[i].axis, jobs[i].slab) != (jobs[j].axis, jobs[j].slab)
  }

  lemma KeyedNext(jobs: seq<SlabJob>, jobMap: map<(Axis, nat), nat>, key: (Axis, nat), job: SlabJob)
    requires Keyed(jobs, jobMap) && (job.axis, job.slab) == key
    ensures key in jobMap && jobMap[key] < |jobs| ==> Keyed(jobs[jobMap[key] := job], jobMap)
    ensures key !in jobMap ==> Keyed(jobs + [job], jobMap[key := |jobs|])
  {
  }

  ghost predicate Wanted(b: Batch, job: SlabJob)
  {
    exists p :: 0 <= p < |b.requests| && Assigned(b, job, p)
  }

  lemma JobGrows(b: Batch, jobs: seq<SlabJob>, n: nat, j: nat, job: SlabJob, jobs': seq<SlabJob>)
    requires n <= |b.requests| && j < |jobs| && job.axis == jobs[j].axis && job.slab == jobs[j].slab
    requires forall q :: InTargets(jobs[j].targets, |jobs[j].targets|, q) ==> InTargets(job.targets, |job.targets|, q)
    requires jobs' == jobs[j := job] && forall p :: 0 <= p < n ==> HasJob(b, jobs, p)
    ensures forall p :: 0 <= p < n ==> HasJob(b, jobs', p)
  {
    forall p | 0 <= p < n
      ensures HasJob(b, jobs', p)
    {
      assert HasJob(b, jobs, p);
      var i :| 0 <= i < |jobs| && Assigned(b, jobs[i], p);
      assert Assigned(b, jobs'[i], p);
    }
  }

  lemma MoreJobs(b: Batch, jobs: seq<SlabJob>, n: nat, job: SlabJob)
    requires n <= |b.requests| && forall p :: 0 <= p < n ==> HasJob(b, jobs, p)
    ensures forall p :: 0 <= p < n ==> HasJob(b, jobs + [job], p)
  {
    forall p | 0 <= p < n
      ensures HasJob(b, jobs + [job], p)
    {
      assert HasJob(b, jobs, p);
      var i :| 0 <= i < |jobs| && Assigned(b, jobs[i], p);
      assert Assigned(b, (jobs + [job])[i], p);
    }
  }

  method AddRequest(b: Batch, jobs: seq<SlabJob>, jobMap: map<(Axis, nat), nat>, p: nat)
    returns (jobs': seq<SlabJob>, jobMap': map<(Axis, nat), nat>)
    requires p < |b.requests| && JobsOk(b, jobs, jobMap, p) && Keyed(jobs, jobMap)
    ensures JobsOk(b, jobs', jobMap', p + 1) && Keyed(jobs', jobMap')
  {
    var q := b.requests[p];
    var slab := SlabOfIndex(b.h, q.axis, q.index);
    var local := Column(q.index, Fixed(q.axis, b.h.leaf));
    var key := (q.axis, slab);
    if key in jobMap {
      var j := jobMap[key];
      var targets := AddToTargets(jobs[j].targets, local, p);
      var job := jobs[j].(targets := targets);
      AddedGood(b, jobs[j], local, p, targets);
      KeyedNext(jobs, jobMap, key, job);
      jobs', jobMap' := jobs[j := job], jobMap;
      JobGrows(b, jobs, p, j, job, jobs');
      assert Assigned(b, jobs'[j], p);
    } else {
      var targets := AddToTargets([], local, p);
      var job := SlabJob(q.axis, slab, targets);
      AddedGood(b, SlabJob(q.axis, slab, []), local, p, targets);
      MoreJobs(b, jobs, p, job);
      KeyedNext(jobs, jobMap, key, job);
      jobs', jobMap' := jobs + [job], jobMap[key := |jobs|];
      assert Assigned(b, jobs'[|jobs|], p);
    }
    assert HasJob(b, jobs', p);
  }

  /** One job for each slab that some request needs, with every request in the job of its slab. */
  method BuildJobs(b: Batch) returns (jobs: seq<SlabJob>, jobMap: map<(Axis, nat), nat>)
    ensures JobsOk(b, jobs, jobMap, |b.requests|) && DistinctSlabs(jobs)
  {
    jobs, jobMap := [], map[];
    var p: nat := 0;
    while p < |b.requests|
      invariant p <= |b.requests| && JobsOk(b, jobs, jobMap, p) && Keyed(jobs, jobMap)
    {
      jobs, jobMap := AddRequest(b, jobs, jobMap, p);
      p := p + 1;
    }
  }

  // ----- all jobs -----

  /** Replicas along the three axes, and the leaves of each of their slabs. */
  datatype Replicas = Replicas(x: Replica, y: Replica, z: Replica)

  function Along(rs: Replicas, axis: Axis): Replica
  {
    match axis case X => rs.x case Y => rs.y case Z => rs.z
  }

  ghost predicate AllReplicas(f: File, rs: Replicas, lists: Axis -> seq<seq<nat>>)
  {
    Repackable(f) && forall axis: Axis :: IsReplica(f, axis, Along(rs, axis), lists(axis))
  }

  lemma SlabInReplica(f: File, b: Batch, rs: Replicas, lists: Axis -> seq<seq<nat>>, job: SlabJob)
    requires AllReplicas(f, rs, lists) && Matches(f, b) && Wanted(b, job)
    ensures job.slab < |Along(rs, job.axis).index|
    ensures var r := Along(rs, job.axis);
            r.index[job.slab].offset + r.index[job.slab].bytes <= |r.bytes| && job.slab < |lists(job.axis)|
    ensures IdsOfSlab(f, job.axis, job.slab, lists(job.axis)[job.slab])
    ensures var r := Along(rs, job.axis);
            r.bytes[r.index[job.slab].offset..r.index[job.slab].offset + r.index[job.slab].bytes]
            == Entries(f, lists(job.axis)[job.slab], |lists(job.axis)[job.slab]|)
  {
    var r := Along(rs, job.axis);
    assert IsReplica(f, job.axis, r, lists(job.axis));
    var p :| 0 <= p < |b.requests| && Assigned(b, job, p);
    SlabExists(f.h, job.axis, b.requests[p].index);
    assert SlabStored(f, job.axis, r, job.slab, lists(job.axis)[job.slab]);
  }

  lemma SlabBelow(v: nat, n: nat, S: nat, L: nat, s: nat, l: nat)
    requires S > 0 && L > 0 && S % L == 0 && v < n && s == v / S && l == v % S / L
    ensures v / L < CeilDiv(n, S) * (S / L)
  {
    LocateOnAxis(v, n, S, L);
    SlabSplits(v, s, l, S, L);
    RadixBound(s, l, CeilDiv(n, S), S / L);
  }

  lemma SlabExists(h: Header, axis: Axis, index: nat)
    requires Valid(h) && index < Fixed(axis, h.n)
    ensures SlabOfIndex(h, axis, index) < SlabCount(h, axis)
  {
    var S, L := Fixed(axis, h.super), Fixed(axis, h.leaf);
    SlabBelow(index, Fixed(axis, h.n), S, L, Row(index, S), Row(Column(index, S), L));
  }

  /** Every record the job needs has been delivered. */
  ghost predicate JobDone(f: File, b: Batch, v: Raw, job: SlabJob, outputs: seq<array<Float>>)
    requires Repackable(f) && Outputs(b, outputs) && IsRaw(v, b.h.n)
    reads outputs
  {
    forall id :: Needed(f, job, id) ==> AllGot(f, b, v, job, outputs, id)
  }

  ghost predicate JobsDone(f: File, dec: Decoder, b: Batch, v: Raw, jobs: seq<SlabJob>, n: nat, outputs: seq<array<Float>>)
    requires Repackable(f) && Outputs(b, outputs) && IsRaw(v, b.h.n) && n <= |jobs|
    reads outputs
  {
    forall j :: 0 <= j < n ==> JobDecodes(f, dec, jobs[j]) && JobDone(f, b, v, jobs[j], outputs)
  }

  /** Reads and decodes one slab. */
  method ReadSlab(f: File, dec: Decoder, ghost v: Raw, b: Batch, rs: Replicas, ghost lists: Axis -> seq<seq<nat>>,
                  job: SlabJob, outputs: seq<array<Float>>)
    returns (ok: bool)
    requires AllReplicas(f, rs, lists) && Setting(f, dec, v, b) && GoodJob(b, job) && Wanted(b, job)
    requires Outputs(b, outputs) && IsRaw(v, b.h.n)
    modifies outputs
    ensures ok <==> JobDecodes(f, dec, job)
    ensures ok ==> JobDone(f, b, v, job, outputs)
    ensures StillDone(b, v, outputs)
  {
    SlabInReplica(f, b, rs, lists, job);
    SettingReady(f, dec, v, b, job);
    var r := Along(rs, job.axis);
    var data := r.bytes[r.index[job.slab].offset..r.index[job.slab].offset + r.index[job.slab].bytes];
    ok := RunJob(f, dec, v, b, job, data, lists(job.axis)[job.slab], outputs);
  }

  /** Reads the next slab; what earlier ones delivered stays in place. */
  method ReadNextSlab(f: File, dec: Decoder, ghost v: Raw, b: Batch, rs: Replicas, ghost lists: Axis -> seq<seq<nat>>,
                      jobs: seq<SlabJob>, n: nat, outputs: seq<array<Float>>)
    returns (ok: bool)
    requires AllReplicas(f, rs, lists) && Setting(f, dec, v, b) && Outputs(b, outputs) && IsRaw(v, b.h.n)
    requires n < |jobs| && GoodJob(b, jobs[n]) && Wanted(b, jobs[n]) && JobsDone(f, dec, b, v, jobs, n, outputs)
    modifies outputs
    ensures ok <==> JobDecodes(f, dec, jobs[n])
    ensures ok ==> JobsDone(f, dec, b, v, jobs, n + 1, outputs)
  {
    ok := ReadSlab(f, dec, v, b, rs, lists, jobs[n], outputs);
    forall j, id, p | 0 <= j < n && Needed(f, jobs[j], id) && InTargets(jobs[j].targets, |jobs[j].targets|, p)
      ensures Got(f, b, v, jobs[j], id, outputs, p)
    {
      assert old(JobDone(f, b, v, jobs[j], outputs));
      assert old(AllGot(f, b, v, jobs[j], outputs, id));
      assert old(Got(f, b, v, jobs[j], id, outputs, p));
    }
  }

  /** A needed record is the leaf of a reference of each request of the job. */
  lemma NeededIsRef(f: File, dec: Decoder, v: Raw, b: Batch, job: SlabJob, id: nat, p: nat)
    requires Setting(f, dec, v, b) && GoodJob(b, job) && Needed(f, job, id) && p < |b.requests| && Assigned(b, job, p)
    ensures ValidRef(b, RefOf(f, job.axis, id, p))
    ensures IdDecodes(f, dec, id) <==> RefOk(f, dec, b, RefOf(f, job.axis, id, p))
  {
    var t :| 0 <= t < |job.targets| && p in job.targets[t].requests;
    assert GoodTarget(b, job, job.targets[t]);
    RefOfValid(f, b, job, job.targets[t].local, id, p);
    DecodedRecord(f, dec, v, id, RecordOfId(f, id));
    RefInGrid(b, RefOf(f, job.axis, id, p));
  }

  lemma RefIsNeeded(f: File, dec: Decoder, v: Raw, b: Batch, job: SlabJob, r: Ref) returns (id: nat)
    requires Setting(f, dec, v, b) && GoodJob(b, job) && ValidRef(b, r) && Assigned(b, job, r.request)
    ensures Needed(f, job, id) && RefOf(f, job.axis, id, r.request) == r
  {
    id := KeyHasRecord(f, job.axis, b.requests[r.request].index, r.key);
  }

  /** The batch needs exactly what its jobs need. */
  lemma JobsAreNeeds(f: File, dec: Decoder, v: Raw, b: Batch, jobs: seq<SlabJob>, jobMap: map<(Axis, nat), nat>)
    requires Setting(f, dec, v, b) && JobsOk(b, jobs, jobMap, |b.requests|)
    ensures (forall j :: 0 <= j < |jobs| ==> JobDecodes(f, dec, jobs[j])) <==> NeededDecode(f, dec, b)
  {
    if forall j :: 0 <= j < |jobs| ==> JobDecodes(f, dec, jobs[j]) {
      forall r: Ref | ValidRef(b, r)
        ensures RefOk(f, dec, b, r)
      {
        assert HasJob(b, jobs, r.request);
        var j :| 0 <= j < |jobs| && Assigned(b, jobs[j], r.request);
        var id := RefIsNeeded(f, dec, v, b, jobs[j], r);
        NeededIsRef(f, dec, v, b, jobs[j], id, r.request);
      }
    }
    if NeededDecode(f, dec, b) {
      forall j | 0 <= j < |jobs|
        ensures JobDecodes(f, dec, jobs[j])
      {
        forall id | Needed(f, jobs[j], id)
          ensures IdDecodes(f, dec, id)
        {
          assert Wanted(b, jobs[j]);
          var p :| 0 <= p < |b.requests| && Assigned(b, jobs[j], p);
          NeededIsRef(f, dec, v, b, jobs[j], id, p);
        }
      }
    }
  }

  lemma JobsMakeSlices(f: File, dec: Decoder, v: Raw, b: Batch, jobs: seq<SlabJob>, jobMap: map<(Axis, nat), nat>,
                       outputs: seq<array<Float>>)
    requires Setting(f, dec, v, b) && JobsOk(b, jobs, jobMap, |b.requests|) && Outputs(b, outputs) && IsRaw(v, b.h.n)
    requires JobsDone(f, dec, b, v, jobs, |jobs|, outputs)
    ensures forall p :: 0 <= p < |outputs| ==> IsSlice(outputs[p][..], b.h, v, b.requests[p].axis, b.requests[p].index)
  {
    forall r: Ref | ValidRef(b, r)
      ensures RefDone(b, v, outputs, r)
    {
      assert HasJob(b, jobs, r.request);
      var j :| 0 <= j < |jobs| && Assigned(b, jobs[j], r.request);
      var id := RefIsNeeded(f, dec, v, b, jobs[j], r);
      assert JobDone(f, b, v, jobs[j], outputs) && AllGot(f, b, v, jobs[j], outputs, id);
      assert Got(f, b, v, jobs[j], id, outputs, r.request);
    }
    forall p | 0 <= p < |outputs|
      ensures IsSlice(outputs[p][..], b.h, v, b.requests[p].axis, b.requests[p].index)
    {
      RefsMakeSlice(b, v, outputs, p);
    }
  }

  method RunJobs(f: File, dec: Decoder, ghost v: Raw, b: Batch, rs: Replicas, ghost lists: Axis -> seq<seq<nat>>,
                 jobs: seq<SlabJob>, outputs: seq<array<Float>>)
    returns (ok: bool)
    requires AllReplicas(f, rs, lists) && Setting(f, dec, v, b) && Outputs(b, outputs) && IsRaw(v, b.h.n)
    requires forall j :: 0 <= j < |jobs| ==> GoodJob(b, jobs[j]) && Wanted(b, jobs[j])
    modifies outputs
    ensures ok <==> forall j :: 0 <= j < |jobs| ==> JobDecodes(f, dec, jobs[j])
    ensures ok ==> JobsDone(f, dec, b, v, jobs, |jobs|, outputs)
  {
    var n: nat := 0;
    while n < |jobs|
      invariant n <= |jobs| && JobsDone(f, dec, b, v, jobs, n, outputs)
    {
      ok := ReadNextSlab(f, dec, v, b, rs, lists, jobs, n, outputs);
      if !ok {
        return;
      }
      n := n + 1;
    }
    ok := true;
  }

  /**
   * Reads a batch of slices from the replicas, duplicates included. It succeeds exactly when every leaf needed
   * decodes, and then every output is its slice of the decoded volume: the same as reading the main payload.
   */
  method ReadSlicesBatchFromAxisLeaf(f: File, dec: Decoder, ghost v: Raw, b: Batch, rs: Replicas,
                                     ghost lists: Axis -> seq<seq<nat>>, outputs: seq<array<Float>>)
    returns (ok: bool)
    requires AllReplicas(f, rs, lists) && Setting(f, dec, v, b) && Outputs(b, outputs)
    modifies outputs
    ensures ok <==> b.requests != [] && NeededDecode(f, dec, b)
    ensures ok ==> forall p :: 0 <= p < |outputs| ==>
                     IsSlice(outputs[p][..], b.h, v, b.requests[p].axis, b.requests[p].index)
  {
    if b.requests == [] {
      return false;
    }
    var jobs, jobMap := BuildJobs(b);
    JobsAreNeeds(f, dec, v, b, jobs, jobMap);
    ok := RunJobs(f, dec, v, b, rs, lists, jobs, outputs);
    if ok {
      JobsMakeSlices(f, dec, v, b, jobs, jobMap, outputs);
    }
  }
}
