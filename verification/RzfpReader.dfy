/** Reading batches of slices from a compressed file. */
module RzfpReader {
  import opened Basics
  import opened Float32
  import opened Morton
  import opened Sorting
  import opened Layout
  import opened SlicePlan
  import opened SliceReader
  import opened WindowCache
  import opened WindowedRead
  import opened RzfpFormat
  import opened RzfpFile
  import opened RzfpTasks
  import opened RzfpOffsets
  import opened RzfpStrategies

  // ----- the volume a file decodes to -----

  /** What the decoder makes of the record of a leaf. */
  function DecodedLeaf(f: File, dec: Decoder, s: Coord, leaf: Coord): Option<seq<Float>>
    requires Accepted(f) && PhysicalId(f.h, f.order, s) < |f.index| && Encode(leaf) < LeafCount(f.h)
  {
    var r := RecordAt(f, PhysicalId(f.h, f.order, s), Encode(leaf));
    dec(r.codec, r.payload)
  }

  /** Decoded leaves have as many cells as a leaf. */
  ghost predicate DecodesLeaves(h: Header, dec: Decoder)
  {
    forall codec, data :: dec(codec, data).Some? ==> |dec(codec, data).value| == Volume(h.leaf)
  }

  ghost predicate Readable(f: File, dec: Decoder)
  {
    Accepted(f) && Gapless(LeafGrid(f.h)) && DecodesLeaves(f.h, dec)
  }

  lemma LeafAddress(f: File, s: Coord, leaf: Coord)
    requires Accepted(f) && Gapless(LeafGrid(f.h)) && InBox(s, SuperGrid(f.h)) && InBox(leaf, LeafGrid(f.h))
    ensures PhysicalId(f.h, f.order, s) < |f.index| && Encode(leaf) < LeafCount(f.h)
  {
    PhysicalIdBijection(f.h, f.order, s);
    DecodeEncode(leaf);
  }

  /** The volume agrees with every leaf that decodes. */
  ghost predicate VolumeOf(f: File, dec: Decoder, v: Raw)
    requires Readable(f, dec)
  {
    && IsRaw(v, f.h.n)
    && forall s: Coord, leaf: Coord :: InBox(s, SuperGrid(f.h)) && InBox(leaf, LeafGrid(f.h)) ==> LeafAgrees(f, dec, v, s, leaf)
  }

  ghost predicate LeafAgrees(f: File, dec: Decoder, v: Raw, s: Coord, leaf: Coord)
    requires Readable(f, dec) && IsRaw(v, f.h.n) && InBox(s, SuperGrid(f.h)) && InBox(leaf, LeafGrid(f.h))
  {
    LeafAddress(f, s, leaf);
    DecodedLeaf(f, dec, s, leaf).Some? ==> IsLeaf(f.h, v, s, leaf, DecodedLeaf(f, dec, s, leaf).value)
  }

  /**
   * Where the volume's cells come from: cell r of leaf l of superblock s is cell r, X fastest, of what the decoder
   * makes of the bytes that the leaf's descriptor, codec above size, finds behind those of the leaves before it.
   */
  lemma VolumeCell(f: File, dec: Decoder, v: Raw, s: Coord, l: Coord, r: Coord, sb: nat, m: nat, cells: seq<Float>,
                   cell: nat, q: nat)
    requires Readable(f, dec) && VolumeOf(f, dec, v)
    requires InBox(s, SuperGrid(f.h)) && InBox(l, LeafGrid(f.h)) && InBox(r, f.h.leaf) && InBox(CellOf(f.h, s, l, r), f.h.n)
    requires IsTablePlace(f, s, sb) && m == Encode(l) && cell == (r.z * f.h.leaf.y + r.y) * f.h.leaf.x + r.x
    requires var c := CellOf(f.h, s, l, r); q == (c.x * f.h.n.y + c.y) * f.h.n.z + c.z
    ensures sb < |f.index| && m < LeafCount(f.h) && sb * LeafCount(f.h) + m < |f.descriptors|
    ensures var d, from := f.descriptors[sb * LeafCount(f.h) + m], RecordOffset(f, sb, m);
            && from + d % 8192 <= |f.bytes|
            && (dec(d / 8192, f.bytes[from..from + d % 8192]) == Some(cells) ==>
                  cell < |cells| && q < |v| && v[q] == cells[cell])
  {
    TablePlace(f, s, l, sb, m);
    RecordBytes(f, sb, m, LeafCount(f.h), sb * LeafCount(f.h) + m);
    assert LeafAgrees(f, dec, v, s, l);
    if DecodedLeaf(f, dec, s, l) == Some(cells) {
      LeafCellAt(f.h, v, s, l, r, cells, cell, q);
    }
  }

  // ----- tasks and the references they serve -----

  /** The references to the leaf of a key, among the first n. */
  ghost function SelectRefs(b: Batch, refs: seq<Ref>, n: nat, key: nat): (r: seq<Ref>)
    requires ValidRefs(b, refs) && n <= |refs|
    ensures |r| == |Select(b, refs, n, key)|
    ensures forall i :: 0 <= i < |r| ==> ValidRef(b, r[i]) && RefKey(b, r[i]) == key
    ensures forall i :: 0 <= i < |r| ==> ScatterOf(b, r[i]) == Select(b, refs, n, key)[i]
    ensures forall j :: 0 <= j < n && RefKey(b, refs[j]) == key ==> refs[j] in r
  {
    if n == 0 then []
    else SelectRefs(b, refs, n - 1, key) + (if RefKey(b, refs[n - 1]) == key then [refs[n - 1]] else [])
  }

  ghost predicate HasTask(b: Batch, tasks: seq<LeafTask>, r: Ref)
    requires ValidRef(b, r)
  {
    exists t :: 0 <= t < |tasks| && KeyOfTask(tasks[t]) == RefKey(b, r)
  }

  /** Every reference has a task, and every task scatters to exactly the references of its leaf. */
  ghost predicate Serves(b: Batch, tasks: seq<LeafTask>, refs: seq<Ref>)
  {
    && ValidRefs(b, refs)
    && (forall t :: 0 <= t < |tasks| ==> Collects(b, tasks[t], refs))
    && (forall i :: 0 <= i < |refs| ==> HasTask(b, tasks, refs[i]))
  }

  lemma GroupedServes(b: Batch, tasks: seq<LeafTask>, taskMap: map<nat, nat>, refs: seq<Ref>)
    requires Grouped(b, tasks, taskMap, refs)
    ensures Serves(b, tasks, refs)
  {
    forall i | 0 <= i < |refs|
      ensures HasTask(b, tasks, refs[i])
    {
      assert KeyOfTask(tasks[taskMap[RefKey(b, refs[i])]]) == RefKey(b, refs[i]);
    }
  }

  lemma SameLeavesServe(b: Batch, tasks: seq<LeafTask>, more: seq<LeafTask>, refs: seq<Ref>)
    requires Serves(b, tasks, refs) && |more| == |tasks|
    requires forall t :: 0 <= t < |more| ==> SameLeaf(more[t], tasks[t])
    ensures Serves(b, more, refs)
  {
    forall t | 0 <= t < |more|
      ensures Collects(b, more[t], refs)
    {
      assert Collects(b, tasks[t], refs);
    }
    forall i | 0 <= i < |refs|
      ensures HasTask(b, more, refs[i])
    {
      assert HasTask(b, tasks, refs[i]);
      var t :| 0 <= t < |tasks| && KeyOfTask(tasks[t]) == RefKey(b, refs[i]);
      assert KeyOfTask(more[t]) == RefKey(b, refs[i]);
    }
  }

  lemma PermutedServe(b: Batch, tasks: seq<LeafTask>, more: seq<LeafTask>, refs: seq<Ref>)
    requires Serves(b, tasks, refs) && multiset(more) == multiset(tasks)
    ensures Serves(b, more, refs)
  {
    SameElements(more, tasks);
    forall t | 0 <= t < |more|
      ensures Collects(b, more[t], refs)
    {
      assert more[t] in tasks;
    }
    forall i | 0 <= i < |refs|
      ensures HasTask(b, more, refs[i])
    {
      assert HasTask(b, tasks, refs[i]);
      var t :| 0 <= t < |tasks| && KeyOfTask(tasks[t]) == RefKey(b, refs[i]);
      assert tasks[t] in more;
      var u :| 0 <= u < |more| && more[u] == tasks[t];
      assert KeyOfTask(more[u]) == RefKey(b, refs[i]);
    }
  }

  predicate Matches(f: File, b: Batch)
  {
    f.h == b.h && f.order == b.order
  }

  /** The leaf that a reference needs decodes. */
  predicate RefDecodes(f: File, dec: Decoder, b: Batch, r: Ref)
    requires Accepted(f) && Matches(f, b) && ValidRef(b, r)
    requires PhysicalId(f.h, f.order, SuperOfRef(b, r)) < |f.index| && Encode(LeafOfRef(b, r)) < LeafCount(f.h)
  {
    DecodedLeaf(f, dec, SuperOfRef(b, r), LeafOfRef(b, r)).Some?
  }

  /** A task's record is the one its references mean, and it holds their leaf of the decoded volume. */
  lemma TaskLeaf(f: File, dec: Decoder, v: Raw, b: Batch, task: LeafTask, r: Ref)
    requires Readable(f, dec) && VolumeOf(f, dec, v) && Matches(f, b) && ValidRef(b, r)
    requires Addressed(f, task) && KeyOfTask(task) == RefKey(b, r)
    ensures PhysicalId(f.h, f.order, SuperOfRef(b, r)) < |f.index| && Encode(LeafOfRef(b, r)) < LeafCount(f.h)
    ensures dec(task.codec, RecordOf(f, task)).Some? == RefDecodes(f, dec, b, r)
    ensures dec(task.codec, RecordOf(f, task)).Some? ==>
              HoldsLeaf(b.h, v, b.requests[r.request].axis, b.requests[r.request].index, r.key,
                        dec(task.codec, RecordOf(f, task)).value)
  {
    RefInGrid(b, r);
    TaskKeyInjective(task.sb, task.morton, PhysicalId(b.h, b.order, SuperOfRef(b, r)), Encode(LeafOfRef(b, r)));
    AddressedRecord(f, task);
    assert LeafAgrees(f, dec, v, SuperOfRef(b, r), LeafOfRef(b, r));
  }

  // ----- scattering -----

  ghost predicate Outputs(b: Batch, outputs: seq<array<Float>>)
  {
    && |outputs| == |b.requests|
    && (forall p :: 0 <= p < |outputs| ==> outputs[p].Length == SliceSize(b.h, b.requests[p].axis))
    && (forall p, q :: 0 <= p < q < |outputs| ==> outputs[p] != outputs[q])
  }

  /** The cells that the reference covers have their values. */
  ghost predicate RefDone(b: Batch, v: Raw, outputs: seq<array<Float>>, r: Ref)
    requires Outputs(b, outputs) && ValidRef(b, r) && IsRaw(v, b.h.n)
    reads outputs[r.request]
  {
    var q, o := b.requests[r.request], outputs[r.request];
    forall c :: 0 <= c < o.Length && CoversAt(b.h, q.axis, r.key, c) ==> o[c] == SliceCell(b.h, v, q.axis, q.index, c)
  }

  method DeliverScatter(b: Batch, ghost v: Raw, sc: Scatter, ghost r: Ref, leaf: seq<Float>, outputs: seq<array<Float>>)
    requires Outputs(b, outputs) && ValidRef(b, r) && IsRaw(v, b.h.n) && ScatterOf(b, r) == sc
    requires HoldsLeaf(b.h, v, b.requests[r.request].axis, b.requests[r.request].index, r.key, leaf)
    modifies outputs[sc.request]
    ensures RefDone(b, v, outputs, r)
    ensures forall r': Ref :: ValidRef(b, r') && old(RefDone(b, v, outputs, r')) ==> RefDone(b, v, outputs, r')
  {
    var q := b.requests[sc.request];
    DeliverLeaf(b.h, v, q.axis, q.index, sc.op, r.key, leaf, outputs[sc.request]);
  }

  /** All references listed so far are done. */
  ghost predicate RefsDone(b: Batch, v: Raw, outputs: seq<array<Float>>, refs: seq<Ref>)
    requires Outputs(b, outputs) && IsRaw(v, b.h.n) && ValidRefs(b, refs)
    reads outputs
  {
    forall i :: 0 <= i < |refs| ==> RefDone(b, v, outputs, refs[i])
  }

  /** Scatters a decoded leaf to every place of its task. */
  method DeliverTask(b: Batch, ghost v: Raw, task: LeafTask, ghost own: seq<Ref>, leaf: seq<Float>,
                     outputs: seq<array<Float>>, ghost done: seq<Ref>)
    requires Outputs(b, outputs) && IsRaw(v, b.h.n) && ValidRefs(b, own) && ValidRefs(b, done)
    requires |task.scatters| == |own| && forall i :: 0 <= i < |own| ==> ScatterOf(b, own[i]) == task.scatters[i]
    requires forall i :: 0 <= i < |own| ==>
               HoldsLeaf(b.h, v, b.requests[own[i].request].axis, b.requests[own[i].request].index, own[i].key, leaf)
    requires RefsDone(b, v, outputs, done)
    modifies outputs
    ensures RefsDone(b, v, outputs, done) && RefsDone(b, v, outputs, own)
  {
    var i: nat := 0;
    while i < |task.scatters|
      invariant i <= |own| && RefsDone(b, v, outputs, done) && RefsDone(b, v, outputs, own[..i])
    {
      DeliverScatter(b, v, task.scatters[i], own[i], leaf, outputs);
      assert own[..i + 1] == own[..i] + [own[i]];
      i := i + 1;
    }
    assert own[..i] == own;
  }

  /** The bytes handed over decode to the leaf that the task's references mean. */
  ghost predicate HandoffReady(b: Batch, v: Raw, tasks: seq<LeafTask>, refs: seq<Ref>, dec: Decoder, handoff: Handoff)
    requires ValidRefs(b, refs) && IsRaw(v, b.h.n)
  {
    && handoff.task < |tasks|
    && var task := tasks[handoff.task];
       var own := SelectRefs(b, refs, |refs|, KeyOfTask(task));
       && |task.scatters| == |own| && (forall i :: 0 <= i < |own| ==> ScatterOf(b, own[i]) == task.scatters[i])
       && dec(task.codec, handoff.data).Some?
       && forall i :: 0 <= i < |own| ==> HoldsRef(b, v, own[i], dec(task.codec, handoff.data).value)
  }

  ghost predicate HoldsRef(b: Batch, v: Raw, r: Ref, leaf: seq<Float>)
    requires ValidRef(b, r) && IsRaw(v, b.h.n)
  {
    HoldsLeaf(b.h, v, b.requests[r.request].axis, b.requests[r.request].index, r.key, leaf)
  }

  lemma RecordReady(f: File, dec: Decoder, v: Raw, b: Batch, tasks: seq<LeafTask>, refs: seq<Ref>, handoff: Handoff)
    requires Readable(f, dec) && VolumeOf(f, dec, v) && Matches(f, b) && Ready(f, tasks) && Serves(b, tasks, refs)
    requires HandsRecord(f, tasks, handoff) && Decodes(f, tasks, dec, handoff.task)
    ensures HandoffReady(b, v, tasks, refs, dec, handoff)
  {
    var task := tasks[handoff.task];
    var own := SelectRefs(b, refs, |refs|, KeyOfTask(task));
    assert Collects(b, task, refs);
    forall i | 0 <= i < |own|
      ensures HoldsRef(b, v, own[i], dec(task.codec, RecordOf(f, task)).value)
    {
      TaskLeaf(f, dec, v, b, task, own[i]);
    }
  }

  predicate KnownTasks(tasks: seq<LeafTask>, handed: seq<Handoff>)
  {
    forall j :: 0 <= j < |handed| ==> handed[j].task < |tasks|
  }

  ghost function OwnRefs(b: Batch, tasks: seq<LeafTask>, refs: seq<Ref>, handoff: Handoff): (r: seq<Ref>)
    requires ValidRefs(b, refs) && handoff.task < |tasks|
    ensures ValidRefs(b, r)
  {
    SelectRefs(b, refs, |refs|, KeyOfTask(tasks[handoff.task]))
  }

  /** The references of the tasks handed over so far. */
  ghost function RefsOf(b: Batch, tasks: seq<LeafTask>, refs: seq<Ref>, handed: seq<Handoff>, n: nat): (r: seq<Ref>)
    requires ValidRefs(b, refs) && n <= |handed| && KnownTasks(tasks, handed)
    ensures ValidRefs(b, r)
  {
    if n == 0 then [] else RefsOf(b, tasks, refs, handed, n - 1) + OwnRefs(b, tasks, refs, handed[n - 1])
  }

  lemma {:induction false} HandedRef(b: Batch, tasks: seq<LeafTask>, refs: seq<Ref>, handed: seq<Handoff>, n: nat, j: nat, r: Ref)
    requires ValidRefs(b, refs) && n <= |handed| && KnownTasks(tasks, handed)
    requires j < n && r in OwnRefs(b, tasks, refs, handed[j])
    ensures r in RefsOf(b, tasks, refs, handed, n)
  {
    var before, own := RefsOf(b, tasks, refs, handed, n - 1), OwnRefs(b, tasks, refs, handed[n - 1]);
    if j < n - 1 {
      HandedRef(b, tasks, refs, handed, n - 1, j, r);
    }
    assert r in before + own;
  }

  lemma AllRefsHanded(f: File, b: Batch, tasks: seq<LeafTask>, refs: seq<Ref>, handed: seq<Handoff>, r: Ref)
    requires Ready(f, tasks) && Serves(b, tasks, refs) && HandsOverAll(f, tasks, handed) && r in refs
    ensures KnownTasks(tasks, handed) && r in RefsOf(b, tasks, refs, handed, |handed|)
  {
    var i :| 0 <= i < |refs| && refs[i] == r;
    assert HasTask(b, tasks, refs[i]);
    var t :| 0 <= t < |tasks| && KeyOfTask(tasks[t]) == RefKey(b, r);
    assert IsHanded(handed, t);
    var j :| 0 <= j < |handed| && handed[j].task == t;
    HandedRef(b, tasks, refs, handed, |handed|, j, r);
  }

  /** Decodes and scatters what was handed over for one task. */
  method DeliverHandoff(b: Batch, ghost v: Raw, tasks: seq<LeafTask>, ghost refs: seq<Ref>, dec: Decoder,
                        handoff: Handoff, outputs: seq<array<Float>>, ghost done: seq<Ref>)
    requires ValidRefs(b, refs) && IsRaw(v, b.h.n) && HandoffReady(b, v, tasks, refs, dec, handoff)
    requires Outputs(b, outputs) && ValidRefs(b, done) && RefsDone(b, v, outputs, done)
    modifies outputs
    ensures RefsDone(b, v, outputs, done + OwnRefs(b, tasks, refs, handoff))
  {
    var task := tasks[handoff.task];
    ghost var own := OwnRefs(b, tasks, refs, handoff);
    var leaf := dec(task.codec, handoff.data);
    DeliverTask(b, v, task, own, leaf.value, outputs, done);
  }

  /** What was handed over can be delivered, and the first n have been. */
  ghost predicate Delivering(b: Batch, v: Raw, tasks: seq<LeafTask>, refs: seq<Ref>, dec: Decoder, handed: seq<Handoff>,
                             n: nat, outputs: seq<array<Float>>)
    reads outputs
  {
    && ValidRefs(b, refs) && IsRaw(v, b.h.n) && KnownTasks(tasks, handed) && Outputs(b, outputs) && n <= |handed|
    && (forall j :: n <= j < |handed| ==> HandoffReady(b, v, tasks, refs, dec, handed[j]))
    && RefsDone(b, v, outputs, RefsOf(b, tasks, refs, handed, n))
  }

  method DeliverNext(b: Batch, ghost v: Raw, tasks: seq<LeafTask>, ghost refs: seq<Ref>, dec: Decoder,
                     handed: seq<Handoff>, n: nat, outputs: seq<array<Float>>)
    requires n < |handed| && Delivering(b, v, tasks, refs, dec, handed, n, outputs)
    modifies outputs
    ensures Delivering(b, v, tasks, refs, dec, handed, n + 1, outputs)
  {
    ghost var done := RefsOf(b, tasks, refs, handed, n);
    DeliverHandoff(b, v, tasks, refs, dec, handed[n], outputs, done);
    assert RefsOf(b, tasks, refs, handed, n + 1) == done + OwnRefs(b, tasks, refs, handed[n]);
  }

  /** Decodes and scatters everything handed over. */
  method DeliverAll(b: Batch, ghost v: Raw, tasks: seq<LeafTask>, ghost refs: seq<Ref>, dec: Decoder,
                    handed: seq<Handoff>, outputs: seq<array<Float>>)
    requires Delivering(b, v, tasks, refs, dec, handed, 0, outputs)
    modifies outputs
    ensures Delivering(b, v, tasks, refs, dec, handed, |handed|, outputs)
  {
    var n: nat := 0;
    while n < |handed|
      invariant n <= |handed| && Delivering(b, v, tasks, refs, dec, handed, n, outputs)
    {
      DeliverNext(b, v, tasks, refs, dec, handed, n, outputs);
      n := n + 1;
    }
  }

  // ----- whole batches -----

  /** When every reference of a request is done, its output is the slice of the decoded volume. */
  lemma RefsMakeSlice(b: Batch, v: Raw, outputs: seq<array<Float>>, p: nat)
    requires Outputs(b, outputs) && IsRaw(v, b.h.n) && p < |outputs|
    requires forall r: Ref :: ValidRef(b, r) ==> RefDone(b, v, outputs, r)
    ensures IsSlice(outputs[p][..], b.h, v, b.requests[p].axis, b.requests[p].index)
  {
    var q, o := b.requests[p], outputs[p][..];
    if Inner(q.axis, b.h.n) > 0 {
      forall c | 0 <= c < |o|
        ensures o[c] == SliceCell(b.h, v, q.axis, q.index, c)
      {
        var outer, inner := Row(c, Inner(q.axis, b.h.n)), Column(c, Inner(q.axis, b.h.n));
        DivBound(c, Outer(q.axis, b.h.n), Inner(q.axis, b.h.n));
        DivModBack(c, Inner(q.axis, b.h.n));
        CellHasOneKey(b.h, q.axis, outer, inner);
        var r := Ref(p, KeyOf(b.h, q.axis, outer, inner));
        assert ValidRef(b, r) && RefDone(b, v, outputs, r);
      }
    }
  }

  datatype Strategy = Auto | SelectiveLeaf | WholeSuperblock | FullPayloadScan

  /** Every leaf that some request meets decodes. */
  ghost predicate NeededDecode(f: File, dec: Decoder, b: Batch)
    requires Readable(f, dec) && Matches(f, b)
  {
    forall r: Ref :: ValidRef(b, r) ==> RefOk(f, dec, b, r)
  }

  ghost predicate RefOk(f: File, dec: Decoder, b: Batch, r: Ref)
    requires Readable(f, dec) && Matches(f, b) && ValidRef(b, r)
  {
    RefInGrid(b, r);
    RefDecodes(f, dec, b, r)
  }

  /** Decoding all tasks is decoding all leaves that are needed. */
  lemma TasksAreNeeds(f: File, dec: Decoder, v: Raw, b: Batch, tasks: seq<LeafTask>, refs: seq<Ref>)
    requires Readable(f, dec) && VolumeOf(f, dec, v) && Matches(f, b) && Ready(f, tasks) && Serves(b, tasks, refs)
    requires forall r: Ref :: ValidRef(b, r) ==> r in refs
    ensures AllDecodable(f, tasks, dec) <==> NeededDecode(f, dec, b)
  {
    if AllDecodable(f, tasks, dec) {
      forall r: Ref | ValidRef(b, r)
        ensures RefOk(f, dec, b, r)
      {
        var t := TaskOfRef(b, tasks, refs, r);
        assert Decodes(f, tasks, dec, t);
        TaskLeaf(f, dec, v, b, tasks[t], r);
      }
    }
    if NeededDecode(f, dec, b) {
      forall t | 0 <= t < |tasks|
        ensures Decodes(f, tasks, dec, t)
      {
        assert Collects(b, tasks[t], refs);
        var r := SelectRefs(b, refs, |refs|, KeyOfTask(tasks[t]))[0];
        TaskLeaf(f, dec, v, b, tasks[t], r);
        assert RefOk(f, dec, b, r);
      }
    }
  }

  lemma TaskOfRef(b: Batch, tasks: seq<LeafTask>, refs: seq<Ref>, r: Ref) returns (t: nat)
    requires Serves(b, tasks, refs) && ValidRef(b, r) && r in refs
    ensures t < |tasks| && KeyOfTask(tasks[t]) == RefKey(b, r)
  {
    var i :| 0 <= i < |refs| && refs[i] == r;
    assert HasTask(b, tasks, refs[i]);
    t :| 0 <= t < |tasks| && KeyOfTask(tasks[t]) == RefKey(b, r);
  }

  /** The tasks of a batch with their records found, in the order of the file. */
  method PlanBatch(f: File, b: Batch) returns (tasks: seq<LeafTask>, cps: map<nat, seq<nat>>, ghost refs: seq<Ref>)
    requires Accepted(f) && Matches(f, b) && Gapless(LeafGrid(f.h))
    ensures Ready(f, tasks) && Checkpoints(f, cps, tasks, |tasks|) && Serves(b, tasks, refs)
    ensures forall r: Ref :: ValidRef(b, r) ==> r in refs
  {
    var built, logical, duplicates;
    ghost var taskMap;
    built, logical, duplicates, taskMap, refs := BuildLeafTasks(b);
    GroupedServes(b, built, taskMap, refs);
    ServedInFile(f, b, built, refs);
    cps := BuildPrefixCheckpoints(f, built);
    var addressed := ComputeTaskOffsets(f, built, cps);
    SameLeavesServe(b, built, addressed, refs);
    tasks := Sort(addressed, ByRecordOffset());
    PermutedServe(b, addressed, tasks, refs);
    PermutedReady(f, addressed, tasks, cps);
  }

  function ByRecordOffset(): (LeafTask, LeafTask) -> bool
  {
    (a: LeafTask, b: LeafTask) => a.offset <= b.offset
  }

  lemma ServedInFile(f: File, b: Batch, tasks: seq<LeafTask>, refs: seq<Ref>)
    requires Parsed(f) && Matches(f, b) && Serves(b, tasks, refs)
    ensures InFile(f, tasks)
  {
    forall t | 0 <= t < |tasks|
      ensures tasks[t].sb < |f.index| && tasks[t].morton < LeafCount(f.h)
    {
      assert Collects(b, tasks[t], refs);
    }
  }

  lemma PermutedReady(f: File, a: seq<LeafTask>, b: seq<LeafTask>, cps: map<nat, seq<nat>>)
    requires Accepted(f) && Checkpoints(f, cps, a, |a|) && multiset(a) == multiset(b)
    requires forall t :: 0 <= t < |a| ==> Addressed(f, a[t])
    ensures Ready(f, b) && Checkpoints(f, cps, b, |b|)
  {
    SameElements(a, b);
    forall t | 0 <= t < |b|
      ensures Addressed(f, b[t]) && b[t].sb in cps
    {
      assert b[t] in a;
    }
  }

  /** Runs the strategy asked for; all have the same outcome. */
  method Execute(f: File, cfg: Config, cache: BoundedWindowCache?, strategy: Strategy, tasks: seq<LeafTask>,
                 cps: map<nat, seq<nat>>, dec: Decoder)
    returns (ok: bool, handed: seq<Handoff>)
    requires Ready(f, tasks) && Coherent(cache, cfg.fileId, f.bytes) && Checkpoints(f, cps, tasks, |tasks|)
    modifies cache
    ensures Coherent(cache, cfg.fileId, f.bytes)
    ensures ok <==> AllDecodable(f, tasks, dec)
    ensures ok ==> HandsOverAll(f, tasks, handed)
  {
    match strategy
    case SelectiveLeaf => ok, handed := ExecuteSelectiveLeaf(f, cfg, cache, tasks, dec);
    case WholeSuperblock => ok, handed := ExecuteWholeSuperblock(f, cfg, cache, tasks, cps, dec);
    case FullPayloadScan => ok, handed := ExecuteFullPayloadScan(f, cfg, cache, tasks, cps, dec);
    case Auto => ok, handed := ExecuteSelectiveLeaf(f, cfg, cache, tasks, dec);
  }

  lemma StartDelivering(f: File, dec: Decoder, v: Raw, b: Batch, tasks: seq<LeafTask>, refs: seq<Ref>,
                        handed: seq<Handoff>, outputs: seq<array<Float>>)
    requires Readable(f, dec) && VolumeOf(f, dec, v) && Matches(f, b) && Ready(f, tasks) && Serves(b, tasks, refs)
    requires AllDecodable(f, tasks, dec) && HandsOverAll(f, tasks, handed) && Outputs(b, outputs)
    ensures Delivering(b, v, tasks, refs, dec, handed, 0, outputs)
  {
    forall j | 0 <= j < |handed|
      ensures HandoffReady(b, v, tasks, refs, dec, handed[j])
    {
      assert Decodes(f, tasks, dec, handed[j].task);
      RecordReady(f, dec, v, b, tasks, refs, handed[j]);
    }
  }

  lemma FinishDelivering(f: File, dec: Decoder, v: Raw, b: Batch, tasks: seq<LeafTask>, refs: seq<Ref>,
                         handed: seq<Handoff>, outputs: seq<array<Float>>)
    requires Ready(f, tasks) && Serves(b, tasks, refs) && HandsOverAll(f, tasks, handed)
    requires Delivering(b, v, tasks, refs, dec, handed, |handed|, outputs)
    requires forall r: Ref :: ValidRef(b, r) ==> r in refs
    ensures forall p :: 0 <= p < |outputs| ==> IsSlice(outputs[p][..], b.h, v, b.requests[p].axis, b.requests[p].index)
  {
    forall r: Ref | ValidRef(b, r)
      ensures RefDone(b, v, outputs, r)
    {
      AllRefsHanded(f, b, tasks, refs, handed, r);
    }
    forall p | 0 <= p < |outputs|
      ensures IsSlice(outputs[p][..], b.h, v, b.requests[p].axis, b.requests[p].index)
    {
      RefsMakeSlice(b, v, outputs, p);
    }
  }

  /**
   * Reads a batch of slices, duplicates included. Whatever the strategy, the window size and the cache, it succeeds
   * exactly when every leaf needed decodes, and then every output is its slice of the decoded volume.
   */
  method ReadSlicesBatch(f: File, cfg: Config, cache: BoundedWindowCache?, strategy: Strategy, dec: Decoder,
                         ghost v: Raw, b: Batch, outputs: seq<array<Float>>)
    returns (ok: bool)
    requires Readable(f, dec) && VolumeOf(f, dec, v) && Matches(f, b) && Outputs(b, outputs)
    requires Coherent(cache, cfg.fileId, f.bytes)
    modifies cache, outputs
    ensures ok <==> b.requests != [] && NeededDecode(f, dec, b)
    ensures ok ==> forall p :: 0 <= p < |outputs| ==>
                     IsSlice(outputs[p][..], b.h, v, b.requests[p].axis, b.requests[p].index)
  {
    if b.requests == [] {
      return false;
    }
    var tasks, cps;
    ghost var refs;
    tasks, cps, refs := PlanBatch(f, b);
    TasksAreNeeds(f, dec, v, b, tasks, refs);
    var handed;
    ok, handed := Execute(f, cfg, cache, strategy, tasks, cps, dec);
    if ok {
      StartDelivering(f, dec, v, b, tasks, refs, handed, outputs);
      DeliverAll(b, v, tasks, refs, dec, handed, outputs);
      FinishDelivering(f, dec, v, b, tasks, refs, handed, outputs);
    }
  }
}
