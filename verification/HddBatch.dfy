/** Reading many slices at once: the superblocks of all plans, sorted over the file, in shared windows. */
module HddBatch {
  import opened Basics
  import opened Float32
  import opened Layout
  import opened SlicePlan
  import opened SliceReader
  import opened Sorting
  import opened HddReader

  /** One request, its plan and its keys. */
  datatype Part = Part(request: Request, plan: Plan, keys: seq<Key>)

  /** A superblock that one of the plans needs. */
  datatype Unit = Unit(offset: nat, plan: nat, task: nat)

  predicate IsUnit(plans: seq<Plan>, u: Unit)
  {
    u.plan < |plans| && u.task < |plans[u.plan].tasks| && u.offset == plans[u.plan].tasks[u.task].fileOffset
  }

  function PlansOf(parts: seq<Part>): (plans: seq<Plan>)
    ensures |plans| == |parts| && forall p :: 0 <= p < |parts| ==> plans[p] == parts[p].plan
  {
    seq(|parts|, p requires 0 <= p < |parts| => parts[p].plan)
  }

  /** All units are of the plans, and every task before task t of plan p is among them. */
  ghost predicate Collected(plans: seq<Plan>, units: seq<Unit>, p: nat, t: nat)
  {
    && (forall i :: 0 <= i < |units| ==> IsUnit(plans, units[i]))
    && (forall q: nat, s: nat :: q < |plans| && s < |plans[q].tasks| && (q < p || (q == p && s < t)) ==>
          Unit(plans[q].tasks[s].fileOffset, q, s) in units)
  }

  /** No unit is listed twice, and none is of a task from task t of plan p on. */
  predicate ListedOnce(units: seq<Unit>, p: nat, t: nat)
  {
    Distinct(units) && forall i :: 0 <= i < |units| ==> units[i].plan < p || (units[i].plan == p && units[i].task < t)
  }

  function ByOffset(): (Unit, Unit) -> bool
  {
    (a: Unit, b: Unit) => a.offset <= b.offset
  }

  /** The tasks of one plan. */
  method CollectPlan(plans: seq<Plan>, p: nat, units: seq<Unit>) returns (units': seq<Unit>)
    requires p < |plans| && Collected(plans, units, p, 0) && ListedOnce(units, p, 0)
    ensures Collected(plans, units', p + 1, 0) && ListedOnce(units', p + 1, 0)
  {
    units' := units;
    var t: nat := 0;
    while t < |plans[p].tasks|
      invariant t <= |plans[p].tasks| && Collected(plans, units', p, t) && ListedOnce(units', p, t)
    {
      units' := units' + [Unit(plans[p].tasks[t].fileOffset, p, t)];
      t := t + 1;
    }
  }

  /** The tasks of all plans, each once, in the order of the file. */
  method BuildBatchPlan(plans: seq<Plan>) returns (units: seq<Unit>)
    ensures Collected(plans, units, |plans|, 0) && Distinct(units) && SortedBy(units, ByOffset())
  {
    var all: seq<Unit> := [];
    var p: nat := 0;
    while p < |plans|
      invariant p <= |plans| && Collected(plans, all, p, 0) && ListedOnce(all, p, 0)
    {
      all := CollectPlan(plans, p, all);
      p := p + 1;
    }
    units := Sort(all, ByOffset());
    SameElements(units, all);
    DistinctPermuted(all, units);
    forall i | 0 <= i < |units|
      ensures IsUnit(plans, units[i])
    {
      assert units[i] in all;
    }
  }

  /** In whatever order units with equal offsets are listed, each window of the batch is served. */
  ghost predicate BatchServed(plans: seq<Plan>, block: nat, readWindow: nat, maxGap: nat, share: nat)
  {
    forall units: seq<Unit> :: Collected(plans, units, |plans|, 0) && Distinct(units) && SortedBy(units, ByOffset()) ==>
      AllServed(OffsetsOf(units), block, readWindow, maxGap, share)
  }

  /** The volume, and a plan for each request. */
  ghost predicate BatchJob(file: seq<Float>, h: Header, raw: Raw, parts: seq<Part>)
  {
    forall p :: 0 <= p < |parts| ==>
      Job(file, h, raw, parts[p].request.axis, parts[p].request.index, parts[p].plan, parts[p].keys)
  }

  /** One output for each request, all different. */
  predicate Outputs(h: Header, parts: seq<Part>, outputs: seq<array<Float>>)
  {
    && |outputs| == |parts|
    && (forall p :: 0 <= p < |outputs| ==> outputs[p].Length == SliceSize(h, parts[p].request.axis))
    && (forall p, q :: 0 <= p < q < |outputs| ==> outputs[p] != outputs[q])
  }

  /** The cells that the task covers have their values. */
  ghost predicate TaskDone(h: Header, raw: Raw, r: Request, keys: seq<Key>, task: Task, output: seq<Float>)
    requires IsRaw(raw, h.n)
  {
    Inner(r.axis, h.n) > 0 && |output| == SliceSize(h, r.axis) &&
    forall c :: 0 <= c < |output| && CoveredByTask(h, r.axis, keys, task, c) ==>
      output[c] == SliceCell(h, raw, r.axis, r.index, c)
  }

  ghost predicate UnitDone(h: Header, raw: Raw, parts: seq<Part>, u: Unit, output: seq<Float>)
    requires IsRaw(raw, h.n)
  {
    && u.plan < |parts| && u.task < |parts[u.plan].plan.tasks|
    && TaskDone(h, raw, parts[u.plan].request, parts[u.plan].keys, parts[u.plan].plan.tasks[u.task], output)
  }

  /** The first n units are done. */
  ghost predicate UnitsDone(h: Header, raw: Raw, parts: seq<Part>, units: seq<Unit>, n: nat, outputs: seq<array<Float>>)
    requires IsRaw(raw, h.n) && n <= |units|
    reads outputs
  {
    forall i :: 0 <= i < n ==> units[i].plan < |outputs| && UnitDone(h, raw, parts, units[i], outputs[units[i].plan][..])
  }

  /** Scattering a task's leaves does the task, and leaves done what was done. */
  method UnpackUnit(ghost file: seq<Float>, h: Header, ghost raw: Raw, r: Request, plan: Plan, ghost keys: seq<Key>,
                    task: Task, buffer: seq<Float>, output: array<Float>)
    requires Job(file, h, raw, r.axis, r.index, plan, keys) && output.Length == SliceSize(h, r.axis)
    requires TaskOk(h, r.axis, r.index, task, keys) && task.fileOffset + Volume(h.super) <= |file|
    requires buffer == file[task.fileOffset..task.fileOffset + Volume(h.super)]
    modifies output
    ensures TaskDone(h, raw, r, keys, task, output[..])
    ensures forall t: Task :: old(TaskDone(h, raw, r, keys, t, output[..])) ==> TaskDone(h, raw, r, keys, t, output[..])
  {
    TaskBuffer(file, h, raw, r.axis, r.index, keys, task);
    UnpackLeaves(h, raw, r.axis, r.index, plan, keys, task, buffer, output);
  }

  function OffsetsOf(units: seq<Unit>): seq<nat>
  {
    seq(|units|, i requires 0 <= i < |units| => units[i].offset)
  }

  /** A unit's superblock lies in the file at a multiple of the superblock size behind the header. */
  lemma UnitOffset(file: seq<Float>, h: Header, raw: Raw, parts: seq<Part>, u: Unit)
    requires BatchJob(file, h, raw, parts) && IsUnit(PlansOf(parts), u)
    ensures var part := parts[u.plan];
            var task := part.plan.tasks[u.task];
            && TaskOk(h, part.request.axis, part.request.index, task, part.keys)
            && u.offset == SuperblockOffset(h, task.sbIndex) && u.offset + Volume(h.super) <= |file|
  {
    var part := parts[u.plan];
    var task := part.plan.tasks[u.task];
    assert TaskOk(h, part.request.axis, part.request.index, task, part.keys);
    TaskBuffer(file, h, raw, part.request.axis, part.request.index, part.keys, task);
  }

  lemma OffsetsApart(a: Unit, b: Unit, h: Header, sa: nat, sb: nat, block: nat)
    requires block == Volume(h.super) > 0 && a.offset == SuperblockOffset(h, sa) && b.offset == SuperblockOffset(h, sb)
    requires a.offset <= b.offset
    ensures (b.offset - a.offset) % block == 0
  {
    if sa <= sb {
      BlocksApart(sa, sb, block);
    } else {
      BlocksApart(sb, sa, block);
    }
  }

  /** Units of different plans lie whole superblocks apart, too. */
  lemma UnitsAligned(file: seq<Float>, h: Header, raw: Raw, parts: seq<Part>, units: seq<Unit>)
    requires BatchJob(file, h, raw, parts) && Volume(h.super) > 0
    requires Collected(PlansOf(parts), units, |parts|, 0) && SortedBy(units, ByOffset())
    ensures Aligned(OffsetsOf(units), Volume(h.super))
  {
    forall i, j | 0 <= i <= j < |units|
      ensures units[i].offset <= units[j].offset
      ensures Multiple(units[j].offset - units[i].offset, Volume(h.super))
    {
      assert i < j ==> ByOffset()(units[i], units[j]);
      UnitPair(file, h, raw, parts, units[i], units[j]);
    }
    AllAligned(units, Volume(h.super));
  }

  predicate Multiple(a: int, block: nat)
    requires block > 0
  {
    a % block == 0
  }

  lemma AllAligned(units: seq<Unit>, block: nat)
    requires block > 0
    requires forall i, j :: 0 <= i <= j < |units| ==>
               units[i].offset <= units[j].offset && Multiple(units[j].offset - units[i].offset, block)
    ensures Aligned(OffsetsOf(units), block)
  {
  }

  lemma UnitPair(file: seq<Float>, h: Header, raw: Raw, parts: seq<Part>, a: Unit, b: Unit)
    requires BatchJob(file, h, raw, parts) && Volume(h.super) > 0
    requires IsUnit(PlansOf(parts), a) && IsUnit(PlansOf(parts), b) && a.offset <= b.offset
    ensures Multiple(b.offset - a.offset, Volume(h.super))
  {
    UnitOffset(file, h, raw, parts, a);
    UnitOffset(file, h, raw, parts, b);
    OffsetsApart(a, b, h, parts[a.plan].plan.tasks[a.task].sbIndex, parts[b.plan].plan.tasks[b.task].sbIndex,
                 Volume(h.super));
  }

  // ----- executing -----

  /** What stays fixed while the windows are read. */
  ghost predicate Executing(file: seq<Float>, h: Header, raw: Raw, parts: seq<Part>, units: seq<Unit>,
                            outputs: seq<array<Float>>)
  {
    BatchJob(file, h, raw, parts) && IsRaw(raw, h.n) && Outputs(h, parts, outputs)
    && Collected(PlansOf(parts), units, |parts|, 0)
  }

  /** A window ends with a unit's superblock, so it lies in the file. */
  lemma WindowInFile(file: seq<Float>, h: Header, raw: Raw, parts: seq<Part>, units: seq<Unit>,
                     outputs: seq<array<Float>>, w: Window)
    requires Executing(file, h, raw, parts, units, outputs) && Holds(w, OffsetsOf(units), Volume(h.super))
    ensures End(w) <= |file|
  {
    var last: nat := w.first + w.count - 1;
    InWindow(w, units, Volume(h.super), last);
    UnitAt(PlansOf(parts), units, |parts|, last);
    UnitOffset(file, h, raw, parts, units[last]);
  }

  lemma UnitAt(plans: seq<Plan>, units: seq<Unit>, p: nat, i: nat)
    requires Collected(plans, units, p, 0) && i < |units|
    ensures IsUnit(plans, units[i])
  {
  }

  /** A unit's superblock, found in what was read of its window. */
  lemma UnitHeld(file: seq<Float>, units: seq<Unit>, w: Window, i: nat, block: nat)
    requires Holds(w, OffsetsOf(units), block) && w.first <= i < w.first + w.count && End(w) <= |file|
    ensures w.offset <= units[i].offset && units[i].offset - w.offset + block <= w.size
    ensures var at, u := units[i].offset - w.offset, units[i];
            file[w.offset..End(w)][at..at + block] == file[u.offset..u.offset + block]
  {
    InWindow(w, units, block, i);
    PartOfRead(file, w.offset, w.size, units[i].offset - w.offset, block);
  }

  lemma InWindow(w: Window, units: seq<Unit>, block: nat, i: nat)
    requires Holds(w, OffsetsOf(units), block) && w.first <= i < w.first + w.count
    ensures w.first + w.count <= |units| && w.offset <= units[i].offset && units[i].offset + block <= End(w)
    ensures units[w.first + w.count - 1].offset + block == End(w)
  {
    assert OffsetsOf(units)[i] == units[i].offset;
  }

  /** Unpacks one unit; what was done stays done. */
  method UnpackInto(ghost file: seq<Float>, h: Header, ghost raw: Raw, parts: seq<Part>, u: Unit, buffer: seq<Float>,
                    outputs: seq<array<Float>>)
    requires BatchJob(file, h, raw, parts) && IsRaw(raw, h.n) && Outputs(h, parts, outputs) && IsUnit(PlansOf(parts), u)
    requires u.offset + Volume(h.super) <= |file| && buffer == file[u.offset..u.offset + Volume(h.super)]
    modifies outputs
    ensures UnitDone(h, raw, parts, u, outputs[u.plan][..])
    ensures forall v: Unit :: v.plan < |outputs| && old(UnitDone(h, raw, parts, v, outputs[v.plan][..])) ==>
              UnitDone(h, raw, parts, v, outputs[v.plan][..])
  {
    UnitOffset(file, h, raw, parts, u);
    var part := parts[u.plan];
    assert Job(file, h, raw, part.request.axis, part.request.index, part.plan, part.keys);
    UnpackUnit(file, h, raw, part.request, part.plan, part.keys, part.plan.tasks[u.task], buffer, outputs[u.plan]);
  }

  /** The superblock of unit i in the buffer of its window. */
  lemma CutOut(file: seq<Float>, h: Header, raw: Raw, parts: seq<Part>, units: seq<Unit>, outputs: seq<array<Float>>,
               w: Window, i: nat, buffer: seq<Float>)
    requires Executing(file, h, raw, parts, units, outputs) && Holds(w, OffsetsOf(units), Volume(h.super))
    requires w.first <= i < w.first + w.count && End(w) <= |file| && buffer == file[w.offset..End(w)]
    ensures i < |units| && IsUnit(PlansOf(parts), units[i]) && units[i].offset + Volume(h.super) <= |file|
    ensures w.offset <= units[i].offset && units[i].offset - w.offset + Volume(h.super) <= |buffer|
    ensures var at, block := units[i].offset - w.offset, Volume(h.super);
            buffer[at..at + block] == file[units[i].offset..units[i].offset + block]
  {
    UnitHeld(file, units, w, i, Volume(h.super));
    UnitAt(PlansOf(parts), units, |parts|, i);
    UnitOffset(file, h, raw, parts, units[i]);
  }

  /** Unpacks unit i from its superblock. */
  method DoNext(ghost file: seq<Float>, h: Header, ghost raw: Raw, parts: seq<Part>, units: seq<Unit>, i: nat,
                buffer: seq<Float>, outputs: seq<array<Float>>)
    requires BatchJob(file, h, raw, parts) && IsRaw(raw, h.n) && Outputs(h, parts, outputs)
    requires i < |units| && IsUnit(PlansOf(parts), units[i]) && units[i].offset + Volume(h.super) <= |file|
    requires buffer == file[units[i].offset..units[i].offset + Volume(h.super)]
    requires UnitsDone(h, raw, parts, units, i, outputs)
    modifies outputs
    ensures UnitsDone(h, raw, parts, units, i + 1, outputs)
  {
    UnpackInto(file, h, raw, parts, units[i], buffer, outputs);
  }

  /** Unpacks unit i from its window. */
  method UnpackNext(ghost file: seq<Float>, h: Header, ghost raw: Raw, parts: seq<Part>, units: seq<Unit>,
                    w: Window, buffer: seq<Float>, i: nat, outputs: seq<array<Float>>)
    requires Executing(file, h, raw, parts, units, outputs) && Holds(w, OffsetsOf(units), Volume(h.super))
    requires w.first <= i < w.first + w.count && End(w) <= |file| && buffer == file[w.offset..End(w)]
    requires UnitsDone(h, raw, parts, units, i, outputs)
    modifies outputs
    ensures UnitsDone(h, raw, parts, units, i + 1, outputs)
  {
    CutOut(file, h, raw, parts, units, outputs, w, i, buffer);
    var at: nat := units[i].offset - w.offset;
    DoNext(file, h, raw, parts, units, i, buffer[at..at + Volume(h.super)], outputs);
  }

  /** One window: read at once, then unpacked unit by unit. */
  method ReadWindow(file: seq<Float>, h: Header, ghost raw: Raw, parts: seq<Part>, units: seq<Unit>, w: Window,
                    capacity: nat, outputs: seq<array<Float>>)
    requires Executing(file, h, raw, parts, units, outputs) && Holds(w, OffsetsOf(units), Volume(h.super))
    requires w.size <= capacity && UnitsDone(h, raw, parts, units, w.first, outputs)
    modifies outputs
    ensures UnitsDone(h, raw, parts, units, w.first + w.count, outputs)
  {
    WindowInFile(file, h, raw, parts, units, outputs, w);
    var buffer := ReadInto(file, w.offset, w.size, capacity);
    var j: nat := 0;
    while j < w.count
      invariant j <= w.count && UnitsDone(h, raw, parts, units, w.first + j, outputs)
    {
      UnpackNext(file, h, raw, parts, units, w, buffer, w.first + j, outputs);
      j := j + 1;
    }
  }

  /** The loop over the windows. */
  method ReadWindows(file: seq<Float>, h: Header, ghost raw: Raw, parts: seq<Part>, units: seq<Unit>,
                     windows: seq<Window>, capacity: nat, outputs: seq<array<Float>>)
    requires Executing(file, h, raw, parts, units, outputs)
    requires PiecesOk(windows, OffsetsOf(units), Volume(h.super), capacity, |units|)
    modifies outputs
    ensures UnitsDone(h, raw, parts, units, |units|, outputs)
  {
    var i: nat := 0;
    NextPiece(windows, OffsetsOf(units), Volume(h.super), capacity, |units|, 0);
    while i < |windows|
      invariant i <= |windows| && StartOf(windows, |units|, i) <= |units|
      invariant UnitsDone(h, raw, parts, units, StartOf(windows, |units|, i), outputs)
    {
      NextPiece(windows, OffsetsOf(units), Volume(h.super), capacity, |units|, i);
      ReadWindow(file, h, raw, parts, units, windows[i], capacity, outputs);
      i := i + 1;
    }
  }

  /** When all units are done every output is its slice. */
  lemma AllSlices(file: seq<Float>, h: Header, raw: Raw, parts: seq<Part>, units: seq<Unit>,
                  outputs: seq<array<Float>>, p: nat)
    requires Executing(file, h, raw, parts, units, outputs) && UnitsDone(h, raw, parts, units, |units|, outputs)
    requires p < |parts|
    ensures IsSlice(outputs[p][..], h, raw, parts[p].request.axis, parts[p].request.index)
  {
    var part, r := parts[p], parts[p].request;
    assert Job(file, h, raw, r.axis, r.index, part.plan, part.keys);
    if Inner(r.axis, h.n) > 0 {
      forall c | 0 <= c < outputs[p].Length
        ensures outputs[p][c] == SliceCell(h, raw, r.axis, r.index, c)
      {
        var t := TaskCovering(h, r.axis, r.index, part.plan, part.keys, c);
        var u := Unit(part.plan.tasks[t].fileOffset, p, t);
        assert PlansOf(parts)[p] == part.plan && u in units;
        var k :| 0 <= k < |units| && units[k] == u;
        assert UnitDone(h, raw, parts, units[k], outputs[p][..]);
      }
    }
  }

  /** Every cell of a slice is covered by some task of its plan. */
  lemma TaskCovering(h: Header, axis: Axis, index: nat, plan: Plan, keys: seq<Key>, c: nat) returns (t: nat)
    requires Valid(h) && PlanOk(h, axis, index, plan, keys) && c < SliceSize(h, axis) && Inner(axis, h.n) > 0
    ensures t < |plan.tasks| && CoveredByTask(h, axis, keys, plan.tasks[t], c)
  {
    var order := InOrder(|plan.tasks|);
    AllCovered(h, axis, index, plan, keys, order, c);
    var u :| 0 <= u < |order| && CoveredByTask(h, axis, keys, plan.tasks[order[u]], c);
    t := order[u];
  }

  /**
   * Reading a batch of slices, with one thread, as many plans share outputs, or with the threads given for a single
   * plan. Refused exactly when a thread's share cannot hold a superblock; otherwise, when every window fits that share
   * or may be split, every output is its slice.
   */
  method ExecuteBatch(file: seq<Float>, h: Header, ghost raw: Raw, parts: seq<Part>, readWindow: nat, maxGap: nat,
                      limit: nat, threads: nat, outputs: seq<array<Float>>) returns (ok: bool, perThread: nat)
    requires BatchJob(file, h, raw, parts) && IsRaw(raw, h.n) && Valid(h) && Outputs(h, parts, outputs)
    requires threads > 0
    requires Volume(h.super) <= Pieces(limit, ThreadsFor(parts, threads)) ==>
               BatchServed(PlansOf(parts), Volume(h.super), readWindow, maxGap, Pieces(limit, ThreadsFor(parts, threads)))
    modifies outputs
    ensures ok <==> (forall p :: 0 <= p < |parts| ==> parts[p].plan.tasks == [])
                    || Volume(h.super) <= Pieces(limit, ThreadsFor(parts, threads))
    ensures ok ==> forall p :: 0 <= p < |parts| ==>
                     IsSlice(outputs[p][..], h, raw, parts[p].request.axis, parts[p].request.index)
    ensures !ok ==> forall p :: 0 <= p < |outputs| ==> outputs[p][..] == old(outputs[p][..])
    ensures ThreadsFor(parts, threads) * perThread <= limit
  {
    perThread := 0;
    var units := BuildBatchPlan(PlansOf(parts));
    NoUnits(parts, units);
    ok := units == [];
    if !ok {
      LeafGridExact(h);
      VolumePositive(h.super);
      UnitsAligned(file, h, raw, parts, units);
      var capacity, windows := WindowReads(OffsetsOf(units), Volume(h.super), readWindow, maxGap, limit,
                                           ThreadsFor(parts, threads));
      ok := capacity.Some?;
      if ok {
        perThread := capacity.value;
        ReadWindows(file, h, raw, parts, units, windows, capacity.value, outputs);
      }
    }
    if ok {
      forall p | 0 <= p < |parts|
        ensures IsSlice(outputs[p][..], h, raw, parts[p].request.axis, parts[p].request.index)
      {
        AllSlices(file, h, raw, parts, units, outputs, p);
      }
    }
  }

  /** Several plans are read by one thread. */
  function ThreadsFor(parts: seq<Part>, threads: nat): (n: nat)
    requires threads > 0
    ensures n > 0
  {
    if |parts| > 1 then 1 else threads
  }

  lemma NoUnits(parts: seq<Part>, units: seq<Unit>)
    requires Collected(PlansOf(parts), units, |parts|, 0)
    ensures units == [] <==> forall p :: 0 <= p < |parts| ==> parts[p].plan.tasks == []
  {
    if units != [] {
      assert IsUnit(PlansOf(parts), units[0]);
    }
    forall p | 0 <= p < |parts| && parts[p].plan.tasks != []
      ensures units != []
    {
      HasUnit(parts, units, p);
    }
  }

  lemma HasUnit(parts: seq<Part>, units: seq<Unit>, p: nat)
    requires Collected(PlansOf(parts), units, |parts|, 0) && p < |parts| && parts[p].plan.tasks != []
    ensures units != []
  {
    assert Unit(PlansOf(parts)[p].tasks[0].fileOffset, p, 0) in units;
  }
}
