/** Reading slices: unpacking the leaves of superblocks read from the file. */
module SliceReader {
  import opened Basics
  import opened Float32
  import opened Morton
  import opened Layout
  import opened SlicePlan

  /** Cell p of the slice of the raw volume at index along the axis. */
  function SliceCell(h: Header, raw: Raw, axis: Axis, index: nat, p: nat): Float
    requires IsRaw(raw, h.n) && Inner(axis, h.n) > 0
  {
    Padded(raw, h.n, Make(axis, index, Row(p, Inner(axis, h.n)), Column(p, Inner(axis, h.n))))
  }

  function SliceSize(h: Header, axis: Axis): nat
  {
    Outer(axis, h.n) * Inner(axis, h.n)
  }

  /** Cell p of the output lies in the block the leaf fills. */
  predicate CoversAt(h: Header, axis: Axis, k: Key, p: nat)
    requires Inner(axis, h.n) > 0
  {
    Covers(h, axis, k, Row(p, Inner(axis, h.n)), Column(p, Inner(axis, h.n)))
  }

  /** Cell r of a leaf lies in the volume; a leaf at the face of the volume has cells beyond it. */
  predicate CellInVolume(h: Header, s: Coord, leaf: Coord, r: nat)
    requires Valid(h)
  {
    InBox(Add(Add(Times(s, h.super), Times(leaf, h.leaf)), Unflat(r, h.leaf)), h.n)
  }

  /** The cells are those of the leaf, wherever it lies in the volume. */
  ghost predicate IsLeaf(h: Header, raw: Raw, s: Coord, leaf: Coord, cells: seq<Float>)
    requires Valid(h) && IsRaw(raw, h.n)
  {
    && |cells| == Volume(h.leaf)
    && forall r :: 0 <= r < |cells| && CellInVolume(h, s, leaf, r) ==> cells[r] == LeafCell(h, raw, s, leaf, r)
  }

  /** Cell r of leaf l of superblock s is at its X-fastest place in the leaf and its Z-fastest place in the volume. */
  lemma LeafCellAt(h: Header, raw: Raw, s: Coord, l: Coord, r: Coord, cells: seq<Float>, cell: nat, q: nat)
    requires Valid(h) && IsRaw(raw, h.n) && IsLeaf(h, raw, s, l, cells)
    requires InBox(r, h.leaf) && InBox(CellOf(h, s, l, r), h.n) && cell == (r.z * h.leaf.y + r.y) * h.leaf.x + r.x
    requires var c := CellOf(h, s, l, r); q == (c.x * h.n.y + c.y) * h.n.z + c.z
    ensures cell < |cells| && q < |raw| && raw[q] == cells[cell]
  {
    FlatInBox(r, h.leaf);
    RawIndexBound(CellOf(h, s, l, r), h.n);
    assert Add(Add(Times(s, h.super), Times(l, h.leaf)), r) == CellOf(h, s, l, r);
  }

  /** The leaf holds the cells of the volume that key k of the slice stands for. */
  ghost predicate HoldsLeaf(h: Header, raw: Raw, axis: Axis, index: nat, k: Key, leaf: seq<Float>)
    requires Valid(h) && IsRaw(raw, h.n)
  {
    IsLeaf(h, raw, SuperOf(h, axis, index, k), LeafOf(h, axis, index, k), leaf)
  }

  lemma LeafCoordinates(h: Header, axis: Axis, index: nat, k: Key, a: nat, b: nat)
    requires Valid(h) && ValidKey(h, axis, k) && Covers(h, axis, k, a, b) && index < Fixed(axis, h.n)
    ensures var param := index % Fixed(axis, h.super) % Fixed(axis, h.leaf);
            var c := Make(axis, param, a - FirstOuter(h, axis, k), b - FirstInner(h, axis, k));
            && InBox(c, h.leaf)
            && Add(Add(Times(SuperOf(h, axis, index, k), h.super), Times(LeafOf(h, axis, index, k), h.leaf)), c)
               == Make(axis, index, a, b)
  {
    LocateOnAxis(index, Fixed(axis, h.n), Fixed(axis, h.super), Fixed(axis, h.leaf));
    DivModBack(index % Fixed(axis, h.super), Fixed(axis, h.leaf));
  }

  lemma OpForFits(h: Header, axis: Axis, index: nat, k: Key)
    requires Valid(h) && ValidKey(h, axis, k) && index < Fixed(axis, h.n)
    ensures var op := OpFor(h, axis, index, k);
            && OpFits(h, op) && op.outStride > 0
            && FirstInner(h, axis, k) + op.vInner <= op.outStride
            && (FirstOuter(h, axis, k) + op.vOuter) * op.outStride <= SliceSize(h, axis)
  {
    var op := OpFor(h, axis, index, k);
    DivModBack(index % Fixed(axis, h.super), Fixed(axis, h.leaf));
    MulMono(FirstOuter(h, axis, k) + op.vOuter, Outer(axis, h.n), op.outStride);
  }

  /** Scattering its leaf gives exactly the cells a key covers their values in the slice. */
  lemma OpDelivers(h: Header, raw: Raw, axis: Axis, index: nat, k: Key, leaf: seq<Float>, p: nat, other: Float)
    requires Valid(h) && IsRaw(raw, h.n) && ValidKey(h, axis, k) && index < Fixed(axis, h.n)
    requires HoldsLeaf(h, raw, axis, index, k, leaf) && OpFits(h, OpFor(h, axis, index, k))
    requires p < SliceSize(h, axis) && Inner(axis, h.n) > 0 && OpFor(h, axis, index, k).outStride > 0
    ensures Scattered(h, OpFor(h, axis, index, k), leaf, FirstOuter(h, axis, k), FirstInner(h, axis, k), p, other)
            == if CoversAt(h, axis, k, p) then SliceCell(h, raw, axis, index, p)
               else other
  {
    var op := OpFor(h, axis, index, k);
    var a, b := Row(p, Inner(axis, h.n)), Column(p, Inner(axis, h.n));
    DivBound(p, Outer(axis, h.n), Inner(axis, h.n));
    DivModBack(p, Inner(axis, h.n));
    if Covers(h, axis, k, a, b) {
      var outer, inner := a - FirstOuter(h, axis, k), b - FirstInner(h, axis, k);
      LeafCoordinates(h, axis, index, k, a, b);
      LeafIndexInLeaf(h, op, outer, inner);
      FlatInBox(Make(axis, op.param, outer, inner), h.leaf);
    }
  }

  /** Some operation from first up to last covers cell p. */
  ghost predicate CoveredBy(h: Header, axis: Axis, keys: seq<Key>, first: nat, last: nat, p: nat)
    requires Inner(axis, h.n) > 0
  {
    exists i :: first <= i < last && i < |keys| && CoversAt(h, axis, keys[i], p)
  }

  /** The superblock buffer holds the superblock that key k of the slice lies in. */
  ghost predicate HoldsSuperblock(h: Header, raw: Raw, axis: Axis, index: nat, k: Key, buffer: seq<Float>)
    requires Valid(h) && IsRaw(raw, h.n) && Volume(h.leaf) > 0
  {
    |buffer| == Volume(h.super) && PackedUpTo(buffer, h, raw, SuperOf(h, axis, index, k), |buffer|)
  }

  lemma LeafInGrid(h: Header, axis: Axis, index: nat, k: Key)
    requires Valid(h) && ValidKey(h, axis, k) && index < Fixed(axis, h.n)
    ensures InBox(LeafOf(h, axis, index, k), LeafGrid(h))
    ensures InBox(SuperOf(h, axis, index, k), SuperGrid(h))
  {
    LocateOnAxis(index, Fixed(axis, h.n), Fixed(axis, h.super), Fixed(axis, h.leaf));
  }

  /** Every leaf of a superblock lies wholly inside it when the Morton order has no hole. */
  lemma LeafSlot(h: Header, leaf: Coord, code: nat, from: nat, v: nat)
    requires Valid(h) && Gapless(LeafGrid(h)) && InBox(leaf, LeafGrid(h)) && v == Volume(h.leaf)
    requires code == Encode(leaf) && from == code * v
    ensures Decode(code) == leaf && from + v <= Volume(h.super)
  {
    DecodeEncode(leaf);
    assert InBox(Decode(code), LeafGrid(h));
    LeafGridExact(h);
    MulNext(code, v);
    MulMono(code + 1, Volume(LeafGrid(h)), v);
  }

  lemma PackedSlot(h: Header, raw: Raw, s: Coord, buffer: seq<Float>, code: nat, from: nat, v: nat)
    requires Valid(h) && IsRaw(raw, h.n) && v == Volume(h.leaf) > 0 && from == code * v && from + v <= |buffer|
    requires PackedUpTo(buffer, h, raw, s, |buffer|)
    ensures forall r :: 0 <= r < v ==> buffer[from..from + v][r] == LeafCell(h, raw, s, Decode(code), r)
  {
    forall r | 0 <= r < v
      ensures buffer[from + r] == LeafCell(h, raw, s, Decode(code), r)
    {
      PackedLeaf(h, raw, s, code, r);
    }
  }

  lemma LeafInBuffer(h: Header, raw: Raw, axis: Axis, index: nat, k: Key, buffer: seq<Float>, from: nat, v: nat)
    requires Valid(h) && IsRaw(raw, h.n) && v == Volume(h.leaf) > 0 && Gapless(LeafGrid(h))
    requires ValidKey(h, axis, k) && index < Fixed(axis, h.n) && HoldsSuperblock(h, raw, axis, index, k, buffer)
    requires from == Encode(LeafOf(h, axis, index, k)) * v
    ensures from + v <= |buffer| && HoldsLeaf(h, raw, axis, index, k, buffer[from..from + v])
  {
    var leaf := LeafOf(h, axis, index, k);
    var s := SuperOf(h, axis, index, k);
    LeafInGrid(h, axis, index, k);
    LeafSlot(h, leaf, Encode(leaf), from, v);
    PackedSlot(h, raw, s, buffer, Encode(leaf), from, v);
  }

  /** Scatters the leaves of one task from the buffer that holds its superblock. */
  method UnpackLeaves(h: Header, ghost raw: Raw, axis: Axis, index: nat, plan: Plan, ghost keys: seq<Key>, task: Task,
                      buffer: seq<Float>, output: array<Float>)
    requires Valid(h) && IsRaw(raw, h.n) && Volume(h.leaf) > 0 && Gapless(LeafGrid(h)) && index < Fixed(axis, h.n)
    requires |plan.ops| == |keys| && task.firstLeaf + task.leafCount <= |keys| && Inner(axis, h.n) > 0
    requires forall i :: 0 <= i < |keys| ==> ValidKey(h, axis, keys[i]) && plan.ops[i] == OpFor(h, axis, index, keys[i])
    requires forall i :: task.firstLeaf <= i < task.firstLeaf + task.leafCount ==>
               HoldsSuperblock(h, raw, axis, index, keys[i], buffer)
    requires output.Length == SliceSize(h, axis)
    modifies output
    ensures forall p :: 0 <= p < output.Length ==>
              output[p] == if CoveredBy(h, axis, keys, task.firstLeaf, task.firstLeaf + task.leafCount, p)
                           then SliceCell(h, raw, axis, index, p) else old(output[p])
  {
    var i := task.firstLeaf;
    while i < task.firstLeaf + task.leafCount
      invariant task.firstLeaf <= i <= task.firstLeaf + task.leafCount
      invariant forall p :: 0 <= p < output.Length ==>
                  output[p] == if CoveredBy(h, axis, keys, task.firstLeaf, i, p)
                               then SliceCell(h, raw, axis, index, p) else old(output[p])
    {
      UnpackLeaf(h, raw, axis, index, plan.ops[i], keys[i], buffer, output);
      i := i + 1;
    }
  }

  method UnpackLeaf(h: Header, ghost raw: Raw, axis: Axis, index: nat, op: LeafOp, ghost k: Key,
                    buffer: seq<Float>, output: array<Float>)
    requires Valid(h) && IsRaw(raw, h.n) && Volume(h.leaf) > 0 && Gapless(LeafGrid(h)) && index < Fixed(axis, h.n)
    requires ValidKey(h, axis, k) && op == OpFor(h, axis, index, k) && Inner(axis, h.n) > 0
    requires HoldsSuperblock(h, raw, axis, index, k, buffer) && output.Length == SliceSize(h, axis)
    modifies output
    ensures forall p :: 0 <= p < output.Length ==>
              output[p] == if CoversAt(h, axis, k, p)
                           then SliceCell(h, raw, axis, index, p) else old(output[p])
  {
    var v := Volume(h.leaf);
    var from := op.morton * v;
    LeafInBuffer(h, raw, axis, index, k, buffer, from, v);
    DeliverLeaf(h, raw, axis, index, op, k, buffer[from..from + v], output);
  }

  /** Scatters a decoded leaf: exactly the cells it covers get their values. */
  method DeliverLeaf(h: Header, ghost raw: Raw, axis: Axis, index: nat, op: LeafOp, ghost k: Key,
                     leaf: seq<Float>, output: array<Float>)
    requires Valid(h) && IsRaw(raw, h.n) && index < Fixed(axis, h.n)
    requires ValidKey(h, axis, k) && op == OpFor(h, axis, index, k) && Inner(axis, h.n) > 0
    requires HoldsLeaf(h, raw, axis, index, k, leaf) && output.Length == SliceSize(h, axis)
    modifies output
    ensures forall p :: 0 <= p < output.Length ==>
              output[p] == if CoversAt(h, axis, k, p)
                           then SliceCell(h, raw, axis, index, p) else old(output[p])
  {
    OpForFits(h, axis, index, k);
    ScatterDecodedLeaf(h, op, leaf, output, FirstOuter(h, axis, k), FirstInner(h, axis, k));
    forall p | 0 <= p < output.Length
      ensures output[p] == if CoversAt(h, axis, k, p)
                           then SliceCell(h, raw, axis, index, p) else old(output[p])
    {
      OpDelivers(h, raw, axis, index, k, leaf, p, old(output[p]));
    }
  }

  // ----- whole slices -----

  /** Every task once, in any order. */
  predicate IsOrder(order: seq<nat>, count: nat)
  {
    && |order| == count
    && (forall u :: 0 <= u < |order| ==> order[u] < count)
    && (forall u, v :: 0 <= u < v < |order| ==> order[u] != order[v])
  }

  ghost predicate CoveredByTask(h: Header, axis: Axis, keys: seq<Key>, task: Task, p: nat)
    requires Inner(axis, h.n) > 0
  {
    CoveredBy(h, axis, keys, task.firstLeaf, task.firstLeaf + task.leafCount, p)
  }

  /** Some task among the first done of the order covers cell p. */
  ghost predicate CoveredSoFar(h: Header, axis: Axis, keys: seq<Key>, tasks: seq<Task>, order: seq<nat>, done: nat, p: nat)
    requires Inner(axis, h.n) > 0 && IsOrder(order, |tasks|) && done <= |order|
  {
    exists u :: 0 <= u < done && CoveredByTask(h, axis, keys, tasks[order[u]], p)
  }

  lemma {:induction false} LeafHasTask(tasks: seq<Task>, ops: nat, n: nat, i: nat) returns (t: nat)
    requires Chained(tasks, ops) && n < |tasks| && i < tasks[n].firstLeaf + tasks[n].leafCount
    ensures t <= n && tasks[t].firstLeaf <= i < tasks[t].firstLeaf + tasks[t].leafCount
  {
    if tasks[n].firstLeaf <= i {
      t := n;
    } else {
      assert n > 0 && tasks[n].firstLeaf == tasks[n - 1].firstLeaf + tasks[n - 1].leafCount;
      t := LeafHasTask(tasks, ops, n - 1, i);
    }
  }

  lemma AllCovered(h: Header, axis: Axis, index: nat, plan: Plan, keys: seq<Key>, order: seq<nat>, p: nat)
    requires Valid(h) && p < SliceSize(h, axis) && Inner(axis, h.n) > 0
    requires Planned(h, axis, index, plan.ops, keys, Inner(axis, SuperGrid(h)), 0, 0, 0)
    requires TasksOk(h, axis, index, plan.tasks, keys) && IsOrder(order, |plan.tasks|)
    ensures CoveredSoFar(h, axis, keys, plan.tasks, order, |order|, p)
  {
    DivBound(p, Outer(axis, h.n), Inner(axis, h.n));
    DivModBack(p, Inner(axis, h.n));
    PlanCoversOnce(h, axis, index, plan, keys, Row(p, Inner(axis, h.n)), Column(p, Inner(axis, h.n)));
    var i :| 0 <= i < |keys| && CoversAt(h, axis, keys[i], p);
    var t := LeafHasTask(plan.tasks, |keys|, |plan.tasks| - 1, i);
    Pigeonhole(order, t);
    var u :| 0 <= u < |order| && order[u] == t;
    assert CoveredByTask(h, axis, keys, plan.tasks[order[u]], p);
  }

  /** The bytes of a task's superblock in the file hold its leaves. */
  lemma TaskBuffer(file: seq<Float>, h: Header, raw: Raw, axis: Axis, index: nat, keys: seq<Key>, task: Task)
    requires Valid(h) && IsRaw(raw, h.n) && Volume(h.leaf) > 0 && Stored(file, h, raw) && index < Fixed(axis, h.n)
    requires TaskOk(h, axis, index, task, keys)
    requires forall i :: 0 <= i < |keys| ==> ValidKey(h, axis, keys[i])
    ensures task.fileOffset + Volume(h.super) <= |file|
    ensures forall i :: task.firstLeaf <= i < task.firstLeaf + task.leafCount ==>
              HoldsSuperblock(h, raw, axis, index, keys[i], file[task.fileOffset..task.fileOffset + Volume(h.super)])
    ensures Inner(axis, h.n) > 0
  {
    forall i | task.firstLeaf <= i < task.firstLeaf + task.leafCount
      ensures SuperblockStored(file, h, raw, SuperOf(h, axis, index, keys[i]))
      ensures SuperblockId(h, SuperOf(h, axis, index, keys[i])) == task.sbIndex
    {
      LeafInGrid(h, axis, index, keys[i]);
    }
    var i := task.firstLeaf;
    assert SuperblockStored(file, h, raw, SuperOf(h, axis, index, keys[i]));
  }

  ghost predicate PlanOk(h: Header, axis: Axis, index: nat, plan: Plan, keys: seq<Key>)
    requires Valid(h)
  {
    && Planned(h, axis, index, plan.ops, keys, Inner(axis, SuperGrid(h)), 0, 0, 0)
    && TasksOk(h, axis, index, plan.tasks, keys)
  }

  /** The cells of the tasks done so far have their values; the others are as they were. */
  ghost predicate Delivered(output: seq<Float>, init: seq<Float>, h: Header, raw: Raw, axis: Axis, index: nat,
                            keys: seq<Key>, tasks: seq<Task>, order: seq<nat>, done: nat)
    requires Valid(h) && IsRaw(raw, h.n) && IsOrder(order, |tasks|) && done <= |order|
  {
    && |output| == |init| == SliceSize(h, axis)
    && (Inner(axis, h.n) > 0 ==>
          forall p :: 0 <= p < |output| ==>
            output[p] == if CoveredSoFar(h, axis, keys, tasks, order, done, p) then SliceCell(h, raw, axis, index, p)
                         else init[p])
  }

  /** Once every task of a plan has been done, in whatever order, the output is the slice of the raw volume. */
  lemma DeliveredAll(output: seq<Float>, init: seq<Float>, h: Header, raw: Raw, axis: Axis, index: nat,
                     plan: Plan, keys: seq<Key>, order: seq<nat>)
    requires Valid(h) && IsRaw(raw, h.n) && PlanOk(h, axis, index, plan, keys) && IsOrder(order, |plan.tasks|)
    requires Delivered(output, init, h, raw, axis, index, keys, plan.tasks, order, |order|)
    ensures IsSlice(output, h, raw, axis, index)
  {
    if Inner(axis, h.n) > 0 {
      forall p | 0 <= p < |output|
        ensures output[p] == SliceCell(h, raw, axis, index, p)
      {
        AllCovered(h, axis, index, plan, keys, order, p);
      }
    }
  }

  /**
   * A slice is what the raw file, Z fastest and X slowest, has in the plane of its index, row by row: an X slice has
   * a row of Z for each y, a Y slice a row of Z for each x, and a Z slice a row of Y for each x.
   */
  lemma SliceIsRaw(output: seq<Float>, h: Header, raw: Raw, axis: Axis, index: nat, a: nat, b: nat, p: nat, r: nat)
    requires IsRaw(raw, h.n) && IsSlice(output, h, raw, axis, index)
    requires match axis
             case X => index < h.n.x && a < h.n.y && b < h.n.z && p == a * h.n.z + b && r == (index * h.n.y + a) * h.n.z + b
             case Y => index < h.n.y && a < h.n.x && b < h.n.z && p == a * h.n.z + b && r == (a * h.n.y + index) * h.n.z + b
             case Z => index < h.n.z && a < h.n.x && b < h.n.y && p == a * h.n.y + b && r == (a * h.n.y + b) * h.n.z + index
    ensures p < |output| && r < |raw| && output[p] == raw[r]
  {
    RadixBound(a, b, Outer(axis, h.n), Inner(axis, h.n));
    DivMod(a, b, Inner(axis, h.n));
    RawIndexBound(Make(axis, index, a, b), h.n);
  }

  ghost predicate IsSlice(output: seq<Float>, h: Header, raw: Raw, axis: Axis, index: nat)
    requires IsRaw(raw, h.n)
  {
    && |output| == SliceSize(h, axis)
    && (Inner(axis, h.n) > 0 ==> forall p :: 0 <= p < |output| ==> output[p] == SliceCell(h, raw, axis, index, p))
  }

  /** Processes the task that the order names next, from a buffer that holds its superblock. */
  method ProcessTask(h: Header, ghost raw: Raw, axis: Axis, index: nat, plan: Plan, ghost keys: seq<Key>,
                     ghost order: seq<nat>, ghost done: nat, task: Task, buffer: seq<Float>,
                     output: array<Float>, ghost init: seq<Float>)
    requires Valid(h) && IsRaw(raw, h.n) && Volume(h.leaf) > 0 && Gapless(LeafGrid(h)) && index < Fixed(axis, h.n)
    requires PlanOk(h, axis, index, plan, keys) && IsOrder(order, |plan.tasks|)
    requires done < |order| && task == plan.tasks[order[done]]
    requires forall i :: task.firstLeaf <= i < task.firstLeaf + task.leafCount ==>
               HoldsSuperblock(h, raw, axis, index, keys[i], buffer)
    requires Delivered(output[..], init, h, raw, axis, index, keys, plan.tasks, order, done)
    modifies output
    ensures Delivered(output[..], init, h, raw, axis, index, keys, plan.tasks, order, done + 1)
  {
    assert TaskOk(h, axis, index, task, keys);
    assert ValidKey(h, axis, keys[task.firstLeaf]);
    ghost var before := output[..];
    UnpackLeaves(h, raw, axis, index, plan, keys, task, buffer, output);
    forall p | 0 <= p < output.Length
      ensures output[p] == if CoveredSoFar(h, axis, keys, plan.tasks, order, done + 1, p)
                           then SliceCell(h, raw, axis, index, p) else init[p]
    {
      assert output[p] == if CoveredByTask(h, axis, keys, task, p) then SliceCell(h, raw, axis, index, p) else before[p];
      StepCovered(h, axis, keys, plan.tasks, order, done, p);
    }
  }

  lemma StepCovered(h: Header, axis: Axis, keys: seq<Key>, tasks: seq<Task>, order: seq<nat>, done: nat, p: nat)
    requires Inner(axis, h.n) > 0 && IsOrder(order, |tasks|) && done < |order|
    ensures CoveredSoFar(h, axis, keys, tasks, order, done + 1, p) <==>
            CoveredSoFar(h, axis, keys, tasks, order, done, p) || CoveredByTask(h, axis, keys, tasks[order[done]], p)
  {
  }

  /** Reads a planned superblock and unpacks it. */
  method ReadTask(file: seq<Float>, h: Header, ghost raw: Raw, axis: Axis, index: nat, plan: Plan, ghost keys: seq<Key>,
                  order: seq<nat>, u: nat, output: array<Float>, ghost init: seq<Float>)
    requires Valid(h) && IsRaw(raw, h.n) && Volume(h.leaf) > 0 && Gapless(LeafGrid(h)) && Stored(file, h, raw)
    requires index < Fixed(axis, h.n) && PlanOk(h, axis, index, plan, keys) && IsOrder(order, |plan.tasks|) && u < |order|
    requires Delivered(output[..], init, h, raw, axis, index, keys, plan.tasks, order, u)
    modifies output
    ensures Delivered(output[..], init, h, raw, axis, index, keys, plan.tasks, order, u + 1)
  {
    var task := plan.tasks[order[u]];
    TaskBuffer(file, h, raw, axis, index, keys, task);
    var buffer := file[task.fileOffset..task.fileOffset + Volume(h.super)];
    ProcessTask(h, raw, axis, index, plan, keys, order, u, task, buffer, output, init);
  }

  /** The order in which the threads come to the tasks, for any number of them. */
  ghost predicate IsSchedule(schedule: nat -> seq<nat>)
  {
    forall n :: IsOrder(schedule(n), n)
  }

  /**
   * Reads one slice: every superblock of its plan is read and unpacked, in any order. Each cell of the output ends up
   * with the value the raw volume has there.
   */
  method ReadSlice(file: seq<Float>, h: Header, ghost raw: Raw, axis: Axis, index: nat, schedule: nat -> seq<nat>,
                   output: array<Float>)
    returns (ok: bool)
    requires Valid(h) && IsRaw(raw, h.n) && Volume(h.leaf) > 0 && Gapless(LeafGrid(h)) && Stored(file, h, raw)
    requires output.Length == SliceSize(h, axis) && IsSchedule(schedule)
    modifies output
    ensures ok == (index < Fixed(axis, h.n))
    ensures if ok then IsSlice(output[..], h, raw, axis, index) else output[..] == old(output[..])
  {
    if index >= Fixed(axis, h.n) {
      return false;
    }
    var plan, keys := BuildSBPlan(h, axis, index);
    var order := schedule(|plan.tasks|);
    ghost var init := output[..];
    var u: nat := 0;
    while u < |order|
      invariant u <= |order|
      invariant Delivered(output[..], init, h, raw, axis, index, keys, plan.tasks, order, u)
    {
      ReadTask(file, h, raw, axis, index, plan, keys, order, u, output, init);
      u := u + 1;
    }
    DeliveredAll(output[..], init, h, raw, axis, index, plan, keys, order);
    ok := true;
  }
}
