/** Planning a slice superblock by superblock, and scattering its leaves into the output. */
module SlicePlan {
  import opened Basics
  import opened Float32
  import opened Morton
  import opened Layout

  datatype Axis = X | Y | Z

  // A slice fixes one coordinate; its output is a row per outer coordinate, with the inner one fastest.

  function Fixed(axis: Axis, c: Coord): nat
  {
    match axis case X => c.x case Y => c.y case Z => c.z
  }

  function Outer(axis: Axis, c: Coord): nat
  {
    match axis case X => c.y case Y => c.x case Z => c.x
  }

  function Inner(axis: Axis, c: Coord): nat
  {
    match axis case X => c.z case Y => c.z case Z => c.y
  }

  function Make(axis: Axis, fixed: nat, outer: nat, inner: nat): Coord
  {
    match axis
    case X => Coord(fixed, outer, inner)
    case Y => Coord(outer, fixed, inner)
    case Z => Coord(outer, inner, fixed)
  }

  /** One slice asked for in a batch. */
  datatype Request = Request(axis: Axis, index: nat)

  datatype LeafOp = LeafOp(axis: Axis, outBase: nat, outStride: nat, morton: nat, param: nat, vOuter: nat, vInner: nat)
  datatype Task = Task(fileOffset: nat, firstLeaf: nat, leafCount: nat, sbIndex: nat)
  datatype Plan = Plan(tasks: seq<Task>, ops: seq<LeafOp>)

  /** A leaf met by a slice: its superblock and its place inside, along the two free axes. */
  datatype Key = Key(sOuter: nat, sInner: nat, lOuter: nat, lInner: nat)

  function FirstOuter(h: Header, axis: Axis, k: Key): nat
  {
    k.sOuter * Outer(axis, h.super) + k.lOuter * Outer(axis, h.leaf)
  }

  function FirstInner(h: Header, axis: Axis, k: Key): nat
  {
    k.sInner * Inner(axis, h.super) + k.lInner * Inner(axis, h.leaf)
  }

  /** The leaf lies in the grid and meets the volume. */
  predicate ValidKey(h: Header, axis: Axis, k: Key)
    requires Valid(h)
  {
    && k.sOuter < Outer(axis, SuperGrid(h)) && k.sInner < Inner(axis, SuperGrid(h))
    && k.lOuter < Outer(axis, LeafGrid(h)) && k.lInner < Inner(axis, LeafGrid(h))
    && FirstOuter(h, axis, k) < Outer(axis, h.n) && FirstInner(h, axis, k) < Inner(axis, h.n)
  }

  function SuperOf(h: Header, axis: Axis, index: nat, k: Key): Coord
    requires Valid(h)
  {
    Make(axis, index / Fixed(axis, h.super), k.sOuter, k.sInner)
  }

  function LeafOf(h: Header, axis: Axis, index: nat, k: Key): Coord
    requires Valid(h)
  {
    Make(axis, index % Fixed(axis, h.super) / Fixed(axis, h.leaf), k.lOuter, k.lInner)
  }

  function OpFor(h: Header, axis: Axis, index: nat, k: Key): LeafOp
    requires Valid(h)
  {
    var nOuter, nInner := Outer(axis, h.n), Inner(axis, h.n);
    var firstOuter, firstInner := FirstOuter(h, axis, k), FirstInner(h, axis, k);
    LeafOp(axis, firstOuter * nInner + firstInner, nInner, Encode(LeafOf(h, axis, index, k)),
           index % Fixed(axis, h.super) % Fixed(axis, h.leaf),
           Min(Outer(axis, h.leaf), if firstOuter < nOuter then nOuter - firstOuter else 0),
           Min(Inner(axis, h.leaf), if firstInner < nInner then nInner - firstInner else 0))
  }

  /** k comes before the loop position (sInner, sOuter, lInner, lOuter), the order in which leaves are planned. */
  predicate Before(k: Key, sInner: nat, sOuter: nat, lInner: nat, lOuter: nat)
  {
    k.sInner < sInner || (k.sInner == sInner &&
    (k.sOuter < sOuter || (k.sOuter == sOuter &&
    (k.lInner < lInner || (k.lInner == lInner && k.lOuter < lOuter)))))
  }

  /** The operations planned so far are those of the listed leaves: all valid leaves before the position, each once. */
  ghost predicate Planned(h: Header, axis: Axis, index: nat, ops: seq<LeafOp>, keys: seq<Key>,
                          sInner: nat, sOuter: nat, lInner: nat, lOuter: nat)
    requires Valid(h)
  {
    && |ops| == |keys|
    && (forall i :: 0 <= i < |ops| ==>
          ValidKey(h, axis, keys[i]) && ops[i] == OpFor(h, axis, index, keys[i]) &&
          Before(keys[i], sInner, sOuter, lInner, lOuter))
    && (forall i, j :: 0 <= i < j < |keys| ==> keys[i] != keys[j])
    && (forall k: Key :: ValidKey(h, axis, k) && Before(k, sInner, sOuter, lInner, lOuter) ==> k in keys)
  }

  /**
   * Each task holds a run of operations that all address its superblock; together the runs are all operations.
   * The superblocks ascend in the file.
   */
  ghost predicate TasksOk(h: Header, axis: Axis, index: nat, tasks: seq<Task>, keys: seq<Key>)
    requires Valid(h)
  {
    && (forall t :: 0 <= t < |tasks| ==> TaskOk(h, axis, index, tasks[t], keys))
    && Chained(tasks, |keys|)
    && (forall t, u :: 0 <= t < u < |tasks| ==> tasks[t].sbIndex < tasks[u].sbIndex)
  }

  /** Consecutive runs of operations that start at operation 0 and end before the given one. */
  ghost predicate Chained(tasks: seq<Task>, ops: nat)
  {
    if tasks == [] then ops == 0
    else
      && tasks[0].firstLeaf == 0
      && (forall t, u :: 0 <= t < u < |tasks| && u == t + 1 ==> tasks[u].firstLeaf == tasks[t].firstLeaf + tasks[t].leafCount)
      && tasks[|tasks| - 1].firstLeaf + tasks[|tasks| - 1].leafCount == ops
  }

  predicate TaskOk(h: Header, axis: Axis, index: nat, task: Task, keys: seq<Key>)
    requires Valid(h)
  {
    && task.leafCount > 0 && task.firstLeaf + task.leafCount <= |keys|
    && task.fileOffset == SuperblockOffset(h, task.sbIndex)
    && forall i :: task.firstLeaf <= i < task.firstLeaf + task.leafCount ==>
         SuperblockId(h, SuperOf(h, axis, index, keys[i])) == task.sbIndex
  }

  /** Plans the leaves of one superblock; leaves outside the volume are passed over. */
  method PlanSuperblock(h: Header, axis: Axis, index: nat, sInner: nat, sOuter: nat, ops0: seq<LeafOp>, ghost keys0: seq<Key>)
    returns (ops: seq<LeafOp>, ghost keys: seq<Key>)
    requires Valid(h) && sInner < Inner(axis, SuperGrid(h)) && sOuter < Outer(axis, SuperGrid(h))
    requires Planned(h, axis, index, ops0, keys0, sInner, sOuter, 0, 0)
    ensures Planned(h, axis, index, ops, keys, sInner, sOuter, Inner(axis, LeafGrid(h)), 0)
    ensures ops0 <= ops && keys0 <= keys
    ensures forall i :: |keys0| <= i < |keys| ==> keys[i].sInner == sInner && keys[i].sOuter == sOuter
  {
    ops, keys := ops0, keys0;
    var lInner: nat := 0;
    while lInner < Inner(axis, LeafGrid(h))
      invariant lInner <= Inner(axis, LeafGrid(h))
      invariant Planned(h, axis, index, ops, keys, sInner, sOuter, lInner, 0)
      invariant ops0 <= ops && keys0 <= keys
      invariant forall i :: |keys0| <= i < |keys| ==> keys[i].sInner == sInner && keys[i].sOuter == sOuter
    {
      var lOuter: nat := 0;
      while lOuter < Outer(axis, LeafGrid(h))
        invariant lOuter <= Outer(axis, LeafGrid(h))
        invariant Planned(h, axis, index, ops, keys, sInner, sOuter, lInner, lOuter)
        invariant ops0 <= ops && keys0 <= keys
        invariant forall i :: |keys0| <= i < |keys| ==> keys[i].sInner == sInner && keys[i].sOuter == sOuter
      {
        var k := Key(sOuter, sInner, lOuter, lInner);
        var op := OpFor(h, axis, index, k);
        if op.vOuter != 0 && op.vInner != 0 {
          KeepLeaf(h, axis, index, ops, keys, k);
          ops := ops + [op];
          keys := keys + [k];
        } else {
          PassLeaf(h, axis, index, ops, keys, k);
        }
        lOuter := lOuter + 1;
      }
      lInner := lInner + 1;
    }
  }

  lemma KeepLeaf(h: Header, axis: Axis, index: nat, ops: seq<LeafOp>, keys: seq<Key>, k: Key)
    requires Valid(h) && Planned(h, axis, index, ops, keys, k.sInner, k.sOuter, k.lInner, k.lOuter)
    requires k.sOuter < Outer(axis, SuperGrid(h)) && k.sInner < Inner(axis, SuperGrid(h))
    requires k.lOuter < Outer(axis, LeafGrid(h)) && k.lInner < Inner(axis, LeafGrid(h))
    requires OpFor(h, axis, index, k).vOuter != 0 && OpFor(h, axis, index, k).vInner != 0
    ensures Planned(h, axis, index, ops + [OpFor(h, axis, index, k)], keys + [k], k.sInner, k.sOuter, k.lInner, k.lOuter + 1)
  {
    assert k !in keys;
    forall k': Key | ValidKey(h, axis, k') && Before(k', k.sInner, k.sOuter, k.lInner, k.lOuter + 1)
      ensures k' in keys + [k]
    {
      if !Before(k', k.sInner, k.sOuter, k.lInner, k.lOuter) {
        assert k' == k;
      }
    }
  }

  lemma PassLeaf(h: Header, axis: Axis, index: nat, ops: seq<LeafOp>, keys: seq<Key>, k: Key)
    requires Valid(h) && Planned(h, axis, index, ops, keys, k.sInner, k.sOuter, k.lInner, k.lOuter)
    requires OpFor(h, axis, index, k).vOuter == 0 || OpFor(h, axis, index, k).vInner == 0
    ensures Planned(h, axis, index, ops, keys, k.sInner, k.sOuter, k.lInner, k.lOuter + 1)
  {
    forall k': Key | ValidKey(h, axis, k') && Before(k', k.sInner, k.sOuter, k.lInner, k.lOuter + 1)
      ensures k' in keys
    {
      if !Before(k', k.sInner, k.sOuter, k.lInner, k.lOuter) {
        assert false;
      }
    }
  }

  lemma AppendTask(h: Header, axis: Axis, index: nat, tasks: seq<Task>, task: Task, keys0: seq<Key>, keys: seq<Key>)
    requires Valid(h) && TasksOk(h, axis, index, tasks, keys0) && keys0 <= keys
    requires task.firstLeaf == |keys0| && task.firstLeaf + task.leafCount == |keys| && TaskOk(h, axis, index, task, keys)
    requires forall t :: 0 <= t < |tasks| ==> tasks[t].sbIndex < task.sbIndex
    ensures TasksOk(h, axis, index, tasks + [task], keys)
  {
    var tasks' := tasks + [task];
    forall t | 0 <= t < |tasks'|
      ensures TaskOk(h, axis, index, tasks'[t], keys)
    {
      if t < |tasks| {
        assert TaskOk(h, axis, index, tasks[t], keys0);
      }
    }
  }

  /** Planning order is file order. */
  lemma IdAscends(h: Header, axis: Axis, index: nat, k: Key, k': Key)
    requires Valid(h) && ValidKey(h, axis, k) && index < Fixed(axis, h.n)
    requires k'.sInner < Inner(axis, SuperGrid(h)) && k'.sOuter < Outer(axis, SuperGrid(h))
    requires k.sInner < k'.sInner || (k.sInner == k'.sInner && k.sOuter < k'.sOuter)
    ensures SuperblockId(h, SuperOf(h, axis, index, k)) < SuperblockId(h, SuperOf(h, axis, index, k'))
  {
    var s, s', grid := SuperOf(h, axis, index, k), SuperOf(h, axis, index, k'), SuperGrid(h);
    DivModBack(index, Fixed(axis, h.super));
    CeilDivBound(index / Fixed(axis, h.super), Fixed(axis, h.n), Fixed(axis, h.super));
    FlatAscends(s, s', grid);
  }

  lemma NewTask(h: Header, axis: Axis, index: nat, tasks: seq<Task>, task: Task, keys0: seq<Key>, keys: seq<Key>, k: Key)
    requires Valid(h) && TasksOk(h, axis, index, tasks, keys0) && keys0 <= keys
    requires task.firstLeaf == |keys0| && task.firstLeaf + task.leafCount == |keys|
    requires task.sbIndex == SuperblockId(h, SuperOf(h, axis, index, k))
    requires task.fileOffset == SuperblockOffset(h, task.sbIndex)
    requires forall i :: |keys0| <= i < |keys| ==> keys[i].sInner == k.sInner && keys[i].sOuter == k.sOuter
    requires k.sInner < Inner(axis, SuperGrid(h)) && k.sOuter < Outer(axis, SuperGrid(h)) && index < Fixed(axis, h.n)
    requires forall i :: 0 <= i < |keys0| ==> ValidKey(h, axis, keys0[i]) && Before(keys0[i], k.sInner, k.sOuter, 0, 0)
    ensures TasksOk(h, axis, index, if task.leafCount == 0 then tasks else tasks + [task], keys)
  {
    forall i | |keys0| <= i < |keys|
      ensures SuperOf(h, axis, index, keys[i]) == SuperOf(h, axis, index, k)
    {
    }
    if task.leafCount == 0 {
      assert keys == keys0;
    } else {
      forall t | 0 <= t < |tasks|
        ensures tasks[t].sbIndex < task.sbIndex
      {
        assert TaskOk(h, axis, index, tasks[t], keys0);
        IdAscends(h, axis, index, keys0[tasks[t].firstLeaf], k);
      }
      AppendTask(h, axis, index, tasks, task, keys0, keys);
    }
  }

  method MakeTask(h: Header, axis: Axis, index: nat, k: Key, first: nat, count: nat) returns (task: Task)
    requires Valid(h)
    ensures task == Task(task.fileOffset, first, count, SuperblockId(h, SuperOf(h, axis, index, k)))
    ensures task.fileOffset == SuperblockOffset(h, task.sbIndex)
  {
    var sbIndex := SuperblockId(h, SuperOf(h, axis, index, k));
    task := Task(SuperblockOffset(h, sbIndex), first, count, sbIndex);
  }

  /** The task of one superblock, unless none of its leaves meets the volume. */
  method PlanTask(h: Header, axis: Axis, index: nat, sInner: nat, sOuter: nat, plan0: Plan, ghost keys0: seq<Key>)
    returns (plan: Plan, ghost keys: seq<Key>)
    requires Valid(h) && sInner < Inner(axis, SuperGrid(h)) && sOuter < Outer(axis, SuperGrid(h))
    requires index < Fixed(axis, h.n)
    requires Planned(h, axis, index, plan0.ops, keys0, sInner, sOuter, 0, 0)
    requires TasksOk(h, axis, index, plan0.tasks, keys0)
    ensures Planned(h, axis, index, plan.ops, keys, sInner, sOuter, Inner(axis, LeafGrid(h)), 0)
    ensures TasksOk(h, axis, index, plan.tasks, keys)
  {
    var ops;
    ops, keys := PlanSuperblock(h, axis, index, sInner, sOuter, plan0.ops, keys0);
    var k := Key(sOuter, sInner, 0, 0);
    var task := MakeTask(h, axis, index, k, |plan0.ops|, |ops| - |plan0.ops|);
    NewTask(h, axis, index, plan0.tasks, task, keys0, keys, k);
    plan := Plan(if task.leafCount == 0 then plan0.tasks else plan0.tasks + [task], ops);
  }

  /** The end of an inner loop is the next position of the loop around it. */
  lemma Advance(h: Header, axis: Axis, index: nat, ops: seq<LeafOp>, keys: seq<Key>, sInner: nat, sOuter: nat)
    requires Valid(h)
    ensures Planned(h, axis, index, ops, keys, sInner, sOuter, Inner(axis, LeafGrid(h)), 0) ==>
              Planned(h, axis, index, ops, keys, sInner, sOuter + 1, 0, 0)
    ensures Planned(h, axis, index, ops, keys, sInner, Outer(axis, SuperGrid(h)), 0, 0) ==>
              Planned(h, axis, index, ops, keys, sInner + 1, 0, 0, 0)
  {
  }

  /** Plans every superblock a slice meets. */
  method BuildSBPlan(h: Header, axis: Axis, index: nat) returns (plan: Plan, ghost keys: seq<Key>)
    requires Valid(h) && index < Fixed(axis, h.n)
    ensures Planned(h, axis, index, plan.ops, keys, Inner(axis, SuperGrid(h)), 0, 0, 0)
    ensures TasksOk(h, axis, index, plan.tasks, keys)
  {
    plan, keys := Plan([], []), [];
    var sInner: nat := 0;
    while sInner < Inner(axis, SuperGrid(h))
      invariant sInner <= Inner(axis, SuperGrid(h))
      invariant Planned(h, axis, index, plan.ops, keys, sInner, 0, 0, 0)
      invariant TasksOk(h, axis, index, plan.tasks, keys)
    {
      var sOuter: nat := 0;
      while sOuter < Outer(axis, SuperGrid(h))
        invariant sOuter <= Outer(axis, SuperGrid(h))
        invariant Planned(h, axis, index, plan.ops, keys, sInner, sOuter, 0, 0)
        invariant TasksOk(h, axis, index, plan.tasks, keys)
      {
        plan, keys := PlanTask(h, axis, index, sInner, sOuter, plan, keys);
        Advance(h, axis, index, plan.ops, keys, sInner, sOuter);
        sOuter := sOuter + 1;
      }
      Advance(h, axis, index, plan.ops, keys, sInner, sOuter);
      sInner := sInner + 1;
    }
  }

  // ----- every output cell belongs to exactly one planned leaf -----

  /** Output cell (a, b) lies in the block that the leaf fills. */
  predicate Covers(h: Header, axis: Axis, k: Key, a: nat, b: nat)
  {
    && FirstOuter(h, axis, k) <= a < FirstOuter(h, axis, k) + Outer(axis, h.leaf)
    && FirstInner(h, axis, k) <= b < FirstInner(h, axis, k) + Inner(axis, h.leaf)
  }

  function KeyOf(h: Header, axis: Axis, a: nat, b: nat): Key
    requires Valid(h)
  {
    Key(a / Outer(axis, h.super), b / Inner(axis, h.super),
        a % Outer(axis, h.super) / Outer(axis, h.leaf), b % Inner(axis, h.super) / Inner(axis, h.leaf))
  }

  /** Along one axis, position v lies in leaf v % S / L of superblock v / S. */
  lemma LocateOnAxis(v: nat, n: nat, S: nat, L: nat)
    requires S > 0 && L > 0 && S % L == 0 && v < n
    ensures v / S < CeilDiv(n, S) && v % S / L < S / L
    ensures v / S * S + v % S / L * L <= v < v / S * S + v % S / L * L + L
    ensures v == v / S * S + v % S / L * L + v % S % L
  {
    DivModBack(v, S);
    DivModBack(v % S, L);
    DivModBack(S, L);
    DivBound(v % S, S / L, L);
    CeilDivBound(v / S, n, S);
  }

  lemma OnlyLeafOnAxis(v: nat, s: nat, l: nat, S: nat, L: nat)
    requires S > 0 && L > 0 && S % L == 0 && l < S / L
    requires s * S + l * L <= v < s * S + l * L + L
    ensures s == v / S && l == v % S / L
  {
    DivModBack(S, L);
    RadixBound(l, v - (s * S + l * L), S / L, L);
    DivMod(s, v - s * S, S);
    DivMod(l, v - s * S - l * L, L);
  }

  lemma CellHasOneKey(h: Header, axis: Axis, a: nat, b: nat)
    requires Valid(h) && a < Outer(axis, h.n) && b < Inner(axis, h.n)
    ensures ValidKey(h, axis, KeyOf(h, axis, a, b)) && Covers(h, axis, KeyOf(h, axis, a, b), a, b)
    ensures forall k: Key :: ValidKey(h, axis, k) && Covers(h, axis, k, a, b) ==> k == KeyOf(h, axis, a, b)
  {
    LocateOnAxis(a, Outer(axis, h.n), Outer(axis, h.super), Outer(axis, h.leaf));
    LocateOnAxis(b, Inner(axis, h.n), Inner(axis, h.super), Inner(axis, h.leaf));
    forall k: Key | ValidKey(h, axis, k) && Covers(h, axis, k, a, b)
      ensures k == KeyOf(h, axis, a, b)
    {
      OnlyLeafOnAxis(a, k.sOuter, k.lOuter, Outer(axis, h.super), Outer(axis, h.leaf));
      OnlyLeafOnAxis(b, k.sInner, k.lInner, Inner(axis, h.super), Inner(axis, h.leaf));
    }
  }

  /** A plan has exactly one operation for every output cell: no cell is missed and none is written twice. */
  lemma PlanCoversOnce(h: Header, axis: Axis, index: nat, plan: Plan, keys: seq<Key>, a: nat, b: nat)
    requires Valid(h) && a < Outer(axis, h.n) && b < Inner(axis, h.n)
    requires Planned(h, axis, index, plan.ops, keys, Inner(axis, SuperGrid(h)), 0, 0, 0)
    ensures exists i :: 0 <= i < |keys| && Covers(h, axis, keys[i], a, b)
    ensures forall i, j | 0 <= i < |keys| && 0 <= j < |keys| ::
              Covers(h, axis, keys[i], a, b) && Covers(h, axis, keys[j], a, b) ==> i == j
  {
    CellHasOneKey(h, axis, a, b);
    var k := KeyOf(h, axis, a, b);
    assert k in keys;
  }

  // ----- scattering a decoded leaf -----

  /** The cell of the leaf that lands on cell (outer, inner) of the block; the leaf is X fastest. */
  function LeafIndex(h: Header, op: LeafOp, outer: nat, inner: nat): nat
  {
    match op.axis
    case Z => (op.param * h.leaf.y + inner) * h.leaf.x + outer
    case Y => (inner * h.leaf.y + op.param) * h.leaf.x + outer
    case X => (inner * h.leaf.y + outer) * h.leaf.x + op.param
  }

  predicate OpFits(h: Header, op: LeafOp)
  {
    && op.param < Fixed(op.axis, h.leaf)
    && op.vOuter <= Outer(op.axis, h.leaf) && op.vInner <= Inner(op.axis, h.leaf)
  }

  lemma LeafIndexInLeaf(h: Header, op: LeafOp, outer: nat, inner: nat)
    requires OpFits(h, op) && outer < op.vOuter && inner < op.vInner
    ensures LeafIndex(h, op, outer, inner) == Flat(Make(op.axis, op.param, outer, inner), h.leaf) < Volume(h.leaf)
  {
    FlatInBox(Make(op.axis, op.param, outer, inner), h.leaf);
  }

  /** Cell p of the output lies in rows first .. first + rows of the block whose columns start at column. */
  predicate InBlock(p: nat, stride: nat, first: nat, rows: nat, column: nat, columns: nat)
    requires stride > 0
  {
    first <= Row(p, stride) < first + rows && column <= Column(p, stride) < column + columns
  }

  lemma RowOfBlock(p: nat, stride: nat, row: nat, column: nat, columns: nat)
    requires stride > 0 && column + columns <= stride
    ensures InBlock(p, stride, row, 1, column, columns) <==>
            row * stride + column <= p < row * stride + column + columns
  {
    DivModBack(p, stride);
    if row * stride + column <= p < row * stride + column + columns {
      DivMod(row, p - row * stride, stride);
    }
  }

  method ScatterRow(h: Header, op: LeafOp, leaf: seq<Float>, outer: nat, dst: nat, output: array<Float>)
    requires OpFits(h, op) && |leaf| == Volume(h.leaf) && outer < op.vOuter && dst + op.vInner <= output.Length
    modifies output
    ensures forall p :: 0 <= p < output.Length ==>
              LeafIndexOr(h, op, leaf, outer, p - dst, old(output[p])) == output[p]
  {
    var inner: nat := 0;
    while inner < op.vInner
      invariant inner <= op.vInner
      invariant forall p :: 0 <= p < output.Length ==>
                  output[p] == if dst <= p < dst + inner then LeafIndexOr(h, op, leaf, outer, p - dst, old(output[p]))
                               else old(output[p])
    {
      LeafIndexInLeaf(h, op, outer, inner);
      output[dst + inner] := leaf[LeafIndex(h, op, outer, inner)];
      inner := inner + 1;
    }
  }

  /** The leaf's cell for (outer, inner) of the block, or the other value outside the block. */
  function LeafIndexOr(h: Header, op: LeafOp, leaf: seq<Float>, outer: nat, inner: int, other: Float): Float
    requires OpFits(h, op) && |leaf| == Volume(h.leaf)
  {
    if outer < op.vOuter && 0 <= inner < op.vInner then
      LeafIndexInLeaf(h, op, outer, inner);
      leaf[LeafIndex(h, op, outer, inner)]
    else other
  }

  /** What cell p of the output is after the leaf has been scattered. */
  function Scattered(h: Header, op: LeafOp, leaf: seq<Float>, row: nat, column: nat, p: nat, other: Float): Float
    requires OpFits(h, op) && |leaf| == Volume(h.leaf) && op.outStride > 0
  {
    if InBlock(p, op.outStride, row, op.vOuter, column, op.vInner) then
      LeafIndexOr(h, op, leaf, Row(p, op.outStride) - row, Column(p, op.outStride) - column, other)
    else other
  }

  method ScatterDecodedLeaf(h: Header, op: LeafOp, leaf: seq<Float>, output: array<Float>, ghost row: nat, ghost column: nat)
    requires OpFits(h, op) && |leaf| == Volume(h.leaf) && op.outStride > 0
    requires op.outBase == row * op.outStride + column && column + op.vInner <= op.outStride
    requires (row + op.vOuter) * op.outStride <= output.Length
    modifies output
    ensures forall p :: 0 <= p < output.Length ==>
              output[p] == Scattered(h, op, leaf, row, column, p, old(output[p]))
  {
    var outer: nat := 0;
    var dst := op.outBase;
    while outer < op.vOuter
      invariant outer <= op.vOuter && dst == (row + outer) * op.outStride + column
      invariant forall p :: 0 <= p < output.Length ==>
                  output[p] == if InBlock(p, op.outStride, row, outer, column, op.vInner)
                               then Scattered(h, op, leaf, row, column, p, old(output[p])) else old(output[p])
    {
      MulMono(row + outer + 1, row + op.vOuter, op.outStride);
      MulNext(row + outer, op.outStride);
      ghost var before := output[..];
      ScatterRow(h, op, leaf, outer, dst, output);
      forall p | 0 <= p < output.Length
        ensures output[p] == if InBlock(p, op.outStride, row, outer + 1, column, op.vInner)
                             then Scattered(h, op, leaf, row, column, p, old(output[p])) else old(output[p])
      {
        RowOfBlock(p, op.outStride, row + outer, column, op.vInner);
        DivModBack(p, op.outStride);
      }
      dst := dst + op.outStride;
      outer := outer + 1;
    }
  }
}
