/** The leaves a batch of slices needs: each once, with every place its cells go to. */
module RzfpTasks {
  import opened Morton
  import opened Layout
  import opened SlicePlan
  import opened SliceReader
  import opened RzfpFormat
  import opened RzfpFile

  datatype AnyBatch = Batch(h: Header, order: Order, requests: seq<Request>)

  /** One planned operation and the request it belongs to. */
  datatype Scatter = Scatter(op: LeafOp, request: nat)

  datatype LeafTask = LeafTask(sb: nat, morton: nat, offset: nat, size: nat, codec: nat, scatters: seq<Scatter>)

  /** A leaf that a request meets. */
  datatype Ref = Ref(request: nat, key: Key)

  /** Leaf numbers are sixteen bits wide. */
  predicate ValidBatch(b: AnyBatch)
  {
    && Valid(b.h) && LeafCount(b.h) <= 65536
    && forall p :: 0 <= p < |b.requests| ==> b.requests[p].index < Fixed(b.requests[p].axis, b.h.n)
  }

  /** A batch of requests for slices of the volume. */
  type Batch = b: AnyBatch | ValidBatch(b) witness Batch(Header(Coord(0, 0, 0), Coord(4, 4, 4), Coord(4, 4, 4), 0), ZYX, [])

  // ----- which leaf a planned operation needs -----

  predicate ValidRef(b: Batch, r: Ref)
  {
    r.request < |b.requests| && ValidKey(b.h, b.requests[r.request].axis, r.key)
  }

  function SuperOfRef(b: Batch, r: Ref): Coord
    requires ValidRef(b, r)
  {
    SuperOf(b.h, b.requests[r.request].axis, b.requests[r.request].index, r.key)
  }

  function LeafOfRef(b: Batch, r: Ref): Coord
    requires ValidRef(b, r)
  {
    LeafOf(b.h, b.requests[r.request].axis, b.requests[r.request].index, r.key)
  }

  function ScatterOf(b: Batch, r: Ref): Scatter
    requires ValidRef(b, r)
  {
    Scatter(OpFor(b.h, b.requests[r.request].axis, b.requests[r.request].index, r.key), r.request)
  }

  function TaskKey(sb: nat, morton: nat): nat
  {
    sb * 65536 + morton
  }

  lemma TaskKeyInjective(sb: nat, m: nat, sb': nat, m': nat)
    requires m < 65536 && m' < 65536 && TaskKey(sb, m) == TaskKey(sb', m')
    ensures sb == sb' && m == m'
  {
  }

  function RefKey(b: Batch, r: Ref): nat
    requires ValidRef(b, r)
  {
    TaskKey(PhysicalId(b.h, b.order, SuperOfRef(b, r)), Encode(LeafOfRef(b, r)))
  }

  // ----- grouping by leaf -----

  ghost predicate ValidRefs(b: Batch, refs: seq<Ref>)
  {
    forall i :: 0 <= i < |refs| ==> ValidRef(b, refs[i])
  }

  /** What the first n references scatter from the leaf of this key, in order. */
  ghost function Select(b: Batch, refs: seq<Ref>, n: nat, key: nat): seq<Scatter>
    requires ValidRefs(b, refs) && n <= |refs|
  {
    if n == 0 then []
    else Select(b, refs, n - 1, key) + (if RefKey(b, refs[n - 1]) == key then [ScatterOf(b, refs[n - 1])] else [])
  }

  lemma {:induction false} SelectFront(b: Batch, refs: seq<Ref>, r: Ref, n: nat, key: nat)
    requires ValidRefs(b, refs) && ValidRef(b, r) && n <= |refs|
    ensures ValidRefs(b, refs + [r]) && Select(b, refs + [r], n, key) == Select(b, refs, n, key)
  {
    if n > 0 {
      SelectFront(b, refs, r, n - 1, key);
    }
  }

  lemma {:induction false} SelectNone(b: Batch, refs: seq<Ref>, n: nat, key: nat)
    requires ValidRefs(b, refs) && n <= |refs|
    requires forall i :: 0 <= i < |refs| ==> RefKey(b, refs[i]) != key
    ensures Select(b, refs, n, key) == []
  {
    if n > 0 {
      SelectNone(b, refs, n - 1, key);
    }
  }

  lemma SelectStep(b: Batch, refs: seq<Ref>, r: Ref, key: nat)
    requires ValidRefs(b, refs) && ValidRef(b, r)
    ensures ValidRefs(b, refs + [r])
    ensures Select(b, refs + [r], |refs| + 1, key)
            == Select(b, refs, |refs|, key) + (if RefKey(b, r) == key then [ScatterOf(b, r)] else [])
  {
    SelectFront(b, refs, r, |refs|, key);
    assert (refs + [r])[|refs|] == r;
  }

  function KeyOfTask(t: LeafTask): nat
  {
    TaskKey(t.sb, t.morton)
  }

  /** The task holds exactly the scatters of its leaf. */
  ghost predicate Collects(b: Batch, t: LeafTask, refs: seq<Ref>)
    requires ValidRefs(b, refs)
  {
    && t.sb < SuperblockCount(b.h) && t.morton < LeafCount(b.h)
    && t.scatters == Select(b, refs, |refs|, KeyOfTask(t)) && t.scatters != []
  }

  /** One task for each leaf referred to; the map finds it. */
  ghost predicate Grouped(b: Batch, tasks: seq<LeafTask>, taskMap: map<nat, nat>, refs: seq<Ref>)
  {
    && ValidRefs(b, refs)
    && (forall t :: 0 <= t < |tasks| ==> Collects(b, tasks[t], refs))
    && (forall t :: 0 <= t < |tasks| ==> KeyOfTask(tasks[t]) in taskMap && taskMap[KeyOfTask(tasks[t])] == t)
    && (forall k :: k in taskMap ==> taskMap[k] < |tasks| && KeyOfTask(tasks[taskMap[k]]) == k)
    && (forall i :: 0 <= i < |refs| ==> RefKey(b, refs[i]) in taskMap)
  }

  lemma RefInGrid(b: Batch, r: Ref)
    requires ValidRef(b, r) && Gapless(LeafGrid(b.h))
    ensures InBox(SuperOfRef(b, r), SuperGrid(b.h)) && InBox(LeafOfRef(b, r), LeafGrid(b.h))
    ensures PhysicalId(b.h, b.order, SuperOfRef(b, r)) < SuperblockCount(b.h)
    ensures Encode(LeafOfRef(b, r)) < LeafCount(b.h)
  {
    var q := b.requests[r.request];
    LeafInGrid(b.h, q.axis, q.index, r.key);
    PhysicalIdBijection(b.h, b.order, SuperOfRef(b, r));
    DecodeEncode(LeafOfRef(b, r));
  }

  lemma NewLeaf(b: Batch, tasks: seq<LeafTask>, taskMap: map<nat, nat>, refs: seq<Ref>, r: Ref, task: LeafTask)
    requires Gapless(LeafGrid(b.h)) && Grouped(b, tasks, taskMap, refs) && ValidRef(b, r)
    requires RefKey(b, r) !in taskMap && KeyOfTask(task) == RefKey(b, r)
    requires task.sb < SuperblockCount(b.h) && task.morton < LeafCount(b.h) && task.scatters == [ScatterOf(b, r)]
    ensures Grouped(b, tasks + [task], taskMap[RefKey(b, r) := |tasks|], refs + [r])
  {
    var tasks', refs' := tasks + [task], refs + [r];
    forall t | 0 <= t < |tasks'|
      ensures ValidRefs(b, refs') && Collects(b, tasks'[t], refs')
    {
      SelectStep(b, refs, r, KeyOfTask(tasks'[t]));
      if t < |tasks| {
        assert Collects(b, tasks[t], refs);
      } else {
        SelectNone(b, refs, |refs|, RefKey(b, r));
      }
    }
  }

  lemma KnownLeaf(b: Batch, tasks: seq<LeafTask>, taskMap: map<nat, nat>, refs: seq<Ref>, r: Ref, at: nat)
    requires Grouped(b, tasks, taskMap, refs) && ValidRef(b, r)
    requires RefKey(b, r) in taskMap && at == taskMap[RefKey(b, r)]
    ensures var task := tasks[at].(scatters := tasks[at].scatters + [ScatterOf(b, r)]);
            Grouped(b, tasks[at := task], taskMap, refs + [r])
  {
    var task := tasks[at].(scatters := tasks[at].scatters + [ScatterOf(b, r)]);
    var tasks', refs' := tasks[at := task], refs + [r];
    forall t | 0 <= t < |tasks'|
      ensures ValidRefs(b, refs') && Collects(b, tasks'[t], refs')
    {
      SelectStep(b, refs, r, KeyOfTask(tasks'[t]));
      assert Collects(b, tasks[t], refs);
      assert t != at ==> KeyOfTask(tasks[t]) != RefKey(b, r);
    }
  }

  /** Adds one planned operation: to the task of its leaf, or as a new task. */
  method AddOperation(b: Batch, tasks: seq<LeafTask>, taskMap: map<nat, nat>, ghost refs: seq<Ref>,
                      physicalSb: nat, op: LeafOp, request: nat, ghost r: Ref)
    returns (tasks': seq<LeafTask>, taskMap': map<nat, nat>)
    requires Gapless(LeafGrid(b.h)) && Grouped(b, tasks, taskMap, refs) && ValidRef(b, r)
    requires physicalSb == PhysicalId(b.h, b.order, SuperOfRef(b, r)) && ScatterOf(b, r) == Scatter(op, request)
    ensures Grouped(b, tasks', taskMap', refs + [r])
    ensures TotalScatters(tasks', |tasks'|) == TotalScatters(tasks, |tasks|) + 1
  {
    RefInGrid(b, r);
    var key := TaskKey(physicalSb, op.morton);
    if key !in taskMap {
      var task := LeafTask(physicalSb, op.morton, 0, 0, 0, [Scatter(op, request)]);
      AddNew(b, tasks, taskMap, refs, r, task);
      tasks' := tasks + [task];
      taskMap' := taskMap[key := |tasks|];
    } else {
      var at := taskMap[key];
      AddKnown(b, tasks, taskMap, refs, r, at);
      tasks' := tasks[at := tasks[at].(scatters := tasks[at].scatters + [Scatter(op, request)])];
      taskMap' := taskMap;
    }
  }

  lemma AddNew(b: Batch, tasks: seq<LeafTask>, taskMap: map<nat, nat>, refs: seq<Ref>, r: Ref, task: LeafTask)
    requires Gapless(LeafGrid(b.h)) && Grouped(b, tasks, taskMap, refs) && ValidRef(b, r)
    requires RefKey(b, r) !in taskMap && KeyOfTask(task) == RefKey(b, r)
    requires task.sb < SuperblockCount(b.h) && task.morton < LeafCount(b.h) && task.scatters == [ScatterOf(b, r)]
    ensures Grouped(b, tasks + [task], taskMap[RefKey(b, r) := |tasks|], refs + [r])
    ensures TotalScatters(tasks + [task], |tasks| + 1) == TotalScatters(tasks, |tasks|) + 1
  {
    NewLeaf(b, tasks, taskMap, refs, r, task);
    TotalScattersFront(tasks, tasks + [task], |tasks|);
  }

  lemma AddKnown(b: Batch, tasks: seq<LeafTask>, taskMap: map<nat, nat>, refs: seq<Ref>, r: Ref, at: nat)
    requires Grouped(b, tasks, taskMap, refs) && ValidRef(b, r)
    requires RefKey(b, r) in taskMap && at == taskMap[RefKey(b, r)]
    ensures at < |tasks|
    ensures var tasks' := tasks[at := tasks[at].(scatters := tasks[at].scatters + [ScatterOf(b, r)])];
            && Grouped(b, tasks', taskMap, refs + [r])
            && TotalScatters(tasks', |tasks'|) == TotalScatters(tasks, |tasks|) + 1
  {
    KnownLeaf(b, tasks, taskMap, refs, r, at);
    TotalScattersUpdate(tasks, at, tasks[at].(scatters := tasks[at].scatters + [ScatterOf(b, r)]), |tasks|);
  }

  /** The scatters of the first n tasks together. */
  function TotalScatters(tasks: seq<LeafTask>, n: nat): nat
    requires n <= |tasks|
  {
    if n == 0 then 0 else TotalScatters(tasks, n - 1) + |tasks[n - 1].scatters|
  }

  lemma {:induction false} TotalScattersFront(tasks: seq<LeafTask>, more: seq<LeafTask>, n: nat)
    requires n <= |tasks| <= |more| && forall t :: 0 <= t < n ==> more[t] == tasks[t]
    ensures TotalScatters(more, n) == TotalScatters(tasks, n)
  {
    if n > 0 {
      TotalScattersFront(tasks, more, n - 1);
    }
  }

  lemma {:induction false} TotalScattersUpdate(tasks: seq<LeafTask>, at: nat, task: LeafTask, n: nat)
    requires at < |tasks| && n <= |tasks|
    ensures TotalScatters(tasks[at := task], n)
            == TotalScatters(tasks, n) + if at < n then |task.scatters| - |tasks[at].scatters| else 0
  {
    if n > 0 {
      TotalScattersUpdate(tasks, at, task, n - 1);
    }
  }

  // ----- all operations of all requests -----

  /** A plan and its keys for every request. */
  ghost predicate PlansOk(b: Batch, plans: seq<Plan>, keys: seq<seq<Key>>)
  {
    && |plans| == |keys| <= |b.requests|
    && forall p :: 0 <= p < |plans| ==> PlanOk(b.h, b.requests[p].axis, b.requests[p].index, plans[p], keys[p])
  }

  /** r is among the operations before number i of request p. */
  ghost predicate Listed(keys: seq<seq<Key>>, r: Ref, p: nat, i: nat)
  {
    && r.request < |keys|
    && (r.request < p || (r.request == p && i <= |keys[p]|))
    && r.key in (if r.request < p then keys[r.request] else keys[p][..i])
  }

  /** The references are those of the operations before the position, each once. */
  ghost predicate Enumerated(keys: seq<seq<Key>>, refs: seq<Ref>, p: nat, i: nat)
  {
    && (forall j :: 0 <= j < |refs| ==> Listed(keys, refs[j], p, i))
    && (forall j, k :: 0 <= j < k < |refs| ==> refs[j] != refs[k])
    && (forall r: Ref :: Listed(keys, r, p, i) ==> r in refs)
  }

  lemma EnumerateNext(keys: seq<seq<Key>>, refs: seq<Ref>, p: nat, i: nat)
    requires p < |keys| && i < |keys[p]| && Enumerated(keys, refs, p, i)
    requires forall j, k :: 0 <= j < k < |keys[p]| ==> keys[p][j] != keys[p][k]
    ensures Enumerated(keys, refs + [Ref(p, keys[p][i])], p, i + 1)
  {
    var r := Ref(p, keys[p][i]);
    var refs' := refs + [r];
    assert keys[p][..i + 1] == keys[p][..i] + [keys[p][i]];
    assert !Listed(keys, r, p, i);
    forall r': Ref | Listed(keys, r', p, i + 1)
      ensures r' in refs'
    {
      if r' != r {
        assert Listed(keys, r', p, i);
      } else {
        assert refs'[|refs|] == r;
      }
    }
  }

  lemma EnumerateRequest(keys: seq<seq<Key>>, refs: seq<Ref>, p: nat)
    requires p < |keys| && Enumerated(keys, refs, p, |keys[p]|)
    ensures Enumerated(keys, refs, p + 1, 0)
  {
    assert keys[p][..|keys[p]|] == keys[p];
    forall r: Ref | Listed(keys, r, p + 1, 0)
      ensures r in refs
    {
      assert Listed(keys, r, p, |keys[p]|);
    }
    forall j | 0 <= j < |refs|
      ensures Listed(keys, refs[j], p + 1, 0)
    {
      assert Listed(keys, refs[j], p, |keys[p]|);
    }
  }

  method BuildPlans(b: Batch) returns (plans: seq<Plan>, ghost keys: seq<seq<Key>>)
    ensures PlansOk(b, plans, keys) && |plans| == |b.requests|
  {
    plans, keys := [], [];
    for p := 0 to |b.requests|
      invariant PlansOk(b, plans, keys) && |plans| == p
    {
      plans, keys := BuildPlan(b, plans, keys);
    }
  }

  /** The plan of the next request. */
  method BuildPlan(b: Batch, plans: seq<Plan>, ghost keys: seq<seq<Key>>)
    returns (plans': seq<Plan>, ghost keys': seq<seq<Key>>)
    requires PlansOk(b, plans, keys) && |plans| < |b.requests|
    ensures PlansOk(b, plans', keys') && |plans'| == |plans| + 1
  {
    var r := b.requests[|plans|];
    var plan;
    ghost var planKeys;
    plan, planKeys := BuildSBPlan(b.h, r.axis, r.index);
    plans', keys' := plans + [plan], keys + [planKeys];
  }

  /** The tasks built so far, the map to find them by, and the operations counted. */
  datatype Building = Building(tasks: seq<LeafTask>, taskMap: map<nat, nat>, logical: nat)

  ghost predicate Built(b: Batch, s: Building, keys: seq<seq<Key>>, refs: seq<Ref>, p: nat, i: nat)
  {
    && Grouped(b, s.tasks, s.taskMap, refs) && Enumerated(keys, refs, p, i)
    && s.logical == |refs| == TotalScatters(s.tasks, |s.tasks|)
  }

  /** What the loops rely on of a plan. */
  ghost predicate Usable(b: Batch, p: nat, plan: Plan, keys: seq<Key>)
    requires p < |b.requests|
  {
    && |plan.ops| == |keys|
    && (forall i :: 0 <= i < |keys| ==> UsableOp(b, p, plan.ops[i], keys[i]))
    && (forall i, j :: 0 <= i < j < |keys| ==> keys[i] != keys[j])
  }

  ghost predicate UsableOp(b: Batch, p: nat, op: LeafOp, k: Key)
    requires p < |b.requests|
  {
    var q := b.requests[p];
    ValidKey(b.h, q.axis, k) && op == OpFor(b.h, q.axis, q.index, k)
  }

  ghost predicate UsableTask(b: Batch, p: nat, task: Task, keys: seq<Key>)
    requires p < |b.requests|
  {
    TaskOk(b.h, b.requests[p].axis, b.requests[p].index, task, keys)
  }

  ghost predicate UsableTasks(b: Batch, p: nat, tasks: seq<Task>, keys: seq<Key>)
    requires p < |b.requests|
  {
    Chained(tasks, |keys|) && forall t :: 0 <= t < |tasks| ==> UsableTask(b, p, tasks[t], keys)
  }

  lemma PlanUsable(b: Batch, p: nat, plan: Plan, keys: seq<Key>)
    requires p < |b.requests|
    requires PlanOk(b.h, b.requests[p].axis, b.requests[p].index, plan, keys)
    ensures Usable(b, p, plan, keys) && UsableTasks(b, p, plan.tasks, keys)
  {
  }

  ghost predicate AllUsable(b: Batch, plans: seq<Plan>, keys: seq<seq<Key>>)
  {
    && |plans| == |keys| == |b.requests|
    && forall p :: 0 <= p < |plans| ==> Usable(b, p, plans[p], keys[p]) && UsableTasks(b, p, plans[p].tasks, keys[p])
  }

  lemma PlansUsable(b: Batch, plans: seq<Plan>, keys: seq<seq<Key>>)
    requires PlansOk(b, plans, keys) && |plans| == |b.requests|
    ensures AllUsable(b, plans, keys)
  {
    forall p | 0 <= p < |plans|
      ensures Usable(b, p, plans[p], keys[p]) && UsableTasks(b, p, plans[p].tasks, keys[p])
    {
      PlanUsable(b, p, plans[p], keys[p]);
    }
  }

  /** Handles operation i of request p. */
  method AddNext(b: Batch, s: Building, plan: Plan, physicalSb: nat, p: nat, i: nat,
                 ghost keys: seq<seq<Key>>, ghost refs: seq<Ref>)
    returns (s': Building, ghost refs': seq<Ref>)
    requires Gapless(LeafGrid(b.h)) && p < |keys| == |b.requests| && i < |keys[p]|
    requires Usable(b, p, plan, keys[p])
    requires physicalSb == PhysicalId(b.h, b.order, SuperOf(b.h, b.requests[p].axis, b.requests[p].index, keys[p][i]))
    requires Built(b, s, keys, refs, p, i)
    ensures Built(b, s', keys, refs', p, i + 1)
  {
    ghost var r := Ref(p, keys[p][i]);
    var tasks, taskMap := AddOperation(b, s.tasks, s.taskMap, refs, physicalSb, plan.ops[i], p, r);
    EnumerateNext(keys, refs, p, i);
    refs' := refs + [r];
    s' := Building(tasks, taskMap, s.logical + 1);
  }

  lemma TaskSuperblock(b: Batch, p: nat, keys: seq<Key>, task: Task, i: nat)
    requires p < |b.requests| && i < |keys| && task.firstLeaf <= i < task.firstLeaf + task.leafCount
    requires ValidKey(b.h, b.requests[p].axis, keys[i])
    requires TaskOk(b.h, b.requests[p].axis, b.requests[p].index, task, keys)
    ensures InBox(Coord(0, 0, 0), SuperGrid(b.h))
    ensures PhysicalSuperblockId(b.h, b.order, task.sbIndex)
            == PhysicalId(b.h, b.order, SuperOf(b.h, b.requests[p].axis, b.requests[p].index, keys[i]))
  {
    var q := b.requests[p];
    LeafInGrid(b.h, q.axis, q.index, keys[i]);
    PhysicalIdBijection(b.h, b.order, SuperOf(b.h, q.axis, q.index, keys[i]));
  }

  /** The operations of one superblock of one plan. */
  method AddTask(b: Batch, s: Building, plan: Plan, task: Task, p: nat, ghost keys: seq<seq<Key>>, ghost refs: seq<Ref>)
    returns (s': Building, ghost refs': seq<Ref>)
    requires Gapless(LeafGrid(b.h)) && p < |keys| == |b.requests|
    requires Usable(b, p, plan, keys[p]) && UsableTask(b, p, task, keys[p])
    requires Built(b, s, keys, refs, p, task.firstLeaf)
    ensures Built(b, s', keys, refs', p, task.firstLeaf + task.leafCount)
  {
    TaskSuperblock(b, p, keys[p], task, task.firstLeaf);
    var physicalSb := PhysicalSuperblockId(b.h, b.order, task.sbIndex);
    s', refs' := s, refs;
    var i := task.firstLeaf;
    while i < task.firstLeaf + task.leafCount
      invariant task.firstLeaf <= i <= task.firstLeaf + task.leafCount
      invariant Built(b, s', keys, refs', p, i)
    {
      TaskSuperblock(b, p, keys[p], task, i);
      s', refs' := AddNext(b, s', plan, physicalSb, p, i, keys, refs');
      i := i + 1;
    }
  }

  /** The first operation of task t, or the end of all operations. */
  ghost function StartOf(tasks: seq<Task>, ops: nat, t: nat): nat
  {
    if t < |tasks| then tasks[t].firstLeaf else ops
  }

  lemma ChainNext(tasks: seq<Task>, ops: nat, t: nat)
    requires Chained(tasks, ops) && t < |tasks|
    ensures tasks[t].firstLeaf + tasks[t].leafCount == StartOf(tasks, ops, t + 1)
  {
  }

  method AddPlan(b: Batch, s: Building, plan: Plan, p: nat, ghost keys: seq<seq<Key>>, ghost refs: seq<Ref>)
    returns (s': Building, ghost refs': seq<Ref>)
    requires Gapless(LeafGrid(b.h)) && p < |keys| == |b.requests|
    requires Usable(b, p, plan, keys[p]) && UsableTasks(b, p, plan.tasks, keys[p])
    requires Built(b, s, keys, refs, p, 0)
    ensures Built(b, s', keys, refs', p, |keys[p]|)
  {
    s', refs' := s, refs;
    ghost var i: nat := 0;
    var t: nat := 0;
    while t < |plan.tasks|
      invariant t <= |plan.tasks| && i == StartOf(plan.tasks, |keys[p]|, t) && Built(b, s', keys, refs', p, i)
    {
      ChainNext(plan.tasks, |keys[p]|, t);
      s', refs' := AddTask(b, s', plan, plan.tasks[t], p, keys, refs');
      i := i + plan.tasks[t].leafCount;
      t := t + 1;
    }
  }

  /** Every leaf that some request meets, once, with the places its cells go to; the references say which. */
  ghost predicate LeafTasks(b: Batch, tasks: seq<LeafTask>, taskMap: map<nat, nat>, refs: seq<Ref>)
  {
    && Grouped(b, tasks, taskMap, refs)
    && (forall r: Ref :: ValidRef(b, r) <==> r in refs)
    && (forall i, j :: 0 <= i < j < |refs| ==> refs[i] != refs[j])
  }

  lemma AllListed(b: Batch, plans: seq<Plan>, keys: seq<seq<Key>>, refs: seq<Ref>)
    requires PlansOk(b, plans, keys) && |plans| == |b.requests|
    requires Enumerated(keys, refs, |keys|, 0)
    ensures forall r: Ref :: ValidRef(b, r) ==> r in refs
  {
    forall r: Ref | ValidRef(b, r)
      ensures r in refs
    {
      assert PlanOk(b.h, b.requests[r.request].axis, b.requests[r.request].index, plans[r.request], keys[r.request]);
      assert r.key in keys[r.request];
      assert Listed(keys, r, |keys|, 0);
    }
  }

  method AddPlanNumber(b: Batch, s: Building, plans: seq<Plan>, p: nat, ghost keys: seq<seq<Key>>, ghost refs: seq<Ref>)
    returns (s': Building, ghost refs': seq<Ref>)
    requires Gapless(LeafGrid(b.h)) && AllUsable(b, plans, keys) && p < |plans| && Built(b, s, keys, refs, p, 0)
    ensures Built(b, s', keys, refs', p + 1, 0)
  {
    s', refs' := AddPlan(b, s, plans[p], p, keys, refs);
    EnumerateRequest(keys, refs', p);
  }

  lemma BuiltNothing(b: Batch, keys: seq<seq<Key>>)
    ensures Built(b, Building([], map[], 0), keys, [], 0, 0)
  {
  }

  /** All operations of all plans. */
  method AddPlans(b: Batch, plans: seq<Plan>, ghost keys: seq<seq<Key>>) returns (s: Building, ghost refs: seq<Ref>)
    requires Gapless(LeafGrid(b.h)) && AllUsable(b, plans, keys)
    ensures Built(b, s, keys, refs, |keys|, 0)
  {
    s := Building([], map[], 0);
    refs := [];
    BuiltNothing(b, keys);
    var p: nat := 0;
    while p < |plans|
      invariant p <= |plans| && Built(b, s, keys, refs, p, 0)
    {
      s, refs := AddPlanNumber(b, s, plans, p, keys, refs);
      p := p + 1;
    }
  }

  /**
   * The tasks of a batch. No request is lost or served twice: the scatters of all tasks together are the logical
   * requests, so the duplicates are what was merged.
   */
  method BuildLeafTasks(b: Batch)
    returns (tasks: seq<LeafTask>, logical: nat, duplicates: nat, ghost taskMap: map<nat, nat>, ghost refs: seq<Ref>)
    requires Gapless(LeafGrid(b.h))
    ensures LeafTasks(b, tasks, taskMap, refs)
    ensures logical == |refs| == TotalScatters(tasks, |tasks|) && logical == |tasks| + duplicates
  {
    var plans;
    ghost var keys;
    plans, keys := BuildPlans(b);
    PlansUsable(b, plans, keys);
    var s;
    s, refs := AddPlans(b, plans, keys);
    AllListed(b, plans, keys, refs);
    tasks, taskMap, logical := s.tasks, s.taskMap, s.logical;
    TasksNonEmpty(b, tasks, taskMap, refs, |tasks|);
    duplicates := logical - |tasks|;
  }

  lemma {:induction false} TasksNonEmpty(b: Batch, tasks: seq<LeafTask>, taskMap: map<nat, nat>, refs: seq<Ref>, n: nat)
    requires Grouped(b, tasks, taskMap, refs) && n <= |tasks|
    ensures n <= TotalScatters(tasks, n)
  {
    if n > 0 {
      TasksNonEmpty(b, tasks, taskMap, refs, n - 1);
    }
  }
}
