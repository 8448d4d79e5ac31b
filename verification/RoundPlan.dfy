/** Planning the reads of a whole round: each leaf once, in intervals of the payload. */
module RoundPlan {
  import opened Basics
  import opened Sorting
  import opened Layout
  import opened RzfpFile
  import opened RzfpTasks
  import opened RzfpOffsets
  import opened RzfpStrategies
  import opened RzfpReader
  import opened ReadPipeline
  import opened Morton
  import opened RzfpFormat
  import opened RzfpFileWriter

  /** A stretch of the file and the tasks whose records it covers. */
  datatype ReadInterval = ReadInterval(offset: nat, size: nat, first: nat, count: nat)

  function EndOf(t: LeafTask): nat
  {
    t.offset + t.size
  }

  predicate Sorted(tasks: seq<LeafTask>)
  {
    forall i, j :: 0 <= i < j < |tasks| ==> tasks[i].offset <= tasks[j].offset
  }

  /** No byte belongs to two records. */
  predicate Apart(a: LeafTask, b: LeafTask)
  {
    EndOf(a) <= b.offset || EndOf(b) <= a.offset
  }

  predicate AllApart(tasks: seq<LeafTask>)
  {
    forall i, j :: 0 <= i < j < |tasks| ==> Apart(tasks[i], tasks[j])
  }

  /** The interval starts with its first record, covers all its records, and ends where one of them ends. */
  ghost predicate CoversTasks(tasks: seq<LeafTask>, iv: ReadInterval)
  {
    && 0 < iv.count && iv.first + iv.count <= |tasks| && iv.offset == tasks[iv.first].offset
    && (forall k :: iv.first <= k < iv.first + iv.count ==>
          iv.offset <= tasks[k].offset && EndOf(tasks[k]) <= iv.offset + iv.size)
    && (exists k :: iv.first <= k < iv.first + iv.count && EndOf(tasks[k]) == iv.offset + iv.size)
  }

  /** The next record starts too far behind the last one's start, or ends too far for the interval's size. */
  predicate Stopped(tasks: seq<LeafTask>, iv: ReadInterval, window: nat, maxGap: nat)
  {
    var next := iv.first + iv.count;
    0 < next < |tasks| ==> tasks[next].offset > tasks[next - 1].offset + maxGap || EndOf(tasks[next]) > iv.offset + window
  }

  /** Each record taken starts no further than the gap behind the start of the one before, and fits the interval's size. */
  predicate Bridged(tasks: seq<LeafTask>, i: nat, j: nat, window: nat, maxGap: nat)
    requires j <= |tasks|
  {
    forall k :: i < k < j ==> tasks[k].offset <= tasks[k - 1].offset + maxGap && EndOf(tasks[k]) <= tasks[i].offset + window
  }

  /** The intervals bridge no larger gap. */
  predicate AllBridged(tasks: seq<LeafTask>, intervals: seq<ReadInterval>, window: nat, maxGap: nat)
  {
    forall i :: 0 <= i < |intervals| ==>
      && intervals[i].first + intervals[i].count <= |tasks|
      && Bridged(tasks, intervals[i].first, intervals[i].first + intervals[i].count, window, maxGap)
  }

  /** An interval made of tasks from number i on, as large as it may be. */
  ghost predicate Made(tasks: seq<LeafTask>, iv: ReadInterval, i: nat, window: nat, maxGap: nat)
  {
    && iv.first == i < |tasks| && CoversTasks(tasks, iv) && iv.size <= Max(window, tasks[i].size)
    && (AllApart(tasks) && i + iv.count < |tasks| ==> iv.offset + iv.size <= tasks[i + iv.count].offset)
    && Stopped(tasks, iv, window, maxGap)
  }

  /** Tasks i up to j are in; the one that reaches furthest is known. */
  ghost predicate Filling(tasks: seq<LeafTask>, i: nat, j: nat, end: nat, last: nat, window: nat)
  {
    && i <= last < j <= |tasks| && EndOf(tasks[last]) == end && tasks[i].offset <= end
    && end - tasks[i].offset <= Max(window, tasks[i].size)
    && (forall k :: i <= k < j ==> tasks[i].offset <= tasks[k].offset && EndOf(tasks[k]) <= end)
    && (forall k :: i < k < j ==> EndOf(tasks[k]) - tasks[i].offset <= window)
  }

  /** The start of the last record taken. */
  predicate Edge(tasks: seq<LeafTask>, j: nat, windowEnd: nat)
  {
    0 < j <= |tasks| && windowEnd == tasks[j - 1].offset
  }

  lemma FillNext(tasks: seq<LeafTask>, i: nat, j: nat, end: nat, last: nat, window: nat)
    requires Sorted(tasks) && Filling(tasks, i, j, end, last, window) && j < |tasks|
    requires EndOf(tasks[j]) - tasks[i].offset <= window
    ensures var further := EndOf(tasks[j]) > end;
            Filling(tasks, i, j + 1, if further then EndOf(tasks[j]) else end, if further then j else last, window)
  {
  }

  lemma EdgeNext(tasks: seq<LeafTask>, j: nat, windowEnd: nat)
    requires Sorted(tasks) && Edge(tasks, j, windowEnd) && j < |tasks|
    ensures Edge(tasks, j + 1, if tasks[j].offset > windowEnd then tasks[j].offset else windowEnd)
  {
  }

  /** The state of the loop that fills an interval. */
  ghost predicate Growing(tasks: seq<LeafTask>, i: nat, j: nat, windowEnd: nat, end: nat, last: nat, window: nat, maxGap: nat)
  {
    && Filling(tasks, i, j, end, last, window) && Edge(tasks, j, windowEnd) && Bridged(tasks, i, j, window, maxGap)
  }

  lemma BridgedNext(tasks: seq<LeafTask>, i: nat, j: nat, windowEnd: nat, window: nat, maxGap: nat)
    requires Edge(tasks, j, windowEnd) && Bridged(tasks, i, j, window, maxGap) && i < j < |tasks|
    requires tasks[j].offset <= windowEnd + maxGap && EndOf(tasks[j]) - tasks[i].offset <= window
    ensures Bridged(tasks, i, j + 1, window, maxGap)
  {
  }

  /** Takes record j into the interval. */
  method Take(tasks: seq<LeafTask>, ghost i: nat, j: nat, windowEnd: nat, end: nat, ghost last: nat, ghost window: nat,
              ghost maxGap: nat)
    returns (windowEnd': nat, end': nat, ghost last': nat)
    requires Sorted(tasks) && Growing(tasks, i, j, windowEnd, end, last, window, maxGap) && j < |tasks|
    requires tasks[j].offset <= windowEnd + maxGap && EndOf(tasks[j]) - tasks[i].offset <= window
    ensures Growing(tasks, i, j + 1, windowEnd', end', last', window, maxGap)
  {
    FillNext(tasks, i, j, end, last, window);
    EdgeNext(tasks, j, windowEnd);
    BridgedNext(tasks, i, j, windowEnd, window, maxGap);
    end', last' := end, last;
    if EndOf(tasks[j]) > end {
      end', last' := EndOf(tasks[j]), j;
    }
    windowEnd' := if tasks[j].offset > windowEnd then tasks[j].offset else windowEnd;
  }

  lemma FillDone(tasks: seq<LeafTask>, i: nat, j: nat, end: nat, last: nat, window: nat, maxGap: nat)
    requires Sorted(tasks) && Filling(tasks, i, j, end, last, window)
    requires j < |tasks| ==>
               tasks[j].offset > tasks[j - 1].offset + maxGap || EndOf(tasks[j]) - tasks[i].offset > window
    ensures end >= tasks[i].offset
    ensures Made(tasks, ReadInterval(tasks[i].offset, end - tasks[i].offset, i, j - i), i, window, maxGap)
  {
    if AllApart(tasks) && j < |tasks| {
      BreakIsBehind(tasks, i, j, last, window);
    }
  }

  lemma StartGrowing(tasks: seq<LeafTask>, i: nat, window: nat, maxGap: nat)
    requires i < |tasks|
    ensures Growing(tasks, i, i + 1, tasks[i].offset, EndOf(tasks[i]), i, window, maxGap)
  {
  }

  lemma GrowingIs(tasks: seq<LeafTask>, i: nat, j: nat, windowEnd: nat, end: nat, last: nat, window: nat, maxGap: nat)
    ensures Growing(tasks, i, j, windowEnd, end, last, window, maxGap) ==>
              Filling(tasks, i, j, end, last, window) && Edge(tasks, j, windowEnd) && Bridged(tasks, i, j, window, maxGap)
  {
  }

  /** Records are added as long as the gap to the last start and the size allow it. */
  method Grow(tasks: seq<LeafTask>, i: nat, window: nat, maxGap: nat) returns (j: nat, end: nat, ghost last: nat)
    requires Sorted(tasks) && i < |tasks|
    ensures Filling(tasks, i, j, end, last, window) && Bridged(tasks, i, j, window, maxGap)
    ensures j < |tasks| ==> tasks[j].offset > tasks[j - 1].offset + maxGap || EndOf(tasks[j]) - tasks[i].offset > window
  {
    StartGrowing(tasks, i, window, maxGap);
    var windowEnd: nat := tasks[i].offset;
    end, last, j := EndOf(tasks[i]), i, i + 1;
    while j < |tasks| && tasks[j].offset <= windowEnd + maxGap && EndOf(tasks[j]) - tasks[i].offset <= window
      invariant Growing(tasks, i, j, windowEnd, end, last, window, maxGap)
      decreases |tasks| - j
    {
      windowEnd, end, last := Take(tasks, i, j, windowEnd, end, last, window, maxGap);
      j := j + 1;
    }
    GrowingIs(tasks, i, j, windowEnd, end, last, window, maxGap);
  }

  /** One interval: all records that the gap and the size allow, and no further. */
  method NextInterval(tasks: seq<LeafTask>, i: nat, window: nat, maxGap: nat) returns (iv: ReadInterval)
    requires Sorted(tasks) && i < |tasks|
    ensures Made(tasks, iv, i, window, maxGap) && Bridged(tasks, i, i + iv.count, window, maxGap)
  {
    var j, end;
    ghost var last;
    j, end, last := Grow(tasks, i, window, maxGap);
    FillDone(tasks, i, j, end, last, window, maxGap);
    iv := ReadInterval(tasks[i].offset, end - tasks[i].offset, i, j - i);
  }

  /** The record the loop stops at starts behind every record of the interval. */
  lemma BreakIsBehind(tasks: seq<LeafTask>, i: nat, j: nat, k: nat, window: nat)
    requires Sorted(tasks) && AllApart(tasks) && i <= k < j < |tasks|
    requires forall l :: i < l < j ==> EndOf(tasks[l]) - tasks[i].offset <= window
    requires tasks[j].offset > tasks[j - 1].offset || EndOf(tasks[j]) - tasks[i].offset > window
    ensures EndOf(tasks[k]) <= tasks[j].offset
  {
    assert Apart(tasks[k], tasks[j]);
  }

  /** The intervals take the tasks up to n in order, leaving none out. */
  ghost predicate Chained(intervals: seq<ReadInterval>, n: nat)
  {
    if intervals == [] then n == 0
    else
      && intervals[0].first == 0
      && (forall i, j :: 0 <= i < j < |intervals| && j == i + 1 ==>
            intervals[j].first == intervals[i].first + intervals[i].count)
      && intervals[|intervals| - 1].first + intervals[|intervals| - 1].count == n
  }

  /** Each interval ends before the next begins. */
  predicate InOrder(intervals: seq<ReadInterval>)
  {
    forall i, j :: 0 <= i < j < |intervals| ==> intervals[i].offset + intervals[i].size <= intervals[j].offset
  }

  /** The intervals take the tasks up to n, each as large as it may be. */
  ghost predicate IntervalsOk(tasks: seq<LeafTask>, intervals: seq<ReadInterval>, n: nat, window: nat, maxGap: nat)
  {
    && n <= |tasks| && Chained(intervals, n)
    && forall i :: 0 <= i < |intervals| ==> Made(tasks, intervals[i], intervals[i].first, window, maxGap)
  }

  lemma ChainNext(intervals: seq<ReadInterval>, iv: ReadInterval, n: nat)
    requires Chained(intervals, n) && iv.first == n
    ensures Chained(intervals + [iv], n + iv.count)
  {
  }

  lemma AppendInterval(tasks: seq<LeafTask>, intervals: seq<ReadInterval>, iv: ReadInterval, i: nat, window: nat, maxGap: nat)
    requires IntervalsOk(tasks, intervals, i, window, maxGap) && Made(tasks, iv, i, window, maxGap)
    ensures i < i + iv.count <= |tasks| && IntervalsOk(tasks, intervals + [iv], i + iv.count, window, maxGap)
  {
    ChainNext(intervals, iv, i);
  }

  /** Where an interval starts, and that the record behind it starts behind it. */
  lemma MadeBounds(tasks: seq<LeafTask>, iv: ReadInterval, i: nat, window: nat, maxGap: nat)
    requires Made(tasks, iv, i, window, maxGap)
    ensures i < |tasks| && iv.offset == tasks[i].offset
    ensures AllApart(tasks) && i + iv.count < |tasks| ==> iv.offset + iv.size <= tasks[i + iv.count].offset
  {
  }

  lemma NextBehind(tasks: seq<LeafTask>, intervals: seq<ReadInterval>, n: nat, window: nat, maxGap: nat, i: nat)
    requires IntervalsOk(tasks, intervals, n, window, maxGap) && AllApart(tasks) && i + 1 < |intervals|
    ensures intervals[i].offset + intervals[i].size <= intervals[i + 1].offset
  {
    ChainAt(intervals, n, i);
    PairBehind(tasks, intervals[i], intervals[i + 1], window, maxGap);
  }

  lemma PairBehind(tasks: seq<LeafTask>, a: ReadInterval, b: ReadInterval, window: nat, maxGap: nat)
    requires AllApart(tasks) && b.first == a.first + a.count
    requires Made(tasks, a, a.first, window, maxGap) && Made(tasks, b, b.first, window, maxGap)
    ensures a.offset + a.size <= b.offset
  {
    MadeBounds(tasks, a, a.first, window, maxGap);
    MadeBounds(tasks, b, b.first, window, maxGap);
  }

  lemma ChainAt(intervals: seq<ReadInterval>, n: nat, i: nat)
    requires Chained(intervals, n) && i + 1 < |intervals|
    ensures intervals[i + 1].first == intervals[i].first + intervals[i].count
  {
  }

  /** Intervals each of which ends before the next one begins are in order. */
  lemma {:induction false} AllBehind(intervals: seq<ReadInterval>, i: nat, j: nat)
    requires forall k, l :: 0 <= k < l < |intervals| && l == k + 1 ==>
               intervals[k].offset + intervals[k].size <= intervals[l].offset
    requires i < j < |intervals|
    ensures intervals[i].offset + intervals[i].size <= intervals[j].offset
    decreases j
  {
    if i < j - 1 {
      AllBehind(intervals, i, j - 1);
    }
  }

  /** When the records do not overlap, neither do the intervals. */
  lemma IntervalsInOrder(tasks: seq<LeafTask>, intervals: seq<ReadInterval>, n: nat, window: nat, maxGap: nat)
    requires IntervalsOk(tasks, intervals, n, window, maxGap) && AllApart(tasks)
    ensures InOrder(intervals)
  {
    forall k, l | 0 <= k < l < |intervals| && l == k + 1
      ensures intervals[k].offset + intervals[k].size <= intervals[l].offset
    {
      NextBehind(tasks, intervals, n, window, maxGap, k);
    }
    forall i, j | 0 <= i < j < |intervals|
      ensures intervals[i].offset + intervals[i].size <= intervals[j].offset
    {
      AllBehind(intervals, i, j);
    }
  }

  /** Sorts the tasks by where their records are, and covers them with intervals. */
  method BuildIntervals(tasks: seq<LeafTask>, windowBytes: nat, maxGapBytes: nat)
    returns (sorted: seq<LeafTask>, intervals: seq<ReadInterval>)
    ensures multiset(sorted) == multiset(tasks) && Sorted(sorted)
    ensures IntervalsOk(sorted, intervals, |sorted|, WindowOf(windowBytes), GapOf(maxGapBytes))
    ensures AllBridged(sorted, intervals, WindowOf(windowBytes), GapOf(maxGapBytes))
  {
    sorted := Sort(tasks, ByRecordOffset());
    SortedByOffset(sorted);
    intervals := CoverSorted(sorted, WindowOf(windowBytes), GapOf(maxGapBytes));
  }

  /** The read size and the gap, with defaults for none given. */
  function WindowOf(windowBytes: nat): nat
  {
    if windowBytes > 0 then windowBytes else DEFAULT_READ_WINDOW
  }

  function GapOf(maxGapBytes: nat): nat
  {
    if maxGapBytes > 0 then maxGapBytes else DEFAULT_MAX_GAP
  }

  lemma SortedByOffset(s: seq<LeafTask>)
    requires SortedBy(s, ByRecordOffset())
    ensures Sorted(s)
  {
    forall i, j | 0 <= i < j < |s|
      ensures s[i].offset <= s[j].offset
    {
      assert ByRecordOffset()(s[i], s[j]);
    }
  }

  ghost predicate Covering(tasks: seq<LeafTask>, intervals: seq<ReadInterval>, n: nat, window: nat, maxGap: nat)
  {
    IntervalsOk(tasks, intervals, n, window, maxGap) && AllBridged(tasks, intervals, window, maxGap)
  }

  method AddInterval(sorted: seq<LeafTask>, intervals: seq<ReadInterval>, i: nat, window: nat, maxGap: nat)
    returns (intervals': seq<ReadInterval>, i': nat)
    requires Sorted(sorted) && i < |sorted| && Covering(sorted, intervals, i, window, maxGap)
    ensures i < i' <= |sorted| && Covering(sorted, intervals', i', window, maxGap)
  {
    var iv := NextInterval(sorted, i, window, maxGap);
    AppendInterval(sorted, intervals, iv, i, window, maxGap);
    BridgedToo(sorted, intervals, iv, window, maxGap);
    intervals', i' := intervals + [iv], i + iv.count;
  }

  lemma BridgedToo(tasks: seq<LeafTask>, intervals: seq<ReadInterval>, iv: ReadInterval, window: nat, maxGap: nat)
    requires AllBridged(tasks, intervals, window, maxGap) && iv.first + iv.count <= |tasks|
    requires Bridged(tasks, iv.first, iv.first + iv.count, window, maxGap)
    ensures AllBridged(tasks, intervals + [iv], window, maxGap)
  {
  }

  method CoverSorted(sorted: seq<LeafTask>, window: nat, maxGap: nat) returns (intervals: seq<ReadInterval>)
    requires Sorted(sorted)
    ensures IntervalsOk(sorted, intervals, |sorted|, window, maxGap) && AllBridged(sorted, intervals, window, maxGap)
  {
    intervals := [];
    var i: nat := 0;
    while i < |sorted|
      invariant i <= |sorted| && Covering(sorted, intervals, i, window, maxGap)
    {
      intervals, i := AddInterval(sorted, intervals, i, window, maxGap);
    }
  }

  // ----- the plan -----

  datatype Plan = Plan(tasks: seq<LeafTask>, intervals: seq<ReadInterval>, logical: nat, unique: nat, duplicates: nat)

  /**
   * Plans a round. Requests are conserved: they are the unique leaves and the duplicates, and each leaf keeps all the
   * places its requests scatter it to. The intervals take every leaf once, and cover its record.
   */
  method BuildRoundPlan(f: File, b: Batch, windowBytes: nat, maxGapBytes: nat)
    returns (plan: Plan, ghost refs: seq<Ref>)
    requires Accepted(f) && Matches(f, b) && Gapless(LeafGrid(f.h))
    ensures plan.logical == plan.unique + plan.duplicates && plan.unique == |plan.tasks| && plan.logical == |refs|
    ensures plan.logical == TotalScatters(plan.tasks, |plan.tasks|)
    ensures Ready(f, plan.tasks) && Serves(b, plan.tasks, refs) && DistinctLeaves(plan.tasks)
    ensures forall r: Ref :: ValidRef(b, r) <==> r in refs
    ensures Sorted(plan.tasks)
    ensures IntervalsOk(plan.tasks, plan.intervals, |plan.tasks|, WindowOf(windowBytes), GapOf(maxGapBytes))
    ensures AllBridged(plan.tasks, plan.intervals, WindowOf(windowBytes), GapOf(maxGapBytes))
  {
    var built, logical, duplicates;
    ghost var taskMap;
    built, logical, duplicates, taskMap, refs := BuildLeafTasks(b);
    GroupedServes(b, built, taskMap, refs);
    ServedInFile(f, b, built, refs);
    var cps := BuildPrefixCheckpoints(f, built);
    var addressed := ComputeTaskOffsets(f, built, cps);
    SameLeavesServe(b, built, addressed, refs);
    SameTotals(built, addressed, |built|);
    var sorted, intervals;
    sorted, intervals := BuildIntervals(addressed, windowBytes, maxGapBytes);
    PermutedServe(b, addressed, sorted, refs);
    PermutedTotals(sorted, addressed);
    PermutedAddressed(f, addressed, sorted);
    GroupedDistinct(b, built, taskMap, refs);
    PermutedDistinct(addressed, sorted);
    plan := Plan(sorted, intervals, logical, |sorted|, duplicates);
    SameElements(sorted, addressed);
  }

  predicate DistinctLeaves(tasks: seq<LeafTask>)
  {
    forall i, j :: 0 <= i < j < |tasks| ==> KeyOfTask(tasks[i]) != KeyOfTask(tasks[j])
  }

  lemma GroupedDistinct(b: Batch, tasks: seq<LeafTask>, taskMap: map<nat, nat>, refs: seq<Ref>)
    requires Grouped(b, tasks, taskMap, refs)
    ensures DistinctLeaves(tasks)
  {
  }

  function LeafKey(): LeafTask -> nat
  {
    (t: LeafTask) => KeyOfTask(t)
  }

  lemma PermutedDistinct(a: seq<LeafTask>, b: seq<LeafTask>)
    requires multiset(a) == multiset(b) && DistinctLeaves(a)
    ensures DistinctLeaves(b)
  {
    var keys, keys' := Map(LeafKey(), a), Map(LeafKey(), b);
    assert Distinct(keys);
    MapPermuted(LeafKey(), a, b);
    DistinctPermuted(keys, keys');
    forall i, j | 0 <= i < j < |b|
      ensures KeyOfTask(b[i]) != KeyOfTask(b[j])
    {
      assert keys'[i] != keys'[j];
    }
  }

  lemma {:induction false} SameTotals(a: seq<LeafTask>, b: seq<LeafTask>, n: nat)
    requires |a| == |b| && n <= |a| && forall t :: 0 <= t < |a| ==> SameLeaf(b[t], a[t])
    ensures TotalScatters(b, n) == TotalScatters(a, n)
  {
    if n > 0 {
      SameTotals(a, b, n - 1);
    }
  }

  function ScatterCount(): LeafTask -> nat
  {
    (t: LeafTask) => |t.scatters|
  }

  lemma {:induction false} TotalIsSum(tasks: seq<LeafTask>, n: nat)
    requires n <= |tasks|
    ensures TotalScatters(tasks, n) == Sum(Map(ScatterCount(), tasks)[..n])
  {
    var counts := Map(ScatterCount(), tasks);
    if n == 0 {
      assert counts[..0] == [];
    } else {
      TotalIsSum(tasks, n - 1);
      SumConcat(counts[..n - 1], [counts[n - 1]]);
      assert counts[..n] == counts[..n - 1] + [counts[n - 1]];
      assert Sum([counts[n - 1]]) == counts[n - 1] + Sum([counts[n - 1]][1..]);
    }
  }

  lemma PermutedTotals(a: seq<LeafTask>, b: seq<LeafTask>)
    requires multiset(a) == multiset(b)
    ensures TotalScatters(a, |a|) == TotalScatters(b, |b|)
  {
    MapPermuted(ScatterCount(), a, b);
    SumPermuted(Map(ScatterCount(), a), Map(ScatterCount(), b));
    TotalIsSum(a, |a|);
    TotalIsSum(b, |b|);
    assert Map(ScatterCount(), a)[..|a|] == Map(ScatterCount(), a);
    assert Map(ScatterCount(), b)[..|b|] == Map(ScatterCount(), b);
  }

  lemma PermutedAddressed(f: File, a: seq<LeafTask>, b: seq<LeafTask>)
    requires Accepted(f) && multiset(a) == multiset(b) && forall t :: 0 <= t < |a| ==> Addressed(f, a[t])
    ensures Ready(f, b)
  {
    SameElements(a, b);
    forall t | 0 <= t < |b|
      ensures Addressed(f, b[t])
    {
      assert b[t] in a;
    }
  }

  // ----- validation -----

  /** What the validator asks of the intervals and the tasks. */
  predicate ValidIntervals(intervals: seq<ReadInterval>, start: nat, end: nat)
  {
    && (forall i :: 0 <= i < |intervals| ==>
          intervals[i].size > 0 && InPayload(intervals[i], start, end))
    && InOrder(intervals)
  }

  predicate ValidTasks(tasks: seq<LeafTask>, start: nat, end: nat)
  {
    forall t :: 0 <= t < |tasks| ==> start <= tasks[t].offset && EndOf(tasks[t]) <= end
  }

  method ValidateIntervals(intervals: seq<ReadInterval>, start: nat, end: nat) returns (ok: bool)
    ensures ok == ValidIntervals(intervals, start, end)
  {
    var prevEnd: nat := 0;
    var i: nat := 0;
    while i < |intervals|
      invariant i <= |intervals| && ValidIntervals(intervals[..i], start, end)
      invariant i > 0 ==> prevEnd == intervals[i - 1].offset + intervals[i - 1].size
    {
      var iv := intervals[i];
      if iv.size == 0 || iv.count == 0 || iv.offset < start || iv.offset + iv.size > end {
        return false;
      }
      if i > 0 && iv.offset < prevEnd {
        assert !(intervals[i - 1].offset + intervals[i - 1].size <= intervals[i].offset);
        return false;
      }
      prevEnd := iv.offset + iv.size;
      BehindAll(intervals, i, start, end);
      i := i + 1;
    }
    assert intervals[..|intervals|] == intervals;
    ok := true;
  }

  /** An interval behind the last one is behind all of them. */
  lemma BehindAll(intervals: seq<ReadInterval>, i: nat, start: nat, end: nat)
    requires i < |intervals| && ValidIntervals(intervals[..i], start, end)
    requires intervals[i].size > 0 && intervals[i].count > 0 && start <= intervals[i].offset
    requires intervals[i].offset + intervals[i].size <= end
    requires i > 0 ==> intervals[i - 1].offset + intervals[i - 1].size <= intervals[i].offset
    ensures ValidIntervals(intervals[..i + 1], start, end)
  {
    var a, b := intervals[..i], intervals[..i + 1];
    assert b == a + [intervals[i]];
    forall k, l | 0 <= k < l < |b|
      ensures b[k].offset + b[k].size <= b[l].offset
    {
      if l == i && k < i - 1 {
        assert a[k].offset + a[k].size <= a[i - 1].offset;
      }
    }
  }

  method ValidateRoundPlan(plan: Plan, start: nat, end: nat) returns (ok: bool)
    ensures ok == (ValidIntervals(plan.intervals, start, end) && ValidTasks(plan.tasks, start, end))
  {
    if plan.tasks == [] && plan.intervals == [] {
      return true;
    }
    ok := ValidateIntervals(plan.intervals, start, end);
    if !ok {
      return;
    }
    var t: nat := 0;
    while t < |plan.tasks|
      invariant t <= |plan.tasks|
      invariant forall k :: 0 <= k < t ==> start <= plan.tasks[k].offset && EndOf(plan.tasks[k]) <= end
    {
      if plan.tasks[t].offset < start || EndOf(plan.tasks[t]) > end {
        return false;
      }
      t := t + 1;
    }
  }

  /** An interval made of nothing but empty records at one place. */
  ghost predicate OnlyEmpty(tasks: seq<LeafTask>, iv: ReadInterval)
    requires iv.first + iv.count <= |tasks|
  {
    forall k :: iv.first <= k < iv.first + iv.count ==> tasks[k].size == 0 && tasks[k].offset == iv.offset
  }

  lemma EmptyInterval(tasks: seq<LeafTask>, iv: ReadInterval)
    requires CoversTasks(tasks, iv)
    ensures iv.size == 0 <==> OnlyEmpty(tasks, iv)
  {
  }

  /** A plan whose records lie in the payload and do not overlap is valid exactly when no interval is only empty records. */
  lemma PlanValid(plan: Plan, start: nat, end: nat, window: nat, maxGap: nat)
    requires IntervalsOk(plan.tasks, plan.intervals, |plan.tasks|, window, maxGap) && AllApart(plan.tasks)
    requires ValidTasks(plan.tasks, start, end)
    ensures ValidIntervals(plan.intervals, start, end)
            <==> forall i :: 0 <= i < |plan.intervals| ==> !OnlyEmpty(plan.tasks, plan.intervals[i])
  {
    IntervalsInOrder(plan.tasks, plan.intervals, |plan.tasks|, window, maxGap);
    forall i | 0 <= i < |plan.intervals|
      ensures InPayload(plan.intervals[i], start, end)
              && (plan.intervals[i].size == 0 <==> OnlyEmpty(plan.tasks, plan.intervals[i]))
    {
      assert Made(plan.tasks, plan.intervals[i], plan.intervals[i].first, window, maxGap);
      EmptyInterval(plan.tasks, plan.intervals[i]);
      IntervalInPayload(plan.tasks, plan.intervals[i], start, end);
    }
  }

  predicate InPayload(iv: ReadInterval, start: nat, end: nat)
  {
    iv.count > 0 && start <= iv.offset && iv.offset + iv.size <= end
  }

  lemma IntervalInPayload(tasks: seq<LeafTask>, iv: ReadInterval, start: nat, end: nat)
    requires CoversTasks(tasks, iv) && ValidTasks(tasks, start, end)
    ensures InPayload(iv, start, end)
  {
  }

  /** All records are empty and lie at one place, as that of a leaf of zeros does. */
  predicate AllEmpty(tasks: seq<LeafTask>)
  {
    forall t :: 0 <= t < |tasks| ==> tasks[t].size == 0 && tasks[t].offset == tasks[0].offset
  }

  lemma NoIntervals(tasks: seq<LeafTask>, intervals: seq<ReadInterval>, window: nat, maxGap: nat)
    requires IntervalsOk(tasks, intervals, |tasks|, window, maxGap)
    ensures intervals == [] <==> tasks == []
    ensures tasks != [] ==> Made(tasks, intervals[0], 0, window, maxGap)
  {
    if intervals != [] {
      assert Made(tasks, intervals[|intervals| - 1], intervals[|intervals| - 1].first, window, maxGap);
    }
  }

  /** Whatever the read size, what is built for a round of only such records is rejected. */
  lemma EmptyRecordsRejected(plan: Plan, start: nat, end: nat, window: nat, maxGap: nat)
    requires IntervalsOk(plan.tasks, plan.intervals, |plan.tasks|, window, maxGap)
    requires plan.tasks != [] && AllEmpty(plan.tasks)
    ensures !ValidIntervals(plan.intervals, start, end)
  {
    NoIntervals(plan.tasks, plan.intervals, window, maxGap);
    EmptyInterval(plan.tasks, plan.intervals[0]);
  }

  /** The records of the round lie within the read size, and their starts within the gap. */
  predicate Close(tasks: seq<LeafTask>, window: nat, maxGap: nat)
  {
    forall t :: 0 <= t < |tasks| ==>
      EndOf(tasks[t]) <= tasks[0].offset + window && tasks[t].offset <= tasks[0].offset + maxGap
  }

  lemma StartsInside(tasks: seq<LeafTask>, intervals: seq<ReadInterval>, window: nat, maxGap: nat, i: nat)
    requires IntervalsOk(tasks, intervals, |tasks|, window, maxGap) && i < |intervals|
    ensures intervals[i].first < |tasks|
  {
    assert Made(tasks, intervals[i], intervals[i].first, window, maxGap);
  }

  lemma OneInterval(tasks: seq<LeafTask>, intervals: seq<ReadInterval>, window: nat, maxGap: nat)
    requires Sorted(tasks) && IntervalsOk(tasks, intervals, |tasks|, window, maxGap)
    requires tasks != [] && Close(tasks, window, maxGap)
    ensures |intervals| == 1 && intervals[0].first == 0 && intervals[0].count == |tasks|
  {
    NoIntervals(tasks, intervals, window, maxGap);
    var iv := intervals[0];
    assert Stopped(tasks, iv, window, maxGap);
    assert iv.count == |tasks|;
    if |intervals| > 1 {
      StartsInside(tasks, intervals, window, maxGap, 1);
      assert false;
    }
  }

  /** When the records are close, what is built is valid exactly when no record is needed or not all are empty at one place. */
  lemma CloseRoundValid(plan: Plan, start: nat, end: nat, window: nat, maxGap: nat)
    requires Sorted(plan.tasks) && IntervalsOk(plan.tasks, plan.intervals, |plan.tasks|, window, maxGap)
    requires Close(plan.tasks, window, maxGap)
    requires AllApart(plan.tasks) && ValidTasks(plan.tasks, start, end)
    ensures ValidIntervals(plan.intervals, start, end) <==> plan.tasks == [] || !AllEmpty(plan.tasks)
  {
    PlanValid(plan, start, end, window, maxGap);
    NoIntervals(plan.tasks, plan.intervals, window, maxGap);
    if plan.tasks != [] {
      OneInterval(plan.tasks, plan.intervals, window, maxGap);
    }
  }

  // ----- records of written files do not overlap -----

  lemma {:induction false} TilesApart(c: Source, o: Output, payloadStart: nat, done: seq<Coord>, i: nat, j: nat)
    requires Valid(c.h) && RzfpFileWriter.Sized(c, o) && i < j < |done|
    requires forall k :: 0 <= k < |done| ==> PhysicalId(c.h, c.order, done[k]) < |o.index|
    requires Tiles(c, o, payloadStart, done)
    ensures EntryOf(c, o, done[i]).offset + EntryOf(c, o, done[i]).bytes <= EntryOf(c, o, done[j]).offset
    decreases j
  {
    if i < j - 1 {
      TilesApart(c, o, payloadStart, done, i, j - 1);
    }
  }

  /** Different superblocks of a written file have payload ranges apart. */
  lemma SuperblocksApart(c: Source, o: Output, done: seq<Coord>, a: nat, b: nat)
    requires ValidSource(c) && FileWritten(c, o, done) && a < |o.index| && b < |o.index| && a != b
    ensures o.index[a].offset + o.index[a].bytes <= o.index[b].offset || o.index[b].offset + o.index[b].bytes <= o.index[a].offset
  {
    var i := EntryWritten(c, o, done, a);
    var j := EntryWritten(c, o, done, b);
    if i < j {
      TilesApart(c, o, PayloadStart(c.h), done, i, j);
    } else {
      TilesApart(c, o, PayloadStart(c.h), done, j, i);
    }
  }

  /** So the tasks of any plan for a written file are apart, and its intervals in order. */
  lemma WrittenTasksApart(c: Source, o: Output, done: seq<Coord>, tasks: seq<LeafTask>)
    requires ValidSource(c) && FileWritten(c, o, done) && Ready(FileOf(c, o), tasks) && DistinctLeaves(tasks)
    ensures AllApart(tasks)
  {
    var f := FileOf(c, o);
    forall i, j | 0 <= i < j < |tasks|
      ensures Apart(tasks[i], tasks[j])
    {
      RecordsApart(c, o, done, tasks[i], tasks[j]);
    }
  }

  lemma SameSuperblockApart(f: File, s: LeafTask, t: LeafTask)
    requires Accepted(f) && Addressed(f, s) && Addressed(f, t) && s.sb == t.sb && s.morton < t.morton
    ensures EndOf(s) <= t.offset
  {
    PrefixMono(LeafTable(f, s.sb), s.morton + 1, t.morton);
  }

  lemma RecordsApart(c: Source, o: Output, done: seq<Coord>, s: LeafTask, t: LeafTask)
    requires ValidSource(c) && FileWritten(c, o, done) && Accepted(FileOf(c, o))
    requires Addressed(FileOf(c, o), s) && Addressed(FileOf(c, o), t) && KeyOfTask(s) != KeyOfTask(t)
    ensures Apart(s, t)
  {
    var f := FileOf(c, o);
    if s.sb != t.sb {
      RecordInSuperblock(f, s.sb, s.morton);
      RecordInSuperblock(f, t.sb, t.morton);
      SuperblocksApart(c, o, done, s.sb, t.sb);
    } else if s.morton < t.morton {
      SameSuperblockApart(f, s, t);
    } else {
      SameSuperblockApart(f, t, s);
    }
  }
}
