/** The loop that splits a window too large for a thread's buffer: when it ends, and what it unpacks. */
module WindowSplit {
  import opened Basics
  import opened Morton
  import opened Layout
  import opened SlicePlan
  import opened SliceReader
  import opened HddReader

  /** Sizes count bytes in 64 bits; in cells of four bytes that wraps around here. */
  const WORD: nat := 0x4000_0000_0000_0000

  /** One round of the splitting loop: tasks taken so far and cells believed to be left. */
  datatype SplitState = SplitState(taken: nat, remaining: nat)

  function SplitStep(w: Window, block: nat, most: nat, st: SplitState): SplitState
    requires st.taken <= w.count
  {
    var piece := Min(w.count - st.taken, most);
    SplitState(st.taken + piece, (st.remaining - piece * block) % WORD)
  }

  function SplitRounds(w: Window, block: nat, most: nat, n: nat): (st: SplitState)
    ensures st.taken <= w.count
  {
    if n == 0 then SplitState(0, w.size) else SplitStep(w, block, most, SplitRounds(w, block, most, n - 1))
  }

  /** Some round leaves nothing, which is when the loop stops. */
  ghost predicate Ends(w: Window, block: nat, most: nat)
  {
    exists n: nat :: SplitRounds(w, block, most, n).remaining == 0
  }

  /** Some round leaves nothing and has taken every task. */
  ghost predicate EndsComplete(w: Window, block: nat, most: nat)
  {
    exists n: nat :: SplitRounds(w, block, most, n) == SplitState(w.count, 0)
  }

  /** What n rounds take. */
  function Taken(w: Window, most: nat, n: nat): nat
  {
    Min(w.count, n * most)
  }

  function Blocks(n: nat, block: nat): nat
  {
    n * block
  }

  /** Sizes that 64 bits hold, duplicates counted. */
  predicate Sized(w: Window, block: nat)
  {
    block > 0 && w.count > 0 && 0 < w.size < WORD && Blocks(w.count, block) < WORD
  }

  lemma WrapMinus(a: int, b: int)
    ensures (a % WORD - b) % WORD == (a - b) % WORD
  {
  }

  lemma TakenNext(w: Window, most: nat, n: nat)
    ensures Taken(w, most, n) + Min(w.count - Taken(w, most, n), most) == Taken(w, most, n + 1)
  {
    MulNext(n, most);
  }

  lemma BlocksSum(a: nat, b: nat, block: nat)
    ensures Blocks(a + b, block) == Blocks(a, block) + b * block
  {
  }

  lemma {:induction false} RoundsTake(w: Window, block: nat, most: nat, n: nat)
    requires w.size < WORD
    ensures SplitRounds(w, block, most, n).taken == Taken(w, most, n)
    ensures SplitRounds(w, block, most, n).remaining == (w.size - Blocks(Taken(w, most, n), block)) % WORD
  {
    if n > 0 {
      RoundsTake(w, block, most, n - 1);
      TakenNext(w, most, n - 1);
      var taken := Taken(w, most, n - 1);
      var piece := Min(w.count - taken, most);
      BlocksSum(taken, piece, block);
      WrapMinus(w.size - Blocks(taken, block), piece * block);
    }
  }

  /** Nothing is left exactly when the tasks taken make up the window's size. */
  lemma NothingLeftIff(w: Window, block: nat, most: nat, n: nat)
    requires Sized(w, block)
    ensures SplitRounds(w, block, most, n).remaining == 0 <==> w.size == Blocks(Taken(w, most, n), block)
  {
    RoundsTake(w, block, most, n);
    MulMono(Taken(w, most, n), w.count, block);
  }

  lemma AllTakenAt(w: Window, most: nat)
    requires most > 0
    ensures Taken(w, most, w.count) == w.count
  {
    MulMono(1, most, w.count);
  }

  lemma RoundsOf(w: Window, block: nat, most: nat, n: nat)
    requires block > 0 && most > 0 && Taken(w, most, n) < w.count
    ensures Taken(w, most, n) == n * most && Blocks(Taken(w, most, n), block) == n * Blocks(most, block)
    ensures Blocks(most, block) > 0 && Blocks(Taken(w, most, n), block) % Blocks(most, block) == 0
    ensures Blocks(Taken(w, most, n), block) < Blocks(w.count, block)
  {
    MulMono(1, most, block);
    assert (n * most) * block == n * (most * block);
    DivMod(n, 0, Blocks(most, block));
    Room(Taken(w, most, n), w.count, block);
  }

  /** A size of whole pieces below that of all tasks is reached after so many rounds. */
  lemma ReachedAt(w: Window, block: nat, most: nat, n: nat)
    requires block > 0 && most > 0 && w.size == n * Blocks(most, block) < Blocks(w.count, block)
    ensures w.size == Blocks(Taken(w, most, n), block)
  {
    assert n * Blocks(most, block) == (n * most) * block;
    if w.count <= n * most {
      MulMono(w.count, n * most, block);
    }
  }

  /**
   * The loop ends exactly when the window has as many blocks as tasks, or fewer and these are whole pieces: then it
   * ends before all tasks are taken. A gap keeps it running for ever, as do repeated superblocks otherwise.
   */
  lemma EndsIff(w: Window, block: nat, most: nat)
    requires Sized(w, block) && most > 0
    ensures Ends(w, block, most) <==>
              w.size == Blocks(w.count, block) || (w.size < Blocks(w.count, block) && w.size % Blocks(most, block) == 0)
    ensures EndsComplete(w, block, most) <==> w.size == Blocks(w.count, block)
  {
    MulMono(1, most, block);
    forall n: nat
      ensures SplitRounds(w, block, most, n).taken == Taken(w, most, n)
      ensures SplitRounds(w, block, most, n).remaining == 0 <==> w.size == Blocks(Taken(w, most, n), block)
      ensures Taken(w, most, n) < w.count ==> Blocks(Taken(w, most, n), block) < Blocks(w.count, block)
                                              && Blocks(Taken(w, most, n), block) % Blocks(most, block) == 0
    {
      RoundsTake(w, block, most, n);
      NothingLeftIff(w, block, most, n);
      if Taken(w, most, n) < w.count {
        RoundsOf(w, block, most, n);
      }
    }
    AllTakenAt(w, most);
    if w.size == Blocks(w.count, block) {
      assert SplitRounds(w, block, most, w.count) == SplitState(w.count, 0);
    } else if w.size < Blocks(w.count, block) && w.size % Blocks(most, block) == 0 {
      var n := Pieces(w.size, Blocks(most, block));
      DivModBack(w.size, Blocks(most, block));
      ReachedAt(w, block, most, n);
      assert SplitRounds(w, block, most, n).remaining == 0;
    }
  }

  // ----- windows of distinct superblocks -----

  predicate Ascending(offsets: seq<nat>)
  {
    forall i, j :: 0 <= i < j < |offsets| ==> offsets[i] < offsets[j]
  }

  /** Superblocks in ascending order lie at least a block apart. */
  lemma NextBlock(offsets: seq<nat>, block: nat, i: nat, j: nat)
    requires block > 0 && Aligned(offsets, block) && Ascending(offsets) && i < j < |offsets|
    ensures offsets[i] + block <= offsets[j]
  {
    if offsets[j] < offsets[i] + block {
      SameBlock(offsets[i], offsets[j], block);
    }
  }

  lemma {:induction false} BlockAt(w: Window, offsets: seq<nat>, block: nat, t: nat)
    requires block > 0 && Aligned(offsets, block) && Ascending(offsets) && Holds(w, offsets, block) && t < w.count
    ensures w.offset + Blocks(t, block) <= offsets[w.first + t]
  {
    if t > 0 {
      BlockAt(w, offsets, block, t - 1);
      NextBlock(offsets, block, w.first + t - 1, w.first + t);
      MulNext(t - 1, block);
    }
  }

  /** From the back: if the blocks of all tasks fill the window, no block starts later than it would without gaps. */
  lemma {:induction false} NoGapBefore(w: Window, offsets: seq<nat>, block: nat, t: nat)
    requires block > 0 && Aligned(offsets, block) && Ascending(offsets) && Holds(w, offsets, block) && t < w.count
    requires w.size == Blocks(w.count, block)
    ensures offsets[w.first + t] <= w.offset + Blocks(t, block)
    decreases w.count - t
  {
    if t + 1 == w.count {
      MulNext(t, block);
    } else {
      NoGapBefore(w, offsets, block, t + 1);
      NextBlock(offsets, block, w.first + t, w.first + t + 1);
      MulNext(t, block);
    }
  }

  /** A window of distinct superblocks has no gap exactly when they fill it. */
  lemma GapFreeIff(w: Window, offsets: seq<nat>, block: nat)
    requires block > 0 && Aligned(offsets, block) && Ascending(offsets) && Holds(w, offsets, block)
    ensures Blocks(w.count, block) <= w.size
    ensures IsRun(w, offsets, block) <==> w.size == Blocks(w.count, block)
  {
    BlockAt(w, offsets, block, w.count - 1);
    MulNext(w.count - 1, block);
    if w.size == Blocks(w.count, block) {
      forall i, j | w.first <= i < j < w.first + w.count && j == i + 1
        ensures offsets[j] == offsets[i] + block
      {
        var t := i - w.first;
        BlockAt(w, offsets, block, t);
        BlockAt(w, offsets, block, t + 1);
        NoGapBefore(w, offsets, block, t);
        NoGapBefore(w, offsets, block, t + 1);
        MulNext(t, block);
      }
    }
  }

  /** On distinct superblocks the loop ends exactly when they have no gap, and every read stays inside the window. */
  lemma SplittingEndsIffGapFree(w: Window, offsets: seq<nat>, block: nat, most: nat)
    requires block > 0 && Aligned(offsets, block) && Ascending(offsets) && Holds(w, offsets, block)
    requires most > 0 && w.size < WORD
    ensures Ends(w, block, most) <==> w.size == Blocks(w.count, block)
    ensures Ends(w, block, most) <==> IsRun(w, offsets, block)
    ensures forall n: nat :: w.offset + Blocks(SplitRounds(w, block, most, n).taken, block) <= End(w)
  {
    GapFreeIff(w, offsets, block);
    EndsIff(w, block, most);
    forall n: nat
      ensures w.offset + Blocks(SplitRounds(w, block, most, n).taken, block) <= End(w)
    {
      MulMono(SplitRounds(w, block, most, n).taken, w.count, block);
    }
  }

  // ----- windows in which superblocks may repeat -----

  /** Where the loop looks for the superblock of the t-th task: as if no gap and no repetition came before it. */
  function UnpackedFrom(w: Window, block: nat, t: nat): nat
  {
    w.offset + Blocks(t, block)
  }

  /** The loop ends, takes every task, and unpacks each from its own superblock. */
  ghost predicate SplitsRight(w: Window, offsets: seq<nat>, block: nat, most: nat)
    requires w.first + w.count <= |offsets|
  {
    EndsComplete(w, block, most) && forall t: nat :: t < w.count ==> offsets[w.first + t] == UnpackedFrom(w, block, t)
  }

  /** With repetitions allowed, as in a batch, the loop does right exactly by runs without gap or repetition. */
  lemma SplitsRightIffRun(w: Window, offsets: seq<nat>, block: nat, most: nat)
    requires Holds(w, offsets, block) && Sized(w, block) && most > 0
    ensures SplitsRight(w, offsets, block, most) <==> IsRun(w, offsets, block)
  {
    EndsIff(w, block, most);
    if IsRun(w, offsets, block) {
      forall t: nat | t < w.count
        ensures offsets[w.first + t] == UnpackedFrom(w, block, t)
      {
        RunOffset(w, offsets, block, t);
      }
    }
    if SplitsRight(w, offsets, block, most) {
      forall i, j | w.first <= i < j < w.first + w.count && j == i + 1
        ensures offsets[j] == offsets[i] + block
      {
        var t: nat := i - w.first;
        assert offsets[w.first + t] == UnpackedFrom(w, block, t);
        assert offsets[w.first + (t + 1)] == UnpackedFrom(w, block, t + 1);
        MulNext(t, block);
      }
    }
  }

  // ----- slices -----

  lemma PlanAscending(h: Header, axis: Axis, index: nat, tasks: seq<Task>, keys: seq<Key>)
    requires Valid(h) && TasksOk(h, axis, index, tasks, keys) && Volume(h.super) > 0
    ensures Ascending(Offsets(tasks))
  {
    forall i, j | 0 <= i < j < |tasks|
      ensures tasks[i].fileOffset < tasks[j].fileOffset
    {
      assert TaskOk(h, axis, index, tasks[i], keys) && TaskOk(h, axis, index, tasks[j], keys);
      Room(tasks[i].sbIndex, tasks[j].sbIndex, Volume(h.super));
    }
  }

  /**
   * Every window of a slice's plan is served, or else it is larger than a thread's buffer and the loop that splits it
   * never ends.
   */
  lemma ServedOrNeverEnds(h: Header, axis: Axis, index: nat, tasks: seq<Task>, keys: seq<Key>, windows: seq<Window>,
                          readWindow: nat, maxGap: nat, limit: nat, threads: nat, i: nat)
    requires Valid(h) && TasksOk(h, axis, index, tasks, keys) && Volume(h.super) > 0 && threads > 0
    requires WindowsOk(windows, Offsets(tasks), Volume(h.super), readWindow, maxGap, |tasks|)
    requires i < |windows| && windows[i].size < WORD && Volume(h.super) <= Pieces(limit, threads)
    ensures var capacity := BufferFor(windows, Volume(h.super), limit, threads).value;
            Served(windows[i], Offsets(tasks), Volume(h.super), Pieces(limit, threads)) <==>
            windows[i].size <= capacity || Ends(windows[i], Volume(h.super), Pieces(capacity, Volume(h.super)))
  {
    var block, offsets := Volume(h.super), Offsets(tasks);
    var capacity := BufferFor(windows, block, limit, threads).value;
    PlanAligned(h, axis, index, tasks, keys);
    PlanAscending(h, axis, index, tasks, keys);
    assert windows[i] in windows && WindowOk(windows[i], offsets, block, readWindow, maxGap);
    QuotientAtLeast(capacity, 1, block);
    SplittingEndsIffGapFree(windows[i], offsets, block, Pieces(capacity, block));
  }

  // ----- a slice whose only window has gaps -----

  const READ_WINDOW: nat := 128 * CELLS_PER_MIB
  const MAX_GAP: nat := CELLS_PER_MIB

  /** Superblocks and leaves of the default sizes, in a volume of 2 x 8 x 8 superblocks. */
  predicate TwoWide(h: Header)
  {
    h.n == Coord(128, 512, 512) && h.super == Coord(64, 64, 64) && h.leaf == Coord(4, 4, 4)
  }

  lemma TwoWideGrid(h: Header)
    requires TwoWide(h)
    ensures Valid(h) && SuperGrid(h) == Coord(2, 8, 8) && LeafGrid(h) == Coord(16, 16, 16)
    ensures Volume(h.super) == CELLS_PER_MIB
  {
  }

  /** Slice X = 0 meets every second superblock. */
  lemma EverySecond(h: Header, k: Key)
    requires TwoWide(h) && Valid(h) && ValidKey(h, X, k)
    ensures SuperblockId(h, SuperOf(h, X, 0, k)) == 2 * (k.sInner * 8 + k.sOuter) && k.sInner * 8 + k.sOuter < 64
  {
    TwoWideGrid(h);
  }

  lemma HasTask(h: Header, ops: seq<LeafOp>, tasks: seq<Task>, keys: seq<Key>, i: nat) returns (t: nat)
    requires TwoWide(h) && Valid(h) && i < 64
    requires SlicePlan.Planned(h, X, 0, ops, keys, Inner(X, SuperGrid(h)), 0, 0, 0) && TasksOk(h, X, 0, tasks, keys)
    ensures t < |tasks| && tasks[t].sbIndex == 2 * i
  {
    TwoWideGrid(h);
    var k := Key(Column(i, 8), Row(i, 8), 0, 0);
    assert ValidKey(h, X, k) && Before(k, 8, 0, 0, 0);
    assert k in keys;
    var p :| 0 <= p < |keys| && keys[p] == k;
    t := LeafHasTask(tasks, |keys|, |tasks| - 1, p);
    assert TaskOk(h, X, 0, tasks[t], keys);
    EverySecond(h, k);
  }

  /** Ascending numbers that are all the numbers below n are 0, 1, 2 and so on. */
  lemma AscendingOnto(f: seq<nat>, n: nat)
    requires Ascending(f) && (forall i :: 0 <= i < |f| ==> f[i] < n) && (forall v: nat :: v < n ==> v in f)
    ensures |f| == n && forall i :: 0 <= i < |f| ==> f[i] == i
  {
    assert Elements(f) == Range(n);
    DistinctElements(f);
    forall i | 0 <= i < |f|
      ensures f[i] == i
    {
      AtLeast(f, i);
      AtMost(f, i);
    }
  }

  lemma {:induction false} AtLeast(f: seq<nat>, i: nat)
    requires Ascending(f) && i < |f|
    ensures f[i] >= i
  {
    if i > 0 {
      AtLeast(f, i - 1);
    }
  }

  lemma {:induction false} AtMost(f: seq<nat>, i: nat)
    requires Ascending(f) && i < |f| && forall j :: 0 <= j < |f| ==> f[j] < |f|
    ensures f[i] <= i
    decreases |f| - i
  {
    if i + 1 < |f| {
      AtMost(f, i + 1);
    }
  }

  lemma TasksOfSlice(h: Header, ops: seq<LeafOp>, tasks: seq<Task>, keys: seq<Key>)
    requires TwoWide(h) && Valid(h)
    requires SlicePlan.Planned(h, X, 0, ops, keys, Inner(X, SuperGrid(h)), 0, 0, 0) && TasksOk(h, X, 0, tasks, keys)
    ensures |tasks| == 64 && forall i :: 0 <= i < 64 ==> tasks[i].fileOffset == h.dataOffset + i * (2 * CELLS_PER_MIB)
  {
    TwoWideGrid(h);
    var f := seq(|tasks|, i requires 0 <= i < |tasks| => Row(tasks[i].sbIndex, 2));
    forall t | 0 <= t < |tasks|
      ensures tasks[t].sbIndex == 2 * f[t] && f[t] < 64
      ensures tasks[t].fileOffset == SuperblockOffset(h, tasks[t].sbIndex)
    {
      assert TaskOk(h, X, 0, tasks[t], keys);
      EverySecond(h, keys[tasks[t].firstLeaf]);
    }
    forall v: nat | v < 64
      ensures v in f
    {
      var t := HasTask(h, ops, tasks, keys, v);
      assert f[t] == v;
    }
    AscendingOnto(f, 64);
  }

  /** Every second superblock, 64 in all, makes one window of 127 blocks. */
  lemma OneWindow(offsets: seq<nat>, base: nat, windows: seq<Window>)
    requires |offsets| == 64 && forall i :: 0 <= i < 64 ==> offsets[i] == base + i * (2 * CELLS_PER_MIB)
    requires WindowsOk(windows, offsets, CELLS_PER_MIB, READ_WINDOW, MAX_GAP, 64)
    ensures |windows| == 1 && windows[0] == Window(base, 127 * CELLS_PER_MIB, 0, 64)
  {
    var w := windows[0];
    assert WindowOk(w, offsets, CELLS_PER_MIB, READ_WINDOW, MAX_GAP);
    assert w.count == 64;
    if |windows| > 1 {
      IsFull(windows, offsets, CELLS_PER_MIB, READ_WINDOW, MAX_GAP, 1);
      assert false;
    }
  }

  /**
   * With the default read size and gap and a limit of 64 MiB, one thread reading slice X = 0 of such a volume is never
   * done: the window spans 127 MiB, the buffer has 64 MiB, and the 63 gaps are never taken.
   */
  lemma DefaultReadNeverEnds(h: Header, plan: Plan, keys: seq<Key>, windows: seq<Window>)
    requires TwoWide(h) && Valid(h) && PlanOk(h, X, 0, plan, keys)
    requires WindowsOk(windows, Offsets(plan.tasks), Volume(h.super), READ_WINDOW, MAX_GAP, |plan.tasks|)
    ensures BufferFor(windows, Volume(h.super), 64 * CELLS_PER_MIB, 1) == Some(64 * CELLS_PER_MIB)
    ensures |windows| == 1 && windows[0].size == 127 * CELLS_PER_MIB && !Ends(windows[0], Volume(h.super), 64)
  {
    TwoWideGrid(h);
    TasksOfSlice(h, plan.ops, plan.tasks, keys);
    OneWindow(Offsets(plan.tasks), h.dataOffset, windows);
    EndsIff(windows[0], Volume(h.super), 64);
    assert windows[..0] == [];
    assert Largest(windows) == windows[0].size;
  }
}
