/** Reading a slice plan in large sequential reads: contiguous runs, and windows that tolerate gaps. */
module HddReader {
  import opened Basics
  import opened Float32
  import opened Layout
  import opened SlicePlan
  import opened SliceReader

  /** A stretch of the file to be read at once, and the tasks whose superblocks it holds. */
  datatype Window = Window(offset: nat, size: nat, first: nat, count: nat)

  function End(w: Window): nat
  {
    w.offset + w.size
  }

  /** Offsets of superblocks of size block: ascending, duplicates allowed, whole blocks apart. */
  ghost predicate Aligned(offsets: seq<nat>, block: nat)
    requires block > 0
  {
    && (forall i, j :: 0 <= i <= j < |offsets| ==> offsets[i] <= offsets[j])
    && (forall i, j :: 0 <= i <= j < |offsets| ==> (offsets[j] - offsets[i]) % block == 0)
  }

  /** The window holds the superblocks of all its tasks, the last of them at its end. */
  ghost predicate Holds(w: Window, offsets: seq<nat>, block: nat)
  {
    && w.count > 0 && w.first + w.count <= |offsets| && w.size >= block
    && w.offset == offsets[w.first]
    && offsets[w.first + w.count - 1] + block == End(w)
    && (forall i :: w.first <= i < w.first + w.count ==> w.offset <= offsets[i] && offsets[i] + block <= End(w))
  }

  /** Consecutive groups that start at task 0 and end before the given one. */
  ghost predicate Chained(windows: seq<Window>, tasks: nat)
  {
    if windows == [] then tasks == 0
    else
      && windows[0].first == 0
      && (forall u, v :: 0 <= u < v < |windows| && v == u + 1 ==> windows[v].first == windows[u].first + windows[u].count)
      && windows[|windows| - 1].first + windows[|windows| - 1].count == tasks
  }

  /**
   * The window bridges no gap larger than allowed, and stops only where the next superblock leaves a larger one or
   * does not fit the read size.
   */
  predicate Greedy(w: Window, offsets: seq<nat>, block: nat, readWindow: nat, maxGap: nat)
    requires w.first + w.count <= |offsets|
  {
    && (forall k :: w.first < k < w.first + w.count ==> offsets[k] <= offsets[k - 1] + block + maxGap)
    && (w.first + w.count < |offsets| ==>
          offsets[w.first + w.count] > End(w) + maxGap || offsets[w.first + w.count] + block > w.offset + readWindow)
  }

  ghost predicate WindowOk(w: Window, offsets: seq<nat>, block: nat, readWindow: nat, maxGap: nat)
  {
    Holds(w, offsets, block) && w.size <= Max(block, readWindow) && Greedy(w, offsets, block, readWindow, maxGap)
  }

  /**
   * The windows split the tasks into consecutive groups and stay within the read size, one superblock at least; each
   * takes as many tasks as it may.
   */
  ghost predicate WindowsOk(windows: seq<Window>, offsets: seq<nat>, block: nat, readWindow: nat, maxGap: nat, tasks: nat)
  {
    && (forall w :: 0 <= w < |windows| ==> WindowOk(windows[w], offsets, block, readWindow, maxGap))
    && (forall u, v :: 0 <= u < v < |windows| && v == u + 1 ==> End(windows[u]) <= windows[v].offset)
    && Chained(windows, tasks)
  }

  lemma AppendWindow(windows: seq<Window>, w: Window, offsets: seq<nat>, block: nat, readWindow: nat, maxGap: nat,
                     tasks: nat)
    requires WindowsOk(windows, offsets, block, readWindow, maxGap, tasks)
    requires w.first == tasks && WindowOk(w, offsets, block, readWindow, maxGap)
    requires |windows| > 0 ==> End(windows[|windows| - 1]) <= w.offset
    ensures WindowsOk(windows + [w], offsets, block, readWindow, maxGap, tasks + w.count)
  {
    ChainNext(windows, w, tasks);
  }

  lemma ChainNext(windows: seq<Window>, w: Window, tasks: nat)
    requires Chained(windows, tasks) && w.first == tasks
    ensures Chained(windows + [w], tasks + w.count)
  {
  }

  /** An aligned offset inside the last block of a window is that block's offset. */
  lemma SameBlock(last: nat, next: nat, block: nat)
    requires block > 0 && last <= next < last + block && (next - last) % block == 0
    ensures next == last
  {
    var d := next - last;
    DivModBack(d, block);
    if d / block > 0 {
      MulMono(1, d / block, block);
    }
  }

  /** Groups tasks into windows, stretching a window over gaps of up to maxGap while it fits the read size. */
  method BuildWindows(offsets: seq<nat>, block: nat, readWindow: nat, maxGap: nat) returns (windows: seq<Window>)
    requires block > 0 && Aligned(offsets, block)
    ensures WindowsOk(windows, offsets, block, readWindow, maxGap, |offsets|)
  {
    windows := [];
    var i: nat := 0;
    while i < |offsets|
      invariant i <= |offsets| && WindowsOk(windows, offsets, block, readWindow, maxGap, i)
      invariant LastBefore(windows, offsets, i)
    {
      windows, i := BuildWindow(offsets, block, readWindow, maxGap, windows, i);
    }
  }

  /** The window that starts with task i, behind those before. */
  method BuildWindow(offsets: seq<nat>, block: nat, readWindow: nat, maxGap: nat, windows: seq<Window>, i: nat)
    returns (windows': seq<Window>, i': nat)
    requires block > 0 && Aligned(offsets, block) && i < |offsets| && WindowsOk(windows, offsets, block, readWindow, maxGap, i)
    requires LastBefore(windows, offsets, i)
    ensures i < i' <= |offsets| && WindowsOk(windows', offsets, block, readWindow, maxGap, i')
    ensures LastBefore(windows', offsets, i')
  {
    var w := GrowWindow(offsets, block, readWindow, maxGap, i);
    NextWindow(windows, w, offsets, block, readWindow, maxGap, i);
    windows' := windows + [w];
    i' := i + w.count;
  }

  /** The last window ends before the superblock of task i. */
  predicate LastBefore(windows: seq<Window>, offsets: seq<nat>, i: nat)
  {
    i < |offsets| && |windows| > 0 ==> End(windows[|windows| - 1]) <= offsets[i]
  }

  lemma NextWindow(windows: seq<Window>, w: Window, offsets: seq<nat>, block: nat, readWindow: nat, maxGap: nat, i: nat)
    requires WindowsOk(windows, offsets, block, readWindow, maxGap, i) && i < |offsets| && LastBefore(windows, offsets, i)
    requires w.first == i && WindowOk(w, offsets, block, readWindow, maxGap) && LastBefore([w], offsets, i + w.count)
    ensures i < i + w.count <= |offsets| && LastBefore(windows + [w], offsets, i + w.count)
    ensures WindowsOk(windows + [w], offsets, block, readWindow, maxGap, i + w.count)
  {
    AppendWindow(windows, w, offsets, block, readWindow, maxGap, i);
  }

  method GrowWindow(offsets: seq<nat>, block: nat, readWindow: nat, maxGap: nat, i: nat) returns (w: Window)
    requires block > 0 && Aligned(offsets, block) && i < |offsets|
    ensures w.first == i && WindowOk(w, offsets, block, readWindow, maxGap) && LastBefore([w], offsets, i + w.count)
  {
    w := Window(offsets[i], block, i, 1);
    var more := true;
    while more && i + w.count < |offsets|
      invariant w.first == i && Growing(w, offsets, block, readWindow, maxGap)
      invariant !more && i + w.count < |offsets| ==> Stopped(w, offsets, block, readWindow, maxGap)
      decreases more, |offsets| - w.count
    {
      w, more := GrowOnce(offsets, block, readWindow, maxGap, w);
    }
  }

  ghost predicate Growing(w: Window, offsets: seq<nat>, block: nat, readWindow: nat, maxGap: nat)
  {
    && Holds(w, offsets, block) && w.size <= Max(block, readWindow)
    && forall k :: w.first < k < w.first + w.count ==> offsets[k] <= offsets[k - 1] + block + maxGap
  }

  /** The next superblock starts behind the window, after too large a gap or too far for the read size. */
  predicate Stopped(w: Window, offsets: seq<nat>, block: nat, readWindow: nat, maxGap: nat)
    requires w.first + w.count < |offsets|
  {
    var next := offsets[w.first + w.count];
    End(w) <= next && (next > End(w) + maxGap || next + block > w.offset + readWindow)
  }

  /** Takes the next task into the window if it may. */
  method GrowOnce(offsets: seq<nat>, block: nat, readWindow: nat, maxGap: nat, w: Window) returns (w': Window, more: bool)
    requires block > 0 && Aligned(offsets, block) && w.first + w.count < |offsets|
    requires Growing(w, offsets, block, readWindow, maxGap)
    ensures w'.first == w.first && Growing(w', offsets, block, readWindow, maxGap)
    ensures if more then w'.count == w.count + 1 else w' == w && Stopped(w, offsets, block, readWindow, maxGap)
  {
    w', more := w, true;
    var next := offsets[w.first + w.count];
    var end := End(w);
    if next < end {
      SameBlock(offsets[w.first + w.count - 1], next, block);
      w' := w.(count := w.count + 1);
    } else {
      var gap := next - end;
      var extended := end + gap + block - w.offset;
      if gap == 0 && extended <= readWindow {
        w' := w.(size := w.size + block, count := w.count + 1);
      } else if gap > 0 && gap <= maxGap && extended <= readWindow {
        w' := w.(size := w.size + gap + block, count := w.count + 1);
      } else {
        more := false;
      }
    }
  }

  /** Tasks whose superblocks follow each other without a gap. */
  method GrowRun(offsets: seq<nat>, block: nat, i: nat) returns (r: Window)
    requires block > 0 && i < |offsets|
    ensures r.first == i && IsRun(r, offsets, block)
  {
    r := Window(offsets[i], block, i, 1);
    while i + r.count < |offsets| && offsets[i + r.count] == End(r)
      invariant r.first == i && IsRun(r, offsets, block)
      decreases |offsets| - r.count
    {
      RunOffset(r, offsets, block, r.count - 1);
      MulNext(r.count - 1, block);
      MulNext(r.count, block);
      r := r.(size := r.size + block, count := r.count + 1);
    }
  }

  ghost predicate IsRun(r: Window, offsets: seq<nat>, block: nat)
  {
    && r.count > 0 && r.first + r.count <= |offsets| && r.size == r.count * block && r.offset == offsets[r.first]
    && forall i, j :: r.first <= i < j < r.first + r.count && j == i + 1 ==> offsets[j] == offsets[i] + block
  }

  ghost predicate RunsOk(runs: seq<Window>, offsets: seq<nat>, block: nat, tasks: nat)
  {
    && (forall r :: 0 <= r < |runs| ==> IsRun(runs[r], offsets, block))
    && Chained(runs, tasks)
  }

  method BuildRuns(offsets: seq<nat>, block: nat) returns (runs: seq<Window>)
    requires block > 0
    ensures RunsOk(runs, offsets, block, |offsets|)
  {
    runs := [];
    var i: nat := 0;
    while i < |offsets|
      invariant i <= |offsets| && RunsOk(runs, offsets, block, i)
    {
      var r := GrowRun(offsets, block, i);
      runs := runs + [r];
      i := i + r.count;
    }
  }

  /** Consecutive pieces that hold all tasks, none larger than the buffer. */
  ghost predicate PiecesOk(pieces: seq<Window>, offsets: seq<nat>, block: nat, capacity: nat, tasks: nat)
  {
    && (forall w :: 0 <= w < |pieces| ==>
          Holds(pieces[w], offsets, block) && pieces[w].size <= capacity)
    && Chained(pieces, tasks)
  }

  lemma AppendPiece(pieces: seq<Window>, w: Window, offsets: seq<nat>, block: nat, capacity: nat, tasks: nat)
    requires PiecesOk(pieces, offsets, block, capacity, tasks)
    requires w.first == tasks && Holds(w, offsets, block) && w.size <= capacity
    ensures PiecesOk(pieces + [w], offsets, block, capacity, tasks + w.count)
  {
  }

  lemma PieceBounds(left: nat, piece: nat, block: nat, most: nat, capacity: nat, remaining: nat)
    requires block > 0 && remaining == left * block > 0 && most == Pieces(capacity, block) && block <= capacity
    requires piece == Min(left, most)
    ensures 0 < piece <= left && 0 < piece * block <= remaining && piece * block <= capacity
    ensures remaining - piece * block == (left - piece) * block
  {
    DivModBack(capacity, block);
    MulMono(1, piece, block);
    MulMono(piece, left, block);
    MulMono(piece, most, block);
    assert (left - piece) * block == left * block - piece * block;
  }

  lemma {:induction false} RunOffset(r: Window, offsets: seq<nat>, block: nat, t: nat)
    requires IsRun(r, offsets, block) && t < r.count
    ensures offsets[r.first + t] == r.offset + t * block
  {
    if t > 0 {
      RunOffset(r, offsets, block, t - 1);
      MulNext(t - 1, block);
    }
  }

  lemma RunTask(r: Window, offsets: seq<nat>, block: nat, t: nat, piece: nat, j: nat)
    requires IsRun(r, offsets, block) && t + piece <= r.count && j < piece
    ensures offsets[r.first + t + j] == r.offset + t * block + j * block && j * block + block <= piece * block
  {
    RunOffset(r, offsets, block, t + j);
    assert (t + j) * block == t * block + j * block;
    MulNext(j, block);
    MulMono(j + 1, piece, block);
  }

  /** Part of a run, as a window of its own. */
  lemma RunPart(r: Window, offsets: seq<nat>, block: nat, t: nat, piece: nat, w: Window)
    requires block > 0 && IsRun(r, offsets, block) && 0 < piece && t + piece <= r.count
    requires w == Window(r.offset + t * block, piece * block, r.first + t, piece)
    ensures Holds(w, offsets, block)
  {
    RunTask(r, offsets, block, t, piece, 0);
    RunTask(r, offsets, block, t, piece, piece - 1);
    MulNext(piece - 1, block);
    forall i | w.first <= i < w.first + w.count
      ensures w.offset <= offsets[i] && offsets[i] + block <= End(w)
    {
      RunTask(r, offsets, block, t, piece, i - w.first);
    }
  }

  /** Splits a run too large for the buffer into pieces of whole superblocks. */
  method SplitRun(pieces0: seq<Window>, r: Window, offsets: seq<nat>, block: nat, capacity: nat) returns (pieces: seq<Window>)
    requires 0 < block <= capacity && IsRun(r, offsets, block)
    requires PiecesOk(pieces0, offsets, block, capacity, r.first)
    ensures PiecesOk(pieces, offsets, block, capacity, r.first + r.count)
  {
    pieces := pieces0;
    var t: nat, remaining: nat := 0, r.size;
    while remaining > 0
      invariant t <= r.count && Left(r, t, block, remaining)
      invariant PiecesOk(pieces, offsets, block, capacity, r.first + t)
      decreases remaining
    {
      pieces, t, remaining := SplitOnce(pieces, r, offsets, block, capacity, t, remaining);
    }
    NothingLeft(r, t, block);
  }

  predicate Left(r: Window, t: nat, block: nat, remaining: nat)
    requires t <= r.count
  {
    remaining == (r.count - t) * block
  }

  lemma NothingLeft(r: Window, t: nat, block: nat)
    requires block > 0 && t <= r.count && Left(r, t, block, 0)
    ensures t == r.count
  {
    if t < r.count {
      MulMono(1, r.count - t, block);
    }
  }

  /** The window of so many tasks of the run from task t on. */
  function PartOfRun(r: Window, block: nat, t: nat, piece: nat): Window
  {
    Window(r.offset + t * block, piece * block, r.first + t, piece)
  }

  method SplitOnce(pieces0: seq<Window>, r: Window, offsets: seq<nat>, block: nat, capacity: nat, t0: nat, left: nat)
    returns (pieces: seq<Window>, t: nat, remaining: nat)
    requires 0 < block <= capacity && IsRun(r, offsets, block)
    requires t0 <= r.count && Left(r, t0, block, left) && left > 0
    requires PiecesOk(pieces0, offsets, block, capacity, r.first + t0)
    ensures t <= r.count && Left(r, t, block, remaining) && remaining < left
    ensures PiecesOk(pieces, offsets, block, capacity, r.first + t)
  {
    var most := Pieces(capacity, block);
    var piece := Min(r.count - t0, most);
    PieceBounds(r.count - t0, piece, block, most, capacity, left);
    var w := PartOfRun(r, block, t0, piece);
    RunPart(r, offsets, block, t0, piece, w);
    AppendPiece(pieces0, w, offsets, block, capacity, r.first + t0);
    pieces, t, remaining := pieces0 + [w], t0 + piece, left - piece * block;
  }

  lemma RunHolds(r: Window, offsets: seq<nat>, block: nat)
    requires block > 0 && IsRun(r, offsets, block)
    ensures Holds(r, offsets, block)
  {
    RunPart(r, offsets, block, 0, r.count, r);
  }

  /**
   * The memory one thread may use: its share of the limit, but no more than the largest read and four superblocks.
   * None when the share cannot hold a superblock.
   */
  function BufferFor(windows: seq<Window>, block: nat, limit: nat, threads: nat): (r: Option<nat>)
    requires threads > 0
    ensures r.Some? <==> block <= Pieces(limit, threads)
    ensures r.Some? ==> block <= r.value && threads * r.value <= limit
    ensures r.Some? ==> forall w :: w in windows && w.size <= Pieces(limit, threads) ==> w.size <= r.value
  {
    var share := Pieces(limit, threads);
    DivModBack(limit, threads);
    if share < block then None
    else
      var size := Min(share, Max(Largest(windows), 4 * block));
      LargestBound(windows);
      MulMono(size, share, threads);
      Some(size)
  }

  function Largest(windows: seq<Window>): nat
  {
    if windows == [] then 0 else Max(Largest(windows[..|windows| - 1]), windows[|windows| - 1].size)
  }

  lemma {:induction false} LargestBound(windows: seq<Window>)
    ensures forall w :: w in windows ==> w.size <= Largest(windows)
  {
    if windows != [] {
      LargestBound(windows[..|windows| - 1]);
      assert windows == windows[..|windows| - 1] + [windows[|windows| - 1]];
    }
  }

  /** The first task of piece i; behind the last piece, the number of tasks. */
  function StartOf(pieces: seq<Window>, tasks: nat, i: nat): nat
  {
    if i < |pieces| then pieces[i].first else tasks
  }

  /** A read that fits the buffer, or a run that may be split to fit it. */
  ghost predicate Servable(w: Window, offsets: seq<nat>, block: nat, capacity: nat)
  {
    Holds(w, offsets, block) && (w.size <= capacity || IsRun(w, offsets, block))
  }

  /** The reads of a thread's loop over windows: those too large for the buffer in pieces. */
  method AddReads(windows: seq<Window>, offsets: seq<nat>, block: nat, capacity: nat) returns (pieces: seq<Window>)
    requires 0 < block <= capacity && Chained(windows, |offsets|)
    requires forall w :: 0 <= w < |windows| ==> Servable(windows[w], offsets, block, capacity)
    ensures PiecesOk(pieces, offsets, block, capacity, |offsets|)
  {
    pieces := [];
    var i: nat := 0;
    while i < |windows|
      invariant i <= |windows|
      invariant PiecesOk(pieces, offsets, block, capacity, StartOf(windows, |offsets|, i))
    {
      pieces := AddRead(pieces, windows[i], offsets, block, capacity);
      i := i + 1;
    }
  }

  method AddRead(pieces0: seq<Window>, w: Window, offsets: seq<nat>, block: nat, capacity: nat) returns (pieces: seq<Window>)
    requires 0 < block <= capacity && Servable(w, offsets, block, capacity)
    requires PiecesOk(pieces0, offsets, block, capacity, w.first)
    ensures PiecesOk(pieces, offsets, block, capacity, w.first + w.count)
  {
    if w.size > capacity {
      pieces := SplitRun(pieces0, w, offsets, block, capacity);
    } else {
      AppendPiece(pieces0, w, offsets, block, capacity, w.first);
      pieces := pieces0 + [w];
    }
  }

  /** The reads of the run strategy: contiguous runs, those too large for the buffer in pieces. */
  method RunReads(offsets: seq<nat>, block: nat, limit: nat, threads: nat)
    returns (capacity: Option<nat>, pieces: seq<Window>)
    requires block > 0 && threads > 0
    ensures capacity.Some? <==> block <= Pieces(limit, threads)
    ensures capacity.Some? ==> threads * capacity.value <= limit && PiecesOk(pieces, offsets, block, capacity.value, |offsets|)
  {
    var runs := BuildRuns(offsets, block);
    capacity := BufferFor(runs, block, limit, threads);
    pieces := [];
    if capacity.Some? {
      forall r | 0 <= r < |runs|
        ensures Servable(runs[r], offsets, block, capacity.value)
      {
        RunHolds(runs[r], offsets, block);
      }
      pieces := AddReads(runs, offsets, block, capacity.value);
    }
  }

  /** The reads of the window strategy: windows, gap-free ones too large for the buffer in pieces. */
  method WindowReads(offsets: seq<nat>, block: nat, readWindow: nat, maxGap: nat, limit: nat, threads: nat)
    returns (capacity: Option<nat>, pieces: seq<Window>)
    requires block > 0 && threads > 0 && Aligned(offsets, block)
    requires block <= Pieces(limit, threads) ==> AllServed(offsets, block, readWindow, maxGap, Pieces(limit, threads))
    ensures capacity.Some? <==> block <= Pieces(limit, threads)
    ensures capacity.Some? ==> threads * capacity.value <= limit && PiecesOk(pieces, offsets, block, capacity.value, |offsets|)
  {
    var windows := BuildWindows(offsets, block, readWindow, maxGap);
    capacity := BufferFor(windows, block, limit, threads);
    pieces := [];
    if capacity.Some? {
      forall w | 0 <= w < |windows|
        ensures Servable(windows[w], offsets, block, capacity.value)
      {
        assert windows[w] in windows && Served(windows[w], offsets, block, Pieces(limit, threads));
      }
      pieces := AddReads(windows, offsets, block, capacity.value);
    }
  }

  // ----- which windows the strategy can serve -----

  /** The window fits a thread's share of the memory, or its superblocks follow each other without gap or repetition. */
  ghost predicate Served(w: Window, offsets: seq<nat>, block: nat, share: nat)
  {
    w.size <= share || IsRun(w, offsets, block)
  }

  /** Every window is served; as the windows are determined by WindowsOk, these are the windows built. */
  ghost predicate AllServed(offsets: seq<nat>, block: nat, readWindow: nat, maxGap: nat, share: nat)
  {
    forall windows: seq<Window> :: WindowsOk(windows, offsets, block, readWindow, maxGap, |offsets|) ==>
      forall w :: 0 <= w < |windows| ==> Served(windows[w], offsets, block, share)
  }

  /** A window that takes as many tasks as it may, and ends before the next. */
  ghost predicate Full(w: Window, offsets: seq<nat>, block: nat, readWindow: nat, maxGap: nat)
  {
    && WindowOk(w, offsets, block, readWindow, maxGap)
    && (w.first + w.count < |offsets| ==> End(w) <= offsets[w.first + w.count])
  }

  lemma IsFull(windows: seq<Window>, offsets: seq<nat>, block: nat, readWindow: nat, maxGap: nat, i: nat)
    requires WindowsOk(windows, offsets, block, readWindow, maxGap, |offsets|) && i < |windows|
    ensures Full(windows[i], offsets, block, readWindow, maxGap) && windows[i].first < |offsets|
  {
    if i + 1 < |windows| {
      assert WindowOk(windows[i + 1], offsets, block, readWindow, maxGap);
    }
  }

  lemma Maximal(a: Window, b: Window, offsets: seq<nat>, block: nat, readWindow: nat, maxGap: nat)
    requires block > 0 && a.first == b.first
    requires Full(a, offsets, block, readWindow, maxGap) && Full(b, offsets, block, readWindow, maxGap)
    ensures b.count <= a.count
  {
  }

  lemma SameFull(a: Window, b: Window, offsets: seq<nat>, block: nat, readWindow: nat, maxGap: nat)
    requires block > 0 && a.first == b.first
    requires Full(a, offsets, block, readWindow, maxGap) && Full(b, offsets, block, readWindow, maxGap)
    ensures a == b
  {
    Maximal(a, b, offsets, block, readWindow, maxGap);
    Maximal(b, a, offsets, block, readWindow, maxGap);
  }

  /** After equal windows there is a next one in both lists or in neither, and it begins at the same task. */
  lemma NextFirst(a: seq<Window>, b: seq<Window>, tasks: nat, i: nat)
    requires Chained(a, tasks) && Chained(b, tasks) && i < |a|
    requires a[i].first < tasks && (i > 0 ==> i <= |b| && a[i - 1] == b[i - 1])
    ensures i < |b| && a[i].first == b[i].first
  {
    assert b != [];
  }

  lemma {:induction false} SameWindow(a: seq<Window>, b: seq<Window>, offsets: seq<nat>, block: nat, readWindow: nat,
                                      maxGap: nat, i: nat)
    requires block > 0 && i < |a|
    requires WindowsOk(a, offsets, block, readWindow, maxGap, |offsets|)
    requires WindowsOk(b, offsets, block, readWindow, maxGap, |offsets|)
    ensures i < |b| && a[i] == b[i]
  {
    if i > 0 {
      SameWindow(a, b, offsets, block, readWindow, maxGap, i - 1);
    }
    IsFull(a, offsets, block, readWindow, maxGap, i);
    NextFirst(a, b, |offsets|, i);
    IsFull(b, offsets, block, readWindow, maxGap, i);
    SameFull(a[i], b[i], offsets, block, readWindow, maxGap);
  }

  /** The conditions on windows determine them. */
  lemma WindowsUnique(a: seq<Window>, b: seq<Window>, offsets: seq<nat>, block: nat, readWindow: nat, maxGap: nat)
    requires block > 0
    requires WindowsOk(a, offsets, block, readWindow, maxGap, |offsets|)
    requires WindowsOk(b, offsets, block, readWindow, maxGap, |offsets|)
    ensures a == b
  {
    forall i | 0 <= i < |a|
      ensures i < |b| && a[i] == b[i]
    {
      SameWindow(a, b, offsets, block, readWindow, maxGap, i);
    }
    if |b| > |a| {
      SameWindow(b, a, offsets, block, readWindow, maxGap, |a|);
    }
  }

  /** So it is enough to look at the windows built. */
  lemma ServedIffBuilt(windows: seq<Window>, offsets: seq<nat>, block: nat, readWindow: nat, maxGap: nat, share: nat)
    requires block > 0 && WindowsOk(windows, offsets, block, readWindow, maxGap, |offsets|)
    ensures AllServed(offsets, block, readWindow, maxGap, share) <==>
              forall w :: 0 <= w < |windows| ==> Served(windows[w], offsets, block, share)
  {
    forall other: seq<Window> | WindowsOk(other, offsets, block, readWindow, maxGap, |offsets|)
      ensures other == windows
    {
      WindowsUnique(windows, other, offsets, block, readWindow, maxGap);
    }
  }

  /** A read size within the share is always served. */
  lemma SmallReadsServed(offsets: seq<nat>, block: nat, readWindow: nat, maxGap: nat, share: nat)
    requires block <= share && readWindow <= share
    ensures AllServed(offsets, block, readWindow, maxGap, share)
  {
    forall windows: seq<Window> | WindowsOk(windows, offsets, block, readWindow, maxGap, |offsets|)
      ensures forall w :: 0 <= w < |windows| ==> Served(windows[w], offsets, block, share)
    {
      forall w | 0 <= w < |windows|
        ensures Served(windows[w], offsets, block, share)
      {
        assert WindowOk(windows[w], offsets, block, readWindow, maxGap);
      }
    }
  }

  // ----- executing a plan -----

  function Offsets(tasks: seq<Task>): seq<nat>
  {
    seq(|tasks|, i requires 0 <= i < |tasks| => tasks[i].fileOffset)
  }

  function InOrder(n: nat): seq<nat>
  {
    seq(n, i requires 0 <= i < n => i)
  }

  /** The superblocks of a plan ascend in the file, whole superblocks apart. */
  lemma PlanAligned(h: Header, axis: Axis, index: nat, tasks: seq<Task>, keys: seq<Key>)
    requires Valid(h) && TasksOk(h, axis, index, tasks, keys) && Volume(h.super) > 0
    ensures Aligned(Offsets(tasks), Volume(h.super))
  {
    forall i, j | 0 <= i <= j < |tasks|
      ensures tasks[i].fileOffset <= tasks[j].fileOffset
      ensures (tasks[j].fileOffset - tasks[i].fileOffset) % Volume(h.super) == 0
    {
      assert TaskOk(h, axis, index, tasks[i], keys) && TaskOk(h, axis, index, tasks[j], keys);
      BlocksApart(tasks[i].sbIndex, tasks[j].sbIndex, Volume(h.super));
    }
  }

  lemma BlocksApart(a: nat, b: nat, block: nat)
    requires block > 0 && a <= b
    ensures a * block <= b * block && (b * block - a * block) % block == 0
  {
    MulMono(a, b, block);
    DivMod(b - a, 0, block);
    assert (b - a) * block == b * block - a * block;
  }

  /** A read into a buffer of the given capacity. */
  method ReadInto(file: seq<Float>, offset: nat, size: nat, capacity: nat) returns (buffer: seq<Float>)
    requires size <= capacity && offset + size <= |file|
    ensures buffer == file[offset..offset + size]
  {
    buffer := file[offset..offset + size];
  }

  /** What every executor works on: a stored volume and a plan for one of its slices. */
  ghost predicate Job(file: seq<Float>, h: Header, raw: Raw, axis: Axis, index: nat, plan: Plan, keys: seq<Key>)
  {
    && Valid(h) && IsRaw(raw, h.n) && Volume(h.leaf) > 0 && Gapless(LeafGrid(h))
    && index < Fixed(axis, h.n) && Stored(file, h, raw) && PlanOk(h, axis, index, plan, keys)
  }

  ghost predicate Progress(h: Header, raw: Raw, axis: Axis, index: nat, plan: Plan, keys: seq<Key>,
                           output: seq<Float>, init: seq<Float>, done: nat)
    requires Valid(h) && IsRaw(raw, h.n) && done <= |plan.tasks|
  {
    Delivered(output, init, h, raw, axis, index, keys, plan.tasks, InOrder(|plan.tasks|), done)
  }

  lemma PieceBuffer(file: seq<Float>, h: Header, raw: Raw, axis: Axis, index: nat, plan: Plan, keys: seq<Key>,
                    w: Window, t: nat)
    requires Job(file, h, raw, axis, index, plan, keys) && Holds(w, Offsets(plan.tasks), Volume(h.super))
    requires w.first <= t < w.first + w.count
    ensures End(w) <= |file|
    ensures var task := plan.tasks[t];
            && w.offset <= task.fileOffset && task.fileOffset + Volume(h.super) <= End(w)
            && task.firstLeaf + task.leafCount <= |keys|
            && forall i :: task.firstLeaf <= i < task.firstLeaf + task.leafCount ==>
                 HoldsSuperblock(h, raw, axis, index, keys[i], file[task.fileOffset..task.fileOffset + Volume(h.super)])
  {
    var last := plan.tasks[w.first + w.count - 1];
    assert Offsets(plan.tasks)[w.first + w.count - 1] == last.fileOffset;
    assert TaskOk(h, axis, index, last, keys);
    TaskBuffer(file, h, raw, axis, index, keys, last);
    assert Offsets(plan.tasks)[t] == plan.tasks[t].fileOffset;
    assert TaskOk(h, axis, index, plan.tasks[t], keys);
    TaskBuffer(file, h, raw, axis, index, keys, plan.tasks[t]);
  }

  lemma PartOfRead(file: seq<Float>, offset: nat, size: nat, at: nat, v: nat)
    requires offset + size <= |file| && at + v <= size
    ensures file[offset..offset + size][at..at + v] == file[offset + at..offset + at + v]
  {
    var read, part := file[offset..offset + size], file[offset + at..offset + at + v];
    assert forall k :: 0 <= k < v ==> read[at..at + v][k] == part[k];
  }

  /** The task's superblock, found in what was read of its piece. */
  lemma PieceHolds(file: seq<Float>, h: Header, raw: Raw, axis: Axis, index: nat, plan: Plan, keys: seq<Key>,
                   w: Window, t: nat)
    requires Job(file, h, raw, axis, index, plan, keys) && Holds(w, Offsets(plan.tasks), Volume(h.super))
    requires w.first <= t < w.first + w.count && End(w) <= |file|
    ensures var task := plan.tasks[t];
            && w.offset <= task.fileOffset && task.fileOffset - w.offset + Volume(h.super) <= w.size
            && task.firstLeaf + task.leafCount <= |keys|
            && var buffer, at := file[w.offset..End(w)], task.fileOffset - w.offset;
            forall i :: task.firstLeaf <= i < task.firstLeaf + task.leafCount ==>
              HoldsSuperblock(h, raw, axis, index, keys[i], buffer[at..at + Volume(h.super)])
  {
    PieceBuffer(file, h, raw, axis, index, plan, keys, w, t);
    PartOfRead(file, w.offset, w.size, plan.tasks[t].fileOffset - w.offset, Volume(h.super));
  }

  /** Unpacks task t from its own place in the piece read. */
  method UnpackFrom(ghost file: seq<Float>, h: Header, ghost raw: Raw, axis: Axis, index: nat, plan: Plan,
                    ghost keys: seq<Key>, w: Window, t: nat, buffer: seq<Float>, output: array<Float>, ghost init: seq<Float>)
    requires Job(file, h, raw, axis, index, plan, keys) && Holds(w, Offsets(plan.tasks), Volume(h.super))
    requires w.first <= t < w.first + w.count && End(w) <= |file| && buffer == file[w.offset..End(w)]
    requires Progress(h, raw, axis, index, plan, keys, output[..], init, t)
    modifies output
    ensures Progress(h, raw, axis, index, plan, keys, output[..], init, t + 1)
  {
    var task := plan.tasks[t];
    PieceHolds(file, h, raw, axis, index, plan, keys, w, t);
    var at: nat, v: nat := task.fileOffset - w.offset, Volume(h.super);
    ProcessTask(h, raw, axis, index, plan, keys, InOrder(|plan.tasks|), t, task, buffer[at..at + v], output, init);
  }

  /** Reads a piece at once and unpacks each of its tasks. */
  method ProcessPiece(file: seq<Float>, h: Header, ghost raw: Raw, axis: Axis, index: nat, plan: Plan,
                      ghost keys: seq<Key>, w: Window, capacity: nat, output: array<Float>, ghost init: seq<Float>)
    requires Job(file, h, raw, axis, index, plan, keys)
    requires Holds(w, Offsets(plan.tasks), Volume(h.super)) && w.size <= capacity
    requires Progress(h, raw, axis, index, plan, keys, output[..], init, w.first)
    modifies output
    ensures Progress(h, raw, axis, index, plan, keys, output[..], init, w.first + w.count)
  {
    PieceBuffer(file, h, raw, axis, index, plan, keys, w, w.first);
    var buffer := ReadInto(file, w.offset, w.size, capacity);
    var j: nat := 0;
    while j < w.count
      invariant j <= w.count
      invariant Progress(h, raw, axis, index, plan, keys, output[..], init, w.first + j)
    {
      UnpackFrom(file, h, raw, axis, index, plan, keys, w, w.first + j, buffer, output, init);
      j := j + 1;
    }
  }

  lemma NextPiece(pieces: seq<Window>, offsets: seq<nat>, block: nat, capacity: nat, tasks: nat, i: nat)
    requires PiecesOk(pieces, offsets, block, capacity, tasks)
    ensures StartOf(pieces, tasks, 0) == 0
    ensures i < |pieces| ==> Holds(pieces[i], offsets, block) && pieces[i].size <= capacity
    ensures i < |pieces| ==> StartOf(pieces, tasks, i + 1) == pieces[i].first + pieces[i].count
  {
  }

  lemma NoProgress(h: Header, raw: Raw, axis: Axis, index: nat, plan: Plan, keys: seq<Key>, init: seq<Float>)
    requires Valid(h) && IsRaw(raw, h.n) && |init| == SliceSize(h, axis)
    ensures Progress(h, raw, axis, index, plan, keys, init, init, 0)
  {
  }

  /** Piece i of the list. */
  method ProcessNext(file: seq<Float>, h: Header, ghost raw: Raw, axis: Axis, index: nat, plan: Plan,
                     ghost keys: seq<Key>, pieces: seq<Window>, capacity: nat, i: nat, output: array<Float>,
                     ghost init: seq<Float>)
    requires Job(file, h, raw, axis, index, plan, keys) && i < |pieces|
    requires PiecesOk(pieces, Offsets(plan.tasks), Volume(h.super), capacity, |plan.tasks|)
    requires StartOf(pieces, |plan.tasks|, i) <= |plan.tasks|
    requires Progress(h, raw, axis, index, plan, keys, output[..], init, StartOf(pieces, |plan.tasks|, i))
    modifies output
    ensures StartOf(pieces, |plan.tasks|, i + 1) <= |plan.tasks|
    ensures Progress(h, raw, axis, index, plan, keys, output[..], init, StartOf(pieces, |plan.tasks|, i + 1))
  {
    NextPiece(pieces, Offsets(plan.tasks), Volume(h.super), capacity, |plan.tasks|, i);
    ProcessPiece(file, h, raw, axis, index, plan, keys, pieces[i], capacity, output, init);
  }

  method ProcessPieces(file: seq<Float>, h: Header, ghost raw: Raw, axis: Axis, index: nat, plan: Plan,
                       ghost keys: seq<Key>, pieces: seq<Window>, capacity: nat, output: array<Float>)
    requires Job(file, h, raw, axis, index, plan, keys) && output.Length == SliceSize(h, axis)
    requires PiecesOk(pieces, Offsets(plan.tasks), Volume(h.super), capacity, |plan.tasks|)
    modifies output
    ensures IsSlice(output[..], h, raw, axis, index)
  {
    ghost var init := output[..];
    var i: nat := 0;
    NextPiece(pieces, Offsets(plan.tasks), Volume(h.super), capacity, |plan.tasks|, 0);
    NoProgress(h, raw, axis, index, plan, keys, init);
    while i < |pieces|
      invariant i <= |pieces| && StartOf(pieces, |plan.tasks|, i) <= |plan.tasks|
      invariant Progress(h, raw, axis, index, plan, keys, output[..], init, StartOf(pieces, |plan.tasks|, i))
    {
      ProcessNext(file, h, raw, axis, index, plan, keys, pieces, capacity, i, output, init);
      i := i + 1;
    }
    DeliveredAll(output[..], init, h, raw, axis, index, plan, keys, InOrder(|plan.tasks|));
  }

  /** The run strategy: refuses when a thread cannot hold a superblock, otherwise reads the slice within the limit. */
  method ExecuteRunBatch(file: seq<Float>, h: Header, ghost raw: Raw, axis: Axis, index: nat, plan: Plan,
                         ghost keys: seq<Key>, limit: nat, threads: nat, output: array<Float>)
    returns (ok: bool, perThread: nat)
    requires Job(file, h, raw, axis, index, plan, keys) && output.Length == SliceSize(h, axis) && threads > 0
    modifies output
    ensures ok <==> plan.tasks == [] || Volume(h.super) <= Pieces(limit, threads)
    ensures if ok then IsSlice(output[..], h, raw, axis, index) else output[..] == old(output[..])
    ensures threads * perThread <= limit
  {
    perThread := 0;
    if plan.tasks == [] {
      EmptyPlan(output[..], h, raw, axis, index, plan, keys);
      return true, 0;
    }
    LeafGridExact(h);
    VolumePositive(h.super);
    var capacity, pieces := RunReads(Offsets(plan.tasks), Volume(h.super), limit, threads);
    if capacity == None {
      return false, 0;
    }
    ProcessPieces(file, h, raw, axis, index, plan, keys, pieces, capacity.value, output);
    ok, perThread := true, capacity.value;
  }

  /**
   * The window strategy: as the run strategy, when every window fits a thread's share of the memory or may be split.
   */
  method ExecuteReadWindow(file: seq<Float>, h: Header, ghost raw: Raw, axis: Axis, index: nat, plan: Plan,
                           ghost keys: seq<Key>, readWindow: nat, maxGap: nat, limit: nat, threads: nat, output: array<Float>)
    returns (ok: bool, perThread: nat)
    requires Job(file, h, raw, axis, index, plan, keys) && output.Length == SliceSize(h, axis) && threads > 0
    requires Volume(h.super) <= Pieces(limit, threads) ==>
               AllServed(Offsets(plan.tasks), Volume(h.super), readWindow, maxGap, Pieces(limit, threads))
    modifies output
    ensures ok <==> plan.tasks == [] || Volume(h.super) <= Pieces(limit, threads)
    ensures if ok then IsSlice(output[..], h, raw, axis, index) else output[..] == old(output[..])
    ensures threads * perThread <= limit
  {
    perThread := 0;
    if plan.tasks == [] {
      EmptyPlan(output[..], h, raw, axis, index, plan, keys);
      return true, 0;
    }
    LeafGridExact(h);
    VolumePositive(h.super);
    PlanAligned(h, axis, index, plan.tasks, keys);
    var capacity, pieces := WindowReads(Offsets(plan.tasks), Volume(h.super), readWindow, maxGap, limit, threads);
    if capacity == None {
      return false, 0;
    }
    ProcessPieces(file, h, raw, axis, index, plan, keys, pieces, capacity.value, output);
    ok, perThread := true, capacity.value;
  }

  lemma EmptyPlan(output: seq<Float>, h: Header, raw: Raw, axis: Axis, index: nat, plan: Plan, keys: seq<Key>)
    requires Valid(h) && IsRaw(raw, h.n) && PlanOk(h, axis, index, plan, keys) && plan.tasks == []
    requires |output| == SliceSize(h, axis)
    ensures IsSlice(output, h, raw, axis, index)
  {
    DeliveredAll(output, output, h, raw, axis, index, plan, keys, []);
  }
}
