/** Reading all intervals: the next window is read while the current one is decoded, then the buffers swap. */
module ReadPipeline {
  import opened Basics
  import opened WindowCache
  import opened Sorting
  import opened WindowedRead

  const DEFAULT_READ_WINDOW: nat := 512 * 1024 * 1024
  const DEFAULT_MAX_GAP: nat := 8 * 1024 * 1024

  /** What the decoder must be handed for an interval. */
  function Expected(file: seq<Byte>): Interval -> Delivery
  {
    (i: Interval) => Delivery(i.user, match ReadFully(file, i.offset, i.size) case Some(d) => d case None => [])
  }

  predicate Readable(file: seq<Byte>, i: Interval)
  {
    ReadFully(file, i.offset, i.size).Some?
  }

  /** The bytes of one interval inside the window that holds it. */
  function Part(buffer: seq<Byte>, w: Span, i: Interval): (r: seq<Byte>)
    requires w.start <= i.offset && End(i) <= w.start + w.size && |buffer| == w.size
  {
    buffer[i.offset - w.start..i.offset - w.start + i.size]
  }

  lemma ReadSize(file: seq<Byte>, w: Span, buffer: seq<Byte>)
    requires ReadFully(file, w.start, w.size) == Some(buffer)
    ensures |buffer| == w.size
  {
  }

  lemma PartIsExpected(file: seq<Byte>, w: Span, buffer: seq<Byte>, i: Interval)
    requires ReadFully(file, w.start, w.size) == Some(buffer) && |buffer| == w.size
    requires w.start <= i.offset && End(i) <= w.start + w.size
    ensures Readable(file, i) && Expected(file)(i) == Delivery(i.user, Part(buffer, w, i))
  {
    if i.size > 0 {
      var part, whole := Part(buffer, w, i), file[i.offset..i.offset + i.size];
      forall k | 0 <= k < i.size
        ensures part[k] == whole[k]
      {
        assert part[k] == buffer[i.offset - w.start + k] == file[w.start..w.start + w.size][i.offset - w.start + k];
      }
    }
  }

  ghost predicate AllDecode(log: seq<Delivery>, decode: (nat, seq<Byte>) -> bool)
  {
    forall j :: 0 <= j < |log| ==> decode(log[j].user, log[j].data)
  }

  lemma AllDecodeConcat(a: seq<Delivery>, b: seq<Delivery>, decode: (nat, seq<Byte>) -> bool)
    ensures AllDecode(a + b, decode) <==> AllDecode(a, decode) && AllDecode(b, decode)
  {
    assert forall j :: 0 <= j < |a| ==> (a + b)[j] == a[j];
    assert forall j :: 0 <= j < |b| ==> (a + b)[|a| + j] == b[j];
  }

  /** The log holds what is expected of intervals begin up to end, in order. */
  ghost predicate Logged(file: seq<Byte>, s: seq<Interval>, begin: nat, end: nat, log: seq<Delivery>)
    requires begin <= end <= |s|
  {
    && |log| == end - begin
    && forall k :: begin <= k < end ==> Readable(file, s[k]) && log[k - begin] == Expected(file)(s[k])
  }

  lemma LoggedConcat(file: seq<Byte>, s: seq<Interval>, a: nat, b: nat, c: nat, log: seq<Delivery>, more: seq<Delivery>)
    requires a <= b <= c <= |s| && Logged(file, s, a, b, log) && Logged(file, s, b, c, more)
    ensures Logged(file, s, a, c, log + more)
  {
    forall k | a <= k < c
      ensures Readable(file, s[k]) && (log + more)[k - a] == Expected(file)(s[k])
    {
      if k >= b {
        assert (log + more)[k - a] == more[k - b];
      }
    }
  }

  /** Every interval from begin up to end lies inside the window. */
  ghost predicate Inside(w: Span, s: seq<Interval>, begin: nat, end: nat)
  {
    && begin <= end <= |s|
    && forall k :: begin <= k < end ==> w.start <= s[k].offset && End(s[k]) <= w.start + w.size
  }

  /** Decodes interval k after those from begin on. */
  method DecodeNext(file: seq<Byte>, buffer: seq<Byte>, w: Span, s: seq<Interval>, ghost begin: nat, k: nat,
                    decode: (nat, seq<Byte>) -> bool, ok: bool, log: seq<Delivery>)
    returns (ok': bool, log': seq<Delivery>)
    requires ReadFully(file, w.start, w.size) == Some(buffer) && begin <= k && Inside(w, s, k, k + 1)
    requires Logged(file, s, begin, k, log) && (ok <==> AllDecode(log, decode))
    ensures Logged(file, s, begin, k + 1, log') && (ok' <==> AllDecode(log', decode))
  {
    ReadSize(file, w, buffer);
    PartIsExpected(file, w, buffer, s[k]);
    var d := Delivery(s[k].user, Part(buffer, w, s[k]));
    var decoded := decode(d.user, d.data);
    ok' := ok && decoded;
    log' := log + [d];
    AllDecodeConcat(log, [d], decode);
    LoggedConcat(file, s, begin, k, k + 1, log, [d]);
  }

  /** One decoding thread's share of a window. A failed callback does not stop the others. */
  method DecodeShare(file: seq<Byte>, buffer: seq<Byte>, w: Span, s: seq<Interval>, begin: nat, end: nat,
                     decode: (nat, seq<Byte>) -> bool)
    returns (ok: bool, log: seq<Delivery>)
    requires ReadFully(file, w.start, w.size) == Some(buffer) && Inside(w, s, begin, end)
    ensures Logged(file, s, begin, end, log) && (ok <==> AllDecode(log, decode))
  {
    ok, log := true, [];
    for k := begin to end
      invariant Logged(file, s, begin, k, log) && (ok <==> AllDecode(log, decode))
    {
      ok, log := DecodeNext(file, buffer, w, s, begin, k, decode, ok, log);
    }
  }

  /** Splits the window's intervals over the decoding threads in runs of equal length. */
  method DecodeWindow(file: seq<Byte>, buffer: seq<Byte>, w: Span, s: seq<Interval>, begin: nat,
                      decodeThreads: nat, decode: (nat, seq<Byte>) -> bool)
    returns (ok: bool, log: seq<Delivery>)
    requires ReadFully(file, w.start, w.size) == Some(buffer) && begin < w.next <= |s| && decodeThreads > 0
    requires Inside(w, s, begin, w.next)
    ensures Logged(file, s, begin, w.next, log) && (ok <==> AllDecode(log, decode))
  {
    var count := w.next - begin;
    var threadsToUse := Min(decodeThreads, count);
    if threadsToUse <= 1 {
      ok, log := DecodeShare(file, buffer, w, s, begin, w.next, decode);
      return;
    }
    var perThread := CeilDiv(count, threadsToUse);
    CeilDivCovers(count, threadsToUse);
    ok, log := true, [];
    var t: nat, start: nat := 0, begin;
    while t < threadsToUse && start < w.next
      invariant t <= threadsToUse && begin <= start <= w.next
      invariant start == w.next || start == begin + t * perThread
      invariant Logged(file, s, begin, start, log) && (ok <==> AllDecode(log, decode))
    {
      var end := Min(start + perThread, w.next);
      MulNext(t, perThread);
      var shareOk, share := DecodeShare(file, buffer, w, s, start, end, decode);
      LoggedConcat(file, s, begin, start, end, log, share);
      AllDecodeConcat(log, share, decode);
      ok := ok && shareOk;
      log := log + share;
      t, start := t + 1, end;
    }
  }

  lemma CeilDivCovers(n: nat, d: nat)
    requires n > 0 && d > 0
    ensures CeilDiv(n, d) > 0 && n <= d * CeilDiv(n, d)
  {
    CeilDivBound(CeilDiv(n, d), n, d);
    CeilDivBound(0, n, d);
  }

  // ----- the main loop -----

  lemma HoldsInside(w: Span, s: seq<Interval>, begin: nat, readWindow: nat)
    requires Holds(w, s, begin, readWindow)
    ensures Inside(w, s, begin, w.next)
  {
  }

  /** A window of intervals that lie in the file lies in the file. */
  lemma WindowReadable(file: seq<Byte>, w: Span, s: seq<Interval>, begin: nat, readWindow: nat)
    requires Holds(w, s, begin, readWindow) && forall k :: 0 <= k < |s| ==> End(s[k]) <= |file|
    ensures ReadFully(file, w.start, w.size).Some?
  {
  }

  ghost predicate AllInFile(file: seq<Byte>, s: seq<Interval>)
  {
    forall k :: 0 <= k < |s| ==> End(s[k]) <= |file|
  }

  /** Some callback fails, or some interval is not in the file. */
  ghost predicate Fails(file: seq<Byte>, s: seq<Interval>, decode: (nat, seq<Byte>) -> bool)
  {
    !AllInFile(file, s) || exists k :: 0 <= k < |s| && Rejected(file, s[k], decode)
  }

  predicate Rejected(file: seq<Byte>, i: Interval, decode: (nat, seq<Byte>) -> bool)
  {
    !decode(i.user, Expected(file)(i).data)
  }

  lemma LoggedRejected(file: seq<Byte>, s: seq<Interval>, begin: nat, end: nat, log: seq<Delivery>,
                       decode: (nat, seq<Byte>) -> bool)
    requires begin <= end <= |s| && Logged(file, s, begin, end, log) && !AllDecode(log, decode)
    ensures Fails(file, s, decode)
  {
    var j :| 0 <= j < |log| && !decode(log[j].user, log[j].data);
    assert log[begin + j - begin] == Expected(file)(s[begin + j]);
    assert Rejected(file, s[begin + j], decode);
  }

  /** Sorted intervals, decoded window by window while the next window is read. */
  method RunWindows(file: seq<Byte>, fileId: nat, cache: BoundedWindowCache?, s: seq<Interval>, readWindow: nat,
                    maxGap: nat, decodeThreads: nat, decode: (nat, seq<Byte>) -> bool)
    returns (ok: bool, log: seq<Delivery>)
    requires Coherent(cache, fileId, file) && Ascending(s) && s != [] && decodeThreads > 0
    modifies cache
    ensures Coherent(cache, fileId, file)
    ensures forall id: nat, bytes: seq<Byte> :: id != fileId && old(Coherent(cache, id, bytes)) ==>
              Coherent(cache, id, bytes)
    ensures ok ==> Logged(file, s, 0, |s|, log) && AllDecode(log, decode)
    ensures !ok ==> Fails(file, s, decode)
  {
    log := [];
    var begin: nat := 0;
    var current := ComputeWindow(s, 0, readWindow, maxGap);
    var bufferA := ReadWindowData(file, fileId, cache, current.start, current.size);
    if bufferA == None {
      WindowUnreadable(file, current, s, 0, readWindow);
      return false, log;
    }
    while true
      invariant Coherent(cache, fileId, file) && Holds(current, s, begin, readWindow)
      invariant forall id: nat, bytes: seq<Byte> :: id != fileId && old(Coherent(cache, id, bytes)) ==>
                  Coherent(cache, id, bytes)
      invariant bufferA.Some? && bufferA == ReadFully(file, current.start, current.size)
      invariant Logged(file, s, 0, begin, log) && AllDecode(log, decode)
      decreases |s| - begin
    {
      var hasNext := current.next < |s|;
      var next, bufferB := current, None;
      if hasNext {
        next := ComputeWindow(s, current.next, readWindow, maxGap);
        bufferB := ReadWindowData(file, fileId, cache, next.start, next.size);
      }
      HoldsInside(current, s, begin, readWindow);
      var decodeOk, part := DecodeWindow(file, bufferA.value, current, s, begin, decodeThreads, decode);
      LoggedConcat(file, s, 0, begin, current.next, log, part);
      AllDecodeConcat(log, part, decode);
      if !decodeOk {
        LoggedRejected(file, s, begin, current.next, part, decode);
        return false, log + part;
      }
      log := log + part;
      if !hasNext {
        return true, log;
      }
      if bufferB == None {
        WindowUnreadable(file, next, s, current.next, readWindow);
        return false, log;
      }
      bufferA := bufferB;
      begin, current := current.next, next;
    }
  }

  lemma WindowUnreadable(file: seq<Byte>, w: Span, s: seq<Interval>, begin: nat, readWindow: nat)
    requires Holds(w, s, begin, readWindow) && ReadFully(file, w.start, w.size) == None
    ensures !AllInFile(file, s)
  {
    if AllInFile(file, s) {
      WindowReadable(file, w, s, begin, readWindow);
    }
  }

  lemma LoggedIsMap(file: seq<Byte>, s: seq<Interval>, log: seq<Delivery>)
    requires Logged(file, s, 0, |s|, log)
    ensures log == Map(Expected(file), s) && forall i :: i in s ==> Readable(file, i)
  {
  }

  lemma SortedAscends(s: seq<Interval>)
    requires SortedBy(s, ByOffset())
    ensures Ascending(s)
  {
    forall i, j | 0 <= i < j < |s|
      ensures s[i].offset <= s[j].offset
    {
      assert ByOffset()(s[i], s[j]);
    }
  }

  lemma FailsPermuted(file: seq<Byte>, s: seq<Interval>, t: seq<Interval>, decode: (nat, seq<Byte>) -> bool)
    requires multiset(s) == multiset(t) && Fails(file, s, decode)
    ensures Fails(file, t, decode)
  {
    SameElements(s, t);
    if k :| 0 <= k < |s| && Rejected(file, s[k], decode) {
      assert s[k] in s;
      var j :| 0 <= j < |t| && t[j] == s[k];
      assert Rejected(file, t[j], decode);
    } else {
      var k :| 0 <= k < |s| && End(s[k]) > |file|;
      assert s[k] in s;
      var j :| 0 <= j < |t| && t[j] == s[k];
    }
  }

  /**
   * Success means that every interval was decoded exactly once, from exactly its bytes of the file, and accepted.
   * When all intervals lie in the file, only a failing callback makes the read fail.
   */
  method ExecuteWindowedRead(file: seq<Byte>, fileId: nat, cache: BoundedWindowCache?, intervals: seq<Interval>,
                             readWindowBytes: nat, maxGapBytes: nat, decodeThreads: int,
                             decode: (nat, seq<Byte>) -> bool)
    returns (ok: bool, log: seq<Delivery>)
    requires Coherent(cache, fileId, file)
    modifies cache
    ensures Coherent(cache, fileId, file)
    ensures forall id: nat, bytes: seq<Byte> :: id != fileId && old(Coherent(cache, id, bytes)) ==>
              Coherent(cache, id, bytes)
    ensures ok ==> multiset(log) == multiset(Map(Expected(file), intervals)) && AllDecode(log, decode)
    ensures ok ==> forall i :: i in intervals ==> Readable(file, i)
    ensures !ok ==> Fails(file, intervals, decode)
  {
    if intervals == [] {
      assert Map(Expected(file), intervals) == [];
      return true, [];
    }
    ByOffsetPreorder();
    var sorted := Sort(intervals, ByOffset());
    SortedAscends(sorted);
    SameElements(sorted, intervals);
    var readWindow := if readWindowBytes > 0 then readWindowBytes else DEFAULT_READ_WINDOW;
    var maxGap := if maxGapBytes > 0 then maxGapBytes else DEFAULT_MAX_GAP;
    var threads := if decodeThreads > 1 then decodeThreads else 1;
    ok, log := RunWindows(file, fileId, cache, sorted, readWindow, maxGap, threads, decode);
    if ok {
      LoggedIsMap(file, sorted, log);
      MapPermuted(Expected(file), sorted, intervals);
    } else {
      FailsPermuted(file, sorted, intervals, decode);
    }
  }

  /** So on intervals that lie in the file, success and failure are decided by the callbacks alone. */
  lemma SuccessOrFailure(file: seq<Byte>, intervals: seq<Interval>, log: seq<Delivery>,
                         decode: (nat, seq<Byte>) -> bool)
    requires AllInFile(file, intervals) && AllDecode(log, decode)
    requires multiset(log) == multiset(Map(Expected(file), intervals))
    ensures !Fails(file, intervals, decode)
  {
    SameElements(log, Map(Expected(file), intervals));
    forall k | 0 <= k < |intervals|
      ensures !Rejected(file, intervals[k], decode)
    {
      assert Map(Expected(file), intervals)[k] in log;
    }
  }

  // ----- the threads: every interleaving of reading, decoding and swapping -----

  datatype Io = Idle | Filling(window: Span, target: nat) | Filled(window: Span, target: nat)

  /** Two blocks of memory; the front one is decoded, the other one is read into. */
  datatype State = State(blocks: seq<seq<Byte>>, front: nat, begin: nat, current: Span, io: Io,
                         log: seq<(nat, seq<Byte>)>)

  datatype Action = Submit | Scribble | ReadDone | Decode(interval: nat) | Swap

  ghost predicate Started(file: seq<Byte>, s: seq<Interval>, readWindow: nat, p: State)
  {
    && |p.blocks| == 2 && p.front == 0 && p.begin == 0 && p.io == Idle && p.log == []
    && Holds(p.current, s, 0, readWindow)
    && ReadFully(file, p.current.start, p.current.size) == Some(p.blocks[0])
  }

  predicate InLog(log: seq<(nat, seq<Byte>)>, k: nat)
  {
    exists j :: 0 <= j < |log| && log[j].0 == k
  }

  predicate WindowDecoded(p: State)
  {
    forall k :: p.begin <= k < p.current.next ==> InLog(p.log, k)
  }

  /**
   * Submitting hands the back block to the read thread, which may leave anything in it until the read is complete.
   * Decoding reads the front block as it is at that moment. The swap waits for both sides.
   */
  ghost predicate Step(file: seq<Byte>, s: seq<Interval>, readWindow: nat, p: State, a: Action, q: State)
    requires |p.blocks| == 2 && p.front < 2
  {
    match a
    case Submit =>
      && p.io == Idle && p.current.next < |s| && q.io.Filling? && Holds(q.io.window, s, p.current.next, readWindow)
      && q == p.(io := Filling(q.io.window, 1 - p.front))
    case Scribble =>
      p.io.Filling? && p.io.target < 2 && |q.blocks| == 2 &&
      q == p.(blocks := p.blocks[p.io.target := q.blocks[p.io.target]])
    case ReadDone =>
      p.io.Filling? && p.io.target < 2 &&
      (match ReadFully(file, p.io.window.start, p.io.window.size)
       case Some(data) => q == p.(blocks := p.blocks[p.io.target := data], io := Filled(p.io.window, p.io.target))
       case None => false)
    case Decode(k) =>
      && p.begin <= k < p.current.next <= |s| && !InLog(p.log, k) && Inside(p.current, s, k, k + 1)
      && |p.blocks[p.front]| == p.current.size
      && q == p.(log := p.log + [(k, Part(p.blocks[p.front], p.current, s[k]))])
    case Swap =>
      p.io.Filled? && WindowDecoded(p) &&
      q == p.(front := 1 - p.front, begin := p.current.next, current := p.io.window, io := Idle)
  }

  ghost predicate LogCorrect(file: seq<Byte>, s: seq<Interval>, log: seq<(nat, seq<Byte>)>)
  {
    && (forall j :: 0 <= j < |log| ==> log[j].0 < |s| &&
                                       ReadFully(file, s[log[j].0].offset, s[log[j].0].size) == Some(log[j].1))
    && (forall i, j :: 0 <= i < j < |log| ==> log[i].0 != log[j].0)
  }

  /** The block being read into is never the one being decoded, and the log is right at every moment. */
  ghost predicate Safe(file: seq<Byte>, s: seq<Interval>, readWindow: nat, p: State)
  {
    && |p.blocks| == 2 && p.front < 2
    && Holds(p.current, s, p.begin, readWindow)
    && ReadFully(file, p.current.start, p.current.size) == Some(p.blocks[p.front])
    && LogCorrect(file, s, p.log)
    && (forall k :: 0 <= k < p.begin ==> InLog(p.log, k))
    && (!p.io.Idle? ==> p.io.target == 1 - p.front && p.current.next < |s| &&
                        Holds(p.io.window, s, p.current.next, readWindow))
    && (p.io.Filled? ==> ReadFully(file, p.io.window.start, p.io.window.size) == Some(p.blocks[p.io.target]))
  }

  lemma DecodeKeeps(file: seq<Byte>, s: seq<Interval>, log: seq<(nat, seq<Byte>)>, k: nat, w: Span, block: seq<Byte>)
    requires LogCorrect(file, s, log) && !InLog(log, k) && Inside(w, s, k, k + 1)
    requires |block| == w.size && ReadFully(file, w.start, w.size) == Some(block)
    ensures LogCorrect(file, s, log + [(k, Part(block, w, s[k]))])
    ensures forall i :: InLog(log, i) || i == k ==> InLog(log + [(k, Part(block, w, s[k]))], i)
  {
    PartIsExpected(file, w, block, s[k]);
    var more := log + [(k, Part(block, w, s[k]))];
    assert more[|log|].0 == k;
    forall i | InLog(log, i)
      ensures InLog(more, i)
    {
      var j :| 0 <= j < |log| && log[j].0 == i;
      assert more[j].0 == i;
    }
  }

  lemma StepSafe(file: seq<Byte>, s: seq<Interval>, readWindow: nat, p: State, a: Action, q: State)
    requires Safe(file, s, readWindow, p) && Step(file, s, readWindow, p, a, q)
    ensures Safe(file, s, readWindow, q)
  {
    match a
    case Decode(k) => DecodeKeeps(file, s, p.log, k, p.current, p.blocks[p.front]);
    case Submit =>
    case Scribble =>
    case ReadDone =>
    case Swap =>
  }

  ghost predicate Run(file: seq<Byte>, s: seq<Interval>, readWindow: nat, states: seq<State>, actions: seq<Action>)
  {
    && |states| == |actions| + 1 && Started(file, s, readWindow, states[0])
    && forall i :: 0 <= i < |actions| ==>
         |states[i].blocks| == 2 && states[i].front < 2 &&
         Step(file, s, readWindow, states[i], actions[i], states[i + 1])
  }

  /** Every state of every run is safe, whatever the interleaving. */
  lemma {:induction false} RunSafe(file: seq<Byte>, s: seq<Interval>, readWindow: nat, states: seq<State>,
                                   actions: seq<Action>, n: nat)
    requires Run(file, s, readWindow, states, actions) && n <= |actions|
    ensures Safe(file, s, readWindow, states[n])
  {
    if n > 0 {
      RunSafe(file, s, readWindow, states, actions, n - 1);
      StepSafe(file, s, readWindow, states[n - 1], actions[n - 1], states[n]);
    }
  }

  /** A run that decoded its last window has decoded every interval exactly once, from its own bytes. */
  lemma RunComplete(file: seq<Byte>, s: seq<Interval>, readWindow: nat, states: seq<State>, actions: seq<Action>)
    requires Run(file, s, readWindow, states, actions)
    requires var last := states[|actions|]; last.current.next == |s| && WindowDecoded(last)
    ensures LogCorrect(file, s, states[|actions|].log)
    ensures forall k :: 0 <= k < |s| ==> InLog(states[|actions|].log, k)
  {
    RunSafe(file, s, readWindow, states, actions, |actions|);
  }

  function IoPhase(io: Io): nat
  {
    match io case Idle => 2 case Filling(_, _) => 1 case Filled(_, _) => 0
  }

  /** Every action but the reader's scribbling gets closer to the end. */
  lemma StepProgress(file: seq<Byte>, s: seq<Interval>, readWindow: nat, p: State, a: Action, q: State)
    requires Safe(file, s, readWindow, p) && Step(file, s, readWindow, p, a, q) && a != Scribble
    ensures |q.log| <= |s|
    ensures (q.begin > p.begin) ||
            (q.begin == p.begin && IoPhase(q.io) < IoPhase(p.io)) ||
            (q.begin == p.begin && q.io == p.io && |q.log| > |p.log|)
  {
    StepSafe(file, s, readWindow, p, a, q);
    var users: seq<nat> := seq(|q.log|, j requires 0 <= j < |q.log| => q.log[j].0);
    DistinctElements(users);
    SubsetSize(Elements(users), Range(|s|));
  }

  /** Until everything is decoded some action is possible, as long as the intervals lie in the file. */
  lemma NoDeadlock(file: seq<Byte>, s: seq<Interval>, readWindow: nat, p: State) returns (a: Action, q: State)
    requires Safe(file, s, readWindow, p) && AllInFile(file, s)
    requires p.current.next < |s| || !WindowDecoded(p)
    ensures a != Scribble && Step(file, s, readWindow, p, a, q)
  {
    if !WindowDecoded(p) {
      var k :| p.begin <= k < p.current.next && !InLog(p.log, k);
      a := Decode(k);
      q := p.(log := p.log + [(k, Part(p.blocks[p.front], p.current, s[k]))]);
    } else {
      match p.io
      case Idle =>
        var next := p.current.next;
        var w := Span(s[next].offset, s[next].size, next + 1);
        assert End(s[next]) == w.start + w.size;
        a, q := Submit, p.(io := Filling(w, 1 - p.front));
      case Filling(w, target) =>
        WindowReadable(file, w, s, p.current.next, readWindow);
        var data := ReadFully(file, w.start, w.size).value;
        a, q := ReadDone, p.(blocks := p.blocks[target := data], io := Filled(w, target));
      case Filled(w, _) =>
        a, q := Swap, p.(front := 1 - p.front, begin := p.current.next, current := w, io := Idle);
    }
  }
}
