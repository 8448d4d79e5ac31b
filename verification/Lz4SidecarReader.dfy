/** Reading whole planes from a sidecar, in a file of its own or embedded in a package. */
module Lz4SidecarReader {
  import opened Basics
  import opened Float32
  import opened Morton
  import opened Layout
  import opened SlicePlan
  import opened SliceReader
  import opened Sorting
  import opened Lz4Sidecar

  const INT_MAX: nat := 0x7FFF_FFFF
  const U64_MAX: nat := 0xFFFF_FFFF_FFFF_FFFF

  // ----- opening -----

  /** The entry lies inside a section of the given size, and its place in the file is a 64-bit number. */
  predicate EntryInside(e: Entry, size: nat, base: nat)
  {
    e.offset + e.size <= size && e.offset + base <= U64_MAX
  }

  function Shifted(e: Entry, base: nat): Entry
  {
    e.(offset := e.offset + base)
  }

  /** The index with its offsets made relative to the file the section starts in at base. */
  predicate IndexShifted(index: seq<Entry>, shifted: seq<Entry>, n: nat, base: nat)
  {
    |shifted| == n <= |index| && forall i :: 0 <= i < n ==> shifted[i] == Shifted(index[i], base)
  }

  /** Checking the index of a sidecar that is the section of the given size at base; none if an entry is outside. */
  method OpenIndex(index: seq<Entry>, size: nat, base: nat) returns (shifted: Option<seq<Entry>>)
    ensures shifted.Some? <==> forall i :: 0 <= i < |index| ==> EntryInside(index[i], size, base)
    ensures shifted.Some? ==> IndexShifted(index, shifted.value, |index|, base)
  {
    var found: seq<Entry> := [];
    var i: nat := 0;
    while i < |index|
      invariant i <= |index| && IndexShifted(index, found, i, base)
      invariant forall k :: 0 <= k < i ==> EntryInside(index[k], size, base)
    {
      if index[i].offset > size || index[i].size > size - index[i].offset || index[i].offset + base > U64_MAX {
        assert !EntryInside(index[i], size, base);
        return None;
      }
      found := found + [Shifted(index[i], base)];
      i := i + 1;
    }
    shifted := Some(found);
  }

  /** The section of the file at base is the sidecar's bytes. */
  predicate EmbeddedAt(file: seq<Byte>, base: nat, section: seq<Byte>)
  {
    base + |section| <= |file| && file[base..base + |section|] == section
  }

  lemma RecordEmbedded(file: seq<Byte>, base: nat, section: seq<Byte>, e: Entry, codec: Codec, data: seq<Float>)
    requires EmbeddedAt(file, base, section) && RecordHolds(section, e, codec, data)
    ensures RecordHolds(file, Shifted(e, base), codec, data)
  {
    StretchOfSection(file, base, section, e.offset, e.size);
  }

  lemma StretchOfSection(file: seq<Byte>, base: nat, section: seq<Byte>, offset: nat, size: nat)
    requires EmbeddedAt(file, base, section) && offset + size <= |section|
    ensures file[offset + base..offset + base + size] == section[offset..offset + size]
  {
    var x, y := file[offset + base..offset + base + size], section[offset..offset + size];
    forall i | 0 <= i < size
      ensures x[i] == y[i]
    {
      assert file[base..base + |section|][offset + i] == section[offset + i];
    }
  }

  /** A sidecar's planes can be read from a package it is embedded in: opening accepts it and finds the same planes. */
  lemma EmbeddedPlanes(file: seq<Byte>, base: nat, s: Sidecar, rows: nat, codec: Codec, raw: Raw, shifted: seq<Entry>)
    requires IsRaw(raw, s.n) && Inner(s.axis, s.n) > 0 && Fixed(s.axis, s.n) > 0 && rows > 0
    requires HoldsPlanes(s.bytes, s.index, s.n, s.axis, rows, codec, raw)
    requires EmbeddedAt(file, base, s.bytes) && IndexShifted(s.index, shifted, |s.index|, base)
    ensures HoldsPlanes(file, shifted, s.n, s.axis, rows, codec, raw)
  {
    var planes, chunks := Fixed(s.axis, s.n), CeilDiv(s.n.x, rows);
    forall k | 0 <= k < |shifted|
      ensures RecordHolds(file, EntryWritten(shifted, planes, chunks, k), codec, Part(raw, s.n, s.axis, rows, k))
    {
      SlotOfPart(planes, chunks, k);
      RecordEmbedded(file, base, s.bytes, EntryWritten(s.index, planes, chunks, k), codec, Part(raw, s.n, s.axis, rows, k));
    }
  }

  // ----- one plane -----

  /** An opened sidecar; io says which reads of the file succeed. */
  datatype Opened = Opened(n: Coord, axis: Axis, chunks: nat, index: seq<Entry>, file: seq<Byte>,
                           io: (nat, nat) -> bool, codec: Codec)

  /** The sidecar holds the planes of the volume, in chunks of the given height, none larger than the codec's int. */
  ghost predicate Sound(o: Opened, rows: nat, raw: Raw)
  {
    && IsRaw(raw, o.n) && o.axis != X && Inner(o.axis, o.n) > 0 && Fixed(o.axis, o.n) > 0 && rows > 0 && o.n.x > 0
    && o.chunks == CeilDiv(o.n.x, rows) && 4 * Cells(rows, Inner(o.axis, o.n)) <= INT_MAX
    && HoldsPlanes(o.file, o.index, o.n, o.axis, rows, o.codec, raw) && Inverse(o.codec)
  }

  predicate ChunkRead(o: Opened, p: nat, chunk: nat)
  {
    && Slot(p, chunk, o.chunks) < |o.index|
    && o.io(o.index[Slot(p, chunk, o.chunks)].offset, o.index[Slot(p, chunk, o.chunks)].size)
  }

  function PlaneCells(o: Opened): nat
  {
    Cells(o.n.x, Inner(o.axis, o.n))
  }

  /** The first rows of the plane are in place. */
  predicate Decoded(output: seq<Float>, o: Opened, raw: Raw, p: nat, rows: nat)
    requires IsRaw(raw, o.n) && Inner(o.axis, o.n) > 0
  {
    && Cells(rows, Inner(o.axis, o.n)) <= |output| == PlaneCells(o)
    && output[..Cells(rows, Inner(o.axis, o.n))] == Fragment(raw, o.n, o.axis, p, 0, rows)
  }

  /** What the checks on a chunk's entry come down to when the sidecar is sound. */
  lemma ChunkFits(o: Opened, rows: nat, raw: Raw, p: nat, chunk: nat)
    requires Sound(o, rows, raw) && p < Fixed(o.axis, o.n) && chunk < o.chunks
    ensures Slot(p, chunk, o.chunks) < |o.index|
    ensures var e, f := o.index[Slot(p, chunk, o.chunks)],
                        Fragment(raw, o.n, o.axis, p, First(chunk, rows), RowsOf(o.n, rows, chunk));
            && 0 < e.size <= INT_MAX && 0 < e.cells && 4 * e.cells <= INT_MAX && e.cells == |f|
            && e.offset + e.size <= |o.file|
            && o.codec.decompress(o.file[e.offset..e.offset + e.size], e.cells) == Some(f)
            && Cells(RowsBefore(o.n, rows, chunk), Inner(o.axis, o.n)) + e.cells
               == Cells(RowsBefore(o.n, rows, chunk + 1), Inner(o.axis, o.n)) <= PlaneCells(o)
  {
    var width := Inner(o.axis, o.n);
    ChunkHeld(o.file, o.index, o.n, o.axis, rows, o.codec, raw, p, chunk);
    ChunkRows(o.n, rows, chunk);
    var count, before := RowsOf(o.n, rows, chunk), RowsBefore(o.n, rows, chunk);
    MulMono(1, count, width);
    MulMono(count, rows, width);
    JoinSizes(0, before, count, width);
    MulMono(before + count, o.n.x, width);
  }

  /** Decoding one chunk behind the cells decoded so far. */
  method DecodeChunk(o: Opened, ghost rows: nat, ghost raw: Raw, p: nat, chunk: nat, decoded: nat, output: array<Float>)
    returns (ok: bool, end: nat)
    requires Sound(o, rows, raw) && p < Fixed(o.axis, o.n) && chunk < o.chunks
    requires Decoded(output[..], o, raw, p, RowsBefore(o.n, rows, chunk))
    requires decoded == Cells(RowsBefore(o.n, rows, chunk), Inner(o.axis, o.n))
    modifies output
    ensures ok <==> ChunkRead(o, p, chunk)
    ensures ok ==> Decoded(output[..], o, raw, p, RowsBefore(o.n, rows, chunk + 1))
    ensures ok ==> end == Cells(RowsBefore(o.n, rows, chunk + 1), Inner(o.axis, o.n))
  {
    ChunkFits(o, rows, raw, p, chunk);
    end := decoded;
    var e := o.index[Slot(p, chunk, o.chunks)];
    ok := o.io(e.offset, e.size);
    if !ok {
      return;
    }
    var data := o.codec.decompress(o.file[e.offset..e.offset + e.size], e.cells).value;
    ghost var before := output[..decoded];
    forall i | 0 <= i < |data| {
      output[decoded + i] := data[i];
    }
    end := decoded + e.cells;
    FragmentsJoin(raw, o.n, o.axis, p, 0, RowsBefore(o.n, rows, chunk), RowsOf(o.n, rows, chunk));
    ChunkRows(o.n, rows, chunk);
    assert output[..end] == before + data;
  }

  /** A chunk's entry passes the reader's checks. */
  predicate EntryUsable(o: Opened, e: Entry, decoded: nat)
  {
    && e.size != 0 && e.cells != 0 && e.size <= INT_MAX && 4 * e.cells <= INT_MAX
    && e.cells <= PlaneCells(o) && decoded <= PlaneCells(o) - e.cells
  }

  predicate AllChunksRead(o: Opened, p: nat)
  {
    forall chunk :: 0 <= chunk < o.chunks ==> ChunkRead(o, p, chunk)
  }

  /** Decoding a plane, chunk by chunk, straight into the output. */
  method ReadPlane(o: Opened, ghost rows: nat, ghost raw: Raw, p: nat, output: array<Float>) returns (ok: bool)
    requires Sound(o, rows, raw) && p < Fixed(o.axis, o.n) && output.Length == PlaneCells(o)
    modifies output
    ensures ok <==> AllChunksRead(o, p)
    ensures ok ==> output[..] == Fragment(raw, o.n, o.axis, p, 0, o.n.x)
  {
    AllRows(o.n, rows);
    assert Cells(0, Inner(o.axis, o.n)) == 0;
    var decoded: nat := 0;
    var chunk: nat := 0;
    while chunk < o.chunks
      invariant chunk <= o.chunks && forall c :: 0 <= c < chunk ==> ChunkRead(o, p, c)
      invariant decoded == Cells(RowsBefore(o.n, rows, chunk), Inner(o.axis, o.n))
      invariant Decoded(output[..], o, raw, p, RowsBefore(o.n, rows, chunk))
    {
      ChunkFits(o, rows, raw, p, chunk);
      assert EntryUsable(o, o.index[Slot(p, chunk, o.chunks)], decoded);
      ok, decoded := DecodeChunk(o, rows, raw, p, chunk, decoded, output);
      if !ok {
        return;
      }
      chunk := chunk + 1;
    }
    ok := true;
    assert output[..decoded] == output[..];
  }

  // ----- a batch -----

  /** A plane to decode, where its first record lies, and the requests it answers. */
  datatype PlaneTask = PlaneTask(plane: nat, first: nat, requests: seq<nat>)

  predicate Hit(o: Opened, r: Request)
  {
    r.axis == o.axis && r.index < Fixed(o.axis, o.n)
  }

  predicate InSome(tasks: seq<PlaneTask>, i: nat)
  {
    exists t :: 0 <= t < |tasks| && i in tasks[t].requests
  }

  /** The task answers requests below n for its plane, at least one. */
  predicate TaskFor(o: Opened, requests: seq<Request>, n: nat, t: PlaneTask)
    requires n <= |requests|
  {
    && t.plane < Fixed(o.axis, o.n) && t.requests != []
    && forall k :: 0 <= k < |t.requests| ==> t.requests[k] < n && requests[t.requests[k]] == Request(o.axis, t.plane)
  }

  predicate DistinctPlanes(tasks: seq<PlaneTask>)
  {
    forall t, u :: 0 <= t < u < |tasks| ==> tasks[t].plane != tasks[u].plane
  }

  /** The first n requests are grouped: one task for each plane asked for, with all who ask for it. */
  predicate Grouped(o: Opened, requests: seq<Request>, n: nat, tasks: seq<PlaneTask>)
    requires n <= |requests|
  {
    && (forall t :: 0 <= t < |tasks| ==> TaskFor(o, requests, n, tasks[t]))
    && DistinctPlanes(tasks)
    && (forall i :: 0 <= i < n && Hit(o, requests[i]) ==> InSome(tasks, i))
  }

  /** The map leads from a plane to its task. */
  predicate MapOf(tasks: seq<PlaneTask>, positions: map<nat, nat>)
  {
    && (forall p :: p in positions ==> positions[p] < |tasks| && tasks[positions[p]].plane == p)
    && (forall t :: 0 <= t < |tasks| ==> tasks[t].plane in positions)
  }

  lemma AddToTask(o: Opened, requests: seq<Request>, n: nat, tasks: seq<PlaneTask>, t: nat)
    requires n < |requests| && Grouped(o, requests, n, tasks) && t < |tasks| && Hit(o, requests[n])
    requires tasks[t].plane == requests[n].index
    ensures Grouped(o, requests, n + 1, tasks[t := tasks[t].(requests := tasks[t].requests + [n])])
  {
    var tasks' := tasks[t := tasks[t].(requests := tasks[t].requests + [n])];
    forall i | 0 <= i < n + 1 && Hit(o, requests[i])
      ensures InSome(tasks', i)
    {
      if i == n {
        assert i in tasks'[t].requests;
      } else {
        var u :| 0 <= u < |tasks| && i in tasks[u].requests;
        assert i in tasks'[u].requests;
      }
    }
    forall u | 0 <= u < |tasks'|
      ensures TaskFor(o, requests, n + 1, tasks'[u])
    {
      assert TaskFor(o, requests, n, tasks[u]);
    }
  }

  lemma AddNewTask(o: Opened, requests: seq<Request>, n: nat, tasks: seq<PlaneTask>, task: PlaneTask)
    requires n < |requests| && Grouped(o, requests, n, tasks) && Hit(o, requests[n])
    requires task.plane == requests[n].index && task.requests == [n]
    requires forall t :: 0 <= t < |tasks| ==> tasks[t].plane != task.plane
    ensures Grouped(o, requests, n + 1, tasks + [task])
  {
    var tasks' := tasks + [task];
    forall i | 0 <= i < n + 1 && Hit(o, requests[i])
      ensures InSome(tasks', i)
    {
      if i == n {
        assert i in tasks'[|tasks|].requests;
      } else {
        var u :| 0 <= u < |tasks| && i in tasks[u].requests;
        assert i in tasks'[u].requests;
      }
    }
    forall u | 0 <= u < |tasks'|
      ensures TaskFor(o, requests, n + 1, tasks'[u])
    {
      if u < |tasks| {
        assert TaskFor(o, requests, n, tasks[u]) && tasks'[u] == tasks[u];
      }
    }
  }

  lemma SkipRequest(o: Opened, requests: seq<Request>, n: nat, tasks: seq<PlaneTask>)
    requires n < |requests| && Grouped(o, requests, n, tasks) && !Hit(o, requests[n])
    ensures Grouped(o, requests, n + 1, tasks)
  {
    forall u | 0 <= u < |tasks|
      ensures TaskFor(o, requests, n + 1, tasks[u])
    {
      assert TaskFor(o, requests, n, tasks[u]);
    }
  }

  /** Grouping by plane. */
  method GroupByPlane(o: Opened, requests: seq<Request>) returns (tasks: seq<PlaneTask>)
    requires Fixed(o.axis, o.n) > 0 && o.chunks > 0 && |o.index| == Fixed(o.axis, o.n) * o.chunks
    ensures Grouped(o, requests, |requests|, tasks)
  {
    tasks := [];
    var positions: map<nat, nat> := map[];
    var n: nat := 0;
    while n < |requests|
      invariant n <= |requests| && Grouped(o, requests, n, tasks) && MapOf(tasks, positions)
    {
      var r := requests[n];
      if !Hit(o, r) {
        SkipRequest(o, requests, n, tasks);
      } else if r.index in positions {
        var t := positions[r.index];
        AddToTask(o, requests, n, tasks, t);
        tasks := tasks[t := tasks[t].(requests := tasks[t].requests + [n])];
      } else {
        PartOfSlot(Fixed(o.axis, o.n), o.chunks, r.index, 0);
        var task := PlaneTask(r.index, o.index[Slot(r.index, 0, o.chunks)].offset, [n]);
        AddNewTask(o, requests, n, tasks, task);
        tasks, positions := tasks + [task], positions[r.index := |tasks|];
      }
      n := n + 1;
    }
  }

  function ByFirst(): (PlaneTask, PlaneTask) -> bool
  {
    (a: PlaneTask, b: PlaneTask) => a.first <= b.first
  }

  /** Reordering the tasks changes nothing they promise. */
  lemma Regrouped(o: Opened, requests: seq<Request>, tasks: seq<PlaneTask>, sorted: seq<PlaneTask>)
    requires Grouped(o, requests, |requests|, tasks) && multiset(sorted) == multiset(tasks)
    ensures Grouped(o, requests, |requests|, sorted) && |sorted| == |tasks|
  {
    SameElements(sorted, tasks);
    forall u | 0 <= u < |sorted|
      ensures TaskFor(o, requests, |requests|, sorted[u])
    {
      assert sorted[u] in tasks;
    }
    forall i | 0 <= i < |requests| && Hit(o, requests[i])
      ensures InSome(sorted, i)
    {
      var t :| 0 <= t < |tasks| && i in tasks[t].requests;
      assert tasks[t] in sorted;
    }
    DistinctPermuted(tasks, sorted);
    forall t, u | 0 <= t < u < |sorted|
      ensures sorted[t].plane != sorted[u].plane
    {
      assert sorted[t] in tasks && sorted[u] in tasks && sorted[t] != sorted[u];
    }
  }

  /** One output for each request, all different, of the plane's size where the sidecar has the plane. */
  predicate Outputs(o: Opened, requests: seq<Request>, outputs: seq<array<Float>>)
  {
    && |outputs| == |requests|
    && (forall i, k :: 0 <= i < k < |outputs| ==> outputs[i] != outputs[k])
    && (forall i :: 0 <= i < |outputs| && Hit(o, requests[i]) ==> outputs[i].Length == PlaneCells(o))
  }

  /** Requests marked as handled have their plane; the others need not. */
  ghost predicate HandledHold(o: Opened, raw: Raw, requests: seq<Request>, outputs: seq<array<Float>>, handled: seq<bool>)
    requires IsRaw(raw, o.n) && Inner(o.axis, o.n) > 0 && |outputs| == |requests|
    reads outputs
  {
    && |handled| == |requests|
    && forall i :: 0 <= i < |handled| && handled[i] ==>
         Hit(o, requests[i]) && outputs[i][..] == Fragment(raw, o.n, o.axis, requests[i].index, 0, o.n.x)
  }

  /** Outputs of requests the sidecar cannot answer. */
  predicate Untouched(o: Opened, requests: seq<Request>, before: seq<seq<Float>>, outputs: seq<array<Float>>)
    requires |outputs| == |requests| == |before|
    reads outputs
  {
    forall i :: 0 <= i < |outputs| && !Hit(o, requests[i]) ==> outputs[i][..] == before[i]
  }

  method Copy(from: seq<Float>, to: array<Float>)
    requires to.Length == |from|
    modifies to
    ensures to[..] == from
  {
    forall i | 0 <= i < |from| {
      to[i] := from[i];
    }
  }

  predicate HoldPlane(t: PlaneTask, plane: seq<Float>, outputs: seq<array<Float>>, n: nat)
    requires n <= |t.requests| && forall k :: 0 <= k < |t.requests| ==> t.requests[k] < |outputs|
    reads outputs
  {
    forall k :: 0 <= k < n ==> outputs[t.requests[k]][..] == plane
  }

  method CopyOne(o: Opened, ghost raw: Raw, requests: seq<Request>, outputs: seq<array<Float>>, t: PlaneTask,
                 ghost handled: seq<bool>, ghost before: seq<seq<Float>>, n: nat)
    requires IsRaw(raw, o.n) && Inner(o.axis, o.n) > 0
    requires Outputs(o, requests, outputs) && TaskFor(o, requests, |requests|, t) && |before| == |requests|
    requires 0 < n < |t.requests| && HoldPlane(t, Fragment(raw, o.n, o.axis, t.plane, 0, o.n.x), outputs, n)
    requires HandledHold(o, raw, requests, outputs, handled) && Untouched(o, requests, before, outputs)
    modifies outputs
    ensures HandledHold(o, raw, requests, outputs, handled) && Untouched(o, requests, before, outputs)
    ensures HoldPlane(t, Fragment(raw, o.n, o.axis, t.plane, 0, o.n.x), outputs, n + 1)
  {
    var source := outputs[t.requests[0]][..];
    assert source == Fragment(raw, o.n, o.axis, t.plane, 0, o.n.x);
    Copy(source, outputs[t.requests[n]]);
  }

  /** Copying the plane to the others who asked for it. */
  method CopyToOthers(o: Opened, ghost raw: Raw, requests: seq<Request>, outputs: seq<array<Float>>, t: PlaneTask,
                      ghost handled: seq<bool>, ghost before: seq<seq<Float>>)
    requires IsRaw(raw, o.n) && Inner(o.axis, o.n) > 0
    requires Outputs(o, requests, outputs) && TaskFor(o, requests, |requests|, t) && |before| == |requests|
    requires outputs[t.requests[0]][..] == Fragment(raw, o.n, o.axis, t.plane, 0, o.n.x)
    requires HandledHold(o, raw, requests, outputs, handled) && Untouched(o, requests, before, outputs)
    modifies outputs
    ensures HandledHold(o, raw, requests, outputs, handled) && Untouched(o, requests, before, outputs)
    ensures HoldPlane(t, Fragment(raw, o.n, o.axis, t.plane, 0, o.n.x), outputs, |t.requests|)
  {
    ghost var plane := Fragment(raw, o.n, o.axis, t.plane, 0, o.n.x);
    var n: nat := 1;
    while n < |t.requests|
      invariant 1 <= n <= |t.requests| && HoldPlane(t, plane, outputs, n)
      invariant HandledHold(o, raw, requests, outputs, handled) && Untouched(o, requests, before, outputs)
    {
      CopyOne(o, raw, requests, outputs, t, handled, before, n);
      n := n + 1;
    }
  }

  /** The flags after a task: its requests are handled too. */
  function Marked(handled: seq<bool>, t: PlaneTask): (r: seq<bool>)
    ensures |r| == |handled| && forall i :: 0 <= i < |r| ==> (r[i] <==> handled[i] || i in t.requests)
  {
    seq(|handled|, i requires 0 <= i < |handled| => handled[i] || i in t.requests)
  }

  /** One plane decoded for all who ask for it; a failed read leaves them unhandled. */
  method DeliverTask(o: Opened, ghost rows: nat, ghost raw: Raw, requests: seq<Request>, outputs: seq<array<Float>>,
                     t: PlaneTask, handled: seq<bool>, ghost done: set<nat>, ghost before: seq<seq<Float>>)
    returns (ok: bool, handled': seq<bool>)
    requires Sound(o, rows, raw) && Outputs(o, requests, outputs) && TaskFor(o, requests, |requests|, t)
    requires HandledHold(o, raw, requests, outputs, handled) && |before| == |requests|
    requires Untouched(o, requests, before, outputs) && t.plane !in done
    requires forall i :: 0 <= i < |handled| && handled[i] ==> requests[i].index in done
    modifies outputs
    ensures ok <==> AllChunksRead(o, t.plane)
    ensures HandledHold(o, raw, requests, outputs, handled') && Untouched(o, requests, before, outputs)
    ensures handled' == if ok then Marked(handled, t) else handled
  {
    handled' := handled;
    assert t.requests[0] in t.requests;
    ok := ReadPlane(o, rows, raw, t.plane, outputs[t.requests[0]]);
    if !ok {
      return;
    }
    CopyToOthers(o, raw, requests, outputs, t, handled, before);
    handled' := Marked(handled, t);
    forall i | 0 <= i < |requests| && i in t.requests
      ensures outputs[i][..] == Fragment(raw, o.n, o.axis, requests[i].index, 0, o.n.x)
    {
      var k :| 0 <= k < |t.requests| && t.requests[k] == i;
    }
  }

  predicate AnyHit(o: Opened, requests: seq<Request>)
  {
    exists i :: 0 <= i < |requests| && Hit(o, requests[i])
  }

  /** The planes of the first n tasks. */
  function PlanesOf(tasks: seq<PlaneTask>, n: nat): (s: set<nat>)
    requires n <= |tasks|
    ensures forall p :: p in s <==> exists t :: 0 <= t < n && tasks[t].plane == p
  {
    set t | 0 <= t < n :: tasks[t].plane
  }

  /** The requests of the first n tasks are handled, and no others. */
  predicate HandledFirst(requests: seq<Request>, tasks: seq<PlaneTask>, n: nat, handled: seq<bool>)
    requires n <= |tasks|
  {
    && |handled| == |requests|
    && (forall i :: 0 <= i < |handled| ==> (handled[i] <==> InSome(tasks[..n], i)))
  }

  lemma HandledNext(o: Opened, requests: seq<Request>, tasks: seq<PlaneTask>, n: nat, handled: seq<bool>)
    requires n < |tasks| && HandledFirst(requests, tasks, n, handled)
    ensures HandledFirst(requests, tasks, n + 1, Marked(handled, tasks[n]))
  {
    forall i | 0 <= i < |handled|
      ensures InSome(tasks[..n + 1], i) <==> InSome(tasks[..n], i) || i in tasks[n].requests
    {
      if InSome(tasks[..n + 1], i) {
        var t :| 0 <= t < n + 1 && i in tasks[..n + 1][t].requests;
        if t < n {
          assert i in tasks[..n][t].requests;
        }
      }
      if InSome(tasks[..n], i) {
        var t :| 0 <= t < n && i in tasks[..n][t].requests;
        assert i in tasks[..n + 1][t].requests;
      }
      if i in tasks[n].requests {
        assert i in tasks[..n + 1][n].requests;
      }
    }
  }

  /** A task's plane is not among those before it. */
  lemma FreshPlane(o: Opened, requests: seq<Request>, tasks: seq<PlaneTask>, n: nat, handled: seq<bool>)
    requires n < |tasks| && Grouped(o, requests, |requests|, tasks) && HandledFirst(requests, tasks, n, handled)
    ensures tasks[n].plane !in PlanesOf(tasks, n)
    ensures forall i :: 0 <= i < |handled| && handled[i] ==> requests[i].index in PlanesOf(tasks, n)
  {
    forall i | 0 <= i < |handled| && handled[i]
      ensures requests[i].index in PlanesOf(tasks, n)
    {
      var t :| 0 <= t < n && i in tasks[..n][t].requests;
      assert TaskFor(o, requests, |requests|, tasks[t]);
    }
  }

  predicate TasksRead(o: Opened, tasks: seq<PlaneTask>, n: nat)
    requires n <= |tasks|
  {
    forall t :: 0 <= t < n ==> AllChunksRead(o, tasks[t].plane)
  }

  /** All planes asked for can be read. */
  predicate HitsRead(o: Opened, requests: seq<Request>)
  {
    forall i :: 0 <= i < |requests| && Hit(o, requests[i]) ==> AllChunksRead(o, requests[i].index)
  }

  lemma TasksAreHits(o: Opened, requests: seq<Request>, tasks: seq<PlaneTask>)
    requires Grouped(o, requests, |requests|, tasks)
    ensures TasksRead(o, tasks, |tasks|) <==> HitsRead(o, requests)
    ensures tasks != [] <==> AnyHit(o, requests)
    ensures forall i :: 0 <= i < |requests| ==> (InSome(tasks, i) <==> Hit(o, requests[i]))
  {
    forall t | 0 <= t < |tasks|
      ensures AnyHit(o, requests) && (HitsRead(o, requests) ==> AllChunksRead(o, tasks[t].plane))
    {
      var i := tasks[t].requests[0];
      assert i in tasks[t].requests && Hit(o, requests[i]);
    }
    forall i | 0 <= i < |requests| && Hit(o, requests[i])
      ensures tasks != [] && (TasksRead(o, tasks, |tasks|) ==> AllChunksRead(o, requests[i].index))
    {
      var t :| 0 <= t < |tasks| && i in tasks[t].requests;
      assert TaskFor(o, requests, |requests|, tasks[t]);
    }
    forall i | 0 <= i < |requests| && InSome(tasks, i)
      ensures Hit(o, requests[i])
    {
      var t :| 0 <= t < |tasks| && i in tasks[t].requests;
      assert TaskFor(o, requests, |requests|, tasks[t]);
    }
  }

  /** The loop over the tasks. */
  method DeliverTasks(o: Opened, ghost rows: nat, ghost raw: Raw, requests: seq<Request>, outputs: seq<array<Float>>,
                      tasks: seq<PlaneTask>, ghost before: seq<seq<Float>>)
    returns (ok: bool, handled: seq<bool>)
    requires Sound(o, rows, raw) && Outputs(o, requests, outputs) && Grouped(o, requests, |requests|, tasks)
    requires |before| == |requests| && Untouched(o, requests, before, outputs)
    modifies outputs
    ensures ok <==> TasksRead(o, tasks, |tasks|)
    ensures HandledHold(o, raw, requests, outputs, handled) && Untouched(o, requests, before, outputs)
    ensures ok ==> HandledFirst(requests, tasks, |tasks|, handled)
  {
    handled, ok := seq(|requests|, _ => false), true;
    var n: nat := 0;
    while n < |tasks|
      invariant ok && n <= |tasks| && TasksRead(o, tasks, n) && HandledFirst(requests, tasks, n, handled)
      invariant HandledHold(o, raw, requests, outputs, handled) && Untouched(o, requests, before, outputs)
    {
      FreshPlane(o, requests, tasks, n, handled);
      HandledNext(o, requests, tasks, n, handled);
      ok, handled := DeliverTask(o, rows, raw, requests, outputs, tasks[n], handled, PlanesOf(tasks, n), before);
      if !ok {
        return;
      }
      n := n + 1;
    }
  }

  /** A sound sidecar's planes are small enough for its number of chunks. */
  lemma PlanesFit(o: Opened, rows: nat, raw: Raw)
    requires Sound(o, rows, raw)
    ensures 4 * PlaneCells(o) <= INT_MAX * o.chunks && o.chunks > 0
  {
    AllRows(o.n, rows);
    CeilDivBound(0, o.n.x, rows);
    CoverArithmetic(o.n.x, Inner(o.axis, o.n), rows, o.chunks);
  }

  lemma CoverArithmetic(x: nat, width: nat, rows: nat, chunks: nat)
    requires x <= chunks * rows && 4 * (rows * width) <= INT_MAX
    ensures 4 * (x * width) <= INT_MAX * chunks
  {
    MulMono(x, chunks * rows, width);
    assert chunks * rows * width == chunks * (rows * width);
    MulMono(rows * width * 4, INT_MAX, chunks);
  }

  /**
   * Answering a batch from the sidecar. Whatever reads fail, every request marked as handled has exactly its slice
   * of the volume, and outputs of requests the sidecar has no plane for are untouched. The call succeeds exactly if
   * it has a plane to read and all its reads succeed, and then exactly the requests it has a plane for are handled.
   */
  method ReadBatch(o: Opened, ghost rows: nat, ghost raw: Raw, ghost h: Header, requests: seq<Request>,
                   outputs: seq<array<Float>>)
    returns (ok: bool, handled: seq<bool>)
    requires Sound(o, rows, raw) && h.n == o.n && Outputs(o, requests, outputs)
    modifies outputs
    ensures |handled| == |requests|
    ensures forall i :: 0 <= i < |handled| && handled[i] ==>
              Hit(o, requests[i]) && IsSlice(outputs[i][..], h, raw, requests[i].axis, requests[i].index)
    ensures forall i :: 0 <= i < |outputs| && !Hit(o, requests[i]) ==> outputs[i][..] == old(outputs[i][..])
    ensures ok <==> AnyHit(o, requests) && HitsRead(o, requests)
    ensures ok ==> forall i :: 0 <= i < |handled| ==> (handled[i] <==> Hit(o, requests[i]))
  {
    PlanesFit(o, rows, raw);
    ghost var before := seq(|outputs|, i requires 0 <= i < |outputs| reads outputs => outputs[i][..]);
    var tasks := GroupByPlane(o, requests);
    if tasks == [] {
      TasksAreHits(o, requests, tasks);
      return false, seq(|requests|, _ => false);
    }
    var sorted := Sort(tasks, ByFirst());
    Regrouped(o, requests, tasks, sorted);
    TasksAreHits(o, requests, sorted);
    ok, handled := DeliverTasks(o, rows, raw, requests, outputs, sorted, before);
    assert sorted[..|sorted|] == sorted;
    PlanesAreSlices(o, raw, h);
  }

  lemma PlanesAreSlices(o: Opened, raw: Raw, h: Header)
    requires IsRaw(raw, o.n) && Inner(o.axis, o.n) > 0 && h.n == o.n && o.axis != X
    ensures forall p: nat :: IsSlice(Fragment(raw, o.n, o.axis, p, 0, o.n.x), h, raw, o.axis, p)
  {
    forall p: nat
      ensures IsSlice(Fragment(raw, o.n, o.axis, p, 0, o.n.x), h, raw, o.axis, p)
    {
      PlaneIsSlice(h, raw, o.axis, p);
    }
  }
}
