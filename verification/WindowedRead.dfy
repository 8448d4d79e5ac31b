/** Reading many small intervals of a file through large windows, one window ahead of the decoder. */
module WindowedRead {
  import opened Basics
  import opened LruList
  import opened WindowCache
  import opened Sorting

  datatype Interval = Interval(offset: nat, size: nat, user: nat)

  /** A stretch of the file, and the interval after the last one it holds. */
  datatype Span = Span(start: nat, size: nat, next: nat)

  /** What a decode callback is called with. */
  datatype Delivery = Delivery(user: nat, data: seq<Byte>)

  function End(i: Interval): nat
  {
    i.offset + i.size
  }

  /** A complete read; reading nothing succeeds anywhere. */
  function ReadFully(file: seq<Byte>, offset: nat, size: nat): Option<seq<Byte>>
  {
    if size == 0 then Some([]) else if offset + size <= |file| then Some(file[offset..offset + size]) else None
  }

  // ----- windows -----

  function ByOffset(): (Interval, Interval) -> bool
  {
    (a: Interval, b: Interval) => a.offset < b.offset || (a.offset == b.offset && a.size >= b.size)
  }

  lemma ByOffsetPreorder()
    ensures Preorder(ByOffset())
  {
  }

  predicate Ascending(s: seq<Interval>)
  {
    forall i, j :: 0 <= i < j < |s| ==> s[i].offset <= s[j].offset
  }

  /** The window holds intervals begin up to next; it is no larger than the read size or its first interval. */
  ghost predicate Holds(w: Span, s: seq<Interval>, begin: nat, readWindow: nat)
  {
    && begin < w.next <= |s| && w.start == s[begin].offset
    && w.size <= Max(readWindow, s[begin].size)
    && (forall k :: begin <= k < w.next ==> w.start <= s[k].offset && End(s[k]) <= w.start + w.size)
    && (exists k :: begin <= k < w.next && End(s[k]) == w.start + w.size)
  }

  /** Each interval taken fits the read size and starts no further than the gap behind the end of an earlier one. */
  ghost predicate Bridged(s: seq<Interval>, begin: nat, next: nat, readWindow: nat, maxGap: nat)
    requires next <= |s|
  {
    forall k :: begin < k < next ==> End(s[k]) <= s[begin].offset + readWindow && WithinGap(s, begin, k, maxGap)
  }

  ghost predicate WithinGap(s: seq<Interval>, begin: nat, k: nat, maxGap: nat)
    requires k < |s|
  {
    exists m :: begin <= m < k && s[k].offset <= End(s[m]) + maxGap
  }

  /** The next window; it stops only where the next interval leaves too large a gap or does not fit the read size. */
  method ComputeWindow(s: seq<Interval>, begin: nat, readWindow: nat, maxGap: nat) returns (w: Span)
    requires Ascending(s) && begin < |s|
    ensures Holds(w, s, begin, readWindow) && Bridged(s, begin, w.next, readWindow, maxGap)
    ensures w.next < |s| ==> s[w.next].offset > w.start + w.size + maxGap || End(s[w.next]) > w.start + readWindow
  {
    var start := s[begin].offset;
    var end := End(s[begin]);
    ghost var last := begin;
    var next := begin + 1;
    while next < |s|
      invariant begin < next <= |s| && start <= end && end - start <= Max(readWindow, s[begin].size)
      invariant begin <= last < next && End(s[last]) == end
      invariant forall k :: begin <= k < next ==> start <= s[k].offset && End(s[k]) <= end
      invariant Bridged(s, begin, next, readWindow, maxGap)
    {
      if s[next].offset > end + maxGap || End(s[next]) - start > readWindow {
        break;
      }
      assert WithinGap(s, begin, next, maxGap);
      if End(s[next]) > end {
        end, last := End(s[next]), next;
      }
      next := next + 1;
    }
    w := Span(start, end - start, next);
  }

  // ----- reading a window, through the cache -----

  /** The cached windows of the file agree with it; windows of other files may be cached beside them. */
  ghost predicate Coherent(cache: BoundedWindowCache?, fileId: nat, file: seq<Byte>)
    reads cache
  {
    cache != null ==> cache.Valid() && Agrees(cache.lru, map[fileId := file])
  }

  lemma HitIsRead(e: Entry, file: seq<Byte>, fileId: nat, start: nat, size: nat)
    requires EntryAgrees(e, map[fileId := file]) && Contains(e.key, fileId, start, size) && size > 0
    ensures start - e.key.offset + size <= |e.data|
    ensures Some(e.data[start - e.key.offset..start - e.key.offset + size]) == ReadFully(file, start, size)
  {
    ContainingHit(e, map[fileId := file], fileId, start, size);
    assert map[fileId := file][fileId] == file;
  }

  /** Looks the window up in the cache: a hit copies out exactly the bytes the file has there. */
  method FromCache(file: seq<Byte>, fileId: nat, cache: BoundedWindowCache, start: nat, size: nat)
    returns (data: Option<seq<Byte>>)
    requires Coherent(cache, fileId, file)
    modifies cache
    ensures Coherent(cache, fileId, file) && cache.capacity == old(cache.capacity)
    ensures forall id: nat, bytes: seq<Byte> :: id != fileId && old(Coherent(cache, id, bytes)) ==>
              Coherent(cache, id, bytes)
    ensures data.Some? ==> data == ReadFully(file, start, size)
  {
    ghost var files := map[fileId := file];
    ghost var before := cache.lru;
    var hit := cache.GetContaining(fileId, start, size);
    TouchedAgrees(before, cache.lru, files);
    forall id: nat, bytes: seq<Byte> | id != fileId && old(Coherent(cache, id, bytes))
      ensures Coherent(cache, id, bytes)
    {
      TouchedAgrees(before, cache.lru, map[id := bytes]);
    }
    if hit == None {
      return None;
    }
    var e := hit.value;
    assert EntryAgrees(e, files);
    HitIsRead(e, file, fileId, start, size);
    data := Some(e.data[start - e.key.offset..start - e.key.offset + size]);
  }

  /** Keeps the cache in agreement with the file, whether or not the window could be stored. */
  method IntoCache(file: seq<Byte>, fileId: nat, cache: BoundedWindowCache, start: nat, size: nat, data: seq<Byte>)
    requires Coherent(cache, fileId, file) && Some(data) == ReadFully(file, start, size)
    modifies cache
    ensures Coherent(cache, fileId, file)
    ensures forall id: nat, bytes: seq<Byte> :: id != fileId && old(Coherent(cache, id, bytes)) ==>
              Coherent(cache, id, bytes)
  {
    ghost var before := cache.lru;
    var entry := Entry(WindowKey(fileId, start, size), data);
    var _ := cache.PutShared(entry.key, data);
    PutAgrees(before, cache.lru, entry, cache.capacity, map[fileId := file]);
    forall id: nat, bytes: seq<Byte> | id != fileId && old(Coherent(cache, id, bytes))
      ensures Coherent(cache, id, bytes)
    {
      PutAgrees(before, cache.lru, entry, cache.capacity, map[id := bytes]);
    }
  }

  /** A put of bytes of one of the files, or of another file, keeps the cache in agreement with them. */
  lemma PutAgrees(before: seq<Entry>, after: seq<Entry>, e: Entry, capacity: nat, files: map<nat, seq<Byte>>)
    requires Agrees(before, files) && e.key.WindowKey?
    requires e.key.file in files ==> Some(e.data) == ReadFully(files[e.key.file], e.key.offset, e.key.size)
    requires Step(State(before, capacity), PutOp(e), State(after, capacity))
    ensures Agrees(after, files)
  {
    if Fits(e, capacity) {
      StoredAgrees(before, after, e, capacity, files);
    } else {
      DroppedAgrees(before, after, e, capacity, files);
    }
  }

  /** The bytes of a window: a cache that agrees with the file makes no difference. */
  method ReadWindowData(file: seq<Byte>, fileId: nat, cache: BoundedWindowCache?, start: nat, size: nat)
    returns (data: Option<seq<Byte>>)
    requires Coherent(cache, fileId, file)
    modifies cache
    ensures Coherent(cache, fileId, file)
    ensures forall id: nat, bytes: seq<Byte> :: id != fileId && old(Coherent(cache, id, bytes)) ==>
              Coherent(cache, id, bytes)
    ensures data == ReadFully(file, start, size)
  {
    if cache != null {
      data := FromCache(file, fileId, cache, start, size);
      if data.Some? {
        return;
      }
    }
    data := ReadFully(file, start, size);
    if data.Some? && cache != null && size <= cache.capacity {
      IntoCache(file, fileId, cache, start, size, data.value);
    }
  }
}
