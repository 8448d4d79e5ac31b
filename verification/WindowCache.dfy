/** A byte-bounded, least-recently-used cache of file windows. */
module WindowCache {
  import opened Basics
  import opened LruList

  /** Every cached window of one of the files holds the bytes the file has there. */
  ghost predicate Agrees(lru: seq<Entry>, files: map<nat, seq<Byte>>)
  {
    forall i :: 0 <= i < |lru| ==> EntryAgrees(lru[i], files)
  }

  predicate EntryAgrees(e: Entry, files: map<nat, seq<Byte>>)
  {
    e.key.WindowKey? && e.key.file in files ==>
      && e.key.offset + e.key.size <= |files[e.key.file]|
      && e.data == files[e.key.file][e.key.offset..e.key.offset + e.key.size]
  }

  /** The first window of the list, from the most recent on, that holds the bytes asked for. */
  function FindContaining(lru: seq<Entry>, file: nat, offset: nat, size: nat): (r: Option<nat>)
    ensures r.Some? ==> r.value < |lru| && Contains(lru[r.value].key, file, offset, size)
    ensures r.Some? ==> forall i :: 0 <= i < r.value ==> !Contains(lru[i].key, file, offset, size)
    ensures r.None? ==> forall e :: e in lru ==> !Contains(e.key, file, offset, size)
  {
    if lru == [] then None
    else if Contains(lru[0].key, file, offset, size) then Some(0)
    else match FindContaining(lru[1..], file, offset, size) case None => None case Some(i) => Some(i + 1)
  }

  predicate Contains(key: Key, file: nat, offset: nat, size: nat)
  {
    key.WindowKey? && key.file == file && key.offset <= offset && offset + size <= key.offset + key.size
  }

  /** The list without the entry of the key, if there is one. */
  function Dropped(lru: seq<Entry>, key: Key): seq<Entry>
  {
    match Find(lru, key) case None => lru case Some(i) => Without(lru, i)
  }

  /** What storing a window does to the list: an older one of the same key goes, and the back is evicted. */
  predicate Stored(before: seq<Entry>, after: seq<Entry>, e: Entry, capacity: nat)
  {
    if Fits(e, capacity) then EvictedTo([e] + Dropped(before, e.key), after, capacity)
    else after == Dropped(before, e.key)
  }

  predicate Fits(e: Entry, capacity: nat)
  {
    0 < |e.data| <= capacity
  }

  /** A window that fits is always resident after storing it, at the front of the list. */
  lemma StoredIsFirst(before: seq<Entry>, after: seq<Entry>, e: Entry, capacity: nat)
    requires Fits(e, capacity) && Stored(before, after, e, capacity)
    ensures |after| > 0 && after[0] == e
  {
    var all := [e] + Dropped(before, e.key);
    if after == [] {
      assert all[..1] == [e];
      assert Bytes([e]) == |e.data| + Bytes([e][1..]);
    }
  }

  lemma SubsetAgrees(a: seq<Entry>, b: seq<Entry>, files: map<nat, seq<Byte>>)
    requires Agrees(b, files) && forall e :: e in a ==> e in b
    ensures Agrees(a, files)
  {
    forall i | 0 <= i < |a|
      ensures EntryAgrees(a[i], files)
    {
      assert a[i] in b;
    }
  }

  /** Storing a window that agrees with its file keeps the whole cache in agreement. */
  lemma StoredAgrees(before: seq<Entry>, after: seq<Entry>, e: Entry, capacity: nat, files: map<nat, seq<Byte>>)
    requires Agrees(before, files) && EntryAgrees(e, files) && Stored(before, after, e, capacity)
    ensures Agrees(after, files)
  {
    forall x | x in after
      ensures x in [e] + before
    {
      StoredFrom(before, after, e, capacity, x);
    }
    SubsetAgrees(after, [e] + before, files);
  }

  lemma StoredFrom(before: seq<Entry>, after: seq<Entry>, e: Entry, capacity: nat, x: Entry)
    requires Stored(before, after, e, capacity) && x in after
    ensures x in [e] + before
  {
    var rest := Dropped(before, e.key);
    var j :| 0 <= j < |after| && after[j] == x;
    if Fits(e, capacity) {
      assert x == ([e] + rest)[j];
      if j > 0 {
        DroppedFrom(before, e.key, j - 1);
      }
    } else {
      DroppedFrom(before, e.key, j);
    }
  }

  lemma DroppedFrom(lru: seq<Entry>, key: Key, j: nat)
    requires j < |Dropped(lru, key)|
    ensures Dropped(lru, key)[j] in lru
  {
    var found := Find(lru, key);
    if found.Some? {
      WithoutKeeps(lru, found.value, j);
    }
  }

  /** Trying to store a window that does not fit only drops an entry. */
  lemma DroppedAgrees(before: seq<Entry>, after: seq<Entry>, e: Entry, capacity: nat, files: map<nat, seq<Byte>>)
    requires Agrees(before, files) && !Fits(e, capacity) && Stored(before, after, e, capacity)
    ensures Agrees(after, files)
  {
    forall x | x in after
      ensures x in before
    {
      var j :| 0 <= j < |after| && after[j] == x;
      DroppedFrom(before, e.key, j);
    }
    SubsetAgrees(after, before, files);
  }

  /** What a containing hit copies out is what the file has at the offset asked for. */
  lemma ContainingHit(e: Entry, files: map<nat, seq<Byte>>, file: nat, offset: nat, size: nat)
    requires EntryAgrees(e, files) && file in files && Contains(e.key, file, offset, size)
    ensures offset + size <= |files[file]|
    ensures |e.data| == e.key.size
    ensures e.data[offset - e.key.offset..offset - e.key.offset + size] == files[file][offset..offset + size]
  {
    var part := files[file][offset..offset + size];
    var at := offset - e.key.offset;
    assert forall k :: 0 <= k < size ==> e.data[at..at + size][k] == part[k];
  }

  // ----- whole runs -----

  datatype Operation = GetOp(key: Key) | ContainingOp(file: nat, offset: nat, size: nat) | PutOp(entry: Entry)
                     | CapacityOp(bytes: nat) | ClearOp
  datatype State = State(lru: seq<Entry>, capacity: nat)

  /** What each operation of the cache may do to its list and capacity. */
  ghost predicate Step(s: State, op: Operation, s': State)
  {
    match op
    case GetOp(key) => s'.capacity == s.capacity && TouchedOrSame(s.lru, s'.lru)
    case ContainingOp(_, _, _) => s'.capacity == s.capacity && TouchedOrSame(s.lru, s'.lru)
    case PutOp(e) => s'.capacity == s.capacity && Stored(s.lru, s'.lru, e, s.capacity)
    case CapacityOp(bytes) => s'.capacity == bytes && EvictedTo(s.lru, s'.lru, bytes)
    case ClearOp => s'.capacity == s.capacity && s'.lru == []
  }

  ghost predicate TouchedOrSame(lru: seq<Entry>, lru': seq<Entry>)
  {
    lru' == lru || exists i :: 0 <= i < |lru| && lru' == ToFront(lru, i)
  }

  lemma TouchedAgrees(lru: seq<Entry>, lru': seq<Entry>, files: map<nat, seq<Byte>>)
    requires Agrees(lru, files) && TouchedOrSame(lru, lru')
    ensures Agrees(lru', files)
  {
    if lru' != lru {
      var i :| 0 <= i < |lru| && lru' == ToFront(lru, i);
      forall j | 0 <= j < |lru'|
        ensures EntryAgrees(lru'[j], files)
      {
        if j > 0 {
          WithoutKeeps(lru, i, j - 1);
        }
      }
    }
  }

  lemma StepAgrees(s: State, op: Operation, s': State, files: map<nat, seq<Byte>>)
    requires Agrees(s.lru, files) && Step(s, op, s') && (op.PutOp? ==> EntryAgrees(op.entry, files))
    ensures Agrees(s'.lru, files)
  {
    match op
    case GetOp(key) => TouchedAgrees(s.lru, s'.lru, files);
    case ContainingOp(_, _, _) => TouchedAgrees(s.lru, s'.lru, files);
    case PutOp(e) => StoredAgrees(s.lru, s'.lru, e, s.capacity, files);
    case CapacityOp(_) => SubsetAgrees(s'.lru, s.lru, files);
    case ClearOp =>
  }

  /** Over any run whose puts agree with the files, every resident window agrees with its file at every moment. */
  lemma {:induction false} RunAgrees(states: seq<State>, ops: seq<Operation>, files: map<nat, seq<Byte>>, n: nat)
    requires |states| == |ops| + 1 && n <= |ops| && states[0].lru == []
    requires forall i :: 0 <= i < |ops| ==> Step(states[i], ops[i], states[i + 1])
    requires forall i :: 0 <= i < |ops| && ops[i].PutOp? ==> EntryAgrees(ops[i].entry, files)
    ensures Agrees(states[n].lru, files)
  {
    if n > 0 {
      RunAgrees(states, ops, files, n - 1);
      StepAgrees(states[n - 1], ops[n - 1], states[n], files);
    }
  }

  class BoundedWindowCache {
    var capacity: nat
    var resident: nat
    var lru: seq<Entry>
    var index: map<Key, Entry>
    var hits: nat
    var misses: nat
    var containedHits: nat
    var evictions: nat
    var savedBytes: nat

    ghost predicate Consistent()
      reads this
    {
      Indexed(lru, index) && resident == Bytes(lru)
    }

    /** Index and recency list hold the same entries, and the bytes counted are theirs, within the capacity. */
    ghost predicate Valid()
      reads this
    {
      Consistent() && resident <= capacity
    }

    constructor (capacityBytes: nat)
      ensures Valid() && lru == [] && capacity == capacityBytes
    {
      capacity, resident, lru, index := capacityBytes, 0, [], map[];
      hits, misses, containedHits, evictions, savedBytes := 0, 0, 0, 0, 0;
    }

    /** Moves an entry to the front of the recency list. */
    method Touch(i: nat)
      requires Valid() && i < |lru|
      modifies this`lru
      ensures Valid() && lru == ToFront(old(lru), i)
    {
      FrontIndexed(lru, index, i);
      lru := ToFront(lru, i);
    }

    method Get(key: Key) returns (data: Option<seq<Byte>>)
      requires Valid()
      modifies this
      ensures Valid() && Step(State(old(lru), old(capacity)), GetOp(key), State(lru, capacity))
      ensures match Find(old(lru), key)
              case None => data == None && lru == old(lru) && misses == old(misses) + 1 && hits == old(hits)
              case Some(i) => data == Some(old(lru)[i].data) && lru == ToFront(old(lru), i) &&
                              hits == old(hits) + 1 && misses == old(misses)
    {
      var found := Find(lru, key);
      if found == None {
        misses := misses + 1;
        return None;
      }
      data := Some(index[key].data);
      Touch(found.value);
      hits := hits + 1;
    }

    method GetContaining(file: nat, offset: nat, size: nat) returns (data: Option<Entry>)
      requires Valid()
      modifies this
      ensures Valid() && Step(State(old(lru), old(capacity)), ContainingOp(file, offset, size), State(lru, capacity))
      ensures size == 0 ==> data == None
      ensures size > 0 ==> match FindContaining(old(lru), file, offset, size)
                           case None => data == None
                           case Some(i) => data == Some(old(lru)[i]) && lru == ToFront(old(lru), i)
      ensures match data
              case None => lru == old(lru) && savedBytes == old(savedBytes) && containedHits == old(containedHits)
              case Some(e) => savedBytes == old(savedBytes) + size && containedHits == old(containedHits) + 1
    {
      if size == 0 {
        return None;
      }
      var found := FindContaining(lru, file, offset, size);
      if found == None {
        return None;
      }
      data := Some(lru[found.value]);
      Touch(found.value);
      containedHits := containedHits + 1;
      savedBytes := savedBytes + size;
    }

    /** Drops the least recent entry; before is the list the eviction started from. */
    method EvictLast(ghost before: seq<Entry>)
      requires Consistent() && lru != [] && Trimmed(before, lru, capacity) && resident > capacity
      modifies this`lru, this`index, this`resident, this`evictions
      ensures Consistent() && Trimmed(before, lru, capacity)
      ensures |lru| == |old(lru)| - 1 && evictions == old(evictions) + 1
    {
      TrimOne(before, lru, capacity);
      LastIndexed(lru, index);
      var last := lru[|lru| - 1];
      resident := resident - |last.data|;
      index := index - {last.key};
      lru := lru[..|lru| - 1];
      evictions := evictions + 1;
    }

    method EvictToCapacity()
      requires Consistent()
      modifies this`lru, this`index, this`resident, this`evictions
      ensures Valid() && EvictedTo(old(lru), lru, capacity)
      ensures evictions == old(evictions) + |old(lru)| - |lru|
    {
      while resident > capacity && lru != []
        invariant Consistent() && Trimmed(old(lru), lru, capacity)
        invariant evictions == old(evictions) + |old(lru)| - |lru|
        decreases |lru|
      {
        EvictLast(old(lru));
      }
    }

    method Remove(i: nat)
      requires Valid() && i < |lru|
      modifies this`lru, this`index, this`resident
      ensures Valid() && lru == Without(old(lru), i) && Lacks(lru, old(lru)[i].key)
    {
      WithoutIndexed(lru, index, i);
      resident := resident - |lru[i].data|;
      index := index - {lru[i].key};
      lru := Without(lru, i);
    }

    method Insert(e: Entry)
      requires Consistent() && Lacks(lru, e.key)
      modifies this`lru, this`index, this`resident
      ensures Consistent() && lru == [e] + old(lru)
    {
      InsertIndexed(lru, index, e);
      lru := [e] + lru;
      index := index[e.key := e];
      resident := resident + |e.data|;
    }

    /** Stores a window; false when the cache is off or the window is empty or larger than the cache. */
    method PutShared(key: Key, data: seq<Byte>) returns (ok: bool)
      requires Valid()
      modifies this
      ensures Valid() && ok == Fits(Entry(key, data), capacity)
      ensures Step(State(old(lru), old(capacity)), PutOp(Entry(key, data)), State(lru, capacity))
    {
      var found := Find(lru, key);
      if found.Some? {
        Remove(found.value);
      }
      if !Fits(Entry(key, data), capacity) {
        return false;
      }
      Insert(Entry(key, data));
      EvictToCapacity();
      ok := true;
    }

    method SetCapacity(capacityBytes: nat)
      requires Valid()
      modifies this
      ensures Valid() && Step(State(old(lru), old(capacity)), CapacityOp(capacityBytes), State(lru, capacity))
      ensures evictions == old(evictions) + |old(lru)| - |lru|
    {
      capacity := capacityBytes;
      EvictToCapacity();
    }

    method Clear()
      requires Valid()
      modifies this
      ensures Valid() && Step(State(old(lru), old(capacity)), ClearOp, State(lru, capacity))
      ensures hits == misses == containedHits == evictions == savedBytes == 0
    {
      lru, index, resident := [], map[], 0;
      hits, misses, containedHits, evictions, savedBytes := 0, 0, 0, 0, 0;
    }
  }
}
