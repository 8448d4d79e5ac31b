/** The cache of decoded leaves: bounded in bytes, evicting the least recently used. */
module LeafCache {
  import opened Basics
  import opened LruList

  /**
   * What storing a block does to the list: a key already present is only moved to the front, its block kept; otherwise
   * room is made from the back. A block larger than the cache therefore empties it without being stored.
   */
  predicate Stored(before: seq<Entry>, after: seq<Entry>, e: Entry, maxSize: nat)
  {
    match Find(before, e.key)
    case Some(i) => after == ToFront(before, i)
    case None =>
      if |e.data| <= maxSize then after != [] && after[0] == e && EvictedTo(before, after[1..], maxSize - |e.data|)
      else after == []
  }

  class LeafCache {
    var maxSize: nat
    var currentSize: nat
    var lru: seq<Entry>
    var index: map<Key, Entry>

    ghost predicate Valid()
      reads this
    {
      Indexed(lru, index) && currentSize == Bytes(lru) <= maxSize
    }

    constructor (maxBytes: nat)
      ensures Valid() && lru == [] && maxSize == maxBytes
    {
      maxSize, currentSize, lru, index := maxBytes, 0, [], map[];
    }

    method Touch(i: nat)
      requires Valid() && i < |lru|
      modifies this`lru
      ensures Valid() && lru == ToFront(old(lru), i)
    {
      FrontIndexed(lru, index, i);
      lru := ToFront(lru, i);
    }

    /** A hit needs the key and the exact size of the stored block. */
    method Get(key: Key, size: nat) returns (data: Option<seq<Byte>>)
      requires Valid()
      modifies this`lru
      ensures Valid()
      ensures match Find(old(lru), key)
              case None => data == None && lru == old(lru)
              case Some(i) => if |old(lru)[i].data| != size then data == None && lru == old(lru)
                              else data == Some(old(lru)[i].data) && lru == ToFront(old(lru), i)
    {
      var found := Find(lru, key);
      if found == None || |index[key].data| != size {
        return None;
      }
      data := Some(index[key].data);
      Touch(found.value);
    }

    method EvictLast()
      requires Valid() && lru != []
      modifies this`lru, this`index, this`currentSize
      ensures Valid() && lru == old(lru)[..|old(lru)| - 1]
    {
      LastIndexed(lru, index);
      var last := lru[|lru| - 1];
      currentSize := currentSize - |last.data|;
      index := index - {last.key};
      lru := lru[..|lru| - 1];
    }

    method MakeRoom(size: nat)
      requires Valid()
      modifies this`lru, this`index, this`currentSize
      ensures Valid() && lru <= old(lru)
      ensures if size <= maxSize then EvictedTo(old(lru), lru, maxSize - size) else lru == []
    {
      ghost var room := if size <= maxSize then maxSize - size else 0;
      while currentSize + size > maxSize && lru != []
        invariant Valid() && lru <= old(lru) && (size <= maxSize ==> Trimmed(old(lru), lru, room))
        decreases |lru|
      {
        if size <= maxSize {
          TrimOne(old(lru), lru, room);
        }
        EvictLast();
      }
    }

    method Put(key: Key, data: seq<Byte>)
      requires Valid()
      modifies this`lru, this`index, this`currentSize
      ensures Valid() && Stored(old(lru), lru, Entry(key, data), maxSize)
    {
      var found := Find(lru, key);
      if found.Some? {
        Touch(found.value);
        return;
      }
      MakeRoom(|data|);
      if currentSize + |data| > maxSize {
        return;
      }
      PrefixLacks(lru, old(lru), key);
      Insert(Entry(key, data));
    }

    method Insert(e: Entry)
      requires Valid() && Lacks(lru, e.key) && currentSize + |e.data| <= maxSize
      modifies this`lru, this`index, this`currentSize
      ensures Valid() && lru == [e] + old(lru)
    {
      InsertIndexed(lru, index, e);
      lru := [e] + lru;
      index := index[e.key := e];
      currentSize := currentSize + |e.data|;
    }

    method Clear()
      requires Valid()
      modifies this`lru, this`index, this`currentSize
      ensures Valid() && lru == []
    {
      lru, index, currentSize := [], map[], 0;
    }
  }

  lemma PrefixLacks(a: seq<Entry>, b: seq<Entry>, key: Key)
    requires a <= b && Lacks(b, key)
    ensures Lacks(a, key)
  {
    assert forall i :: 0 <= i < |a| ==> a[i] == b[i];
  }

  /** A second put under a key never replaces the first block. */
  lemma SecondPutKeepsFirst(lru: seq<Entry>, once: seq<Entry>, twice: seq<Entry>, first: Entry, second: Entry, maxSize: nat)
    requires Lacks(lru, first.key) && |first.data| <= maxSize && second.key == first.key
    requires Stored(lru, once, first, maxSize) && Stored(once, twice, second, maxSize)
    ensures Find(twice, first.key) == Some(0) && twice[0] == first
  {
    assert Find(once, first.key) == Some(0);
  }
}
