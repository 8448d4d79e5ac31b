/** A recency list of byte blocks: moving to the front, removing, and evicting from the back. */
module LruList {
  import opened Basics

  /** Windows of files and single leaves are cached under keys of their own. */
  datatype Key = WindowKey(file: nat, offset: nat, size: nat) | LeafKey(id: nat)

  datatype Entry = Entry(key: Key, data: seq<Byte>)

  // ----- the recency list, most recent first -----

  function Bytes(lru: seq<Entry>): nat
  {
    if lru == [] then 0 else |lru[0].data| + Bytes(lru[1..])
  }

  lemma {:induction false} BytesConcat(a: seq<Entry>, b: seq<Entry>)
    ensures Bytes(a + b) == Bytes(a) + Bytes(b)
  {
    if a == [] {
      assert a + b == b;
    } else {
      assert (a + b)[1..] == a[1..] + b;
      BytesConcat(a[1..], b);
    }
  }

  function Without(lru: seq<Entry>, i: nat): seq<Entry>
    requires i < |lru|
  {
    lru[..i] + lru[i + 1..]
  }

  function ToFront(lru: seq<Entry>, i: nat): seq<Entry>
    requires i < |lru|
  {
    [lru[i]] + Without(lru, i)
  }

  lemma BytesWithout(lru: seq<Entry>, i: nat)
    requires i < |lru|
    ensures Bytes(Without(lru, i)) == Bytes(lru) - |lru[i].data|
    ensures Bytes(ToFront(lru, i)) == Bytes(lru)
  {
    assert lru == lru[..i] + ([lru[i]] + lru[i + 1..]);
    BytesConcat(lru[..i], [lru[i]] + lru[i + 1..]);
    BytesConcat([lru[i]], lru[i + 1..]);
    BytesConcat(lru[..i], lru[i + 1..]);
    BytesConcat([lru[i]], Without(lru, i));
  }

  predicate DistinctKeys(lru: seq<Entry>)
  {
    forall i, j :: 0 <= i < j < |lru| ==> lru[i].key != lru[j].key
  }

  predicate Lacks(lru: seq<Entry>, key: Key)
  {
    forall i :: 0 <= i < |lru| ==> lru[i].key != key
  }

  /** The entry of a key, as the hash index finds it. */
  function Find(lru: seq<Entry>, key: Key): (r: Option<nat>)
    ensures r.Some? ==> r.value < |lru| && lru[r.value].key == key
    ensures r.None? <==> Lacks(lru, key)
  {
    if lru == [] then None
    else if lru[0].key == key then Some(0)
    else match Find(lru[1..], key) case None => None case Some(i) => Some(i + 1)
  }

  /** Recency list and hash index hold the same entries, one per key. */
  ghost predicate Indexed(lru: seq<Entry>, index: map<Key, Entry>)
  {
    && DistinctKeys(lru)
    && (forall i :: 0 <= i < |lru| ==> lru[i].key in index && index[lru[i].key] == lru[i])
    && (forall k :: k in index ==> index[k].key == k && !Lacks(lru, k))
  }

  /** Evicting from the back stops as soon as the rest fits the capacity. */
  predicate EvictedTo(before: seq<Entry>, after: seq<Entry>, capacity: nat)
  {
    Trimmed(before, after, capacity) && Bytes(after) <= capacity
  }

  function Evicted(lru: seq<Entry>, capacity: nat): (r: seq<Entry>)
    ensures r <= lru && Bytes(r) <= capacity
    ensures r == lru || Bytes(lru[..|r| + 1]) > capacity
  {
    if Bytes(lru) <= capacity then lru
    else
      assert lru[..|lru|] == lru;
      var r := Evicted(lru[..|lru| - 1], capacity);
      assert lru[..|lru| - 1][..|r|] == lru[..|r|];
      assert |r| < |lru| - 1 ==> lru[..|lru| - 1][..|r| + 1] == lru[..|r| + 1];
      r
  }

  lemma WithoutAt(lru: seq<Entry>, i: nat, j: nat)
    requires i < |lru| && j < |lru|
    ensures j < i ==> Without(lru, i)[j] == lru[j]
    ensures j > i ==> Without(lru, i)[j - 1] == lru[j]
  {
  }

  lemma WithoutKeeps(lru: seq<Entry>, i: nat, j: nat)
    requires i < |lru| && j < |lru| - 1
    ensures Without(lru, i)[j] == lru[j] || (j >= i && Without(lru, i)[j] == lru[j + 1])
    ensures Without(lru, i)[j] in lru
  {
  }

  lemma WithoutDistinct(lru: seq<Entry>, i: nat)
    requires i < |lru| && DistinctKeys(lru)
    ensures DistinctKeys(Without(lru, i)) && Lacks(Without(lru, i), lru[i].key)
  {
    var rest := Without(lru, i);
    forall j | 0 <= j < |rest|
      ensures rest[j].key != lru[i].key
    {
      WithoutKeeps(lru, i, j);
    }
  }

  lemma WithoutFinds(lru: seq<Entry>, i: nat, k: Key)
    requires i < |lru| && !Lacks(lru, k) && k != lru[i].key
    ensures !Lacks(Without(lru, i), k)
  {
    var j :| 0 <= j < |lru| && lru[j].key == k;
    WithoutAt(lru, i, j);
  }

  lemma WithoutIndexed(lru: seq<Entry>, index: map<Key, Entry>, i: nat)
    requires i < |lru| && Indexed(lru, index)
    ensures Indexed(Without(lru, i), index - {lru[i].key}) && Lacks(Without(lru, i), lru[i].key)
    ensures Bytes(Without(lru, i)) == Bytes(lru) - |lru[i].data|
  {
    var rest := Without(lru, i);
    BytesWithout(lru, i);
    WithoutDistinct(lru, i);
    forall j | 0 <= j < |rest|
      ensures rest[j].key in index && index[rest[j].key] == rest[j]
    {
      WithoutKeeps(lru, i, j);
    }
    forall k | k in index - {lru[i].key}
      ensures !Lacks(rest, k)
    {
      WithoutFinds(lru, i, k);
    }
  }

  lemma FrontIndexed(lru: seq<Entry>, index: map<Key, Entry>, i: nat)
    requires i < |lru| && Indexed(lru, index)
    ensures Indexed(ToFront(lru, i), index)
    ensures Bytes(ToFront(lru, i)) == Bytes(lru)
  {
    var e := lru[i];
    WithoutIndexed(lru, index, i);
    InsertIndexed(Without(lru, i), index - {e.key}, e);
    assert (index - {e.key})[e.key := e] == index;
  }

  lemma LastIndexed(lru: seq<Entry>, index: map<Key, Entry>)
    requires lru != [] && Indexed(lru, index)
    ensures var last := |lru| - 1;
            Indexed(lru[..last], index - {lru[last].key}) && Bytes(lru[..last]) == Bytes(lru) - |lru[last].data|
  {
    WithoutIndexed(lru, index, |lru| - 1);
    assert Without(lru, |lru| - 1) == lru[..|lru| - 1];
  }

  lemma InsertIndexed(lru: seq<Entry>, index: map<Key, Entry>, e: Entry)
    requires Indexed(lru, index) && Lacks(lru, e.key)
    ensures Indexed([e] + lru, index[e.key := e]) && Bytes([e] + lru) == |e.data| + Bytes(lru)
  {
    var all := [e] + lru;
    assert all[1..] == lru;
    forall k | k in index[e.key := e]
      ensures !Lacks(all, k)
    {
      if k == e.key {
        assert all[0].key == k;
      } else {
        var j :| 0 <= j < |lru| && lru[j].key == k;
        assert all[j + 1].key == k;
      }
    }
  }

  /** after is a prefix of before, and the next longer prefix would not fit. */
  predicate Trimmed(before: seq<Entry>, after: seq<Entry>, capacity: nat)
  {
    after <= before && (after == before || Bytes(before[..|after| + 1]) > capacity)
  }

  lemma TrimOne(before: seq<Entry>, after: seq<Entry>, capacity: nat)
    requires Trimmed(before, after, capacity) && after != [] && Bytes(after) > capacity
    ensures Trimmed(before, after[..|after| - 1], capacity)
  {
    assert before[..|after|] == after;
  }
}
