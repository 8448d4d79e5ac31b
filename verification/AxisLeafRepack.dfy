/** Building a replica: one scan of the source appends every record to the bucket of its slab. */
module AxisLeafRepack {
  import opened Basics
  import opened Sorting
  import opened Layout
  import opened SlicePlan
  import opened RzfpFormat
  import opened RzfpFile
  import opened AxisLeaf

  /** What can be repacked: leaves that fill their grid, numbered in 32 bits. */
  ghost predicate Repackable(f: File)
  {
    ReplicaSource(f) && Accepted(f) && Gapless(LeafGrid(f.h))
  }

  /** Bucket files and the buffers in front of them. */
  datatype Buckets = Buckets(files: seq<seq<Byte>>, buffers: seq<seq<Byte>>)

  predicate Sized(b: Buckets, slabs: nat)
  {
    |b.files| == slabs && |b.buffers| == slabs
  }

  function Content(b: Buckets, slab: nat): seq<Byte>
    requires slab < |b.files| == |b.buffers|
  {
    b.files[slab] + b.buffers[slab]
  }

  /** Every bucket holds the entries of the leaves listed for its slab, whatever has been flushed. */
  ghost predicate Holding(f: File, axis: Axis, b: Buckets, lists: seq<seq<nat>>)
    requires Repackable(f)
  {
    && Sized(b, |lists|) && |lists| == SlabCount(f.h, axis)
    && forall s :: 0 <= s < |lists| ==> HoldsList(f, b, lists, s)
  }

  ghost predicate HoldsList(f: File, b: Buckets, lists: seq<seq<nat>>, s: nat)
    requires Repackable(f) && s < |lists| && Sized(b, |lists|)
  {
    ValidIds(f, lists[s]) && Content(b, s) == Entries(f, lists[s], |lists[s]|)
  }

  /** Appends the buffer to the bucket file; an empty buffer leaves it alone. */
  function AppendBucket(b: Buckets, slab: nat): (r: Buckets)
    requires slab < |b.files| == |b.buffers|
    ensures Sized(r, |b.files|)
    ensures forall s :: 0 <= s < |b.files| ==> Content(r, s) == Content(b, s)
    ensures r.buffers[slab] == [] && forall s :: 0 <= s < |b.files| && s != slab ==> r.buffers[s] == b.buffers[s]
  {
    Buckets(b.files[slab := b.files[slab] + b.buffers[slab]], b.buffers[slab := []])
  }

  /** Puts one entry into the buffer of its slab, and flushes the buffer once it has reached its size. */
  method PutEntry(b: Buckets, slab: nat, entry: seq<Byte>, perSlabBuffer: nat) returns (r: Buckets)
    requires slab < |b.files| == |b.buffers|
    ensures Sized(r, |b.files|) && Content(r, slab) == Content(b, slab) + entry
    ensures forall s :: 0 <= s < |b.files| && s != slab ==> Content(r, s) == Content(b, s)
  {
    r := Buckets(b.files, b.buffers[slab := b.buffers[slab] + entry]);
    assert Content(r, slab) == Content(b, slab) + entry;
    if |r.buffers[slab]| >= perSlabBuffer {
      r := AppendBucket(r, slab);
    }
  }

  // ----- the scan -----

  /** The leaf has been met: its superblock is among the first k of the order, or is number k and it is below m. */
  predicate Scanned(f: File, order: seq<nat>, k: nat, m: nat, id: nat)
    requires ReplicaSource(f) && k <= |order|
  {
    SuperOfId(f, id) in order[..k] || (k < |order| && SuperOfId(f, id) == order[k] && MortonOfId(f, id) < m)
  }

  /** The lists hold exactly the leaves met so far, each once, under its slab. */
  ghost predicate Listing(f: File, axis: Axis, order: seq<nat>, k: nat, m: nat, lists: seq<seq<nat>>)
    requires Repackable(f) && k <= |order|
  {
    && |lists| == SlabCount(f.h, axis)
    && (forall s :: 0 <= s < |lists| ==> ListOk(f, axis, order, k, m, lists[s], s))
    && (forall id :: 0 <= id < |f.descriptors| && Scanned(f, order, k, m, id) ==>
          SlabOf(f, axis, id) < |lists| && id in lists[SlabOf(f, axis, id)])
  }

  ghost predicate ListOk(f: File, axis: Axis, order: seq<nat>, k: nat, m: nat, ids: seq<nat>, s: nat)
    requires Repackable(f) && k <= |order|
  {
    && (forall i :: 0 <= i < |ids| ==>
          ids[i] < |f.descriptors| && SlabOf(f, axis, ids[i]) == s && Scanned(f, order, k, m, ids[i]))
    && (forall i, j :: 0 <= i < j < |ids| ==> ids[i] != ids[j])
  }

  predicate IsOrderOf(order: seq<nat>, count: nat)
  {
    && (forall i :: 0 <= i < |order| ==> order[i] < count)
    && (forall i, j :: 0 <= i < j < |order| ==> order[i] != order[j])
    && (forall sb :: 0 <= sb < count ==> sb in order)
  }

  lemma ScanNext(f: File, order: seq<nat>, k: nat, m: nat, id: nat, other: nat)
    requires ReplicaSource(f) && k < |order| && order[k] < |f.index| && m < LeafCount(f.h)
    requires forall i, j :: 0 <= i < j < |order| ==> order[i] != order[j]
    requires id == LeafId(order[k], LeafCount(f.h), m)
    ensures !Scanned(f, order, k, m, id)
    ensures Scanned(f, order, k, m + 1, other) <==> Scanned(f, order, k, m, other) || other == id
  {
    IdOf(f, order[k], m, id);
    IdParts(f, other);
    assert order[k] !in order[..k];
  }

  lemma ListNext(f: File, axis: Axis, order: seq<nat>, k: nat, m: nat, lists: seq<seq<nat>>, id: nat, slab: nat)
    requires Repackable(f) && k < |order| && order[k] < |f.index| && m < LeafCount(f.h)
    requires forall i, j :: 0 <= i < j < |order| ==> order[i] != order[j]
    requires id == LeafId(order[k], LeafCount(f.h), m) && id < |f.descriptors| && slab == SlabOf(f, axis, id) < |lists|
    requires Listing(f, axis, order, k, m, lists)
    ensures Listing(f, axis, order, k, m + 1, lists[slab := lists[slab] + [id]])
  {
    var lists' := lists[slab := lists[slab] + [id]];
    ScanNext(f, order, k, m, id, id);
    forall s | 0 <= s < |lists'|
      ensures ListOk(f, axis, order, k, m + 1, lists'[s], s)
    {
      assert ListOk(f, axis, order, k, m, lists[s], s);
      forall i | 0 <= i < |lists'[s]|
        ensures Scanned(f, order, k, m + 1, lists'[s][i])
      {
        ScanNext(f, order, k, m, id, lists'[s][i]);
      }
    }
    forall other | 0 <= other < |f.descriptors| && Scanned(f, order, k, m + 1, other)
      ensures SlabOf(f, axis, other) < |lists'| && other in lists'[SlabOf(f, axis, other)]
    {
      ScanNext(f, order, k, m, id, other);
      if other == id {
        assert lists'[slab][|lists[slab]|] == id;
      }
    }
  }

  lemma HoldNext(f: File, axis: Axis, b: Buckets, lists: seq<seq<nat>>, slab: nat, id: nat, r: Buckets)
    requires Repackable(f) && Holding(f, axis, b, lists) && slab < |lists| && id < |f.descriptors| && Sized(r, |lists|)
    requires Content(r, slab) == Content(b, slab) + Entry(f, id)
    requires forall s :: 0 <= s < |lists| && s != slab ==> Content(r, s) == Content(b, s)
    ensures Holding(f, axis, r, lists[slab := lists[slab] + [id]])
  {
    var lists' := lists[slab := lists[slab] + [id]];
    assert HoldsList(f, b, lists, slab);
    EntriesSnoc(f, lists[slab], id);
    forall s | 0 <= s < |lists'|
      ensures HoldsList(f, r, lists', s)
    {
      assert HoldsList(f, b, lists, s);
    }
  }

  /** Handles the record of leaf m of superblock number k of the order. */
  method ScanRecord(f: File, axis: Axis, perSlabBuffer: nat, ghost order: seq<nat>, ghost k: nat, sb: nat, m: nat,
                    sbPayload: seq<Byte>, sourceOffset: nat, b: Buckets, ghost lists: seq<seq<nat>>)
    returns (ok: bool, sourceOffset': nat, b': Buckets, ghost lists': seq<seq<nat>>)
    requires Repackable(f) && k < |order| && sb == order[k] < |f.index| && m < LeafCount(f.h)
    requires forall i, j :: 0 <= i < j < |order| ==> order[i] != order[j]
    requires IsPayload(f, sb, sbPayload) && sourceOffset == Prefix(LeafTable(f, sb), m)
    requires Holding(f, axis, b, lists) && Listing(f, axis, order, k, m, lists)
    ensures ok && sourceOffset' == Prefix(LeafTable(f, sb), m + 1)
    ensures Holding(f, axis, b', lists') && Listing(f, axis, order, k, m + 1, lists')
    ensures TotalContent(b', |b'.files|) == TotalContent(b, |b.files|) + 4 + sourceOffset' - sourceOffset
  {
    var id := LeafId(sb, LeafCount(f.h), m);
    IdOf(f, sb, m, id);
    var recordSize := RecordSize(f, sb, m);
    RecordSlice(f, sb, m, sbPayload, sourceOffset, recordSize);
    SlabBound(f, axis, id);
    if sourceOffset + recordSize > |sbPayload| || id > MAX_ID {
      return false, sourceOffset, b, lists;
    }
    var slab := SlabOf(f, axis, id);
    if slab >= |b.files| {
      return false, sourceOffset, b, lists;
    }
    var entry := IdBytes(id) + sbPayload[sourceOffset..sourceOffset + recordSize];
    b' := PutEntry(b, slab, entry, perSlabBuffer);
    TotalGrows(b, b', slab, |entry|, |b.files|);
    HoldNext(f, axis, b, lists, slab, id, b');
    ListNext(f, axis, order, k, m, lists, id, slab);
    lists' := lists[slab := lists[slab] + [id]];
    ok, sourceOffset' := true, sourceOffset + recordSize;
  }

  ghost predicate IsPayload(f: File, sb: nat, sbPayload: seq<Byte>)
    requires Accepted(f) && sb < |f.index|
  {
    && f.index[sb].offset + f.index[sb].bytes <= |f.bytes|
    && sbPayload == f.bytes[f.index[sb].offset..f.index[sb].offset + f.index[sb].bytes]
  }

  lemma RecordSlice(f: File, sb: nat, m: nat, sbPayload: seq<Byte>, from: nat, size: nat)
    requires Repackable(f) && sb < |f.index| && m < LeafCount(f.h) && IsPayload(f, sb, sbPayload)
    requires from == Prefix(LeafTable(f, sb), m) && size == RecordSize(f, sb, m)
    ensures from + size <= |sbPayload| && sbPayload[from..from + size] == RecordAt(f, sb, m).payload
  {
    RecordInSuperblock(f, sb, m);
    PartOfPart(f.bytes, f.index[sb].offset, sbPayload, from, size);
  }

  lemma PartOfPart(s: seq<Byte>, a: nat, t: seq<Byte>, b: nat, k: nat)
    requires a + |t| <= |s| && t == s[a..a + |t|] && b + k <= |t|
    ensures t[b..b + k] == s[a + b..a + b + k]
  {
    var lhs, rhs := t[b..b + k], s[a + b..a + b + k];
    assert forall i :: 0 <= i < k ==> lhs[i] == rhs[i];
  }

  // ----- how many bytes the buckets hold -----

  function TotalContent(b: Buckets, n: nat): nat
    requires n <= |b.files| == |b.buffers|
  {
    if n == 0 then 0 else TotalContent(b, n - 1) + |Content(b, n - 1)|
  }

  lemma {:induction false} TotalGrows(b: Buckets, r: Buckets, slab: nat, more: nat, n: nat)
    requires n <= |b.files| && Sized(b, |b.files|) && Sized(r, |b.files|) && slab < |b.files|
    requires |Content(r, slab)| == |Content(b, slab)| + more
    requires forall s :: 0 <= s < |b.files| && s != slab ==> Content(r, s) == Content(b, s)
    ensures TotalContent(r, n) == TotalContent(b, n) + if slab < n then more else 0
  {
    if n > 0 {
      TotalGrows(b, r, slab, more, n - 1);
    }
  }

  lemma {:induction false} TotalSame(b: Buckets, r: Buckets, n: nat)
    requires n <= |b.files| && Sized(b, |b.files|) && Sized(r, |b.files|)
    requires forall s :: 0 <= s < |b.files| ==> Content(r, s) == Content(b, s)
    ensures TotalContent(r, n) == TotalContent(b, n)
  {
    if n > 0 {
      TotalSame(b, r, n - 1);
    }
  }

  /** What a superblock adds to the buckets: its payload and four bytes a leaf. */
  function Share(f: File, sb: nat): nat
    requires Parsed(f)
  {
    (if sb < |f.index| then f.index[sb].bytes else 0) + 4 * LeafCount(f.h)
  }

  /** What the first k superblocks of the order add. */
  function Shares(f: File, order: seq<nat>, k: nat): nat
    requires Parsed(f) && k <= |order|
  {
    if k == 0 then 0 else Shares(f, order, k - 1) + Share(f, order[k - 1])
  }

  /** The state of the scan before leaf m of superblock number k of the order. */
  ghost predicate Scanning(f: File, axis: Axis, order: seq<nat>, k: nat, m: nat, b: Buckets, lists: seq<seq<nat>>,
                           total: nat)
    requires Repackable(f) && k <= |order|
  {
    && Holding(f, axis, b, lists) && Listing(f, axis, order, k, m, lists)
    && TotalContent(b, |b.files|) == total
  }

  lemma NextSuperblock(f: File, axis: Axis, order: seq<nat>, k: nat, lists: seq<seq<nat>>)
    requires Repackable(f) && k < |order| && Listing(f, axis, order, k, LeafCount(f.h), lists)
    ensures Listing(f, axis, order, k + 1, 0, lists)
  {
    assert order[..k + 1] == order[..k] + [order[k]];
    forall id: nat
      ensures Scanned(f, order, k, LeafCount(f.h), id) == Scanned(f, order, k + 1, 0, id)
    {
    }
    forall s | 0 <= s < |lists|
      ensures ListOk(f, axis, order, k + 1, 0, lists[s], s)
    {
      assert ListOk(f, axis, order, k, LeafCount(f.h), lists[s], s);
    }
  }

  /** Scans all leaves of superblock number k of the order. */
  method ScanSuperblock(f: File, axis: Axis, perSlabBuffer: nat, order: seq<nat>, k: nat, b: Buckets,
                        ghost lists: seq<seq<nat>>)
    returns (ok: bool, b': Buckets, ghost lists': seq<seq<nat>>)
    requires Repackable(f) && k < |order| && order[k] < |f.index|
    requires forall i, j :: 0 <= i < j < |order| ==> order[i] != order[j]
    requires Scanning(f, axis, order, k, 0, b, lists, Shares(f, order, k))
    ensures ok && Scanning(f, axis, order, k + 1, 0, b', lists', Shares(f, order, k + 1))
  {
    var sb := order[k];
    assert EntryInPayload(f, f.index[sb]) && SizesAddUp(f, sb);
    var sbPayload := f.bytes[f.index[sb].offset..f.index[sb].offset + f.index[sb].bytes];
    var sourceOffset: nat := 0;
    ok, b', lists' := true, b, lists;
    var m: nat := 0;
    while m < LeafCount(f.h) && ok
      invariant ok && m <= LeafCount(f.h) && sourceOffset == Prefix(LeafTable(f, sb), m)
      invariant Scanning(f, axis, order, k, m, b', lists', Shares(f, order, k) + 4 * m + sourceOffset)
    {
      ok, sourceOffset, b', lists' :=
        ScanRecord(f, axis, perSlabBuffer, order, k, sb, m, sbPayload, sourceOffset, b', lists');
      m := m + 1;
    }
    if sourceOffset != |sbPayload| {
      ok := false;
    }
    NextSuperblock(f, axis, order, k, lists');
  }

  lemma NothingScanned(f: File, axis: Axis, order: seq<nat>, b: Buckets, lists: seq<seq<nat>>)
    requires Repackable(f) && |lists| == SlabCount(f.h, axis) && Sized(b, |lists|)
    requires forall s :: 0 <= s < |lists| ==> lists[s] == [] && b.files[s] == [] && b.buffers[s] == []
    ensures Scanning(f, axis, order, 0, 0, b, lists, 0)
  {
    Empty(b, |b.files|);
  }

  lemma {:induction false} Empty(b: Buckets, n: nat)
    requires n <= |b.files| == |b.buffers|
    requires forall s :: 0 <= s < |b.files| ==> b.files[s] == [] && b.buffers[s] == []
    ensures TotalContent(b, n) == 0
  {
    if n > 0 {
      Empty(b, n - 1);
    }
  }

  method ScanAll(f: File, axis: Axis, perSlabBuffer: nat, order: seq<nat>)
    returns (ok: bool, b: Buckets, ghost lists: seq<seq<nat>>)
    requires Repackable(f) && IsOrderOf(order, |f.index|)
    ensures ok && Scanning(f, axis, order, |order|, 0, b, lists, Shares(f, order, |order|))
  {
    var slabCount := SlabCount(f.h, axis);
    b := Buckets(seq(slabCount, _ => []), seq(slabCount, _ => []));
    lists := seq(slabCount, _ => []);
    NothingScanned(f, axis, order, b, lists);
    ok := true;
    var k: nat := 0;
    while k < |order| && ok
      invariant ok && k <= |order| && Scanning(f, axis, order, k, 0, b, lists, Shares(f, order, k))
    {
      ok, b, lists := ScanSuperblock(f, axis, perSlabBuffer, order, k, b, lists);
      k := k + 1;
    }
  }

  /** Flushes what is left in the buffers. */
  method FlushAll(b: Buckets) returns (r: Buckets)
    requires |b.files| == |b.buffers|
    ensures Sized(r, |b.files|) && forall s :: 0 <= s < |b.files| ==> r.files[s] == Content(b, s)
  {
    r := b;
    var slab: nat := 0;
    while slab < |b.files|
      invariant slab <= |b.files| && Sized(r, |b.files|)
      invariant forall s :: 0 <= s < |b.files| ==> Content(r, s) == Content(b, s)
      invariant forall s :: 0 <= s < slab ==> r.buffers[s] == []
    {
      r := AppendBucket(r, slab);
      slab := slab + 1;
    }
    forall s | 0 <= s < |b.files|
      ensures r.files[s] == Content(b, s)
    {
      assert r.files[s] + [] == r.files[s];
    }
  }

  // ----- the replica file -----

  /** The slab files so far, one after another behind the header and the index. */
  ghost predicate Copied(r: Replica, files: seq<seq<Byte>>, n: nat)
  {
    && n <= |r.index| && n <= |files| && Contiguous(r, n) && EndOf(r, n) == |r.bytes|
    && (forall s :: 0 <= s < n ==> IsCopy(r.bytes, r.index[s], files[s]))
  }

  predicate IsCopy(bytes: seq<Byte>, e: IndexEntry, file: seq<Byte>)
  {
    e.bytes == |file| && e.offset + e.bytes <= |bytes| && bytes[e.offset..e.offset + e.bytes] == file
  }

  lemma CopyNext(r: Replica, files: seq<seq<Byte>>, n: nat, r': Replica)
    requires Copied(r, files, n) && n < |r.index| && n < |files|
    requires r' == Replica(r.payloadOffset, r.index[n := IndexEntry(|r.bytes|, |files[n]|)], r.bytes + files[n])
    ensures Copied(r', files, n + 1)
  {
    forall s | 0 <= s < n + 1
      ensures IsCopy(r'.bytes, r'.index[s], files[s])
    {
      if s < n {
        assert IsCopy(r.bytes, r.index[s], files[s]);
        var lo, hi := r.index[s].offset, r.index[s].offset + r.index[s].bytes;
        assert (r.bytes + files[n])[lo..hi] == r.bytes[lo..hi];
      }
    }
  }

  method CopyBuckets(files: seq<seq<Byte>>, head: seq<Byte>) returns (r: Replica)
    requires |head| == REPLICA_HEADER_BYTES + |files| * SLAB_ENTRY_BYTES
    ensures r.payloadOffset == |head| && |r.index| == |files| && Copied(r, files, |files|)
    ensures |r.bytes| == |head| + TotalContent(Buckets(files, seq(|files|, _ => [])), |files|)
  {
    r := Replica(|head|, seq(|files|, _ => IndexEntry(0, 0)), head);
    ghost var flat := Buckets(files, seq(|files|, _ => []));
    var slab: nat := 0;
    while slab < |files|
      invariant slab <= |files| && |r.index| == |files| && r.payloadOffset == |head| && Copied(r, files, slab)
      invariant |r.bytes| == |head| + TotalContent(flat, slab)
    {
      var next := Replica(r.payloadOffset, r.index[slab := IndexEntry(|r.bytes|, |files[slab]|)], r.bytes + files[slab]);
      CopyNext(r, files, slab, next);
      assert Content(flat, slab) == files[slab];
      r := next;
      slab := slab + 1;
    }
  }

  // ----- the whole replica -----

  /** Source payload bytes of the first n superblocks. */
  function SourceBytes(f: File, n: nat): nat
    requires n <= |f.index|
  {
    if n == 0 then 0 else SourceBytes(f, n - 1) + f.index[n - 1].bytes
  }

  function ShareSeq(f: File, order: seq<nat>): seq<nat>
    requires Parsed(f)
  {
    seq(|order|, i requires 0 <= i < |order| => Share(f, order[i]))
  }

  lemma {:induction false} SharesSum(f: File, order: seq<nat>, k: nat)
    requires Parsed(f) && k <= |order|
    ensures Shares(f, order, k) == Sum(ShareSeq(f, order)[..k])
  {
    if k == 0 {
      assert ShareSeq(f, order)[..0] == [];
    } else {
      SharesSum(f, order, k - 1);
      SumConcat(ShareSeq(f, order)[..k - 1], [Share(f, order[k - 1])]);
      assert ShareSeq(f, order)[..k] == ShareSeq(f, order)[..k - 1] + [Share(f, order[k - 1])];
      assert Sum([Share(f, order[k - 1])]) == Share(f, order[k - 1]) + Sum([Share(f, order[k - 1])][1..]);
    }
  }

  lemma {:induction false} NaturalShares(f: File, n: nat)
    requires ReplicaSource(f) && n <= |f.index|
    ensures Shares(f, Natural(|f.index|), n) == SourceBytes(f, n) + 4 * (n * LeafCount(f.h))
  {
    if n > 0 {
      NaturalShares(f, n - 1);
      MulNext(n - 1, LeafCount(f.h));
    }
  }

  lemma SharesPermuted(f: File, a: seq<nat>, b: seq<nat>, share: nat -> nat)
    requires Parsed(f) && multiset(a) == multiset(b) && forall sb :: share(sb) == Share(f, sb)
    ensures Sum(ShareSeq(f, a)) == Sum(ShareSeq(f, b))
  {
    MapPermuted(share, a, b);
    assert Map(share, a) == ShareSeq(f, a) && Map(share, b) == ShareSeq(f, b);
    SumPermuted(ShareSeq(f, a), ShareSeq(f, b));
  }

  lemma AllShares(f: File, order: seq<nat>)
    requires Parsed(f)
    ensures Shares(f, order, |order|) == Sum(ShareSeq(f, order))
  {
    SharesSum(f, order, |order|);
    assert ShareSeq(f, order)[..|order|] == ShareSeq(f, order);
  }

  /** In whatever order the superblocks are scanned, the buckets get the payload and four bytes a leaf. */
  lemma OrderDoesNotMatter(f: File, order: seq<nat>)
    requires ReplicaSource(f) && multiset(order) == multiset(Natural(|f.index|))
    ensures Shares(f, order, |order|) == SourceBytes(f, |f.index|) + 4 * |f.descriptors|
  {
    NaturalShares(f, |f.index|);
    AllShares(f, order);
    AllShares(f, Natural(|f.index|));
    SharesPermuted(f, order, Natural(|f.index|), (sb: nat) requires Parsed(f) => Share(f, sb));
  }

  lemma SortedIsOrder(order: seq<nat>, count: nat)
    requires multiset(order) == multiset(Natural(count))
    ensures IsOrderOf(order, count)
  {
    SameElements(order, Natural(count));
    DistinctPermuted(Natural(count), order);
    forall i | 0 <= i < |order|
      ensures order[i] < count
    {
      assert order[i] in Natural(count);
    }
    forall sb | 0 <= sb < count
      ensures sb in order
    {
      assert Natural(count)[sb] == sb;
    }
  }

  /** The superblocks by where their payload starts. */
  method PhysicalOrder(f: File) returns (order: seq<nat>)
    ensures multiset(order) == multiset(Natural(|f.index|))
    ensures IsOrderOf(order, |f.index|)
  {
    var leq := (a: nat, b: nat) => PayloadStart(f, a) <= PayloadStart(f, b);
    order := Sort(Natural(|f.index|), leq);
    SortedIsOrder(order, |f.index|);
  }

  function PayloadStart(f: File, sb: nat): nat
  {
    if sb < |f.index| then f.index[sb].offset else 0
  }

  lemma ListedSlab(f: File, axis: Axis, order: seq<nat>, lists: seq<seq<nat>>, slab: nat)
    requires Repackable(f) && IsOrderOf(order, |f.index|) && Listing(f, axis, order, |order|, 0, lists) && slab < |lists|
    ensures IdsOfSlab(f, axis, slab, lists[slab])
  {
    assert ListOk(f, axis, order, |order|, 0, lists[slab], slab);
    assert order[..|order|] == order;
    forall id | 0 <= id < |f.descriptors| && SlabOf(f, axis, id) == slab
      ensures id in lists[slab]
    {
      IdParts(f, id);
      assert Scanned(f, order, |order|, 0, id);
    }
  }

  /** Everything the replica is for: accepted by the reader, and each slab parses to exactly the leaves of the slab. */
  ghost predicate IsReplica(f: File, axis: Axis, r: Replica, lists: seq<seq<nat>>)
    requires Repackable(f)
  {
    && ReplicaAccepted(f, axis, r) && |lists| == |r.index|
    && forall slab :: 0 <= slab < |r.index| ==> SlabStored(f, axis, r, slab, lists[slab])
  }

  lemma CopiesAreSlabs(f: File, axis: Axis, order: seq<nat>, b: Buckets, files: seq<seq<Byte>>, lists: seq<seq<nat>>,
                       r: Replica)
    requires Repackable(f) && IsOrderOf(order, |f.index|) && Holding(f, axis, b, lists)
    requires Listing(f, axis, order, |order|, 0, lists) && |files| == |lists| == |r.index|
    requires forall s :: 0 <= s < |files| ==> files[s] == Content(b, s)
    requires Copied(r, files, |files|)
    ensures forall slab :: 0 <= slab < |r.index| ==> SlabStored(f, axis, r, slab, lists[slab])
  {
    forall slab | 0 <= slab < |r.index|
      ensures SlabStored(f, axis, r, slab, lists[slab])
    {
      ListedSlab(f, axis, order, lists, slab);
      assert HoldsList(f, b, lists, slab) && IsCopy(r.bytes, r.index[slab], files[slab]);
    }
  }

  /**
   * Builds the replica along one axis. It is accepted by the reader, its slabs hold exactly the records of their
   * leaves whatever the size of the buffers, and its payload is the source's with four bytes more for each leaf.
   */
  method BuildAxisReplica(f: File, axis: Axis, perSlabBuffer: nat, head: seq<Byte>)
    returns (ok: bool, r: Replica, ghost lists: seq<seq<nat>>)
    requires Repackable(f) && |head| == REPLICA_HEADER_BYTES + SlabCount(f.h, axis) * SLAB_ENTRY_BYTES
    ensures ok <==> 0 < SlabCount(f.h, axis) <= MAX_ID
    ensures ok ==> IsReplica(f, axis, r, lists)
    ensures ok ==> |r.bytes| == r.payloadOffset + SourceBytes(f, |f.index|) + 4 * |f.descriptors|
  {
    var slabCount := SlabCount(f.h, axis);
    r, lists := Replica(0, [], []), [];
    if slabCount == 0 || slabCount > MAX_ID {
      return false, r, lists;
    }
    var order := PhysicalOrder(f);
    var b;
    ok, b, lists := ScanAll(f, axis, perSlabBuffer, order);
    var flushed := FlushAll(b);
    r := CopyBuckets(flushed.files, head);
    CopiesAreSlabs(f, axis, order, b, flushed.files, lists, r);
    OrderDoesNotMatter(f, order);
    TotalSame(b, Buckets(flushed.files, seq(|flushed.files|, _ => [])), |b.files|);
  }
}
