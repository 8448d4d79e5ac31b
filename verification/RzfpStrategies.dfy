/** Three ways of reading the records a batch needs. All hand the decoder the same bytes for each leaf. */
module RzfpStrategies {
  import opened Basics
  import opened Float32
  import opened Sorting
  import opened WindowCache
  import opened WindowedRead
  import opened ReadPipeline
  import opened RzfpFormat
  import opened RzfpFile
  import opened RzfpTasks
  import opened RzfpOffsets

  /** The codec's decoder: codec and record bytes to the cells of the leaf. */
  type Decoder = (nat, seq<Byte>) -> Option<seq<Float>>

  /** Bytes given to the decoder for a task. */
  datatype Handoff = Handoff(task: nat, data: seq<Byte>)

  /** How the file is to be read. */
  datatype Config = Config(fileId: nat, readWindow: nat, maxGap: nat, threads: int)

  ghost predicate Ready(f: File, tasks: seq<LeafTask>)
  {
    Accepted(f) && forall t :: 0 <= t < |tasks| ==> Addressed(f, tasks[t])
  }

  /** The bytes of the leaf's record. */
  function RecordOf(f: File, t: LeafTask): seq<Byte>
    requires Accepted(f) && Addressed(f, t)
  {
    AddressedRecord(f, t);
    f.bytes[t.offset..t.offset + t.size]
  }

  predicate Decodes(f: File, tasks: seq<LeafTask>, dec: Decoder, t: nat)
    requires Accepted(f) && t < |tasks| && Addressed(f, tasks[t])
  {
    dec(tasks[t].codec, RecordOf(f, tasks[t])).Some?
  }

  ghost predicate AllDecodable(f: File, tasks: seq<LeafTask>, dec: Decoder)
    requires Ready(f, tasks)
  {
    forall t :: 0 <= t < |tasks| ==> Decodes(f, tasks, dec, t)
  }

  /** Every task is handed over exactly once, with exactly the bytes of its record. */
  ghost predicate HandsOverAll(f: File, tasks: seq<LeafTask>, handed: seq<Handoff>)
    requires Ready(f, tasks)
  {
    && (forall j :: 0 <= j < |handed| ==> HandsRecord(f, tasks, handed[j]))
    && (forall i, j :: 0 <= i < j < |handed| ==> handed[i].task != handed[j].task)
    && (forall t :: 0 <= t < |tasks| ==> IsHanded(handed, t))
  }

  ghost predicate HandsRecord(f: File, tasks: seq<LeafTask>, h: Handoff)
    requires Ready(f, tasks)
  {
    h.task < |tasks| && h.data == RecordOf(f, tasks[h.task])
  }

  ghost predicate IsHanded(handed: seq<Handoff>, t: nat)
  {
    exists j :: 0 <= j < |handed| && handed[j].task == t
  }

  // ----- what the log of a windowed read says -----

  predicate DistinctUsers(intervals: seq<Interval>)
  {
    forall i, j :: 0 <= i < j < |intervals| ==> intervals[i].user != intervals[j].user
  }

  ghost predicate IsExpected(file: seq<Byte>, intervals: seq<Interval>, d: Delivery)
  {
    exists k :: 0 <= k < |intervals| && d == Expected(file)(intervals[k])
  }

  /** The log is the expected deliveries of the intervals, each once. */
  ghost predicate DeliversAll(file: seq<Byte>, intervals: seq<Interval>, log: seq<Delivery>)
  {
    && (forall j :: 0 <= j < |log| ==> IsExpected(file, intervals, log[j]))
    && (forall k :: 0 <= k < |intervals| ==> Expected(file)(intervals[k]) in log)
    && (forall i, j :: 0 <= i < j < |log| ==> log[i].user != log[j].user)
  }

  lemma ExpectedDistinct(file: seq<Byte>, intervals: seq<Interval>)
    requires DistinctUsers(intervals)
    ensures Distinct(Map(Expected(file), intervals))
  {
    var all := Map(Expected(file), intervals);
    forall i, j | 0 <= i < j < |all|
      ensures all[i] != all[j]
    {
      assert all[i].user == intervals[i].user && all[j].user == intervals[j].user;
    }
  }

  lemma LogDelivers(file: seq<Byte>, intervals: seq<Interval>, log: seq<Delivery>)
    requires DistinctUsers(intervals) && multiset(log) == multiset(Map(Expected(file), intervals))
    ensures DeliversAll(file, intervals, log)
  {
    var all := Map(Expected(file), intervals);
    SameElements(log, all);
    ExpectedDistinct(file, intervals);
    DistinctPermuted(all, log);
    forall j | 0 <= j < |log|
      ensures IsExpected(file, intervals, log[j])
    {
      assert log[j] in all;
      var k :| 0 <= k < |all| && all[k] == log[j];
      assert Expected(file)(intervals[k]) == log[j];
    }
    forall k | 0 <= k < |intervals|
      ensures Expected(file)(intervals[k]) in log
    {
      assert all[k] in all;
    }
    DistinctLogUsers(file, intervals, log);
  }

  lemma DistinctLogUsers(file: seq<Byte>, intervals: seq<Interval>, log: seq<Delivery>)
    requires DistinctUsers(intervals) && Distinct(log)
    requires forall j :: 0 <= j < |log| ==> IsExpected(file, intervals, log[j])
    ensures forall i, j :: 0 <= i < j < |log| ==> log[i].user != log[j].user
  {
    forall i, j | 0 <= i < j < |log|
      ensures log[i].user != log[j].user
    {
      var k :| 0 <= k < |intervals| && log[i] == Expected(file)(intervals[k]);
      var l :| 0 <= l < |intervals| && log[j] == Expected(file)(intervals[l]);
    }
  }

  // ----- leaf by leaf -----

  /** The callback of the selective strategy; a failed decode is tried again from a direct read of the record. */
  predicate LeafAccepted(f: File, tasks: seq<LeafTask>, dec: Decoder, user: nat, data: seq<Byte>)
  {
    user < |tasks| &&
    (dec(tasks[user].codec, data).Some? ||
     match ReadFully(f.bytes, tasks[user].offset, tasks[user].size)
     case Some(direct) => dec(tasks[user].codec, direct).Some?
     case None => false)
  }

  function LeafInterval(tasks: seq<LeafTask>, i: nat): Interval
    requires i < |tasks|
  {
    Interval(tasks[i].offset, tasks[i].size, i)
  }

  lemma LeafExpected(f: File, tasks: seq<LeafTask>, t: nat)
    requires Ready(f, tasks) && t < |tasks|
    ensures End(LeafInterval(tasks, t)) <= |f.bytes|
    ensures Expected(f.bytes)(LeafInterval(tasks, t)) == Delivery(t, RecordOf(f, tasks[t]))
    ensures ReadFully(f.bytes, tasks[t].offset, tasks[t].size) == Some(RecordOf(f, tasks[t]))
  {
    AddressedRecord(f, tasks[t]);
  }

  /** The second try reads the bytes that were delivered, so it never changes the outcome. */
  lemma DirectReadChangesNothing(f: File, tasks: seq<LeafTask>, dec: Decoder, t: nat)
    requires Ready(f, tasks) && t < |tasks|
    ensures LeafAccepted(f, tasks, dec, t, RecordOf(f, tasks[t])) == Decodes(f, tasks, dec, t)
  {
    LeafExpected(f, tasks, t);
  }

  method ExecuteSelectiveLeaf(f: File, cfg: Config, cache: BoundedWindowCache?, tasks: seq<LeafTask>, dec: Decoder)
    returns (ok: bool, handed: seq<Handoff>)
    requires Ready(f, tasks) && Coherent(cache, cfg.fileId, f.bytes)
    modifies cache
    ensures Coherent(cache, cfg.fileId, f.bytes)
    ensures ok <==> AllDecodable(f, tasks, dec)
    ensures ok ==> HandsOverAll(f, tasks, handed)
  {
    var intervals := seq(|tasks|, i requires 0 <= i < |tasks| => LeafInterval(tasks, i));
    var decode := (user: nat, data: seq<Byte>) => LeafAccepted(f, tasks, dec, user, data);
    var log;
    ok, log := ExecuteWindowedRead(f.bytes, cfg.fileId, cache, intervals, cfg.readWindow, cfg.maxGap, cfg.threads, decode);
    if ok {
      LogDelivers(f.bytes, intervals, log);
      LeavesHanded(f, tasks, dec, intervals, log, decode);
    } else {
      LeafFails(f, tasks, dec, intervals, decode);
    }
    handed := Map((d: Delivery) => Handoff(d.user, d.data), log);
  }

  ghost predicate LeafIntervals(f: File, tasks: seq<LeafTask>, dec: Decoder, intervals: seq<Interval>,
                                decode: (nat, seq<Byte>) -> bool)
  {
    && |intervals| == |tasks|
    && (forall i :: 0 <= i < |tasks| ==> intervals[i] == LeafInterval(tasks, i))
    && (forall user, data :: decode(user, data) == LeafAccepted(f, tasks, dec, user, data))
  }

  lemma LeavesHanded(f: File, tasks: seq<LeafTask>, dec: Decoder, intervals: seq<Interval>, log: seq<Delivery>,
                     decode: (nat, seq<Byte>) -> bool)
    requires Ready(f, tasks) && LeafIntervals(f, tasks, dec, intervals, decode)
    requires DeliversAll(f.bytes, intervals, log) && AllDecode(log, decode)
    ensures HandsOverAll(f, tasks, Map((d: Delivery) => Handoff(d.user, d.data), log)) && AllDecodable(f, tasks, dec)
  {
    var handed := Map((d: Delivery) => Handoff(d.user, d.data), log);
    forall j | 0 <= j < |handed|
      ensures HandsRecord(f, tasks, handed[j])
    {
      var k :| 0 <= k < |intervals| && log[j] == Expected(f.bytes)(intervals[k]);
      LeafExpected(f, tasks, k);
    }
    forall t | 0 <= t < |tasks|
      ensures IsHanded(handed, t) && Decodes(f, tasks, dec, t)
    {
      LeafExpected(f, tasks, t);
      assert Expected(f.bytes)(intervals[t]) in log;
      var j :| 0 <= j < |log| && log[j] == Delivery(t, RecordOf(f, tasks[t]));
      assert handed[j].task == t;
      DirectReadChangesNothing(f, tasks, dec, t);
    }
  }

  lemma LeafFails(f: File, tasks: seq<LeafTask>, dec: Decoder, intervals: seq<Interval>,
                  decode: (nat, seq<Byte>) -> bool)
    requires Ready(f, tasks) && LeafIntervals(f, tasks, dec, intervals, decode)
    requires Fails(f.bytes, intervals, decode)
    ensures !AllDecodable(f, tasks, dec)
  {
    forall k | 0 <= k < |intervals|
      ensures End(intervals[k]) <= |f.bytes|
    {
      LeafExpected(f, tasks, k);
    }
    var k :| 0 <= k < |intervals| && Rejected(f.bytes, intervals[k], decode);
    LeafExpected(f, tasks, k);
    DirectReadChangesNothing(f, tasks, dec, k);
  }

  // ----- superblock by superblock -----

  /** The indices of a superblock's tasks, among the first n. */
  ghost predicate Grouping(tasks: seq<LeafTask>, groups: map<nat, seq<nat>>, n: nat)
    requires n <= |tasks|
  {
    && (forall sb :: sb in groups ==> GroupOf(tasks, sb, groups[sb], n))
    && (forall t :: 0 <= t < n ==> tasks[t].sb in groups && t in groups[tasks[t].sb])
  }

  ghost predicate GroupOf(tasks: seq<LeafTask>, sb: nat, group: seq<nat>, n: nat)
    requires n <= |tasks|
  {
    && |group| > 0 && (forall j :: 0 <= j < |group| ==> group[j] < n && tasks[group[j]].sb == sb)
    && (forall i, j :: 0 <= i < j < |group| ==> group[i] < group[j])
  }

  lemma GroupNext(tasks: seq<LeafTask>, groups: map<nat, seq<nat>>, t: nat, group: seq<nat>)
    requires t < |tasks| && Grouping(tasks, groups, t)
    requires group == if tasks[t].sb in groups then groups[tasks[t].sb] else []
    ensures Grouping(tasks, groups[tasks[t].sb := group + [t]], t + 1)
  {
    var sb := tasks[t].sb;
    var groups' := groups[sb := group + [t]];
    assert sb in groups ==> GroupOf(tasks, sb, groups[sb], t);
    assert GroupOf(tasks, sb, group + [t], t + 1);
    forall u | 0 <= u < t + 1
      ensures tasks[u].sb in groups' && u in groups'[tasks[u].sb]
    {
      if u == t {
        assert (group + [t])[|group|] == t;
      }
    }
    forall k | k in groups'
      ensures GroupOf(tasks, k, groups'[k], t + 1)
    {
      if k != sb {
        assert GroupOf(tasks, k, groups[k], t);
      }
    }
  }

  method GroupTasksBySuperblock(tasks: seq<LeafTask>) returns (groups: map<nat, seq<nat>>)
    ensures Grouping(tasks, groups, |tasks|)
  {
    groups := map[];
    for t := 0 to |tasks|
      invariant Grouping(tasks, groups, t)
    {
      var sb := tasks[t].sb;
      var group := if sb in groups then groups[sb] else [];
      GroupNext(tasks, groups, t, group);
      groups := groups[sb := group + [t]];
    }
  }

  function SuperInterval(f: File, sb: nat): Interval
    requires sb < |f.index|
  {
    Interval(f.index[sb].offset, f.index[sb].bytes, sb)
  }

  function SuperPayload(f: File, sb: nat): seq<Byte>
    requires Accepted(f) && sb < |f.index|
  {
    assert EntryInPayload(f, f.index[sb]);
    f.bytes[f.index[sb].offset..f.index[sb].offset + f.index[sb].bytes]
  }

  lemma SuperExpected(f: File, sb: nat)
    requires Accepted(f) && sb < |f.index|
    ensures End(SuperInterval(f, sb)) <= |f.bytes|
    ensures Expected(f.bytes)(SuperInterval(f, sb)) == Delivery(sb, SuperPayload(f, sb))
  {
    assert EntryInPayload(f, f.index[sb]);
  }

  function Within(payload: seq<Byte>, from: nat, size: nat): seq<Byte>
  {
    if from + size <= |payload| then payload[from..from + size] else []
  }

  /** A record's bytes cut out of its superblock's are those the selective strategy reads. */
  lemma RecordWithin(f: File, t: LeafTask)
    requires Accepted(f) && Addressed(f, t)
    ensures Within(SuperPayload(f, t.sb), Prefix(LeafTable(f, t.sb), t.morton), t.size) == RecordOf(f, t)
    ensures Prefix(LeafTable(f, t.sb), t.morton) + t.size <= |SuperPayload(f, t.sb)|
  {
    RecordInSuperblock(f, t.sb, t.morton);
    var from := Prefix(LeafTable(f, t.sb), t.morton);
    var a, b := SuperPayload(f, t.sb)[from..from + t.size], RecordOf(f, t);
    assert forall i :: 0 <= i < t.size ==> a[i] == b[i];
  }

  predicate TaskAccepted(f: File, tasks: seq<LeafTask>, dec: Decoder, t: nat, payload: seq<Byte>)
    requires Parsed(f)
  {
    t < |tasks| && Addressed(f, tasks[t]) &&
    dec(tasks[t].codec, Within(payload, Prefix(LeafTable(f, tasks[t].sb), tasks[t].morton), tasks[t].size)).Some?
  }

  /** The callback of the two superblock strategies: all tasks of the superblock decode. */
  predicate GroupAccepted(f: File, tasks: seq<LeafTask>, groups: map<nat, seq<nat>>, dec: Decoder, sb: nat,
                          payload: seq<Byte>)
    requires Parsed(f)
  {
    sb in groups ==> forall j :: 0 <= j < |groups[sb]| ==> TaskAccepted(f, tasks, dec, groups[sb][j], payload)
  }

  lemma GroupDecodes(f: File, tasks: seq<LeafTask>, groups: map<nat, seq<nat>>, dec: Decoder, sb: nat)
    requires Ready(f, tasks) && Grouping(tasks, groups, |tasks|) && sb < |f.index|
    ensures GroupAccepted(f, tasks, groups, dec, sb, SuperPayload(f, sb))
            <==> forall t :: 0 <= t < |tasks| && tasks[t].sb == sb ==> Decodes(f, tasks, dec, t)
  {
    forall t | 0 <= t < |tasks| && tasks[t].sb == sb
      ensures TaskAccepted(f, tasks, dec, t, SuperPayload(f, sb)) == Decodes(f, tasks, dec, t)
      ensures sb in groups && t in groups[sb]
    {
      RecordWithin(f, tasks[t]);
    }
    if sb in groups {
      assert GroupOf(tasks, sb, groups[sb], |tasks|);
    }
  }

  /** The superblocks to read: each once, and every one that has tasks. */
  ghost predicate CoversGroups(f: File, groups: map<nat, seq<nat>>, ids: seq<nat>)
  {
    && (forall i :: 0 <= i < |ids| ==> ids[i] < |f.index|)
    && (forall i, j :: 0 <= i < j < |ids| ==> ids[i] != ids[j])
    && (forall sb :: sb in groups ==> sb in ids)
  }

  /** Hands over the tasks of one superblock, each found through the checkpoints. */
  method HandGroup(f: File, tasks: seq<LeafTask>, cps: map<nat, seq<nat>>, groups: map<nat, seq<nat>>, d: Delivery)
    returns (handed: seq<Handoff>)
    requires Ready(f, tasks) && Checkpoints(f, cps, tasks, |tasks|) && Grouping(tasks, groups, |tasks|)
    requires d.user < |f.index| && d.data == SuperPayload(f, d.user)
    ensures HandsGroup(f, tasks, d.user, handed)
  {
    handed := [];
    if d.user !in groups {
      return;
    }
    var group := groups[d.user];
    assert GroupOf(tasks, d.user, group, |tasks|);
    for j := 0 to |group|
      invariant |handed| == j
      invariant forall i :: 0 <= i < j ==> handed[i].task == group[i] && HandsRecord(f, tasks, handed[i])
    {
      var task := tasks[group[j]];
      var offset := PrefixFromCheckpoint(task.morton, cps[task.sb], LeafTable(f, task.sb));
      RecordWithin(f, task);
      handed := handed + [Handoff(group[j], d.data[offset..offset + task.size])];
    }
    forall t | 0 <= t < |tasks| && tasks[t].sb == d.user
      ensures IsHanded(handed, t)
    {
      var j :| 0 <= j < |group| && group[j] == t;
      assert handed[j].task == t;
    }
  }

  /** Exactly the tasks of one superblock. */
  ghost predicate HandsGroup(f: File, tasks: seq<LeafTask>, sb: nat, handed: seq<Handoff>)
    requires Ready(f, tasks)
  {
    && (forall j :: 0 <= j < |handed| ==> HandsRecord(f, tasks, handed[j]) && tasks[handed[j].task].sb == sb)
    && (forall i, j :: 0 <= i < j < |handed| ==> handed[i].task != handed[j].task)
    && (forall t :: 0 <= t < |tasks| && tasks[t].sb == sb ==> IsHanded(handed, t))
  }

  /** Exactly the tasks of the superblocks delivered so far. */
  ghost predicate HandsGroups(f: File, tasks: seq<LeafTask>, log: seq<Delivery>, n: nat, handed: seq<Handoff>)
    requires Ready(f, tasks) && n <= |log|
  {
    && (forall j :: 0 <= j < |handed| ==> HandsRecord(f, tasks, handed[j]) && DeliveredBefore(log, n, tasks[handed[j].task].sb))
    && (forall i, j :: 0 <= i < j < |handed| ==> handed[i].task != handed[j].task)
    && (forall t :: 0 <= t < |tasks| && DeliveredBefore(log, n, tasks[t].sb) ==> IsHanded(handed, t))
  }

  ghost predicate DeliveredBefore(log: seq<Delivery>, n: nat, sb: nat)
    requires n <= |log|
  {
    exists i :: 0 <= i < n && log[i].user == sb
  }

  lemma HandedConcat(a: seq<Handoff>, b: seq<Handoff>, t: nat)
    ensures IsHanded(a + b, t) <==> IsHanded(a, t) || IsHanded(b, t)
  {
    if IsHanded(a, t) {
      var j :| 0 <= j < |a| && a[j].task == t;
      assert (a + b)[j].task == t;
    } else if IsHanded(b, t) {
      var j :| 0 <= j < |b| && b[j].task == t;
      assert (a + b)[|a| + j].task == t;
    }
  }

  lemma NextGroup(f: File, tasks: seq<LeafTask>, log: seq<Delivery>, n: nat, handed: seq<Handoff>, more: seq<Handoff>)
    requires Ready(f, tasks) && n < |log| && HandsGroups(f, tasks, log, n, handed)
    requires HandsGroup(f, tasks, log[n].user, more)
    requires forall i, j :: 0 <= i < j < |log| ==> log[i].user != log[j].user
    ensures HandsGroups(f, tasks, log, n + 1, handed + more)
  {
    var all := handed + more;
    forall j | 0 <= j < |all|
      ensures HandsRecord(f, tasks, all[j]) && DeliveredBefore(log, n + 1, tasks[all[j].task].sb)
    {
      if j < |handed| {
        assert DeliveredBefore(log, n, tasks[handed[j].task].sb);
      } else {
        assert all[j] == more[j - |handed|];
      }
    }
    forall i, j | 0 <= i < j < |all|
      ensures all[i].task != all[j].task
    {
      if i < |handed| <= j {
        assert all[j] == more[j - |handed|];
        assert DeliveredBefore(log, n, tasks[handed[i].task].sb);
      }
    }
    forall t | 0 <= t < |tasks| && DeliveredBefore(log, n + 1, tasks[t].sb)
      ensures IsHanded(all, t)
    {
      HandedConcat(handed, more, t);
      if tasks[t].sb != log[n].user {
        assert DeliveredBefore(log, n, tasks[t].sb);
      }
    }
  }

  method HandGroups(f: File, tasks: seq<LeafTask>, cps: map<nat, seq<nat>>, groups: map<nat, seq<nat>>, log: seq<Delivery>)
    returns (handed: seq<Handoff>)
    requires Ready(f, tasks) && Checkpoints(f, cps, tasks, |tasks|) && Grouping(tasks, groups, |tasks|)
    requires forall i :: 0 <= i < |log| ==> log[i].user < |f.index| && log[i].data == SuperPayload(f, log[i].user)
    requires forall i, j :: 0 <= i < j < |log| ==> log[i].user != log[j].user
    ensures HandsGroups(f, tasks, log, |log|, handed)
  {
    handed := [];
    for n := 0 to |log|
      invariant HandsGroups(f, tasks, log, n, handed)
    {
      var more := HandGroup(f, tasks, cps, groups, log[n]);
      NextGroup(f, tasks, log, n, handed, more);
      handed := handed + more;
    }
  }

  ghost predicate SuperIntervals(f: File, tasks: seq<LeafTask>, groups: map<nat, seq<nat>>, dec: Decoder, ids: seq<nat>,
                                 intervals: seq<Interval>, decode: (nat, seq<Byte>) -> bool)
    requires Parsed(f)
  {
    && CoversGroups(f, groups, ids) && |intervals| == |ids|
    && (forall i :: 0 <= i < |ids| ==> intervals[i] == SuperInterval(f, ids[i]))
    && (forall sb, payload :: decode(sb, payload) == GroupAccepted(f, tasks, groups, dec, sb, payload))
  }

  /** A read that succeeded delivered the superblocks' own bytes, and every task of every one decodes. */
  lemma SupersDelivered(f: File, tasks: seq<LeafTask>, groups: map<nat, seq<nat>>, dec: Decoder, ids: seq<nat>,
                        intervals: seq<Interval>, log: seq<Delivery>, decode: (nat, seq<Byte>) -> bool)
    requires Ready(f, tasks) && Grouping(tasks, groups, |tasks|)
    requires SuperIntervals(f, tasks, groups, dec, ids, intervals, decode)
    requires DeliversAll(f.bytes, intervals, log) && AllDecode(log, decode)
    ensures forall i :: 0 <= i < |log| ==> log[i].user < |f.index| && log[i].data == SuperPayload(f, log[i].user)
    ensures forall sb :: sb in groups ==> DeliveredBefore(log, |log|, sb)
    ensures AllDecodable(f, tasks, dec)
  {
    forall i | 0 <= i < |log|
      ensures log[i].user < |f.index| && log[i].data == SuperPayload(f, log[i].user)
    {
      assert IsExpected(f.bytes, intervals, log[i]);
      var k :| 0 <= k < |intervals| && log[i] == Expected(f.bytes)(intervals[k]);
      SuperExpected(f, ids[k]);
    }
    forall sb | sb in groups
      ensures DeliveredBefore(log, |log|, sb)
    {
      var k :| 0 <= k < |ids| && ids[k] == sb;
      SuperExpected(f, sb);
      assert Expected(f.bytes)(intervals[k]) in log;
    }
    forall t | 0 <= t < |tasks|
      ensures Decodes(f, tasks, dec, t)
    {
      var i :| 0 <= i < |log| && log[i].user == tasks[t].sb;
      assert decode(log[i].user, log[i].data);
      GroupDecodes(f, tasks, groups, dec, tasks[t].sb);
    }
  }

  lemma SupersFail(f: File, tasks: seq<LeafTask>, groups: map<nat, seq<nat>>, dec: Decoder, ids: seq<nat>,
                   intervals: seq<Interval>, decode: (nat, seq<Byte>) -> bool)
    requires Ready(f, tasks) && Grouping(tasks, groups, |tasks|)
    requires SuperIntervals(f, tasks, groups, dec, ids, intervals, decode) && Fails(f.bytes, intervals, decode)
    ensures !AllDecodable(f, tasks, dec)
  {
    forall k | 0 <= k < |intervals|
      ensures End(intervals[k]) <= |f.bytes|
    {
      SuperExpected(f, ids[k]);
    }
    var k :| 0 <= k < |intervals| && Rejected(f.bytes, intervals[k], decode);
    SuperExpected(f, ids[k]);
    GroupDecodes(f, tasks, groups, dec, ids[k]);
  }

  lemma AllGroupsHanded(f: File, tasks: seq<LeafTask>, groups: map<nat, seq<nat>>, log: seq<Delivery>, handed: seq<Handoff>)
    requires Ready(f, tasks) && Grouping(tasks, groups, |tasks|) && HandsGroups(f, tasks, log, |log|, handed)
    requires forall sb :: sb in groups ==> DeliveredBefore(log, |log|, sb)
    ensures HandsOverAll(f, tasks, handed)
  {
    forall t | 0 <= t < |tasks|
      ensures IsHanded(handed, t)
    {
      assert tasks[t].sb in groups;
      assert DeliveredBefore(log, |log|, tasks[t].sb);
    }
  }

  /** Reads the superblocks listed, and decodes the tasks of each from its bytes. */
  method ReadSuperblocks(f: File, cfg: Config, cache: BoundedWindowCache?, tasks: seq<LeafTask>, cps: map<nat, seq<nat>>,
                         groups: map<nat, seq<nat>>, ids: seq<nat>, dec: Decoder)
    returns (ok: bool, handed: seq<Handoff>)
    requires Ready(f, tasks) && Coherent(cache, cfg.fileId, f.bytes) && Checkpoints(f, cps, tasks, |tasks|)
    requires Grouping(tasks, groups, |tasks|) && CoversGroups(f, groups, ids)
    modifies cache
    ensures Coherent(cache, cfg.fileId, f.bytes)
    ensures ok <==> AllDecodable(f, tasks, dec)
    ensures ok ==> HandsOverAll(f, tasks, handed)
  {
    var intervals := seq(|ids|, i requires 0 <= i < |ids| && ids[i] < |f.index| => SuperInterval(f, ids[i]));
    var decode := (sb: nat, payload: seq<Byte>) requires Parsed(f) => GroupAccepted(f, tasks, groups, dec, sb, payload);
    var log;
    ok, log := ExecuteWindowedRead(f.bytes, cfg.fileId, cache, intervals, cfg.readWindow, cfg.maxGap, cfg.threads, decode);
    handed := [];
    if ok {
      LogDelivers(f.bytes, intervals, log);
      SupersDelivered(f, tasks, groups, dec, ids, intervals, log, decode);
      handed := HandGroups(f, tasks, cps, groups, log);
      AllGroupsHanded(f, tasks, groups, log, handed);
    } else {
      SupersFail(f, tasks, groups, dec, ids, intervals, decode);
    }
  }

  /** The keys of the map, in whatever order it yields them. */
  method KeysOf(groups: map<nat, seq<nat>>) returns (ids: seq<nat>)
    ensures (forall i :: 0 <= i < |ids| ==> ids[i] in groups) && (forall sb :: sb in groups ==> sb in ids)
    ensures forall i, j :: 0 <= i < j < |ids| ==> ids[i] != ids[j]
  {
    ids := [];
    var left := groups.Keys;
    while left != {}
      invariant left <= groups.Keys
      invariant forall i :: 0 <= i < |ids| ==> ids[i] in groups && ids[i] !in left
      invariant forall sb :: sb in groups ==> sb in left || sb in ids
      invariant forall i, j :: 0 <= i < j < |ids| ==> ids[i] != ids[j]
      decreases left
    {
      var sb :| sb in left;
      ids := ids + [sb];
      left := left - {sb};
    }
  }

  /** Reads the superblocks that have tasks. */
  method ExecuteWholeSuperblock(f: File, cfg: Config, cache: BoundedWindowCache?, tasks: seq<LeafTask>,
                                cps: map<nat, seq<nat>>, dec: Decoder)
    returns (ok: bool, handed: seq<Handoff>)
    requires Ready(f, tasks) && Coherent(cache, cfg.fileId, f.bytes) && Checkpoints(f, cps, tasks, |tasks|)
    modifies cache
    ensures Coherent(cache, cfg.fileId, f.bytes)
    ensures ok <==> AllDecodable(f, tasks, dec)
    ensures ok ==> HandsOverAll(f, tasks, handed)
  {
    var groups := GroupTasksBySuperblock(tasks);
    var ids := KeysOf(groups);
    GroupsInFile(f, tasks, groups);
    ok, handed := ReadSuperblocks(f, cfg, cache, tasks, cps, groups, ids, dec);
  }

  lemma GroupsInFile(f: File, tasks: seq<LeafTask>, groups: map<nat, seq<nat>>)
    requires Ready(f, tasks) && Grouping(tasks, groups, |tasks|)
    ensures forall sb :: sb in groups ==> sb < |f.index|
  {
    forall sb | sb in groups
      ensures sb < |f.index|
    {
      assert GroupOf(tasks, sb, groups[sb], |tasks|);
      assert Addressed(f, tasks[groups[sb][0]]);
    }
  }

  /** Reads every superblock of the file. */
  method ExecuteFullPayloadScan(f: File, cfg: Config, cache: BoundedWindowCache?, tasks: seq<LeafTask>,
                                cps: map<nat, seq<nat>>, dec: Decoder)
    returns (ok: bool, handed: seq<Handoff>)
    requires Ready(f, tasks) && Coherent(cache, cfg.fileId, f.bytes) && Checkpoints(f, cps, tasks, |tasks|)
    modifies cache
    ensures Coherent(cache, cfg.fileId, f.bytes)
    ensures ok <==> AllDecodable(f, tasks, dec)
    ensures ok ==> HandsOverAll(f, tasks, handed)
  {
    var groups := GroupTasksBySuperblock(tasks);
    GroupsInFile(f, tasks, groups);
    var ids: seq<nat> := seq(|f.index|, i requires 0 <= i < |f.index| => i);
    forall sb | sb in groups
      ensures sb in ids
    {
      assert ids[sb] == sb;
    }
    ok, handed := ReadSuperblocks(f, cfg, cache, tasks, cps, groups, ids, dec);
  }

  /** Two strategies that both hand over all records hand over the same bytes for each task. */
  lemma StrategiesAgree(f: File, tasks: seq<LeafTask>, a: seq<Handoff>, b: seq<Handoff>)
    requires Ready(f, tasks) && HandsOverAll(f, tasks, a) && HandsOverAll(f, tasks, b)
    ensures forall h :: h in a <==> h in b
  {
    forall h | h in a || h in b
      ensures h in a && h in b
    {
      SameHandoff(f, tasks, a, b, h);
      SameHandoff(f, tasks, b, a, h);
    }
  }

  lemma SameHandoff(f: File, tasks: seq<LeafTask>, a: seq<Handoff>, b: seq<Handoff>, h: Handoff)
    requires Ready(f, tasks) && HandsOverAll(f, tasks, a) && HandsOverAll(f, tasks, b)
    ensures h in a ==> h in b
  {
    if h in a {
      assert HandsRecord(f, tasks, h);
      assert IsHanded(b, h.task);
      var j :| 0 <= j < |b| && b[j].task == h.task;
      assert HandsRecord(f, tasks, b[j]);
      assert b[j] == h;
    }
  }
}
