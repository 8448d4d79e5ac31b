/** Finding leaf records: prefix sums kept at every sixteenth leaf. */
module RzfpOffsets {
  import opened Basics
  import opened RzfpFormat
  import opened RzfpFile
  import opened RzfpTasks

  const STRIDE: nat := 16

  /** Entry i is the prefix sum at leaf 16 i, and the last entry the sum of all sizes. */
  ghost predicate IsCheckpoint(cp: seq<nat>, table: seq<Descriptor>)
  {
    && |cp| == CeilDiv(|table|, STRIDE) + 1
    && (forall i :: 0 <= i < |cp| - 1 ==> i * STRIDE < |table| && cp[i] == Prefix(table, i * STRIDE))
    && cp[|cp| - 1] == Prefix(table, |table|)
  }

  method BuildCheckpoint(table: seq<Descriptor>) returns (cp: seq<nat>)
    ensures IsCheckpoint(cp, table)
  {
    var count := CeilDiv(|table|, STRIDE) + 1;
    var checkpoint := new nat[count](_ => 0);
    var running: nat := 0;
    for i := 0 to |table|
      invariant running == Prefix(table, i)
      invariant forall k :: 0 <= k < count - 1 && k * STRIDE < i ==>
                  k * STRIDE < |table| && checkpoint[k] == Prefix(table, k * STRIDE)
    {
      if i % STRIDE == 0 {
        checkpoint[i / STRIDE] := running;
      }
      running := running + DescriptorSize(table[i]);
    }
    checkpoint[count - 1] := running;
    cp := checkpoint[..];
  }

  /** The sum from the nearest checkpoint on is the sum from the start. */
  method PrefixFromCheckpoint(morton: nat, cp: seq<nat>, table: seq<Descriptor>) returns (base: nat)
    requires IsCheckpoint(cp, table) && morton < |table|
    ensures base == Prefix(table, morton)
  {
    var start := morton / STRIDE * STRIDE;
    base := cp[morton / STRIDE];
    for i := start to morton
      invariant base == Prefix(table, i)
    {
      base := base + DescriptorSize(table[i]);
    }
  }

  /** A checkpoint for each superblock that a task needs. */
  ghost predicate Checkpoints(f: File, cps: map<nat, seq<nat>>, tasks: seq<LeafTask>, n: nat)
    requires Parsed(f)
  {
    && n <= |tasks|
    && (forall sb :: sb in cps ==> sb < |f.index| && IsCheckpoint(cps[sb], LeafTable(f, sb)))
    && (forall t :: 0 <= t < n ==> tasks[t].sb in cps)
  }

  ghost predicate InFile(f: File, tasks: seq<LeafTask>)
    requires Parsed(f)
  {
    forall t :: 0 <= t < |tasks| ==> tasks[t].sb < |f.index| && tasks[t].morton < LeafCount(f.h)
  }

  method BuildPrefixCheckpoints(f: File, tasks: seq<LeafTask>) returns (cps: map<nat, seq<nat>>)
    requires Parsed(f) && InFile(f, tasks)
    ensures Checkpoints(f, cps, tasks, |tasks|)
  {
    cps := map[];
    var seen: set<nat> := {};
    for t := 0 to |tasks|
      invariant Checkpoints(f, cps, tasks, t) && seen == cps.Keys
    {
      var sb := tasks[t].sb;
      if sb !in seen {
        seen := seen + {sb};
        var cp := BuildCheckpoint(LeafTable(f, sb));
        cps := cps[sb := cp];
      }
    }
  }

  /** The task knows where its record is. */
  predicate Addressed(f: File, t: LeafTask)
    requires Parsed(f)
  {
    && t.sb < |f.index| && t.morton < LeafCount(f.h)
    && t.codec == DescriptorCodec(LeafTable(f, t.sb)[t.morton])
    && t.size == RecordSize(f, t.sb, t.morton) && t.offset == RecordOffset(f, t.sb, t.morton)
  }

  /** Tasks that differ in what is known of their records only. */
  predicate SameLeaf(a: LeafTask, b: LeafTask)
  {
    a.sb == b.sb && a.morton == b.morton && a.scatters == b.scatters
  }

  method ComputeTaskOffsets(f: File, tasks: seq<LeafTask>, cps: map<nat, seq<nat>>) returns (r: seq<LeafTask>)
    requires Parsed(f) && InFile(f, tasks) && Checkpoints(f, cps, tasks, |tasks|)
    ensures |r| == |tasks| && forall t :: 0 <= t < |r| ==> Addressed(f, r[t]) && SameLeaf(r[t], tasks[t])
  {
    r := [];
    for t := 0 to |tasks|
      invariant |r| == t && forall u :: 0 <= u < t ==> Addressed(f, r[u]) && SameLeaf(r[u], tasks[u])
    {
      var task := tasks[t];
      var table := LeafTable(f, task.sb);
      var prefix := PrefixFromCheckpoint(task.morton, cps[task.sb], table);
      var descriptor := table[task.morton];
      r := r + [task.(codec := DescriptorCodec(descriptor), size := DescriptorSize(descriptor),
                      offset := f.index[task.sb].offset + prefix)];
    }
  }

  /** The record of an addressed task lies inside an accepted file and is what the descriptors say. */
  lemma AddressedRecord(f: File, t: LeafTask)
    requires Accepted(f) && Addressed(f, t)
    ensures t.offset + t.size <= |f.bytes|
    ensures RecordAt(f, t.sb, t.morton) == Record(t.codec, f.bytes[t.offset..t.offset + t.size])
  {
    RecordInSuperblock(f, t.sb, t.morton);
  }
}
