/** Serving the groups of a phase in batches whose output buffers fit a budget. */
module ContestRoundExecutor {
  import opened Basics
  import opened Float32
  import opened Sorting
  import opened Layout
  import opened SlicePlan
  import opened SliceReader
  import opened PhasePacking
  import opened ContestPhasePlan

  /** The slices wanted along one axis, random ones or not; slice i goes to output file i of the group. */
  datatype Group = Group(axis: Axis, random: bool, indices: seq<nat>)

  /** A group's share of a batch: take slices from number start on, of so many bytes each. */
  datatype Member = Member(group: nat, take: nat, start: nat, bytes: nat)

  /** The reader: a slice, unless it cannot be read. */
  type SliceSource = (Axis, nat) -> Option<seq<Float>>

  /** opens and writes tell of each output file whether it can be opened at its size, and whether it can be written. */
  datatype Round = Round(h: Header, groups: seq<Group>, budget: nat, source: SliceSource,
                         opens: (nat, nat) -> bool, writes: (nat, nat) -> bool)

  /** How many slices of each group have been served, and what the output files hold. */
  datatype State = State(done: seq<nat>, files: map<(nat, nat), seq<Float>>)

  function SliceBytes(r: Round, g: nat): nat
    requires g < |r.groups|
  {
    SliceSize(r.h, r.groups[g].axis) * 4
  }

  /** A group whose slices have bytes, and not more than the budget. */
  predicate Fits(r: Round, g: nat)
    requires g < |r.groups|
  {
    0 < SliceBytes(r, g) <= r.budget
  }

  /** A file exists exactly for the slices served, and holds the slice. */
  ghost predicate Valid(r: Round, s: State)
  {
    && |s.done| == |r.groups|
    && (forall g :: 0 <= g < |r.groups| ==> s.done[g] <= |r.groups[g].indices|)
    && (forall g, i :: (g, i) in s.files <==> 0 <= g < |r.groups| && 0 <= i < s.done[g])
    && (forall g, i :: (g, i) in s.files ==> HoldsSlice(r, s, g, i))
  }

  ghost predicate HoldsSlice(r: Round, s: State, g: nat, i: nat)
    requires (g, i) in s.files
  {
    && g < |r.groups| && i < |r.groups[g].indices|
    && r.source(r.groups[g].axis, r.groups[g].indices[i]) == Some(s.files[(g, i)])
  }

  // ----- dividing the budget -----

  function MemberBytes(members: seq<Member>, n: nat): nat
    requires n <= |members|
  {
    if n == 0 then 0 else MemberBytes(members, n - 1) + members[n - 1].take * members[n - 1].bytes
  }

  lemma {:induction false} MemberBytesFront(a: seq<Member>, b: seq<Member>, n: nat)
    requires n <= |a| && a <= b
    ensures MemberBytes(b, n) == MemberBytes(a, n)
  {
    if n > 0 {
      MemberBytesFront(a, b, n - 1);
    }
  }

  lemma {:induction false} MemberBytesUpdate(members: seq<Member>, k: nat, m: Member, n: nat)
    requires k < |members| && n <= |members|
    ensures MemberBytes(members[k := m], n)
            == MemberBytes(members, n) + if k < n then m.take * m.bytes - members[k].take * members[k].bytes else 0
  {
    if n > 0 {
      MemberBytesUpdate(members, k, m, n - 1);
    }
  }

  /** A member takes at least one slice, and no more than its group has left. */
  predicate MemberOk(r: Round, done: seq<nat>, m: Member)
  {
    && m.group < |r.groups| == |done| && done[m.group] == m.start
    && 0 < m.take && m.start + m.take <= |r.groups[m.group].indices|
    && 0 < m.bytes == SliceBytes(r, m.group) <= r.budget
  }

  ghost predicate MembersOk(r: Round, done: seq<nat>, members: seq<Member>, remaining: nat)
  {
    && (forall k :: 0 <= k < |members| ==> MemberOk(r, done, members[k]))
    && (forall k, l :: 0 <= k < l < |members| ==> members[k].group != members[l].group)
    && MemberBytes(members, |members|) + remaining == r.budget
  }

  /** Nothing is left of the group, or its slices cannot be served. */
  predicate Skipped(r: Round, done: seq<nat>, g: nat)
  {
    g < |r.groups| == |done| && (done[g] >= |r.groups[g].indices| || !Fits(r, g))
  }

  predicate HasMember(members: seq<Member>, g: nat)
  {
    exists k :: 0 <= k < |members| && members[k].group == g
  }

  /** The group has nothing left, or no slice of it fits what remains of the budget. */
  predicate LeftOut(r: Round, done: seq<nat>, g: nat, remaining: nat)
  {
    g < |r.groups| == |done| &&
    (done[g] >= |r.groups[g].indices| || SliceBytes(r, g) == 0 || SliceBytes(r, g) > remaining)
  }

  /** Each of the first n groups has a member, or could not be given one from what remains. */
  predicate Considered(r: Round, done: seq<nat>, ids: seq<nat>, n: nat, members: seq<Member>, remaining: nat)
    requires n <= |ids|
  {
    forall k :: 0 <= k < n ==> HasMember(members, ids[k]) || LeftOut(r, done, ids[k], remaining)
  }

  lemma NewMember(r: Round, done: seq<nat>, ids: seq<nat>, n: nat, members: seq<Member>, remaining: nat, m: Member, rest: nat)
    requires n < |ids| && Considered(r, done, ids, n, members, remaining) && m.group == ids[n] && rest <= remaining
    ensures Considered(r, done, ids, n + 1, members + [m], rest)
  {
    var more := members + [m];
    assert more[|members|].group == ids[n];
    forall k | 0 <= k < n && HasMember(members, ids[k])
      ensures HasMember(more, ids[k])
    {
      var j :| 0 <= j < |members| && members[j].group == ids[k];
      assert more[j].group == ids[k];
    }
  }

  /** Every member takes one slice, and belongs to one of the first n groups. */
  predicate OneEach(members: seq<Member>, ids: seq<nat>, n: nat)
    requires n <= |ids|
  {
    forall k :: 0 <= k < |members| ==> members[k].take == 1 && members[k].group in ids[..n]
  }

  /** One step of the first pass. */
  method AllocateNext(r: Round, ids: seq<nat>, done: seq<nat>, pi: nat, members: seq<Member>, remaining: nat)
    returns (members': seq<Member>, remaining': nat)
    requires |done| == |r.groups| && forall g :: 0 <= g < |done| ==> done[g] <= |r.groups[g].indices|
    requires Distinct(ids) && pi < |ids| && ids[pi] < |r.groups|
    requires MembersOk(r, done, members, remaining) && OneEach(members, ids, pi)
    requires Considered(r, done, ids, pi, members, remaining)
    ensures MembersOk(r, done, members', remaining') && OneEach(members', ids, pi + 1)
    ensures Considered(r, done, ids, pi + 1, members', remaining')
  {
    var g := ids[pi];
    var bytes := SliceBytes(r, g);
    OneEachNext(members, ids, pi);
    if done[g] == |r.groups[g].indices| || bytes == 0 || bytes > remaining {
      members', remaining' := members, remaining;
    } else {
      var m := Member(g, 1, done[g], bytes);
      members', remaining' := members + [m], remaining - bytes;
      Joined(r, done, ids, pi, members, remaining, m);
      NewMember(r, done, ids, pi, members, remaining, m, remaining');
    }
  }

  lemma OneEachNext(members: seq<Member>, ids: seq<nat>, n: nat)
    requires n < |ids| && OneEach(members, ids, n)
    ensures OneEach(members, ids, n + 1)
    ensures forall m: Member :: m.group == ids[n] && m.take == 1 ==> OneEach(members + [m], ids, n + 1)
  {
    assert ids[..n + 1] == ids[..n] + [ids[n]];
  }

  /** A new member of one slice, of a group that had none. */
  lemma Joined(r: Round, done: seq<nat>, ids: seq<nat>, n: nat, members: seq<Member>, remaining: nat, m: Member)
    requires MembersOk(r, done, members, remaining) && MemberOk(r, done, m) && m.take == 1 && m.bytes <= remaining
    requires n < |ids| && Distinct(ids) && m.group == ids[n] && OneEach(members, ids, n)
    ensures MembersOk(r, done, members + [m], remaining - m.bytes)
  {
    MemberBytesFront(members, members + [m], |members|);
  }

  /**
   * The first pass gives one slice to each group that has some left and still fits: a group gets nothing only if it has
   * nothing left, or its slice is larger than all that remains in the end.
   */
  method AllocateOne(r: Round, ids: seq<nat>, done: seq<nat>) returns (members: seq<Member>, remaining: nat)
    requires |done| == |r.groups| && forall g :: 0 <= g < |done| ==> done[g] <= |r.groups[g].indices|
    requires Distinct(ids) && forall k :: 0 <= k < |ids| ==> ids[k] < |r.groups|
    ensures MembersOk(r, done, members, remaining) && OneEach(members, ids, |ids|)
    ensures Considered(r, done, ids, |ids|, members, remaining)
    ensures members == [] ==> forall k :: 0 <= k < |ids| ==> Skipped(r, done, ids[k])
  {
    members, remaining := [], r.budget;
    var pi: nat := 0;
    while pi < |ids|
      invariant pi <= |ids| && MembersOk(r, done, members, remaining) && OneEach(members, ids, pi)
      invariant Considered(r, done, ids, pi, members, remaining)
    {
      members, remaining := AllocateNext(r, ids, done, pi, members, remaining);
      pi := pi + 1;
    }
  }

  /** The first n members have all that is left of their groups, or another slice of theirs would not fit. */
  predicate Full(r: Round, members: seq<Member>, n: nat, left: nat)
    requires n <= |members|
  {
    forall k :: 0 <= k < n ==>
      members[k].group < |r.groups|
      && (members[k].start + members[k].take == |r.groups[members[k].group].indices| || members[k].bytes > left)
  }

  /** One step of the second pass. */
  method ExpandNext(r: Round, done: seq<nat>, k: nat, members: seq<Member>, remaining: nat)
    returns (members': seq<Member>, left: nat)
    requires MembersOk(r, done, members, remaining) && k < |members| && Full(r, members, k, remaining)
    ensures MembersOk(r, done, members', left) && |members'| == |members| && left <= remaining
    ensures Full(r, members', k + 1, left)
    ensures forall j :: 0 <= j < |members| ==> members'[j].group == members[j].group
  {
    var m := members[k];
    assert MemberOk(r, done, m);
    var extra := Min(Pieces(remaining, m.bytes), |r.groups[m.group].indices| - m.start - m.take);
    var bigger := m.(take := m.take + extra);
    Bigger(remaining, m.bytes, extra, m.take);
    left := remaining - extra * m.bytes;
    Grown(r, done, members, remaining, k, bigger, left);
    members' := members[k := bigger];
  }

  /** A member that takes more, paid for from what remains. */
  lemma Grown(r: Round, done: seq<nat>, members: seq<Member>, remaining: nat, k: nat, m: Member, left: nat)
    requires MembersOk(r, done, members, remaining) && k < |members| && MemberOk(r, done, m)
    requires m.group == members[k].group && left <= remaining
    requires m.take * m.bytes - members[k].take * members[k].bytes == remaining - left
    ensures MembersOk(r, done, members[k := m], left)
  {
    MemberBytesUpdate(members, k, m, |members|);
  }

  /**
   * The second pass gives each member as many more slices as the rest of the budget and its group allow: in the end no
   * member could take one more.
   */
  method Expand(r: Round, done: seq<nat>, members: seq<Member>, remaining: nat) returns (r': seq<Member>, left: nat)
    requires MembersOk(r, done, members, remaining)
    ensures MembersOk(r, done, r', left) && |r'| == |members| && left <= remaining
    ensures Full(r, r', |r'|, left)
    ensures forall k :: 0 <= k < |members| ==> r'[k].group == members[k].group
  {
    r', left := members, remaining;
    var k: nat := 0;
    while k < |members|
      invariant k <= |members| == |r'| && MembersOk(r, done, r', left) && left <= remaining && Full(r, r', k, left)
      invariant forall j :: 0 <= j < |members| ==> r'[j].group == members[j].group
    {
      r', left := ExpandNext(r, done, k, r', left);
      k := k + 1;
    }
  }

  lemma Bigger(left: nat, bytes: nat, extra: nat, take: nat)
    requires bytes > 0 && extra <= Pieces(left, bytes)
    ensures extra * bytes <= left && (take + extra) * bytes == take * bytes + extra * bytes
    ensures extra == Pieces(left, bytes) ==> left - extra * bytes < bytes
  {
    DivModBack(left, bytes);
    MulMono(extra, Pieces(left, bytes), bytes);
  }

  // ----- one batch -----

  /** What the member asks the reader for. */
  function Wanted(r: Round, m: Member, i: nat): Option<seq<Float>>
    requires m.group < |r.groups| && m.start + i < |r.groups[m.group].indices|
  {
    r.source(r.groups[m.group].axis, r.groups[m.group].indices[m.start + i])
  }

  /** The buffers of a member hold the slices it asked for. */
  predicate Read(r: Round, m: Member, buffer: seq<seq<Float>>)
    requires m.group < |r.groups| && m.start + m.take <= |r.groups[m.group].indices|
  {
    |buffer| == m.take && forall i :: 0 <= i < m.take ==> Wanted(r, m, i) == Some(buffer[i])
  }

  /** Some slice of some group cannot be read. */
  ghost predicate Unreadable(r: Round)
  {
    exists g, i :: 0 <= g < |r.groups| && 0 <= i < |r.groups[g].indices| && CannotRead(r, g, i)
  }

  predicate CannotRead(r: Round, g: nat, i: nat)
    requires g < |r.groups| && i < |r.groups[g].indices|
  {
    r.source(r.groups[g].axis, r.groups[g].indices[i]) == None
  }

  /** Some output file cannot be opened, or not be written. */
  ghost predicate BadOutput(r: Round)
  {
    exists g, i :: 0 <= g < |r.groups| && 0 <= i < |r.groups[g].indices| && CannotWrite(r, g, i)
  }

  predicate CannotWrite(r: Round, g: nat, i: nat)
  {
    !r.opens(g, i) || !r.writes(g, i)
  }

  ghost predicate Failing(r: Round)
  {
    Unreadable(r) || BadOutput(r)
  }

  method ReadMember(r: Round, done: seq<nat>, m: Member) returns (buffer: Option<seq<seq<Float>>>)
    requires MemberOk(r, done, m)
    ensures buffer.Some? ==> Read(r, m, buffer.value)
    ensures buffer == None ==> Unreadable(r)
  {
    var slices: seq<seq<Float>> := [];
    var i: nat := 0;
    while i < m.take
      invariant i <= m.take && |slices| == i && forall j :: 0 <= j < i ==> Wanted(r, m, j) == Some(slices[j])
    {
      var slice := Wanted(r, m, i);
      if slice == None {
        assert CannotRead(r, m.group, m.start + i);
        return None;
      }
      slices := slices + [slice.value];
      i := i + 1;
    }
    buffer := Some(slices);
  }

  ghost predicate AllRead(r: Round, done: seq<nat>, members: seq<Member>, buffers: seq<seq<seq<Float>>>, n: nat)
    requires n <= |members|
  {
    |buffers| == n && forall k :: 0 <= k < n ==> MemberOk(r, done, members[k]) && Read(r, members[k], buffers[k])
  }

  method ReadBatch(r: Round, done: seq<nat>, members: seq<Member>) returns (buffers: Option<seq<seq<seq<Float>>>>)
    requires forall k :: 0 <= k < |members| ==> MemberOk(r, done, members[k])
    ensures buffers.Some? ==> AllRead(r, done, members, buffers.value, |members|)
    ensures buffers == None ==> Unreadable(r)
  {
    var all: seq<seq<seq<Float>>> := [];
    var k: nat := 0;
    while k < |members|
      invariant k <= |members| && AllRead(r, done, members, all, k)
    {
      var buffer := ReadMember(r, done, members[k]);
      if buffer == None {
        return None;
      }
      all := all + [buffer.value];
      k := k + 1;
    }
    buffers := Some(all);
  }

  /** Writes a slice to its own file, which has not been written before. */
  method WriteSlice(r: Round, s: State, g: nat, slice: seq<Float>) returns (ok: bool, s': State)
    requires Valid(r, s) && g < |r.groups| && s.done[g] < |r.groups[g].indices| && (g, s.done[g]) !in s.files
    requires r.source(r.groups[g].axis, r.groups[g].indices[s.done[g]]) == Some(slice)
    ensures Valid(r, s') && s'.done == if ok then s.done[g := s.done[g] + 1] else s.done
    ensures !ok ==> BadOutput(r)
  {
    ok, s' := r.writes(g, s.done[g]), s;
    if !ok {
      assert CannotWrite(r, g, s.done[g]);
      return;
    }
    s' := State(s.done[g := s.done[g] + 1], s.files[(g, s.done[g]) := slice]);
    forall h, i | (h, i) in s'.files
      ensures HoldsSlice(r, s', h, i)
    {
      if (h, i) != (g, s.done[g]) {
        assert HoldsSlice(r, s, h, i);
      }
    }
  }

  method WriteMember(r: Round, s: State, m: Member, buffer: seq<seq<Float>>) returns (ok: bool, s': State)
    requires Valid(r, s) && MemberOk(r, s.done, m) && Read(r, m, buffer)
    ensures Valid(r, s') && s.done[m.group] <= s'.done[m.group]
    ensures s'.done == s.done[m.group := if ok then m.start + m.take else s'.done[m.group]]
    ensures !ok ==> BadOutput(r)
  {
    ok, s' := true, s;
    var i: nat := 0;
    assert s.done == s.done[m.group := m.start];
    while i < m.take
      invariant i <= m.take && Valid(r, s') && s'.done == s.done[m.group := m.start + i] && ok
    {
      assert Wanted(r, m, i) == Some(buffer[i]);
      ok, s' := WriteSlice(r, s', m.group, buffer[i]);
      if !ok {
        return;
      }
      i := i + 1;
    }
  }

  /** Later positions of the groups listed; groups not listed, or that do not fit, have not moved. */
  ghost predicate Advanced(r: Round, ids: seq<nat>, done: seq<nat>, done': seq<nat>)
  {
    && |done| == |done'| == |r.groups|
    && forall g :: 0 <= g < |done| ==> done[g] <= done'[g] && (g !in ids || !Fits(r, g) ==> done'[g] == done[g])
  }

  method WriteBatch(r: Round, ids: seq<nat>, s: State, members: seq<Member>, buffers: seq<seq<seq<Float>>>)
    returns (ok: bool, s': State)
    requires Valid(r, s) && AllRead(r, s.done, members, buffers, |members|)
    requires forall k, l :: 0 <= k < l < |members| ==> members[k].group != members[l].group
    requires forall k :: 0 <= k < |members| ==> members[k].group in ids
    ensures Valid(r, s') && Advanced(r, ids, s.done, s'.done)
    ensures ok ==> forall k :: 0 <= k < |members| ==> Reached(r, s'.done, members[k])
    ensures ok && members != [] ==> exists g :: 0 <= g < |s.done| && s.done[g] < s'.done[g]
    ensures !ok ==> BadOutput(r)
  {
    ok, s' := true, s;
    var k: nat := 0;
    while k < |members|
      invariant k <= |members| && Valid(r, s') && Advanced(r, ids, s.done, s'.done) && ok
      invariant forall l :: k <= l < |members| ==> s'.done[members[l].group] == s.done[members[l].group]
      invariant forall l :: 0 <= l < k ==> Reached(r, s'.done, members[l])
    {
      assert MemberOk(r, s.done, members[k]) && Read(r, members[k], buffers[k]);
      ok, s' := WriteMember(r, s', members[k], buffers[k]);
      if !ok {
        return;
      }
      k := k + 1;
    }
    if members != [] {
      assert MemberOk(r, s.done, members[0]) && Reached(r, s'.done, members[0]);
      assert s.done[members[0].group] < s'.done[members[0].group];
    }
  }

  /** The group has been served up to the end of the member's share. */
  predicate Reached(r: Round, done: seq<nat>, m: Member)
  {
    m.group < |done| == |r.groups| && done[m.group] == m.start + m.take
  }

  /** Nothing more would have fitted the batch: each group is served completely, or its slice is larger than the rest. */
  predicate Maximal(r: Round, ids: seq<nat>, done: seq<nat>, used: nat)
  {
    used <= r.budget && forall k :: 0 <= k < |ids| ==> LeftOut(r, done, ids[k], r.budget - used)
  }

  lemma BatchMaximal(r: Round, ids: seq<nat>, done: seq<nat>, done': seq<nat>, first: seq<Member>, members: seq<Member>,
                     remaining: nat, left: nat)
    requires Considered(r, done, ids, |ids|, first, remaining) && left <= remaining && left <= r.budget
    requires |members| == |first| && forall k :: 0 <= k < |first| ==> members[k].group == first[k].group
    requires Full(r, members, |members|, left) && MembersOk(r, done, members, left)
    requires forall k :: 0 <= k < |members| ==> Reached(r, done', members[k])
    requires Advanced(r, ids, done, done')
    ensures Maximal(r, ids, done', r.budget - left)
  {
    forall k | 0 <= k < |ids|
      ensures LeftOut(r, done', ids[k], left)
    {
      if HasMember(first, ids[k]) {
        var j :| 0 <= j < |first| && first[j].group == ids[k];
        assert MemberOk(r, done, members[j]) && Reached(r, done', members[j]);
      } else {
        assert LeftOut(r, done, ids[k], remaining);
      }
    }
  }

  // ----- progress -----

  function LeftUpTo(r: Round, done: seq<nat>, n: nat): nat
    requires n <= |r.groups| == |done|
  {
    if n == 0 then 0
    else LeftUpTo(r, done, n - 1) +
         if done[n - 1] <= |r.groups[n - 1].indices| then |r.groups[n - 1].indices| - done[n - 1] else 0
  }

  /** All slices not served yet. */
  function Left(r: Round, done: seq<nat>): nat
    requires |r.groups| == |done|
  {
    LeftUpTo(r, done, |done|)
  }

  lemma {:induction false} LeftShrinks(r: Round, ids: seq<nat>, done: seq<nat>, done': seq<nat>, n: nat)
    requires Advanced(r, ids, done, done') && n <= |done|
    requires forall g :: 0 <= g < |done| ==> done'[g] <= |r.groups[g].indices|
    ensures LeftUpTo(r, done', n) <= LeftUpTo(r, done, n)
    ensures (exists g :: 0 <= g < n && done[g] < done'[g]) ==> LeftUpTo(r, done', n) < LeftUpTo(r, done, n)
  {
    if n > 0 {
      LeftShrinks(r, ids, done, done', n - 1);
    }
  }

  // ----- phases -----

  /** One batch: false as more when no group could be given anything. */
  method RunBatch(r: Round, ids: seq<nat>, s: State) returns (ok: bool, more: bool, s': State, peak: nat)
    requires Valid(r, s) && Distinct(ids) && forall k :: 0 <= k < |ids| ==> ids[k] < |r.groups|
    ensures Valid(r, s') && Advanced(r, ids, s.done, s'.done) && peak <= r.budget
    ensures !ok ==> Failing(r)
    ensures ok && more ==> Left(r, s'.done) < Left(r, s.done) && Maximal(r, ids, s'.done, peak)
    ensures ok && !more ==> s' == s && forall k :: 0 <= k < |ids| ==> Skipped(r, s.done, ids[k])
  {
    var members, remaining := AllocateOne(r, ids, s.done);
    s', peak, ok := s, 0, true;
    if members == [] {
      more := false;
      return;
    }
    ghost var first, rest := members, remaining;
    members, remaining := Expand(r, s.done, members, remaining);
    peak := MemberBytes(members, |members|);
    more := true;
    var buffers := ReadBatch(r, s.done, members);
    if buffers == None {
      ok := false;
      return;
    }
    ok, s' := WriteBatch(r, ids, s, members, buffers.value);
    if !ok {
      return;
    }
    BatchMaximal(r, ids, s.done, s'.done, first, members, rest, remaining);
    LeftShrinks(r, ids, s.done, s'.done, |s.done|);
  }

  /** Nothing more can be given to the groups listed. */
  predicate Exhausted(r: Round, done: seq<nat>, ids: seq<nat>)
  {
    forall k :: 0 <= k < |ids| ==> Skipped(r, done, ids[k])
  }

  /** Batches until nothing more can be given. A group is skipped in every batch exactly when it does not fit. */
  method RunPhase(r: Round, ids: seq<nat>, s: State) returns (ok: bool, s': State, peak: nat)
    requires Valid(r, s) && Distinct(ids) && forall k :: 0 <= k < |ids| ==> ids[k] < |r.groups|
    ensures Valid(r, s') && Advanced(r, ids, s.done, s'.done) && peak <= r.budget
    ensures !ok ==> Failing(r)
    ensures ok ==> Exhausted(r, s'.done, ids)
  {
    s', peak := s, 0;
    var more := true;
    while more
      invariant Valid(r, s') && Advanced(r, ids, s.done, s'.done) && peak <= r.budget
      invariant !more ==> forall k :: 0 <= k < |ids| ==> Skipped(r, s'.done, ids[k])
      decreases more, Left(r, s'.done)
    {
      var batchPeak;
      ghost var before := s'.done;
      ok, more, s', batchPeak := RunBatch(r, ids, s');
      peak := Max(peak, batchPeak);
      if !ok {
        return;
      }
    }
    ok := true;
  }

  // ----- the whole round -----

  lemma {:induction false} IdInPhase(phases: seq<Phase>, n: nat, g: nat) returns (k: nat)
    requires n <= |phases| && g in Ids(phases, n)
    ensures k < n && g in phases[k].groupIds
  {
    if g in phases[n - 1].groupIds {
      k := n - 1;
    } else {
      k := IdInPhase(phases, n - 1, g);
    }
  }

  /** A valid plan has no group twice in a phase, and none in two phases. */
  lemma PhasesDistinct(plan: PhasePlan, groups: nat, budget: nat, k: nat)
    requires ValidPlan(plan, groups, budget) && k < |plan.phases|
    ensures Distinct(plan.phases[k].groupIds)
    ensures forall g :: g in plan.phases[k].groupIds ==> g < groups && g !in Ids(plan.phases, k)
  {
    var gids := plan.phases[k].groupIds;
    IdsMono(plan.phases, k + 1, |plan.phases|);
    forall i, j | 0 <= i < j < |gids|
      ensures gids[i] != gids[j]
    {
      if gids[i] == gids[j] {
        TwiceCounts(gids, i, j);
        NaturalOnce(groups, gids[i]);
      }
    }
    forall g | g in gids
      ensures g < groups && g !in Ids(plan.phases, k)
    {
      NaturalOnce(groups, g);
    }
  }

  /** The groups of the phases run so far are served as far as they can be, the others not at all. */
  ghost predicate Progressed(r: Round, plan: PhasePlan, n: nat, done: seq<nat>)
    requires n <= |plan.phases|
  {
    && |done| == |r.groups|
    && forall g :: 0 <= g < |done| ==>
         done[g] == if g in Ids(plan.phases, n) && Fits(r, g) then |r.groups[g].indices| else 0
  }

  lemma NextPhase(r: Round, plan: PhasePlan, n: nat, done: seq<nat>, done': seq<nat>)
    requires n < |plan.phases| && Progressed(r, plan, n, done) && ValidPlan(plan, |r.groups|, r.budget)
    requires Advanced(r, plan.phases[n].groupIds, done, done')
    requires forall g :: 0 <= g < |done'| ==> done'[g] <= |r.groups[g].indices|
    requires Exhausted(r, done', plan.phases[n].groupIds)
    ensures Progressed(r, plan, n + 1, done')
  {
    PhasesDistinct(plan, |r.groups|, r.budget, n);
    forall g | 0 <= g < |done'|
      ensures done'[g] == if g in Ids(plan.phases, n + 1) && Fits(r, g) then |r.groups[g].indices| else 0
    {
      var ids := plan.phases[n].groupIds;
      if g in ids {
        var k :| 0 <= k < |ids| && ids[k] == g;
      }
    }
  }

  /** The state between two phases. */
  ghost predicate RunningAt(r: Round, plan: PhasePlan, n: nat, s: State, peak: nat)
    requires n <= |plan.phases|
  {
    Valid(r, s) && Progressed(r, plan, n, s.done) && peak <= r.budget
  }

  method RunPhaseNumber(r: Round, plan: PhasePlan, n: nat, s: State, peak: nat)
    returns (ok: bool, s': State, peak': nat)
    requires ValidPlan(plan, |r.groups|, r.budget) && n < |plan.phases|
    requires RunningAt(r, plan, n, s, peak)
    ensures Valid(r, s') && peak <= peak' <= r.budget
    ensures if ok then RunningAt(r, plan, n + 1, s', peak') else Failing(r)
  {
    PhasesDistinct(plan, |r.groups|, r.budget, n);
    assert forall k :: 0 <= k < |plan.phases[n].groupIds| ==> plan.phases[n].groupIds[k] in plan.phases[n].groupIds;
    ok, s', peak' := RunPhase(r, plan.phases[n].groupIds, s);
    peak' := Max(peak, peak');
    if ok {
      NextPhase(r, plan, n, s.done, s'.done);
    }
  }

  /** Every group that fits is served completely, the others not at all. */
  ghost predicate AllServed(r: Round, done: seq<nat>)
  {
    && |done| == |r.groups|
    && forall g :: 0 <= g < |done| ==> done[g] == if Fits(r, g) then |r.groups[g].indices| else 0
  }

  lemma PlanServesAll(r: Round, plan: PhasePlan, done: seq<nat>)
    requires ValidPlan(plan, |r.groups|, r.budget) && Progressed(r, plan, |plan.phases|, done)
    ensures AllServed(r, done)
  {
    forall g | 0 <= g < |r.groups|
      ensures g in AllIds(plan.phases)
    {
      NaturalOnce(|r.groups|, g);
    }
  }

  function StartState(r: Round): State
  {
    State(seq(|r.groups|, _ => 0), map[])
  }

  lemma StartRound(r: Round, plan: PhasePlan)
    ensures Valid(r, StartState(r)) && Progressed(r, plan, 0, StartState(r).done)
  {
  }

  /** The output bytes, axes and modes that the plan is built from. */
  function PlanInputs(r: Round): (p: (seq<nat>, seq<Axis>, seq<string>))
    ensures |p.0| == |p.1| == |p.2| == |r.groups|
  {
    (seq(|r.groups|, g requires 0 <= g < |r.groups| => SliceBytes(r, g) * |r.groups[g].indices|),
     seq(|r.groups|, g requires 0 <= g < |r.groups| => if r.groups[g].indices == [] then X else r.groups[g].axis),
     seq(|r.groups|, g requires 0 <= g < |r.groups| =>
       if r.groups[g].indices == [] then "" else if r.groups[g].random then "random" else "continuous"))
  }

  /** Opens the output files of all groups at their sizes, before anything is read. */
  method OpenOutputs(r: Round) returns (ok: bool)
    ensures ok <==> forall g, i :: 0 <= g < |r.groups| && 0 <= i < |r.groups[g].indices| ==> r.opens(g, i)
    ensures !ok ==> BadOutput(r)
  {
    ok := true;
    var g: nat := 0;
    while g < |r.groups|
      invariant g <= |r.groups| && ok
      invariant forall k, i :: 0 <= k < g && 0 <= i < |r.groups[k].indices| ==> r.opens(k, i)
    {
      var i: nat := 0;
      while i < |r.groups[g].indices|
        invariant i <= |r.groups[g].indices| && ok && forall k :: 0 <= k < i ==> r.opens(g, k)
      {
        ok := r.opens(g, i);
        if !ok {
          assert CannotWrite(r, g, i);
          return;
        }
        i := i + 1;
      }
      g := g + 1;
    }
  }

  /**
   * Plans the phases, opens the outputs, and runs the phases. Unless a slice cannot be read or an output not be written
   * it returns true, having served every group whose slices fit the budget completely and the others not at all, with
   * never more than the budget in buffers.
   */
  method ExecuteContestRound(r: Round) returns (ok: bool, s: State, peak: nat)
    ensures Valid(r, s) && peak <= r.budget
    ensures if ok then AllServed(r, s.done) else Failing(r)
  {
    s, peak := StartState(r), 0;
    var inputs := PlanInputs(r);
    var plan := BuildContestPhasePlan(inputs.0, inputs.1, inputs.2, r.budget);
    BuiltValid(inputs.0, |r.groups|, r.budget, plan);
    StartRound(r, plan);
    ok := OpenOutputs(r);
    if !ok {
      return;
    }
    ok, s, peak := RunPhases(r, plan, s);
    if ok {
      PlanServesAll(r, plan, s.done);
    }
  }

  lemma BuiltValid(bytes: seq<nat>, groups: nat, budget: nat, plan: PhasePlan)
    requires Built(bytes, groups, budget, plan)
    ensures ValidPlan(plan, groups, budget)
  {
    forall i | 0 <= i < |plan.phases|
      ensures WithinBudget(plan.phases[i], budget)
    {
      assert PhaseOk(bytes, plan.phases[i], budget);
    }
  }

  /** The loop over the phases. */
  method RunPhases(r: Round, plan: PhasePlan, start: State) returns (ok: bool, s: State, peak: nat)
    requires ValidPlan(plan, |r.groups|, r.budget) && RunningAt(r, plan, 0, start, 0)
    ensures Valid(r, s) && peak <= r.budget
    ensures if ok then RunningAt(r, plan, |plan.phases|, s, peak) else Failing(r)
  {
    s, peak, ok := start, 0, true;
    var n: nat := 0;
    while n < |plan.phases| && ok
      invariant n <= |plan.phases| && Ran(r, plan, n, s, peak, ok)
      decreases ok, |plan.phases| - n
    {
      ok, s, peak := RunPhaseNumber(r, plan, n, s, peak);
      n := n + 1;
    }
  }

  ghost predicate Ran(r: Round, plan: PhasePlan, n: nat, s: State, peak: nat, ok: bool)
    requires n <= |plan.phases|
  {
    Valid(r, s) && peak <= r.budget && if ok then RunningAt(r, plan, n, s, peak) else Failing(r)
  }

  /** So every slice of every group is delivered exactly when each group that wants something fits the budget. */
  lemma AllDelivered(r: Round, s: State)
    requires Valid(r, s)
    requires AllServed(r, s.done)
    ensures (forall g, i :: 0 <= g < |r.groups| && 0 <= i < |r.groups[g].indices| ==> (g, i) in s.files)
            <==> (forall g :: 0 <= g < |r.groups| ==> r.groups[g].indices == [] || Fits(r, g))
  {
    if forall g, i :: 0 <= g < |r.groups| && 0 <= i < |r.groups[g].indices| ==> (g, i) in s.files {
      forall g | 0 <= g < |r.groups|
        ensures r.groups[g].indices == [] || Fits(r, g)
      {
        if r.groups[g].indices != [] {
          assert (g, 0) in s.files;
        }
      }
    }
  }
}
