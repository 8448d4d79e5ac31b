/** Next-fit: groups of one class taken in order and packed into phases whose outputs fit a budget. */
module PhasePacking {
  import opened Basics

  datatype Phase = Phase(groupIds: seq<nat>, outputBytes: nat)

  function GroupBytes(bytes: seq<nat>, g: nat): nat
  {
    if g < |bytes| then bytes[g] else 0
  }

  /** The output bytes of the first n of the groups. */
  function TotalUpTo(bytes: seq<nat>, gids: seq<nat>, n: nat): nat
    requires n <= |gids|
  {
    if n == 0 then 0 else TotalUpTo(bytes, gids, n - 1) + GroupBytes(bytes, gids[n - 1])
  }

  function Total(bytes: seq<nat>, gids: seq<nat>): nat
  {
    TotalUpTo(bytes, gids, |gids|)
  }

  lemma {:induction false} TotalFront(bytes: seq<nat>, a: seq<nat>, b: seq<nat>, n: nat)
    requires n <= |a| && a <= b
    ensures TotalUpTo(bytes, b, n) == TotalUpTo(bytes, a, n)
  {
    if n > 0 {
      TotalFront(bytes, a, b, n - 1);
    }
  }

  lemma {:induction false} TotalConcat(bytes: seq<nat>, a: seq<nat>, b: seq<nat>, n: nat)
    requires n <= |b|
    ensures TotalUpTo(bytes, a + b, |a| + n) == Total(bytes, a) + TotalUpTo(bytes, b, n)
  {
    if n == 0 {
      TotalFront(bytes, a, a + b, |a|);
    } else {
      TotalConcat(bytes, a, b, n - 1);
    }
  }

  lemma TotalSnoc(bytes: seq<nat>, gids: seq<nat>, g: nat)
    ensures Total(bytes, gids + [g]) == Total(bytes, gids) + GroupBytes(bytes, g)
  {
    TotalFront(bytes, gids, gids + [g], |gids|);
  }

  lemma {:induction false} TotalMono(bytes: seq<nat>, gids: seq<nat>, m: nat, n: nat)
    requires m <= n <= |gids|
    ensures TotalUpTo(bytes, gids, m) <= TotalUpTo(bytes, gids, n)
  {
    if m < n {
      TotalMono(bytes, gids, m, n - 1);
    }
  }

  function PhaseOf(bytes: seq<nat>, gids: seq<nat>): Phase
  {
    Phase(gids, Total(bytes, gids))
  }

  // ----- the packing -----

  /** The phases sent, and the batch being filled. */
  datatype Filling = Filling(phases: seq<Phase>, batch: seq<nat>)

  /** A group goes alone if oversized, otherwise in the batch, which is sent first if it would overflow. */
  function Place(bytes: seq<nat>, budget: nat, f: Filling, g: nat): Filling
  {
    if GroupBytes(bytes, g) > budget then f.(phases := f.phases + [PhaseOf(bytes, [g])])
    else if f.batch != [] && Total(bytes, f.batch) + GroupBytes(bytes, g) > budget then
      Filling(f.phases + [PhaseOf(bytes, f.batch)], [g])
    else f.(batch := f.batch + [g])
  }

  function NextFit(bytes: seq<nat>, budget: nat, gids: seq<nat>, n: nat): Filling
    requires n <= |gids|
  {
    if n == 0 then Filling([], []) else Place(bytes, budget, NextFit(bytes, budget, gids, n - 1), gids[n - 1])
  }

  /** The batch that is left goes last. */
  function ClassPhases(bytes: seq<nat>, budget: nat, gids: seq<nat>): seq<Phase>
  {
    var f := NextFit(bytes, budget, gids, |gids|);
    if f.batch == [] then f.phases else f.phases + [PhaseOf(bytes, f.batch)]
  }

  // ----- each group once -----

  /** All group ids of the first n phases. */
  ghost function Ids(phases: seq<Phase>, n: nat): multiset<nat>
    requires n <= |phases|
  {
    if n == 0 then multiset{} else Ids(phases, n - 1) + multiset(phases[n - 1].groupIds)
  }

  ghost function AllIds(phases: seq<Phase>): multiset<nat>
  {
    Ids(phases, |phases|)
  }

  /** The bytes of the first n phases. */
  function PhaseBytes(phases: seq<Phase>, n: nat): nat
    requires n <= |phases|
  {
    if n == 0 then 0 else PhaseBytes(phases, n - 1) + phases[n - 1].outputBytes
  }

  lemma {:induction false} IdsConcat(a: seq<Phase>, b: seq<Phase>, n: nat)
    requires n <= |b|
    ensures Ids(a + b, |a| + n) == AllIds(a) + Ids(b, n)
  {
    if n == 0 {
      IdsFront(a, a + b, |a|);
    } else {
      IdsConcat(a, b, n - 1);
      assert (a + b)[|a| + n - 1] == b[n - 1];
    }
  }

  lemma {:induction false} PhaseBytesConcat(a: seq<Phase>, b: seq<Phase>, n: nat)
    requires n <= |b|
    ensures PhaseBytes(a + b, |a| + n) == PhaseBytes(a, |a|) + PhaseBytes(b, n)
  {
    if n == 0 {
      IdsFront(a, a + b, |a|);
    } else {
      PhaseBytesConcat(a, b, n - 1);
      assert (a + b)[|a| + n - 1] == b[n - 1];
    }
  }

  lemma {:induction false} IdsFront(a: seq<Phase>, b: seq<Phase>, n: nat)
    requires n <= |a| && a <= b
    ensures Ids(b, n) == Ids(a, n) && PhaseBytes(b, n) == PhaseBytes(a, n)
  {
    if n > 0 {
      IdsFront(a, b, n - 1);
    }
  }

  lemma OnePhaseMore(phases: seq<Phase>, p: Phase)
    ensures AllIds(phases + [p]) == AllIds(phases) + multiset(p.groupIds)
    ensures PhaseBytes(phases + [p], |phases| + 1) == PhaseBytes(phases, |phases|) + p.outputBytes
  {
    IdsFront(phases, phases + [p], |phases|);
  }

  /** A phase fits the budget unless it is a single group. */
  predicate WithinBudget(p: Phase, budget: nat)
  {
    |p.groupIds| == 1 || p.outputBytes <= budget
  }

  predicate PhaseOk(bytes: seq<nat>, p: Phase, budget: nat)
  {
    p.groupIds != [] && p.outputBytes == Total(bytes, p.groupIds) && WithinBudget(p, budget)
  }

  predicate AllOk(bytes: seq<nat>, phases: seq<Phase>, budget: nat)
  {
    forall i :: 0 <= i < |phases| ==> PhaseOk(bytes, phases[i], budget)
  }

  lemma OneMoreOk(bytes: seq<nat>, phases: seq<Phase>, p: Phase, budget: nat)
    requires AllOk(bytes, phases, budget) && PhaseOk(bytes, p, budget)
    ensures AllOk(bytes, phases + [p], budget)
  {
  }

  function First(p: Phase): nat
  {
    if p.groupIds == [] then 0 else p.groupIds[0]
  }

  /** The groups taken are those sent and those of the batch; each phase sent stands for half a budget. */
  ghost predicate SameTotals(bytes: seq<nat>, budget: nat, f: Filling, ids: multiset<nat>, total: nat)
  {
    && AllIds(f.phases) + multiset(f.batch) == ids
    && PhaseBytes(f.phases, |f.phases|) + Total(bytes, f.batch) == total
    && HalfFilled(|f.phases|, budget, PhaseBytes(f.phases, |f.phases|), Total(bytes, f.batch))
  }

  /** And the phases sent and the batch fit. */
  ghost predicate Kept(bytes: seq<nat>, budget: nat, f: Filling, ids: multiset<nat>, total: nat)
  {
    AllOk(bytes, f.phases, budget) && Total(bytes, f.batch) <= budget && SameTotals(bytes, budget, f, ids, total)
  }

  predicate HalfFilled(phases: nat, budget: nat, sent: nat, open: nat)
  {
    phases * budget <= 2 * sent + open
  }

  lemma FillMore(phases: nat, budget: nat, sent: nat, open: nat, b: nat)
    requires HalfFilled(phases, budget, sent, open)
    ensures b > budget ==> HalfFilled(phases + 1, budget, sent + b, open)
    ensures open + b > budget ==> HalfFilled(phases + 1, budget, sent + open, b)
    ensures HalfFilled(phases, budget, sent, open + b)
  {
    MulNext(phases, budget);
  }

  lemma PlaceOk(bytes: seq<nat>, budget: nat, f: Filling, g: nat)
    requires AllOk(bytes, f.phases, budget) && Total(bytes, f.batch) <= budget
    ensures var next := Place(bytes, budget, f, g);
            AllOk(bytes, next.phases, budget) && Total(bytes, next.batch) <= budget
  {
    TotalSnoc(bytes, [], g);
    assert [] + [g] == [g];
    TotalSnoc(bytes, f.batch, g);
    if GroupBytes(bytes, g) > budget {
      OneMoreOk(bytes, f.phases, PhaseOf(bytes, [g]), budget);
    } else if f.batch != [] {
      OneMoreOk(bytes, f.phases, PhaseOf(bytes, f.batch), budget);
    }
  }

  lemma PlaceKept(bytes: seq<nat>, budget: nat, f: Filling, g: nat, ids: multiset<nat>, total: nat, next: Filling,
                  ids': multiset<nat>, total': nat)
    requires Kept(bytes, budget, f, ids, total) && next == Place(bytes, budget, f, g)
    requires ids' == ids + multiset{g} && total' == total + GroupBytes(bytes, g)
    ensures Kept(bytes, budget, next, ids', total')
  {
    PlaceOk(bytes, budget, f, g);
    PlaceTotals(bytes, budget, f, g, ids, total);
  }

  lemma PlaceTotals(bytes: seq<nat>, budget: nat, f: Filling, g: nat, ids: multiset<nat>, total: nat)
    requires SameTotals(bytes, budget, f, ids, total)
    ensures SameTotals(bytes, budget, Place(bytes, budget, f, g), ids + multiset{g}, total + GroupBytes(bytes, g))
  {
    TotalSnoc(bytes, [], g);
    assert [] + [g] == [g];
    TotalSnoc(bytes, f.batch, g);
    FillMore(|f.phases|, budget, PhaseBytes(f.phases, |f.phases|), Total(bytes, f.batch), GroupBytes(bytes, g));
    if GroupBytes(bytes, g) > budget {
      OnePhaseMore(f.phases, PhaseOf(bytes, [g]));
    } else if f.batch != [] {
      OnePhaseMore(f.phases, PhaseOf(bytes, f.batch));
    }
  }

  lemma {:induction false} FillingKept(bytes: seq<nat>, budget: nat, gids: seq<nat>, n: nat)
    requires n <= |gids|
    ensures Kept(bytes, budget, NextFit(bytes, budget, gids, n), multiset(gids[..n]), TotalUpTo(bytes, gids, n))
  {
    if n == 0 {
      assert gids[..0] == [];
    } else {
      FillingKept(bytes, budget, gids, n - 1);
      assert gids[..n] == gids[..n - 1] + [gids[n - 1]];
      PlaceKept(bytes, budget, NextFit(bytes, budget, gids, n - 1), gids[n - 1], multiset(gids[..n - 1]),
                TotalUpTo(bytes, gids, n - 1), NextFit(bytes, budget, gids, n), multiset(gids[..n]),
                TotalUpTo(bytes, gids, n));
    }
  }

  lemma ClassFits(bytes: seq<nat>, budget: nat, gids: seq<nat>)
    ensures AllOk(bytes, ClassPhases(bytes, budget, gids), budget)
  {
    var f := NextFit(bytes, budget, gids, |gids|);
    FillingKept(bytes, budget, gids, |gids|);
    if f.batch != [] {
      OneMoreOk(bytes, f.phases, PhaseOf(bytes, f.batch), budget);
    }
  }

  /** Packing keeps every group and every byte. */
  lemma ClassKept(bytes: seq<nat>, budget: nat, gids: seq<nat>)
    ensures var phases := ClassPhases(bytes, budget, gids);
            AllIds(phases) == multiset(gids) && PhaseBytes(phases, |phases|) == Total(bytes, gids)
  {
    var f := NextFit(bytes, budget, gids, |gids|);
    FillingKept(bytes, budget, gids, |gids|);
    assert gids[..|gids|] == gids;
    if f.batch != [] {
      OnePhaseMore(f.phases, PhaseOf(bytes, f.batch));
    }
  }

  /** The phases of a class, but one, are on average at least half full. */
  lemma NextFitBound(bytes: seq<nat>, budget: nat, gids: seq<nat>, phases: seq<Phase>)
    requires phases == ClassPhases(bytes, budget, gids) && phases != []
    ensures (|phases| - 1) * budget <= 2 * Total(bytes, gids)
  {
    var f := NextFit(bytes, budget, gids, |gids|);
    FillingKept(bytes, budget, gids, |gids|);
    MulMono(|phases| - 1, |f.phases|, budget);
  }

  // ----- what next-fit is -----

  /** The groups of the first n phases that are larger than the budget, or of those that are not, in order. */
  function Flat(phases: seq<Phase>, n: nat, budget: nat, oversized: bool): seq<nat>
    requires n <= |phases|
  {
    if n == 0 then []
    else Flat(phases, n - 1, budget, oversized) +
         if (phases[n - 1].outputBytes > budget) == oversized then phases[n - 1].groupIds else []
  }

  /** The first n groups that are larger than the budget, or those that are not, in order. */
  function Chosen(bytes: seq<nat>, budget: nat, gids: seq<nat>, n: nat, oversized: bool): seq<nat>
    requires n <= |gids|
  {
    if n == 0 then []
    else Chosen(bytes, budget, gids, n - 1, oversized) +
         if (GroupBytes(bytes, gids[n - 1]) > budget) == oversized then [gids[n - 1]] else []
  }

  /** Phase k is the first batch sent after the batch i. */
  predicate NextBatch(phases: seq<Phase>, budget: nat, i: nat, k: nat)
  {
    && i < k < |phases| && phases[i].outputBytes <= budget && phases[k].outputBytes <= budget
    && forall m :: i < m < k ==> phases[m].outputBytes > budget
  }

  predicate LastBatch(phases: seq<Phase>, budget: nat, i: nat)
  {
    && i < |phases| && phases[i].outputBytes <= budget
    && forall m :: i < m < |phases| ==> phases[m].outputBytes > budget
  }

  /** The group that made a phase be sent: the oversized one itself, or the one that did not fit the batch any more. */
  ghost predicate SentBy(bytes: seq<nat>, budget: nat, gids: seq<nat>, phases: seq<Phase>, i: nat, key: nat)
    requires i < |phases|
  {
    && (phases[i].outputBytes > budget ==> key < |gids| && gids[key] == First(phases[i]))
    && forall k: nat :: NextBatch(phases, budget, i, k) ==>
         && key < |gids| && gids[key] == First(phases[k])
         && phases[i].outputBytes + GroupBytes(bytes, First(phases[k])) > budget
  }

  ghost predicate Keyed(bytes: seq<nat>, budget: nat, gids: seq<nat>, phases: seq<Phase>, keys: seq<nat>)
  {
    && |keys| == |phases| && (forall i, j :: 0 <= i < j < |keys| ==> keys[i] < keys[j])
    && forall i :: 0 <= i < |phases| ==> SentBy(bytes, budget, gids, phases, i, keys[i])
  }

  /**
   * Batches of consecutive groups that fit the budget, each closed by the group that would have overflowed it, and
   * oversized groups alone; phases are in the order in which the groups that made them be sent come, and the batch
   * that is left goes last.
   */
  ghost predicate IsNextFit(bytes: seq<nat>, budget: nat, gids: seq<nat>, phases: seq<Phase>)
  {
    && AllOk(bytes, phases, budget)
    && Flat(phases, |phases|, budget, false) == Chosen(bytes, budget, gids, |gids|, false)
    && Flat(phases, |phases|, budget, true) == Chosen(bytes, budget, gids, |gids|, true)
    && (exists keys :: Keyed(bytes, budget, gids, phases, keys))
    && forall i: nat :: LastBatch(phases, budget, i) ==> i == |phases| - 1
  }

  lemma {:induction false} FlatFront(a: seq<Phase>, b: seq<Phase>, n: nat, budget: nat, oversized: bool)
    requires n <= |a| && a <= b
    ensures Flat(b, n, budget, oversized) == Flat(a, n, budget, oversized)
  {
    if n > 0 {
      FlatFront(a, b, n - 1, budget, oversized);
    }
  }

  lemma FlatSnoc(phases: seq<Phase>, p: Phase, budget: nat, oversized: bool)
    ensures Flat(phases + [p], |phases| + 1, budget, oversized)
            == Flat(phases, |phases|, budget, oversized) + if (p.outputBytes > budget) == oversized then p.groupIds else []
  {
    FlatFront(phases, phases + [p], |phases|, budget, oversized);
  }

  /** So far: the groups in order, and the batch being filled holds the group that closed the last batch first. */
  ghost predicate Ordered(bytes: seq<nat>, budget: nat, gids: seq<nat>, n: nat, f: Filling)
    requires n <= |gids|
  {
    && Flat(f.phases, |f.phases|, budget, false) + f.batch == Chosen(bytes, budget, gids, n, false)
    && Flat(f.phases, |f.phases|, budget, true) == Chosen(bytes, budget, gids, n, true)
  }

  lemma PlaceOrdered(bytes: seq<nat>, budget: nat, gids: seq<nat>, n: nat, f: Filling)
    requires n < |gids| && Ordered(bytes, budget, gids, n, f) && Total(bytes, f.batch) <= budget
    ensures Ordered(bytes, budget, gids, n + 1, Place(bytes, budget, f, gids[n]))
  {
    var g, smalls := gids[n], Flat(f.phases, |f.phases|, budget, false);
    if GroupBytes(bytes, g) > budget {
      TotalSnoc(bytes, [], g);
      assert [] + [g] == [g];
      FlatSnoc(f.phases, PhaseOf(bytes, [g]), budget, false);
      FlatSnoc(f.phases, PhaseOf(bytes, [g]), budget, true);
      assert smalls + [] == smalls && smalls + f.batch + [] == smalls + f.batch;
    } else {
      FlatSnoc(f.phases, PhaseOf(bytes, f.batch), budget, false);
      FlatSnoc(f.phases, PhaseOf(bytes, f.batch), budget, true);
      assert smalls + f.batch + [g] == smalls + (f.batch + [g]);
      var bigs := Flat(f.phases, |f.phases|, budget, true);
      assert bigs + [] == bigs;
    }
  }

  /** The last batch sent was closed by the first group of the batch being filled. */
  ghost predicate Closed(bytes: seq<nat>, budget: nat, gids: seq<nat>, f: Filling, i: nat, key: nat)
    requires i < |f.phases|
  {
    LastBatch(f.phases, budget, i) ==>
      && f.batch != [] && key < |gids| && gids[key] == f.batch[0]
      && f.phases[i].outputBytes + GroupBytes(bytes, f.batch[0]) > budget
  }

  /** The groups that made the phases be sent are among the first n, in order. */
  ghost predicate KeyedSoFar(bytes: seq<nat>, budget: nat, gids: seq<nat>, n: nat, f: Filling, keys: seq<nat>)
  {
    && Keyed(bytes, budget, gids, f.phases, keys) && (forall i :: 0 <= i < |keys| ==> keys[i] < n)
    && forall i :: 0 <= i < |f.phases| ==> Closed(bytes, budget, gids, f, i, keys[i])
  }

  lemma AloneKeyed(bytes: seq<nat>, budget: nat, gids: seq<nat>, n: nat, f: Filling, keys: seq<nat>, p: Phase)
    requires n < |gids|
    requires KeyedSoFar(bytes, budget, gids, n, f, keys)
    requires p.outputBytes > budget && First(p) == gids[n]
    ensures KeyedSoFar(bytes, budget, gids, n + 1, f.(phases := f.phases + [p]), keys + [n])
  {
    var phases := f.phases + [p];
    forall i: nat, k: nat | i < |f.phases|
      ensures NextBatch(phases, budget, i, k) ==> NextBatch(f.phases, budget, i, k)
    {
      if NextBatch(phases, budget, i, k) {
        assert phases[|f.phases|] == p;
        assert forall m :: i < m < k ==> phases[m] == f.phases[m];
      }
    }
    forall i: nat | i < |f.phases|
      ensures LastBatch(phases, budget, i) ==> LastBatch(f.phases, budget, i)
      ensures SentBy(bytes, budget, gids, phases, i, keys[i])
      ensures Closed(bytes, budget, gids, f, i, keys[i])
    {
      assert SentBy(bytes, budget, gids, f.phases, i, keys[i]);
    }
  }

  lemma BatchKeyed(bytes: seq<nat>, budget: nat, gids: seq<nat>, n: nat, f: Filling, keys: seq<nat>, p: Phase)
    requires n < |gids|
    requires KeyedSoFar(bytes, budget, gids, n, f, keys)
    requires p.outputBytes <= budget < p.outputBytes + GroupBytes(bytes, gids[n]) && p.groupIds == f.batch
    ensures KeyedSoFar(bytes, budget, gids, n + 1, Filling(f.phases + [p], [gids[n]]), keys + [n])
  {
    var phases, next := f.phases + [p], Filling(f.phases + [p], [gids[n]]);
    forall i: nat | i < |f.phases|
      ensures SentBy(bytes, budget, gids, phases, i, keys[i]) && Closed(bytes, budget, gids, next, i, keys[i])
    {
      assert SentBy(bytes, budget, gids, f.phases, i, keys[i]) && Closed(bytes, budget, gids, f, i, keys[i]);
      forall k: nat | NextBatch(phases, budget, i, k)
        ensures if k == |f.phases| then LastBatch(f.phases, budget, i) else NextBatch(f.phases, budget, i, k)
      {
        assert forall m :: i < m < |f.phases| ==> phases[m] == f.phases[m];
      }
      assert phases[|f.phases|] == p;
    }
  }

  lemma PlaceKeyed(bytes: seq<nat>, budget: nat, gids: seq<nat>, n: nat, f: Filling, keys: seq<nat>) returns (next: seq<nat>)
    requires n < |gids| && AllOk(bytes, f.phases, budget)
    requires Total(bytes, f.batch) <= budget && KeyedSoFar(bytes, budget, gids, n, f, keys)
    ensures KeyedSoFar(bytes, budget, gids, n + 1, Place(bytes, budget, f, gids[n]), next)
  {
    var g := gids[n];
    TotalSnoc(bytes, [], g);
    assert [] + [g] == [g];
    if GroupBytes(bytes, g) > budget {
      AloneKeyed(bytes, budget, gids, n, f, keys, PhaseOf(bytes, [g]));
      next := keys + [n];
    } else if f.batch != [] && Total(bytes, f.batch) + GroupBytes(bytes, g) > budget {
      BatchKeyed(bytes, budget, gids, n, f, keys, PhaseOf(bytes, f.batch));
      next := keys + [n];
    } else {
      next := keys;
      BatchGrows(bytes, budget, gids, n, f, keys);
    }
  }

  lemma BatchGrows(bytes: seq<nat>, budget: nat, gids: seq<nat>, n: nat, f: Filling, keys: seq<nat>)
    requires n < |gids|
    requires KeyedSoFar(bytes, budget, gids, n, f, keys)
    ensures KeyedSoFar(bytes, budget, gids, n + 1, f.(batch := f.batch + [gids[n]]), keys)
  {
    var next := f.(batch := f.batch + [gids[n]]);
    forall i: nat | i < |f.phases|
      ensures Closed(bytes, budget, gids, next, i, keys[i])
    {
      assert Closed(bytes, budget, gids, f, i, keys[i]);
    }
  }

  lemma {:induction false} FillingKeyed(bytes: seq<nat>, budget: nat, gids: seq<nat>, n: nat) returns (keys: seq<nat>)
    requires n <= |gids|
    ensures Ordered(bytes, budget, gids, n, NextFit(bytes, budget, gids, n))
    ensures KeyedSoFar(bytes, budget, gids, n, NextFit(bytes, budget, gids, n), keys)
  {
    if n == 0 {
      keys := [];
    } else {
      keys := FillingKeyed(bytes, budget, gids, n - 1);
      FillingKept(bytes, budget, gids, n - 1);
      PlaceOrdered(bytes, budget, gids, n - 1, NextFit(bytes, budget, gids, n - 1));
      keys := PlaceKeyed(bytes, budget, gids, n - 1, NextFit(bytes, budget, gids, n - 1), keys);
    }
  }

  /** The batch that is left closes the packing: nothing sends it. */
  lemma LastKeyed(bytes: seq<nat>, budget: nat, gids: seq<nat>, f: Filling, keys: seq<nat>, p: Phase)
    requires KeyedSoFar(bytes, budget, gids, |gids|, f, keys) && p.outputBytes <= budget && p.groupIds == f.batch != []
    ensures Keyed(bytes, budget, gids, f.phases + [p], keys + [|gids|])
    ensures forall i: nat :: LastBatch(f.phases + [p], budget, i) ==> i == |f.phases|
  {
    var phases := f.phases + [p];
    assert phases[|f.phases|] == p;
    forall i: nat | i < |f.phases|
      ensures SentBy(bytes, budget, gids, phases, i, keys[i])
    {
      assert SentBy(bytes, budget, gids, f.phases, i, keys[i]) && Closed(bytes, budget, gids, f, i, keys[i]);
      forall k: nat | NextBatch(phases, budget, i, k)
        ensures if k == |f.phases| then LastBatch(f.phases, budget, i) else NextBatch(f.phases, budget, i, k)
      {
        assert forall m :: i < m < |f.phases| ==> phases[m] == f.phases[m];
      }
    }
  }

  lemma NothingOpen(bytes: seq<nat>, budget: nat, gids: seq<nat>, f: Filling, keys: seq<nat>)
    requires KeyedSoFar(bytes, budget, gids, |gids|, f, keys) && f.batch == []
    ensures forall i: nat :: !LastBatch(f.phases, budget, i)
  {
    forall i: nat
      ensures !LastBatch(f.phases, budget, i)
    {
      assert i < |f.phases| ==> Closed(bytes, budget, gids, f, i, keys[i]);
    }
  }

  /** The phases of a class are packed by next-fit. */
  lemma ClassIsNextFit(bytes: seq<nat>, budget: nat, gids: seq<nat>)
    ensures IsNextFit(bytes, budget, gids, ClassPhases(bytes, budget, gids))
  {
    var f := NextFit(bytes, budget, gids, |gids|);
    ClassFits(bytes, budget, gids);
    FillingKept(bytes, budget, gids, |gids|);
    var keys := FillingKeyed(bytes, budget, gids, |gids|);
    if f.batch == [] {
      NothingOpen(bytes, budget, gids, f, keys);
      assert Flat(f.phases, |f.phases|, budget, false) + [] == Flat(f.phases, |f.phases|, budget, false);
    } else {
      var p := PhaseOf(bytes, f.batch);
      LastKeyed(bytes, budget, gids, f, keys, p);
      FlatSnoc(f.phases, p, budget, false);
      FlatSnoc(f.phases, p, budget, true);
      assert Flat(f.phases, |f.phases|, budget, true) + [] == Flat(f.phases, |f.phases|, budget, true);
    }
  }

  lemma {:induction false} AllInBatch(bytes: seq<nat>, budget: nat, gids: seq<nat>, n: nat)
    requires n <= |gids| && TotalUpTo(bytes, gids, n) <= budget
    ensures NextFit(bytes, budget, gids, n) == Filling([], gids[..n])
    ensures Total(bytes, gids[..n]) == TotalUpTo(bytes, gids, n)
  {
    if n > 0 {
      AllInBatch(bytes, budget, gids, n - 1);
      assert gids[..n] == gids[..n - 1] + [gids[n - 1]];
      TotalSnoc(bytes, gids[..n - 1], gids[n - 1]);
    }
  }

  /** A class that fits the budget is one phase. */
  lemma OnePhase(bytes: seq<nat>, budget: nat, gids: seq<nat>)
    requires Total(bytes, gids) <= budget
    ensures ClassPhases(bytes, budget, gids) == if gids == [] then [] else [PhaseOf(bytes, gids)]
  {
    AllInBatch(bytes, budget, gids, |gids|);
    assert gids[..|gids|] == gids;
  }

  lemma {:induction false} InFlat(phases: seq<Phase>, n: nat, budget: nat, i: nat, g: nat)
    requires i < n <= |phases| && g in phases[i].groupIds
    ensures g in Flat(phases, n, budget, phases[i].outputBytes > budget)
  {
    if i < n - 1 {
      InFlat(phases, n - 1, budget, i, g);
    }
  }

  lemma {:induction false} ChosenIn(bytes: seq<nat>, budget: nat, gids: seq<nat>, n: nat, oversized: bool, g: nat)
    requires n <= |gids| && g in Chosen(bytes, budget, gids, n, oversized)
    ensures g in gids
  {
    if g != gids[n - 1] {
      ChosenIn(bytes, budget, gids, n - 1, oversized, g);
    }
  }

  /** Phases hold groups of their class only. */
  lemma OfClass(bytes: seq<nat>, budget: nat, gids: seq<nat>, phases: seq<Phase>, i: nat, g: nat)
    requires IsNextFit(bytes, budget, gids, phases) && i < |phases| && g in phases[i].groupIds
    ensures g in gids
  {
    InFlat(phases, |phases|, budget, i, g);
    ChosenIn(bytes, budget, gids, |gids|, phases[i].outputBytes > budget, g);
  }
}
