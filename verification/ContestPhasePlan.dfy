/** Arranging groups of slices in phases whose outputs fit a budget: X slices first, then random ones, then the rest. */
module ContestPhasePlan {
  import opened Basics
  import opened Sorting
  import opened SlicePlan
  import opened PhasePacking

  datatype PhasePlan = PhasePlan(phases: seq<Phase>, allDeferred: bool, totalBytes: nat, maxPhaseBytes: nat)

  // ----- classes of groups -----

  datatype Kind = XSlices | RandomSlices | OtherSlices

  function KindOf(axes: seq<Axis>, modes: seq<string>, g: nat): Kind
    requires g < |axes|
  {
    if axes[g] == X then XSlices else if g < |modes| && modes[g] == "random" then RandomSlices else OtherSlices
  }

  /** The groups of this kind among the first n. */
  function GroupsOf(axes: seq<Axis>, modes: seq<string>, kind: Kind, n: nat): seq<nat>
    requires n <= |axes|
  {
    if n == 0 then []
    else GroupsOf(axes, modes, kind, n - 1) + if KindOf(axes, modes, n - 1) == kind then [n - 1] else []
  }

  /** The groups of each class: X slices, random Y and Z slices, the other Y and Z slices. */
  datatype Classes = Classes(x: seq<nat>, random: seq<nat>, other: seq<nat>)

  function ClassesOf(axes: seq<Axis>, modes: seq<string>, n: nat): Classes
    requires n <= |axes|
  {
    Classes(GroupsOf(axes, modes, XSlices, n), GroupsOf(axes, modes, RandomSlices, n), GroupsOf(axes, modes, OtherSlices, n))
  }

  method Classify(axes: seq<Axis>, modes: seq<string>, groups: nat) returns (c: Classes)
    ensures c == ClassesOf(axes, modes, Min(groups, |axes|))
  {
    c := Classes([], [], []);
    var i: nat := 0;
    while i < groups && i < |axes|
      invariant i <= groups && i <= |axes| && c == ClassesOf(axes, modes, i)
    {
      if axes[i] == X {
        c := c.(x := c.x + [i]);
      } else if i < |modes| && modes[i] == "random" {
        c := c.(random := c.random + [i]);
      } else {
        c := c.(other := c.other + [i]);
      }
      i := i + 1;
    }
  }

  ghost function Classified(c: Classes): multiset<nat>
  {
    multiset(c.x) + multiset(c.random) + multiset(c.other)
  }

  lemma {:induction false} AllClassified(axes: seq<Axis>, modes: seq<string>, n: nat)
    requires n <= |axes|
    ensures Classified(ClassesOf(axes, modes, n)) == multiset(Natural(n))
  {
    if n == 0 {
      assert Natural(0) == [];
    } else {
      AllClassified(axes, modes, n - 1);
      assert Natural(n) == Natural(n - 1) + [n - 1];
      ClassesNext(axes, modes, n - 1);
      OneMore(ClassesOf(axes, modes, n - 1), n - 1);
    }
  }

  lemma ClassesNext(axes: seq<Axis>, modes: seq<string>, n: nat)
    requires n < |axes|
    ensures var c := ClassesOf(axes, modes, n);
            ClassesOf(axes, modes, n + 1) == match KindOf(axes, modes, n)
                                             case XSlices => c.(x := c.x + [n])
                                             case RandomSlices => c.(random := c.random + [n])
                                             case OtherSlices => c.(other := c.other + [n])
  {
  }

  lemma OneMore(c: Classes, g: nat)
    ensures Classified(c.(x := c.x + [g])) == Classified(c) + multiset{g}
    ensures Classified(c.(random := c.random + [g])) == Classified(c) + multiset{g}
    ensures Classified(c.(other := c.other + [g])) == Classified(c) + multiset{g}
  {
  }

  // ----- appending phases -----

  function MaxOver(phases: seq<Phase>, n: nat, least: nat): nat
    requires n <= |phases|
  {
    if n == 0 then least else Max(MaxOver(phases, n - 1, least), phases[n - 1].outputBytes)
  }

  lemma {:induction false} MaxOverIs(phases: seq<Phase>, n: nat, least: nat)
    requires n <= |phases|
    ensures var m := MaxOver(phases, n, least);
            && least <= m && (forall i :: 0 <= i < n ==> phases[i].outputBytes <= m)
            && (m == least || exists i :: 0 <= i < n && phases[i].outputBytes == m)
  {
    if n > 0 {
      MaxOverIs(phases, n - 1, least);
    }
  }

  /** The plan with more phases. */
  function With(plan: PhasePlan, phases: seq<Phase>): PhasePlan
  {
    plan.(phases := plan.phases + phases, maxPhaseBytes := MaxOver(phases, |phases|, plan.maxPhaseBytes))
  }

  lemma {:induction false} MaxOverConcat(a: seq<Phase>, b: seq<Phase>, n: nat, least: nat)
    requires n <= |b|
    ensures MaxOver(a + b, |a| + n, least) == MaxOver(b, n, MaxOver(a, |a|, least))
  {
    if n == 0 {
      MaxOverFront(a, a + b, |a|, least);
    } else {
      MaxOverConcat(a, b, n - 1, least);
      assert (a + b)[|a| + n - 1] == b[n - 1];
    }
  }

  lemma {:induction false} MaxOverFront(a: seq<Phase>, b: seq<Phase>, n: nat, least: nat)
    requires n <= |a| && a <= b
    ensures MaxOver(b, n, least) == MaxOver(a, n, least)
  {
    if n > 0 {
      MaxOverFront(a, b, n - 1, least);
    }
  }

  lemma WithWith(plan: PhasePlan, a: seq<Phase>, b: seq<Phase>)
    ensures With(With(plan, a), b) == With(plan, a + b)
  {
    MaxOverConcat(a, b, |b|, plan.maxPhaseBytes);
    assert plan.phases + a + b == plan.phases + (a + b);
  }

  lemma WithNothing(plan: PhasePlan)
    ensures With(plan, []) == plan
  {
    assert plan.phases + [] == plan.phases;
  }

  method AppendPhase(plan: PhasePlan, bytes: seq<nat>, gids: seq<nat>) returns (r: PhasePlan)
    ensures r == With(plan, if gids == [] then [] else [PhaseOf(bytes, gids)])
  {
    WithNothing(plan);
    if gids == [] {
      return plan;
    }
    var phase := PhaseOf(bytes, gids);
    r := plan.(phases := plan.phases + [phase], maxPhaseBytes := Max(plan.maxPhaseBytes, phase.outputBytes));
    assert MaxOver([phase], 0, plan.maxPhaseBytes) == plan.maxPhaseBytes;
  }

  // ----- one class -----

  /** The loop's next step: phases sent now are appended to those sent before. */
  lemma PlacedNext(plan: PhasePlan, f: Filling, f': Filling, more: seq<Phase>)
    requires f'.phases == f.phases + more
    ensures With(With(plan, f.phases), more) == With(plan, f'.phases)
  {
    WithWith(plan, f.phases, more);
  }

  /** Handles one group: alone if oversized, otherwise in the batch, which is sent first if it would overflow. */
  method PlaceGroup(bytes: seq<nat>, budget: nat, plan: PhasePlan, g: nat, batch: seq<nat>, acc: nat,
                    ghost before: PhasePlan, ghost f: Filling)
    returns (plan': PhasePlan, batch': seq<nat>, acc': nat)
    requires plan == With(before, f.phases) && batch == f.batch && acc == Total(bytes, batch)
    ensures var f' := Place(bytes, budget, f, g);
            plan' == With(before, f'.phases) && batch' == f'.batch && acc' == Total(bytes, batch')
  {
    var b := GroupBytes(bytes, g);
    plan', batch', acc' := plan, batch, acc;
    if b > budget {
      plan' := AppendPhase(plan, bytes, [g]);
      PlacedNext(before, f, Place(bytes, budget, f, g), [PhaseOf(bytes, [g])]);
      return;
    }
    if batch != [] && acc + b > budget {
      plan' := AppendPhase(plan, bytes, batch);
      PlacedNext(before, f, Place(bytes, budget, f, g), [PhaseOf(bytes, batch)]);
      batch', acc' := [], 0;
    }
    TotalSnoc(bytes, batch', g);
    batch', acc' := batch' + [g], acc' + b;
  }

  /** Next-fit over one class of groups. */
  method SplitClass(bytes: seq<nat>, budget: nat, plan: PhasePlan, gids: seq<nat>) returns (r: PhasePlan)
    ensures r == With(plan, ClassPhases(bytes, budget, gids))
  {
    r := plan;
    WithNothing(plan);
    var acc: nat, batch: seq<nat> := 0, [];
    var n: nat := 0;
    while n < |gids|
      invariant n <= |gids| && acc == Total(bytes, batch)
      invariant r == With(plan, NextFit(bytes, budget, gids, n).phases) && batch == NextFit(bytes, budget, gids, n).batch
    {
      r, batch, acc := PlaceGroup(bytes, budget, r, gids[n], batch, acc, plan, NextFit(bytes, budget, gids, n));
      n := n + 1;
    }
    ghost var sent := NextFit(bytes, budget, gids, |gids|).phases;
    if batch != [] {
      WithWith(plan, sent, [PhaseOf(bytes, batch)]);
      r := AppendPhase(r, bytes, batch);
    }
  }

  /** A class goes in one phase if it fits, and is split otherwise. */
  method AddClass(bytes: seq<nat>, budget: nat, plan: PhasePlan, gids: seq<nat>) returns (r: PhasePlan)
    ensures r == With(plan, ClassPhases(bytes, budget, gids))
  {
    if gids == [] {
      WithNothing(plan);
      r := plan;
    } else if Total(bytes, gids) <= budget {
      OnePhase(bytes, budget, gids);
      r := AppendPhase(plan, bytes, gids);
    } else {
      r := SplitClass(bytes, budget, plan, gids);
    }
  }

  // ----- all classes -----

  /** Random groups take the others along in one phase when both fit the budget together. */
  predicate Joined(bytes: seq<nat>, budget: nat, c: Classes)
  {
    c.random != [] && Total(bytes, c.random) + Total(bytes, c.other) <= budget
  }

  function RandomPhases(bytes: seq<nat>, budget: nat, c: Classes): seq<Phase>
  {
    if Joined(bytes, budget, c) then [PhaseOf(bytes, c.random + c.other)] else ClassPhases(bytes, budget, c.random)
  }

  function OtherPhases(bytes: seq<nat>, budget: nat, c: Classes): seq<Phase>
  {
    if Joined(bytes, budget, c) then [] else ClassPhases(bytes, budget, c.other)
  }

  function AllPhases(bytes: seq<nat>, budget: nat, c: Classes): seq<Phase>
  {
    ClassPhases(bytes, budget, c.x) + (RandomPhases(bytes, budget, c) + OtherPhases(bytes, budget, c))
  }

  method AddRandom(bytes: seq<nat>, budget: nat, plan: PhasePlan, c: Classes) returns (r: PhasePlan, left: seq<nat>)
    ensures r == With(plan, RandomPhases(bytes, budget, c))
    ensures left == if Joined(bytes, budget, c) then [] else c.other
  {
    r, left := plan, c.other;
    if c.random == [] {
      WithNothing(plan);
      return;
    }
    if Total(bytes, c.random) + Total(bytes, c.other) <= budget {
      r := AppendPhase(plan, bytes, c.random + c.other);
      left := [];
    } else {
      r := AddClass(bytes, budget, plan, c.random);
    }
  }

  /** When not everything fits: class by class. */
  method BuildByClass(bytes: seq<nat>, axes: seq<Axis>, modes: seq<string>, budget: nat, empty: PhasePlan)
    returns (plan: PhasePlan)
    ensures plan == With(empty, AllPhases(bytes, budget, ClassesOf(axes, modes, Min(|bytes|, |axes|))))
  {
    var c := Classify(axes, modes, |bytes|);
    var withX := AddClass(bytes, budget, empty, c.x);
    var withRandom, left := AddRandom(bytes, budget, withX, c);
    plan := AddClass(bytes, budget, withRandom, left);
    WithWith(withX, RandomPhases(bytes, budget, c), ClassPhases(bytes, budget, left));
    WithWith(empty, ClassPhases(bytes, budget, c.x), RandomPhases(bytes, budget, c) + OtherPhases(bytes, budget, c));
  }

  // ----- what the arrangement is -----

  predicate IsRandom(modes: seq<string>, g: nat)
  {
    g < |modes| && modes[g] == "random"
  }

  predicate Ascending(ids: seq<nat>)
  {
    forall i, j :: 0 <= i < j < |ids| ==> ids[i] < ids[j]
  }

  /** The X slices among the first n groups, the random ones of the others, and the rest, each in ascending order. */
  ghost predicate AreClasses(axes: seq<Axis>, modes: seq<string>, n: nat, c: Classes)
    requires n <= |axes|
  {
    && Ascending(c.x) && Ascending(c.random) && Ascending(c.other)
    && (forall g: nat :: g in c.x <==> g < n && axes[g] == X)
    && (forall g: nat :: g in c.random <==> g < n && axes[g] != X && IsRandom(modes, g))
    && (forall g: nat :: g in c.other <==> g < n && axes[g] != X && !IsRandom(modes, g))
  }

  lemma {:induction false} GroupsListed(axes: seq<Axis>, modes: seq<string>, kind: Kind, n: nat)
    requires n <= |axes|
    ensures Ascending(GroupsOf(axes, modes, kind, n))
    ensures forall g: nat :: g in GroupsOf(axes, modes, kind, n) <==> g < n && KindOf(axes, modes, g) == kind
  {
    if n > 0 {
      GroupsListed(axes, modes, kind, n - 1);
      var front := GroupsOf(axes, modes, kind, n - 1);
      forall i | 0 <= i < |front|
        ensures front[i] < n - 1
      {
        assert front[i] in front;
      }
    }
  }

  lemma ClassesAre(axes: seq<Axis>, modes: seq<string>, n: nat)
    requires n <= |axes|
    ensures AreClasses(axes, modes, n, ClassesOf(axes, modes, n))
  {
    GroupsListed(axes, modes, XSlices, n);
    GroupsListed(axes, modes, RandomSlices, n);
    GroupsListed(axes, modes, OtherSlices, n);
  }

  /** Phases a of the X slices, then b of the random ones, then c of the rest; b holds both if they fit together. */
  ghost predicate InThreeParts(bytes: seq<nat>, budget: nat, c: Classes, a: seq<Phase>, b: seq<Phase>, d: seq<Phase>)
  {
    && IsNextFit(bytes, budget, c.x, a)
    && if c.random != [] && Total(bytes, c.random) + Total(bytes, c.other) <= budget then
         |b| == 1 && b[0].groupIds == c.random + c.other && b[0].outputBytes == Total(bytes, b[0].groupIds) && d == []
       else IsNextFit(bytes, budget, c.random, b) && IsNextFit(bytes, budget, c.other, d)
  }

  /** A part is one phase with the whole class when the class fits the budget. */
  predicate WholeIfFits(bytes: seq<nat>, budget: nat, gids: seq<nat>, phases: seq<Phase>)
  {
    Total(bytes, gids) <= budget ==> phases == if gids == [] then [] else [Phase(gids, Total(bytes, gids))]
  }

  ghost predicate ArrangedBy(bytes: seq<nat>, axes: seq<Axis>, modes: seq<string>, budget: nat, n: nat, phases: seq<Phase>,
                             c: Classes, a: seq<Phase>, b: seq<Phase>, d: seq<Phase>)
    requires n <= |axes|
  {
    && AreClasses(axes, modes, n, c) && phases == a + (b + d) && InThreeParts(bytes, budget, c, a, b, d)
    && WholeIfFits(bytes, budget, c.x, a)
    && (Joined(bytes, budget, c) || (WholeIfFits(bytes, budget, c.random, b) && WholeIfFits(bytes, budget, c.other, d)))
  }

  /** The phases serve the classes of the first n groups one after the other. */
  ghost predicate Arranged(bytes: seq<nat>, axes: seq<Axis>, modes: seq<string>, budget: nat, n: nat, phases: seq<Phase>)
    requires n <= |axes|
  {
    exists c, a, b, d :: ArrangedBy(bytes, axes, modes, budget, n, phases, c, a, b, d)
  }

  lemma PartWhole(bytes: seq<nat>, budget: nat, gids: seq<nat>)
    ensures IsNextFit(bytes, budget, gids, ClassPhases(bytes, budget, gids))
    ensures WholeIfFits(bytes, budget, gids, ClassPhases(bytes, budget, gids))
  {
    ClassIsNextFit(bytes, budget, gids);
    if Total(bytes, gids) <= budget {
      OnePhase(bytes, budget, gids);
    }
  }

  lemma AllPhasesArranged(bytes: seq<nat>, axes: seq<Axis>, modes: seq<string>, budget: nat, n: nat)
    requires n <= |axes|
    ensures Arranged(bytes, axes, modes, budget, n, AllPhases(bytes, budget, ClassesOf(axes, modes, n)))
  {
    var c := ClassesOf(axes, modes, n);
    ClassesAre(axes, modes, n);
    PartWhole(bytes, budget, c.x);
    PartWhole(bytes, budget, c.random);
    PartWhole(bytes, budget, c.other);
    assert ArrangedBy(bytes, axes, modes, budget, n, AllPhases(bytes, budget, c), c, ClassPhases(bytes, budget, c.x),
                      RandomPhases(bytes, budget, c), OtherPhases(bytes, budget, c));
  }

  /** Phase i of the three parts, by its part. */
  lemma PartOf(bytes: seq<nat>, budget: nat, c: Classes, a: seq<Phase>, b: seq<Phase>, d: seq<Phase>, i: nat, g: nat)
    requires InThreeParts(bytes, budget, c, a, b, d) && i < |a + (b + d)| && g in (a + (b + d))[i].groupIds
    ensures i < |a| ==> g in c.x
    ensures |a| <= i < |a| + |b| ==> if Joined(bytes, budget, c) then g in c.random || g in c.other else g in c.random
    ensures |a| + |b| <= i ==> !Joined(bytes, budget, c) && g in c.other
  {
    if i < |a| {
      OfClass(bytes, budget, c.x, a, i, g);
    } else if Joined(bytes, budget, c) {
      assert (a + (b + d))[i] == b[0];
    } else if i < |a| + |b| {
      OfClass(bytes, budget, c.random, b, i - |a|, g);
    } else {
      OfClass(bytes, budget, c.other, d, i - |a| - |b|, g);
    }
  }

  /**
   * No phase mixes X slices with others and all X slices come first; of the others the random ones come first, and
   * they share a phase with the rest exactly when there are both and they fit the budget together.
   */
  lemma PhaseOrder(bytes: seq<nat>, axes: seq<Axis>, modes: seq<string>, budget: nat, n: nat, phases: seq<Phase>,
                   i: nat, j: nat, g: nat, h: nat)
    requires n <= |axes| && Arranged(bytes, axes, modes, budget, n, phases)
    requires i <= j < |phases| && g in phases[i].groupIds && h in phases[j].groupIds
    ensures g < n && h < n && (axes[h] == X ==> axes[g] == X)
    ensures i == j ==> (axes[g] == X <==> axes[h] == X)
    ensures i < j && axes[h] != X && IsRandom(modes, h) ==> axes[g] == X || IsRandom(modes, g)
    ensures i < j && axes[g] != X && !IsRandom(modes, g) ==> axes[h] != X && !IsRandom(modes, h)
  {
    var c, a, b, d :| ArrangedBy(bytes, axes, modes, budget, n, phases, c, a, b, d);
    PartOf(bytes, budget, c, a, b, d, i, g);
    PartOf(bytes, budget, c, a, b, d, j, h);
  }

  lemma SharedExactlyIf(bytes: seq<nat>, axes: seq<Axis>, modes: seq<string>, budget: nat, n: nat, phases: seq<Phase>,
                        c: Classes)
    requires n <= |axes| && Arranged(bytes, axes, modes, budget, n, phases) && AreClasses(axes, modes, n, c)
    ensures (exists i: nat, g: nat, h: nat :: Share(axes, modes, phases, n, i, g, h)) <==>
            c.random != [] && c.other != [] && Total(bytes, c.random) + Total(bytes, c.other) <= budget
  {
    var e, a, b, d :| ArrangedBy(bytes, axes, modes, budget, n, phases, e, a, b, d);
    SameClasses(axes, modes, n, c, e);
    if i: nat, g: nat, h: nat :| Share(axes, modes, phases, n, i, g, h) {
      PartOf(bytes, budget, c, a, b, d, i, g);
      PartOf(bytes, budget, c, a, b, d, i, h);
    }
    if c.random != [] && c.other != [] && Joined(bytes, budget, c) {
      assert phases[|a|] == b[0] && c.random[0] in c.random && c.other[0] in c.other;
      assert Share(axes, modes, phases, n, |a|, c.random[0], c.other[0]);
    }
  }

  /** Phase i serves g, a random group, and h, one that is neither random nor of X slices. */
  predicate Share(axes: seq<Axis>, modes: seq<string>, phases: seq<Phase>, n: nat, i: nat, g: nat, h: nat)
    requires n <= |axes|
  {
    && i < |phases| && g in phases[i].groupIds && h in phases[i].groupIds && g < n && h < n
    && axes[g] != X && IsRandom(modes, g) && axes[h] != X && !IsRandom(modes, h)
  }

  lemma {:induction false} SameAscending(a: seq<nat>, b: seq<nat>)
    requires Ascending(a) && Ascending(b) && forall g :: g in a <==> g in b
    ensures a == b
  {
    if a != [] && b != [] {
      LastIsLargest(a, b);
      LastIsLargest(b, a);
      var front, front' := a[..|a| - 1], b[..|b| - 1];
      forall g
        ensures g in front <==> g in front'
      {
        assert g in front <==> g in a && g != a[|a| - 1];
        assert g in front' <==> g in b && g != b[|b| - 1];
      }
      SameAscending(front, front');
      assert a == front + [a[|a| - 1]] && b == front' + [b[|b| - 1]];
    } else {
      NoneIn(a, b);
      NoneIn(b, a);
    }
  }

  lemma NoneIn(a: seq<nat>, b: seq<nat>)
    ensures (forall g :: g in a ==> g in b) && b == [] ==> a == []
  {
    if a != [] {
      assert a[0] in a;
    }
  }

  lemma LastIsLargest(a: seq<nat>, b: seq<nat>)
    requires Ascending(a) && a != [] && b != [] && forall g :: g in b ==> g in a
    ensures b[|b| - 1] <= a[|a| - 1]
    ensures forall g :: g in a[..|a| - 1] <==> g in a && g != a[|a| - 1]
  {
    var last := a[|a| - 1];
    assert b[|b| - 1] in b;
    forall g
      ensures g in a[..|a| - 1] <==> g in a && g != last
    {
    }
  }

  lemma SameClasses(axes: seq<Axis>, modes: seq<string>, n: nat, c: Classes, e: Classes)
    requires n <= |axes| && AreClasses(axes, modes, n, c) && AreClasses(axes, modes, n, e)
    ensures c == e
  {
    SameAscending(c.x, e.x);
    SameAscending(c.random, e.random);
    SameAscending(c.other, e.other);
  }

  // ----- the plan -----

  /** What building promises: phases that hold every group once and fit the budget, their sums and the largest of them. */
  ghost predicate Built(bytes: seq<nat>, groups: nat, budget: nat, plan: PhasePlan)
  {
    && AllOk(bytes, plan.phases, budget) && plan.totalBytes == Total(bytes, Natural(|bytes|))
    && AllIds(plan.phases) == multiset(Natural(groups))
    && (forall i :: 0 <= i < |plan.phases| ==> plan.phases[i].outputBytes <= plan.maxPhaseBytes)
    && (plan.maxPhaseBytes == 0 || exists i :: 0 <= i < |plan.phases| && plan.phases[i].outputBytes == plan.maxPhaseBytes)
  }

  /** The phases, but for one of each class, are on average at least half full. */
  predicate HalfFull(phases: seq<Phase>, budget: nat)
  {
    (|phases| - 3) * budget <= 2 * PhaseBytes(phases, |phases|)
  }

  lemma JoinedKept(bytes: seq<nat>, budget: nat, a: seq<nat>, b: seq<nat>)
    requires a != [] && Total(bytes, a) + Total(bytes, b) <= budget
    ensures PhaseOk(bytes, PhaseOf(bytes, a + b), budget) && multiset(a + b) == multiset(a) + multiset(b)
    ensures AllIds([PhaseOf(bytes, a + b)]) == multiset(a + b)
  {
    TotalConcat(bytes, a, b, |b|);
    OnePhaseMore([], PhaseOf(bytes, a + b));
    assert [] + [PhaseOf(bytes, a + b)] == [PhaseOf(bytes, a + b)];
  }

  lemma AppendOk(bytes: seq<nat>, a: seq<Phase>, b: seq<Phase>, budget: nat)
    requires AllOk(bytes, a, budget) && AllOk(bytes, b, budget)
    ensures AllOk(bytes, a + b, budget) && AllIds(a + b) == AllIds(a) + AllIds(b)
  {
    IdsConcat(a, b, |b|);
  }

  /** The phases of the two classes that are not of X slices. */
  lemma RestKept(bytes: seq<nat>, budget: nat, c: Classes)
    ensures var rest := RandomPhases(bytes, budget, c) + OtherPhases(bytes, budget, c);
            AllOk(bytes, rest, budget) && AllIds(rest) == multiset(c.random) + multiset(c.other)
  {
    if Joined(bytes, budget, c) {
      JoinedKept(bytes, budget, c.random, c.other);
      AppendOk(bytes, [PhaseOf(bytes, c.random + c.other)], [], budget);
    } else {
      ClassFits(bytes, budget, c.random);
      ClassKept(bytes, budget, c.random);
      ClassFits(bytes, budget, c.other);
      ClassKept(bytes, budget, c.other);
      AppendOk(bytes, ClassPhases(bytes, budget, c.random), ClassPhases(bytes, budget, c.other), budget);
    }
  }

  lemma AllKept(bytes: seq<nat>, budget: nat, c: Classes)
    ensures AllOk(bytes, AllPhases(bytes, budget, c), budget) && AllIds(AllPhases(bytes, budget, c)) == Classified(c)
  {
    ClassFits(bytes, budget, c.x);
    ClassKept(bytes, budget, c.x);
    RestKept(bytes, budget, c);
    AppendOk(bytes, ClassPhases(bytes, budget, c.x), RandomPhases(bytes, budget, c) + OtherPhases(bytes, budget, c), budget);
    assert multiset(c.x) + (multiset(c.random) + multiset(c.other)) == Classified(c);
  }

  /** All but so many phases stand for half a budget each. */
  predicate HalfBut(phases: seq<Phase>, budget: nat, classes: nat)
  {
    (|phases| - classes) * budget <= 2 * PhaseBytes(phases, |phases|)
  }

  lemma ClassHalf(bytes: seq<nat>, budget: nat, gids: seq<nat>)
    ensures HalfBut(ClassPhases(bytes, budget, gids), budget, 1)
  {
    var phases := ClassPhases(bytes, budget, gids);
    ClassKept(bytes, budget, gids);
    if phases != [] {
      NextFitBound(bytes, budget, gids, phases);
    } else {
      assert (0 - 1) * budget <= 0;
    }
  }

  lemma HalfSum(a: seq<Phase>, b: seq<Phase>, budget: nat, m: nat, n: nat)
    requires HalfBut(a, budget, m) && HalfBut(b, budget, n)
    ensures HalfBut(a + b, budget, m + n)
  {
    PhaseBytesConcat(a, b, |b|);
    assert (|a| + |b| - (m + n)) * budget == (|a| - m) * budget + (|b| - n) * budget;
  }

  lemma FewPhases(phases: seq<Phase>, budget: nat, n: nat)
    requires |phases| <= n
    ensures HalfBut(phases, budget, n)
  {
    assert (|phases| - n) * budget <= 0;
  }

  lemma AllHalf(bytes: seq<nat>, budget: nat, c: Classes)
    ensures HalfFull(AllPhases(bytes, budget, c), budget)
  {
    ClassHalf(bytes, budget, c.x);
    var b, d := RandomPhases(bytes, budget, c), OtherPhases(bytes, budget, c);
    if Joined(bytes, budget, c) {
      FewPhases(b, budget, 1);
      FewPhases(d, budget, 1);
    } else {
      ClassHalf(bytes, budget, c.random);
      ClassHalf(bytes, budget, c.other);
    }
    HalfSum(b, d, budget, 1, 1);
    HalfSum(ClassPhases(bytes, budget, c.x), b + d, budget, 1, 2);
  }

  /** A plan built class by class. */
  lemma BuiltByClass(bytes: seq<nat>, axes: seq<Axis>, modes: seq<string>, budget: nat, empty: PhasePlan, plan: PhasePlan)
    requires empty.phases == [] && empty.maxPhaseBytes == 0 && empty.totalBytes == Total(bytes, Natural(|bytes|))
    requires plan == With(empty, AllPhases(bytes, budget, ClassesOf(axes, modes, Min(|bytes|, |axes|))))
    ensures plan.phases == AllPhases(bytes, budget, ClassesOf(axes, modes, Min(|bytes|, |axes|)))
    ensures Built(bytes, Min(|bytes|, |axes|), budget, plan) && HalfFull(plan.phases, budget)
  {
    var n := Min(|bytes|, |axes|);
    var c := ClassesOf(axes, modes, n);
    var phases := AllPhases(bytes, budget, c);
    assert empty.phases + phases == phases;
    AllKept(bytes, budget, c);
    AllClassified(axes, modes, n);
    AllHalf(bytes, budget, c);
    MaxOverIs(phases, |phases|, 0);
  }

  /** A plan of one phase with all groups, when everything fits. */
  lemma BuiltWhole(bytes: seq<nat>, budget: nat, empty: PhasePlan, plan: PhasePlan)
    requires bytes != [] && empty.phases == [] && empty.maxPhaseBytes == 0
    requires empty.totalBytes == Total(bytes, Natural(|bytes|)) <= budget
    requires plan.phases == With(empty, [PhaseOf(bytes, Natural(|bytes|))]).phases
    requires plan.maxPhaseBytes == With(empty, [PhaseOf(bytes, Natural(|bytes|))]).maxPhaseBytes
    requires plan.totalBytes == empty.totalBytes
    ensures plan.phases == [PhaseOf(bytes, Natural(|bytes|))]
    ensures Built(bytes, |bytes|, budget, plan) && HalfFull(plan.phases, budget)
  {
    var phases := [PhaseOf(bytes, Natural(|bytes|))];
    assert empty.phases + phases == phases && [] + phases == phases;
    OnePhaseMore([], PhaseOf(bytes, Natural(|bytes|)));
    MaxOverIs(phases, 1, 0);
    FewPhases(phases, budget, 3);
  }

  /**
   * Groups beyond the axis list are left out, unless all outputs fit the budget anyway: then they are one phase.
   * Otherwise the phases serve the classes one after the other.
   */
  method BuildContestPhasePlan(bytes: seq<nat>, axes: seq<Axis>, modes: seq<string>, budget: nat) returns (plan: PhasePlan)
    ensures var total := Total(bytes, Natural(|bytes|));
            && Built(bytes, if total <= budget then |bytes| else Min(|bytes|, |axes|), budget, plan)
            && (plan.allDeferred <==> bytes != [] && total <= budget)
            && (total > budget ==> Arranged(bytes, axes, modes, budget, Min(|bytes|, |axes|), plan.phases))
            && (bytes != [] && total <= budget ==> plan.phases == [Phase(Natural(|bytes|), total)])
    ensures HalfFull(plan.phases, budget)
  {
    plan := PhasePlan([], false, 0, 0);
    assert Natural(0) == [];
    if bytes == [] {
      FewPhases([], budget, 3);
      return;
    }
    var total := Total(bytes, Natural(|bytes|));
    var empty := plan.(totalBytes := total);
    if total <= budget {
      plan := AppendPhase(empty, bytes, Natural(|bytes|));
      plan := plan.(allDeferred := true);
      BuiltWhole(bytes, budget, empty, plan);
      return;
    }
    plan := BuildByClass(bytes, axes, modes, budget, empty);
    AllPhasesArranged(bytes, axes, modes, budget, Min(|bytes|, |axes|));
    BuiltByClass(bytes, axes, modes, budget, empty, plan);
  }

  // ----- validation -----

  datatype PlanError = PhaseExceeds(bytes: nat) | UnknownGroup(g: nat) | DuplicateGroup(g: nat) | WrongCount(found: nat)

  /** The phases fit the budget and hold every group below the count exactly once. */
  ghost predicate ValidPlan(plan: PhasePlan, groups: nat, budget: nat)
  {
    && (forall i :: 0 <= i < |plan.phases| ==> WithinBudget(plan.phases[i], budget))
    && AllIds(plan.phases) == multiset(Natural(groups))
  }

  /** The ids met so far: all known, none twice, and counted. */
  ghost predicate Seen(ids: multiset<nat>, seen: set<nat>, total: nat, groups: nat)
  {
    && (forall g :: g in ids ==> g < groups && ids[g] == 1)
    && (forall g :: g in seen <==> g in ids) && total == |seen| == |ids|
  }

  lemma SeeNext(ids: multiset<nat>, seen: set<nat>, total: nat, groups: nat, g: nat)
    requires Seen(ids, seen, total, groups) && g < groups && g !in seen
    ensures Seen(ids + multiset{g}, seen + {g}, total + 1, groups)
  {
  }

  lemma NaturalOnce(n: nat, g: nat)
    ensures multiset(Natural(n))[g] == if g < n then 1 else 0
  {
    DistinctCounts(Natural(n), g);
    if g < n {
      assert Natural(n)[g] == g;
    } else {
      assert g !in Natural(n);
    }
  }

  /** Counting every id once and finding as many as there are groups, one has found them all. */
  lemma AllSeen(ids: multiset<nat>, seen: set<nat>, total: nat, groups: nat)
    requires Seen(ids, seen, total, groups)
    ensures total == groups <==> ids == multiset(Natural(groups))
  {
    assert seen <= Range(groups);
    if total == groups {
      SubsetOfSameSize(seen, Range(groups));
      forall g: nat
        ensures ids[g] == multiset(Natural(groups))[g]
      {
        NaturalOnce(groups, g);
      }
    }
    if ids == multiset(Natural(groups)) {
      assert |ids| == |Natural(groups)|;
    }
  }

  /** A part of the ids that cannot belong to any valid plan makes the plan invalid. */
  lemma BadIds(plan: PhasePlan, groups: nat, budget: nat, ids: multiset<nat>, g: nat)
    requires ids <= AllIds(plan.phases) && (ids[g] > 1 || (ids[g] > 0 && g >= groups))
    ensures !ValidPlan(plan, groups, budget)
  {
    NaturalOnce(groups, g);
  }

  lemma {:induction false} IdsMono(phases: seq<Phase>, a: nat, b: nat)
    requires a <= b <= |phases|
    ensures Ids(phases, a) <= Ids(phases, b)
    decreases b
  {
    if a < b {
      IdsMono(phases, a, b - 1);
    }
  }

  /** The ids of the phases before number i and of its first j groups. */
  ghost function IdsTo(phases: seq<Phase>, i: nat, j: nat): multiset<nat>
    requires i < |phases| && j <= |phases[i].groupIds|
  {
    Ids(phases, i) + multiset(phases[i].groupIds[..j])
  }

  lemma NextId(phases: seq<Phase>, i: nat, j: nat)
    requires i < |phases| && j < |phases[i].groupIds|
    ensures IdsTo(phases, i, j + 1) == IdsTo(phases, i, j) + multiset{phases[i].groupIds[j]}
    ensures IdsTo(phases, i, j + 1) <= AllIds(phases)
  {
    var gids := phases[i].groupIds;
    assert gids[..j + 1] == gids[..j] + [gids[j]] && gids == gids[..j + 1] + gids[j + 1..];
    IdsMono(phases, i + 1, |phases|);
  }

  lemma PhaseEnds(phases: seq<Phase>, i: nat)
    requires i < |phases|
    ensures IdsTo(phases, i, 0) == Ids(phases, i) && IdsTo(phases, i, |phases[i].groupIds|) == Ids(phases, i + 1)
  {
    var gids := phases[i].groupIds;
    assert gids[..0] == [] && gids[..|gids|] == gids;
  }

  method ValidateGroup(ghost plan: PhasePlan, groups: nat, ghost budget: nat, g: nat, seen: set<nat>, total: nat,
                       ghost ids: multiset<nat>)
    returns (error: Option<PlanError>, seen': set<nat>, total': nat)
    requires Seen(ids, seen, total, groups) && ids + multiset{g} <= AllIds(plan.phases)
    ensures error == None ==> Seen(ids + multiset{g}, seen', total', groups)
    ensures error.Some? ==> !ValidPlan(plan, groups, budget)
  {
    error, seen', total' := None, seen, total;
    if g >= groups {
      BadIds(plan, groups, budget, ids + multiset{g}, g);
      error := Some(UnknownGroup(g));
    } else if g in seen {
      BadIds(plan, groups, budget, ids + multiset{g}, g);
      error := Some(DuplicateGroup(g));
    } else {
      SeeNext(ids, seen, total, groups, g);
      seen', total' := seen + {g}, total + 1;
    }
  }

  /** Looks at the groups of phase i. */
  method ValidatePhase(plan: PhasePlan, groups: nat, ghost budget: nat, i: nat, seen: set<nat>, total: nat)
    returns (error: Option<PlanError>, seen': set<nat>, total': nat)
    requires i < |plan.phases| && Seen(Ids(plan.phases, i), seen, total, groups)
    ensures error == None ==> Seen(Ids(plan.phases, i + 1), seen', total', groups)
    ensures error.Some? ==> !ValidPlan(plan, groups, budget)
  {
    var gids := plan.phases[i].groupIds;
    seen', total', error := seen, total, None;
    PhaseEnds(plan.phases, i);
    var j: nat := 0;
    while j < |gids|
      invariant j <= |gids| && error == None && Seen(IdsTo(plan.phases, i, j), seen', total', groups)
    {
      NextId(plan.phases, i, j);
      error, seen', total' := ValidateGroup(plan, groups, budget, gids[j], seen', total', IdsTo(plan.phases, i, j));
      if error.Some? {
        return;
      }
      j := j + 1;
    }
  }

  /** Accepts exactly the valid plans. */
  method ValidateContestPhasePlan(plan: PhasePlan, groups: nat, budget: nat) returns (error: Option<PlanError>)
    ensures error == None <==> ValidPlan(plan, groups, budget)
  {
    var seen: set<nat>, total: nat := {}, 0;
    var i: nat := 0;
    while i < |plan.phases|
      invariant i <= |plan.phases| && Seen(Ids(plan.phases, i), seen, total, groups)
      invariant forall k :: 0 <= k < i ==> WithinBudget(plan.phases[k], budget)
    {
      if |plan.phases[i].groupIds| != 1 && plan.phases[i].outputBytes > budget {
        return Some(PhaseExceeds(plan.phases[i].outputBytes));
      }
      error, seen, total := ValidatePhase(plan, groups, budget, i, seen, total);
      if error.Some? {
        return;
      }
      i := i + 1;
    }
    AllSeen(AllIds(plan.phases), seen, total, groups);
    error := if total != groups then Some(WrongCount(total)) else None;
  }

  /** The plans built are valid exactly when every group has an axis, or all outputs fit the budget. */
  lemma BuiltIsValid(bytes: seq<nat>, axes: seq<Axis>, budget: nat, plan: PhasePlan, total: nat)
    requires total == Total(bytes, Natural(|bytes|))
    requires Built(bytes, if total <= budget then |bytes| else Min(|bytes|, |axes|), budget, plan)
    ensures ValidPlan(plan, |bytes|, budget) <==> |axes| >= |bytes| || total <= budget
  {
    forall i | 0 <= i < |plan.phases|
      ensures WithinBudget(plan.phases[i], budget)
    {
      assert PhaseOk(bytes, plan.phases[i], budget);
    }
    var groups := if total <= budget then |bytes| else Min(|bytes|, |axes|);
    if groups < |bytes| {
      NaturalOnce(groups, groups);
      NaturalOnce(|bytes|, groups);
    }
  }
}
