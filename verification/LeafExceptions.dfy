/** The exceptions that the encoder chooses for a block besides the mandatory ones: the smallest of the other cells. */
module LeafExceptions {
  import opened Basics
  import opened Float32
  import opened RelativeError
  import opened BlockCells
  import opened LeafRecords
  import opened LeafChoice

  /** The compressible cells that are exceptions all the same, and those that are not. */
  ghost function Optional(mask: seq<bool>, mandatory: seq<bool>, exceptions: seq<bool>, chosen: bool): set<nat>
    requires |mask| == |mandatory| == |exceptions| == CELLS
  {
    set i: nat | i < CELLS && Compressible(mask, mandatory, i) && exceptions[i] == chosen
  }

  lemma InOrder(input: seq<Float>, i: nat, j: nat, k: nat)
    requires i < |input| && j < |input| && k < |input|
    ensures Precedes(input, i, j) && Precedes(input, j, k) ==> Precedes(input, i, k)
    ensures i != j ==> Precedes(input, i, j) != Precedes(input, j, i)
  {
  }

  lemma {:induction false} LastOf(input: seq<Float>, cells: set<nat>) returns (last: nat)
    requires cells != {} && forall i :: i in cells ==> i < |input|
    ensures last in cells && forall i :: i in cells && i != last ==> Precedes(input, i, last)
  {
    last :| last in cells;
    var first, rest := last, cells - {last};
    assert forall i :: i in cells && i != first ==> i in rest;
    if rest != {} {
      var other := LastOf(input, rest);
      last := if Precedes(input, first, other) then other else first;
      forall i | i in cells && i != last
        ensures Precedes(input, i, last)
      {
        InOrder(input, first, other, i);
        InOrder(input, i, other, first);
      }
    }
  }

  lemma {:induction false} FirstOf(input: seq<Float>, cells: set<nat>) returns (first: nat)
    requires cells != {} && forall i :: i in cells ==> i < |input|
    ensures first in cells && forall i :: i in cells && i != first ==> Precedes(input, first, i)
  {
    first :| first in cells;
    var last, rest := first, cells - {first};
    assert forall i :: i in cells && i != last ==> i in rest;
    if rest != {} {
      var other := FirstOf(input, rest);
      first := if Precedes(input, other, last) then other else last;
      forall i | i in cells && i != first
        ensures Precedes(input, first, i)
      {
        InOrder(input, last, other, i);
        InOrder(input, other, last, i);
      }
    }
  }

  lemma SmallerFewer(input: seq<Float>, mask: seq<bool>, mandatory: seq<bool>, i: nat, j: nat)
    requires IsBlock(input, mask) && |mandatory| == CELLS && i < CELLS && j < CELLS
    requires Compressible(mask, mandatory, i) && Precedes(input, i, j)
    ensures |Smaller(input, mask, mandatory, i)| < |Smaller(input, mask, mandatory, j)|
  {
    var a, b := Smaller(input, mask, mandatory, i), Smaller(input, mask, mandatory, j);
    forall k | k in a
      ensures k in b - {i}
    {
      InOrder(input, k, i, j);
    }
    assert i in b;
    SubsetSize(a, b - {i});
  }

  /** An optional exception is smaller than every compressible cell that is none; cells of one size go in order. */
  lemma ChosenSmaller(input: seq<Float>, mask: seq<bool>, mandatory: seq<bool>, count: nat, i: nat, j: nat)
    requires IsBlock(input, mask) && |mandatory| == CELLS
    requires var exceptions := ExceptionsFor(input, mask, mandatory, count);
             i in Optional(mask, mandatory, exceptions, true) && j in Optional(mask, mandatory, exceptions, false)
    ensures Magnitude(input[i]) < Magnitude(input[j]) || (Magnitude(input[i]) == Magnitude(input[j]) && i < j)
  {
    if Precedes(input, j, i) {
      SmallerFewer(input, mask, mandatory, j, i);
    }
  }

  lemma ChosenAtMost(input: seq<Float>, mask: seq<bool>, mandatory: seq<bool>, count: nat, chosen: set<nat>)
    requires IsBlock(input, mask) && |mandatory| == CELLS
    requires chosen == Optional(mask, mandatory, ExceptionsFor(input, mask, mandatory, count), true)
    ensures |chosen| <= count
  {
    if chosen != {} {
      var last := LastOf(input, chosen);
      var smaller := Smaller(input, mask, mandatory, last);
      assert chosen <= smaller + {last};
      SubsetSize(chosen, smaller + {last});
    }
  }

  lemma ChosenAtLeast(input: seq<Float>, mask: seq<bool>, mandatory: seq<bool>, count: nat, chosen: set<nat>, rest: set<nat>)
    requires IsBlock(input, mask) && |mandatory| == CELLS
    requires chosen == Optional(mask, mandatory, ExceptionsFor(input, mask, mandatory, count), true)
    requires rest == Optional(mask, mandatory, ExceptionsFor(input, mask, mandatory, count), false)
    ensures rest != {} ==> |chosen| >= count
  {
    if rest != {} {
      var first := FirstOf(input, rest);
      var smaller := Smaller(input, mask, mandatory, first);
      forall i | i in smaller
        ensures i in chosen
      {
        InOrder(input, i, first, i);
      }
      SubsetSize(smaller, chosen);
    }
  }

  /** There are as many optional exceptions as asked for, unless the compressible cells run out. */
  lemma ChosenCount(input: seq<Float>, mask: seq<bool>, mandatory: seq<bool>, count: nat)
    requires IsBlock(input, mask) && |mandatory| == CELLS
    ensures var exceptions := ExceptionsFor(input, mask, mandatory, count);
            && |Optional(mask, mandatory, exceptions, true)| <= count
            && (Optional(mask, mandatory, exceptions, false) != {} ==> |Optional(mask, mandatory, exceptions, true)| == count)
            && forall i :: 0 <= i < CELLS ==>
                 (mandatory[i] ==> exceptions[i]) && (exceptions[i] && !mandatory[i] ==> mask[i])
  {
    var exceptions := ExceptionsFor(input, mask, mandatory, count);
    ChosenAtMost(input, mask, mandatory, count, Optional(mask, mandatory, exceptions, true));
    ChosenAtLeast(input, mask, mandatory, count, Optional(mask, mandatory, exceptions, true),
                  Optional(mask, mandatory, exceptions, false));
  }
}
