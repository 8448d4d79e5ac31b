/** Attempts made round by round, and the records that a search over them finds before it ends. */
module LeafSearch {
  import opened Basics
  import opened LeafChoice

  // ----- attempts in order -----

  /** The record that attempt g of round n makes, if it passes. */
  type Attempts = (nat, nat) -> Option<Candidate>

  predicate Earlier(m: nat, g: nat, n: nat, f: nat)
  {
    m < n || (m == n && g < f)
  }

  ghost predicate MadeBefore(at: Attempts, n: nat, f: nat, c: Candidate)
  {
    exists m: nat, g: nat :: Earlier(m, g, n, f) && at(m, g) == Some(c)
  }

  /** Attempt (m, g) made the last record before attempt (n, f). */
  ghost predicate LastMade(at: Attempts, n: nat, f: nat, m: nat, g: nat)
  {
    && Earlier(m, g, n, f) && at(m, g).Some?
    && forall p: nat, q: nat :: Earlier(m, g, p, q) && Earlier(p, q, n, f) ==> at(p, q) == None
  }

  /** The last record made before attempt (n, f) is no smaller than one made before it. */
  ghost predicate Stalled(at: Attempts, n: nat, f: nat)
  {
    exists m: nat, g: nat, d: Candidate ::
      LastMade(at, n, f, m, g) && MadeBefore(at, m, g, d) && |d.payload| <= |at(m, g).value.payload|
  }

  /** The records made before attempt (n, f), the last one last. */
  ghost predicate Lists(at: Attempts, found: seq<Candidate>, n: nat, f: nat)
  {
    && (forall c :: c in found <==> MadeBefore(at, n, f, c))
    && (found != [] ==> exists m: nat, g: nat :: EndsWith(at, found, n, f, m, g))
  }

  ghost predicate EndsWith(at: Attempts, found: seq<Candidate>, n: nat, f: nat, m: nat, g: nat)
    requires found != []
  {
    && LastMade(at, n, f, m, g) && at(m, g) == Some(found[|found| - 1])
    && forall c :: c in found[..|found| - 1] <==> MadeBefore(at, m, g, c)
  }

  lemma ListsNothing(at: Attempts)
    ensures Lists(at, [], 0, 0)
  {
  }

  lemma ListsAttempt(at: Attempts, found: seq<Candidate>, n: nat, f: nat)
    requires Lists(at, found, n, f)
    ensures Lists(at, found + OptionalCandidate(at(n, f)), n, f + 1)
  {
    var found' := found + OptionalCandidate(at(n, f));
    forall c
      ensures c in found' <==> MadeBefore(at, n, f + 1, c)
    {
      MadeNext(at, n, f, c);
    }
    if at(n, f).Some? {
      assert found'[..|found'| - 1] == found;
      assert EndsWith(at, found', n, f + 1, n, f);
    } else if found != [] {
      var m: nat, g: nat :| EndsWith(at, found, n, f, m, g);
      assert found' == found;
      assert EndsWith(at, found', n, f + 1, m, g);
    }
  }

  lemma MadeNext(at: Attempts, n: nat, f: nat, c: Candidate)
    ensures MadeBefore(at, n, f + 1, c) <==> MadeBefore(at, n, f, c) || at(n, f) == Some(c)
  {
    if MadeBefore(at, n, f, c) {
      var m: nat, g: nat :| Earlier(m, g, n, f) && at(m, g) == Some(c);
      assert Earlier(m, g, n, f + 1);
    }
    if at(n, f) == Some(c) {
      assert Earlier(n, f, n, f + 1);
    }
  }

  /** A round ends when none of its later attempts pass. */
  lemma ListsRound(at: Attempts, found: seq<Candidate>, n: nat, f: nat)
    requires Lists(at, found, n, f) && forall g: nat :: g >= f ==> at(n, g) == None
    ensures Lists(at, found, n + 1, 0)
  {
    forall c
      ensures MadeBefore(at, n + 1, 0, c) <==> MadeBefore(at, n, f, c)
    {
      if MadeBefore(at, n, f, c) {
        var m: nat, g: nat :| Earlier(m, g, n, f) && at(m, g) == Some(c);
        assert Earlier(m, g, n + 1, 0);
      }
    }
    if found != [] {
      var m: nat, g: nat :| EndsWith(at, found, n, f, m, g);
      assert EndsWith(at, found, n + 1, 0, m, g);
    }
  }

  lemma ListsNext(at: Attempts, found: seq<Candidate>, n: nat, f: nat, found': seq<Candidate>, f': nat)
    requires Lists(at, found, n, f) && found' == found + OptionalCandidate(at(n, f)) && f' == f + 1
    ensures Lists(at, found', n, f')
  {
    ListsAttempt(at, found, n, f);
  }

  /** The records of the first f attempts of round n. */
  function RoundRecords(at: Attempts, n: nat, f: nat): seq<Candidate>
  {
    if f == 0 then [] else RoundRecords(at, n, f - 1) + OptionalCandidate(at(n, f - 1))
  }

  lemma {:induction false} ListsRecords(at: Attempts, found: seq<Candidate>, n: nat, f: nat)
    requires Lists(at, found, n, 0)
    ensures Lists(at, found + RoundRecords(at, n, f), n, f)
  {
    if f == 0 {
      assert found + [] == found;
    } else {
      ListsRecords(at, found, n, f - 1);
      var front, last := RoundRecords(at, n, f - 1), OptionalCandidate(at(n, f - 1));
      assert found + front + last == found + (front + last);
      ListsNext(at, found + front, n, f - 1, found + RoundRecords(at, n, f), f);
    }
  }

  lemma LastOnce(at: Attempts, n: nat, f: nat, m: nat, g: nat, m': nat, g': nat)
    requires LastMade(at, n, f, m, g) && LastMade(at, n, f, m', g')
    ensures m == m' && g == g'
  {
  }

  lemma StalledIff(at: Attempts, found: seq<Candidate>, n: nat, f: nat)
    requires Lists(at, found, n, f)
    ensures Stalled(at, n, f) <==> !LastImproves(found)
  {
    if Stalled(at, n, f) {
      var m: nat, g: nat, d: Candidate :|
        LastMade(at, n, f, m, g) && MadeBefore(at, m, g, d) && |d.payload| <= |at(m, g).value.payload|;
      assert MadeBefore(at, n, f, at(m, g).value);
      var p: nat, q: nat :| EndsWith(at, found, n, f, p, q);
      LastOnce(at, n, f, m, g, p, q);
      assert d in found[..|found| - 1];
    }
    if !LastImproves(found) {
      var k :| 0 <= k < |found| - 1 && !(SerializedSize(found[|found| - 1]) < SerializedSize(found[k]));
      var m: nat, g: nat :| EndsWith(at, found, n, f, m, g);
      assert found[k] in found[..|found| - 1];
      assert MadeBefore(at, m, g, found[k]);
    }
  }

  // ----- searches over rounds -----

  /** The search comes to round n: no round before that may end it found the search stalled. */
  ghost predicate Reached(at: Attempts, ends: nat -> bool, n: nat)
  {
    forall m: nat :: m < n && ends(m) ==> !Stalled(at, m + 1, 0)
  }

  /** The record of an attempt in one of the first n rounds, in a round that the search comes to. */
  ghost predicate Listed(at: Attempts, ends: nat -> bool, n: nat, c: Candidate)
  {
    exists m: nat, g: nat :: m < n && Reached(at, ends, m) && at(m, g) == Some(c)
  }

  ghost predicate Searched(at: Attempts, ends: nat -> bool, n: nat, s: Search)
  {
    && (s.over <==> !Reached(at, ends, n))
    && (!s.over ==> Lists(at, s.found, n, 0))
    && forall c :: c in s.found <==> Listed(at, ends, n, c)
  }

  lemma SearchedNothing(at: Attempts, ends: nat -> bool)
    ensures Searched(at, ends, 0, Search([], false))
  {
    ListsNothing(at);
  }

  lemma OverStays(at: Attempts, ends: nat -> bool, n: nat, s: Search)
    requires Searched(at, ends, n, s) && s.over
    ensures Searched(at, ends, n + 1, s)
  {
    forall c
      ensures Listed(at, ends, n + 1, c) <==> Listed(at, ends, n, c)
    {
    }
  }

  lemma RoundSearched(at: Attempts, ends: nat -> bool, n: nat, s: Search, found: seq<Candidate>, next: nat)
    requires Searched(at, ends, n, s) && !s.over && next == n + 1 && Lists(at, found, next, 0)
    ensures Searched(at, ends, next, Search(found, ends(n) && !LastImproves(found)))
  {
    StalledIff(at, found, next, 0);
    forall c
      ensures Listed(at, ends, next, c) <==> MadeBefore(at, next, 0, c)
    {
      if MadeBefore(at, next, 0, c) {
        var m: nat, g: nat :| Earlier(m, g, next, 0) && at(m, g) == Some(c);
        assert Reached(at, ends, m);
      }
      if Listed(at, ends, next, c) {
        var m: nat, g: nat :| m < next && Reached(at, ends, m) && at(m, g) == Some(c);
        assert Earlier(m, g, next, 0);
      }
    }
  }
}
