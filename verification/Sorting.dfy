/** Sorting by a total preorder: what the code base relies on of the library sort. */
module Sorting {

  ghost predicate Preorder<T(!new)>(leq: (T, T) -> bool)
  {
    && (forall a, b :: leq(a, b) || leq(b, a))
    && (forall a, b, c :: leq(a, b) && leq(b, c) ==> leq(a, c))
  }

  predicate SortedBy<T>(s: seq<T>, leq: (T, T) -> bool)
  {
    forall i, j :: 0 <= i < j < |s| ==> leq(s[i], s[j])
  }

  lemma InsertedSorted<T(!new)>(s: seq<T>, i: nat, x: T, leq: (T, T) -> bool)
    requires Preorder(leq) && SortedBy(s, leq) && i <= |s|
    requires i > 0 ==> leq(s[i - 1], x)
    requires forall k :: i <= k < |s| ==> leq(x, s[k])
    ensures SortedBy(s[..i] + [x] + s[i..], leq)
  {
    var r := s[..i] + [x] + s[i..];
    forall u, v | 0 <= u < v < |r|
      ensures leq(r[u], r[v])
    {
      if u < i {
        assert r[u] == s[u];
        assert leq(s[u], x) by {
          if u < i - 1 { assert leq(s[u], s[i - 1]); }
        }
        if v > i {
          assert r[v] == s[v - 1];
        }
      } else {
        assert r[v] == s[v - 1];
      }
    }
  }

  lemma InsertedElements<T>(s: seq<T>, i: nat, x: T)
    requires i <= |s|
    ensures multiset(s[..i] + [x] + s[i..]) == multiset(s) + multiset{x}
  {
    assert s == s[..i] + s[i..];
  }

  method Insert<T(!new)>(s: seq<T>, x: T, leq: (T, T) -> bool) returns (r: seq<T>)
    requires Preorder(leq) && SortedBy(s, leq)
    ensures SortedBy(r, leq) && multiset(r) == multiset(s) + multiset{x}
  {
    var i := |s|;
    while i > 0 && !leq(s[i - 1], x)
      invariant 0 <= i <= |s|
      invariant forall k :: i <= k < |s| ==> leq(x, s[k])
    {
      i := i - 1;
    }
    InsertedSorted(s, i, x, leq);
    InsertedElements(s, i, x);
    r := s[..i] + [x] + s[i..];
  }

  method Sort<T(!new)>(s: seq<T>, leq: (T, T) -> bool) returns (r: seq<T>)
    requires Preorder(leq)
    ensures SortedBy(r, leq) && multiset(r) == multiset(s)
  {
    r := [];
    var n: nat := 0;
    while n < |s|
      invariant n <= |s| && SortedBy(r, leq) && multiset(r) == multiset(s[..n])
    {
      assert s[..n + 1] == s[..n] + [s[n]];
      r := Insert(r, s[n], leq);
      n := n + 1;
    }
    assert s[..n] == s;
  }

  lemma SameElements<T>(r: seq<T>, s: seq<T>)
    requires multiset(r) == multiset(s)
    ensures |r| == |s|
    ensures forall x :: x in r <==> x in s
  {
    assert |multiset(r)| == |r| && |multiset(s)| == |s|;
    forall x
      ensures x in r <==> x in s
    {
      assert x in r <==> x in multiset(r);
      assert x in s <==> x in multiset(s);
    }
  }

  function Map<T, U>(f: T -> U, s: seq<T>): seq<U>
  {
    seq(|s|, i requires 0 <= i < |s| => f(s[i]))
  }

  lemma TakeOut<T>(s: seq<T>, i: nat)
    requires i < |s|
    ensures multiset(s) == multiset{s[i]} + multiset(s[..i] + s[i + 1..])
  {
    assert s == s[..i] + [s[i]] + s[i + 1..];
  }

  lemma MapRest<T, U>(f: T -> U, s: seq<T>, i: nat)
    requires i < |s|
    ensures Map(f, s)[..i] + Map(f, s)[i + 1..] == Map(f, s[..i] + s[i + 1..])
  {
  }

  lemma FirstElsewhere<T>(a: seq<T>, b: seq<T>) returns (i: nat)
    requires multiset(a) == multiset(b) && a != []
    ensures i < |b| && b[i] == a[0] && multiset(a[1..]) == multiset(b[..i] + b[i + 1..])
  {
    SameElements(a, b);
    assert a[0] in b;
    i :| 0 <= i < |b| && b[i] == a[0];
    TakeOut(b, i);
    TakeOut(a, 0);
    assert a[..0] + a[1..] == a[1..];
    assert multiset(a[1..]) == multiset(a) - multiset{a[0]};
  }

  /** Rearranging the arguments rearranges the images. */
  lemma {:induction false} MapPermuted<T, U>(f: T -> U, a: seq<T>, b: seq<T>)
    requires multiset(a) == multiset(b)
    ensures multiset(Map(f, a)) == multiset(Map(f, b))
    decreases |a|
  {
    SameElements(a, b);
    if a != [] {
      var i := FirstElsewhere(a, b);
      MapPermuted(f, a[1..], b[..i] + b[i + 1..]);
      MapTakeOut(f, a, 0);
      MapTakeOut(f, b, i);
      assert a[..0] + a[1..] == a[1..];
    }
  }

  lemma MapTakeOut<T, U>(f: T -> U, s: seq<T>, i: nat)
    requires i < |s|
    ensures multiset(Map(f, s)) == multiset{f(s[i])} + multiset(Map(f, s[..i] + s[i + 1..]))
  {
    TakeOut(Map(f, s), i);
    MapRest(f, s, i);
  }

  predicate Distinct<T(==)>(s: seq<T>)
  {
    forall i, j :: 0 <= i < j < |s| ==> s[i] != s[j]
  }

  lemma {:induction false} DistinctCounts<T>(s: seq<T>, x: T)
    requires Distinct(s)
    ensures multiset(s)[x] <= 1
  {
    if s != [] {
      var front := s[..|s| - 1];
      assert s == front + [s[|s| - 1]];
      DistinctCounts(front, x);
      if x == s[|s| - 1] {
        assert x !in front;
      }
    }
  }

  lemma TwiceCounts<T>(s: seq<T>, i: nat, j: nat)
    requires i < j < |s| && s[i] == s[j]
    ensures multiset(s)[s[i]] >= 2
  {
    assert s == s[..j] + s[j..];
    assert s[i] in s[..j] && s[j] in s[j..];
  }

  /** Rearranging distinct elements leaves them distinct. */
  lemma DistinctPermuted<T>(a: seq<T>, b: seq<T>)
    requires multiset(a) == multiset(b) && Distinct(a)
    ensures Distinct(b)
  {
    forall i, j | 0 <= i < j < |b|
      ensures b[i] != b[j]
    {
      if b[i] == b[j] {
        TwiceCounts(b, i, j);
        DistinctCounts(a, b[i]);
      }
    }
  }

  function Sum(s: seq<nat>): nat
  {
    if s == [] then 0 else s[0] + Sum(s[1..])
  }

  lemma {:induction false} SumConcat(a: seq<nat>, b: seq<nat>)
    ensures Sum(a + b) == Sum(a) + Sum(b)
  {
    if a == [] {
      assert a + b == b;
    } else {
      assert (a + b)[1..] == a[1..] + b;
      SumConcat(a[1..], b);
    }
  }

  /** Rearranging does not change the sum. */
  lemma {:induction false} SumPermuted(a: seq<nat>, b: seq<nat>)
    requires multiset(a) == multiset(b)
    ensures Sum(a) == Sum(b)
    decreases |a|
  {
    SameElements(a, b);
    if a != [] {
      var i := FirstElsewhere(a, b);
      SumPermuted(a[1..], b[..i] + b[i + 1..]);
      SumConcat(b[..i], b[i + 1..]);
      SumConcat(b[..i], [b[i]] + b[i + 1..]);
      assert b == b[..i] + ([b[i]] + b[i + 1..]);
    }
  }
}
