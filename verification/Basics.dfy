/** Arithmetic and sequence facts shared by the other modules. */
module Basics {

  datatype Option<+T> = None | Some(value: T)

  type Byte = b: nat | b < 256

  function Min(a: nat, b: nat): nat
  {
    if a < b then a else b
  }

  function Max(a: nat, b: nat): nat
  {
    if a < b then b else a
  }

  function CeilDiv(a: nat, b: nat): nat
    requires b > 0
  {
    (a + b - 1) / b
  }

  lemma MulMono(a: nat, b: nat, c: nat)
    requires a <= b
    ensures a * c <= b * c
  {
  }

  lemma MulNext(a: nat, c: nat)
    ensures (a + 1) * c == a * c + c
  {
  }

  /** A mixed-radix number: quotient q, remainder r below the radix d. */
  lemma DivMod(q: nat, r: nat, d: nat)
    requires r < d
    ensures (q * d + r) / d == q && (q * d + r) % d == r
  {
    var i := q * d + r;
    var k := i / d;
    DivModBack(i, d);
    MulNext(k, d);
    MulNext(q, d);
    if k < q {
      MulMono(k + 1, q, d);
    } else if k > q {
      MulMono(q + 1, k, d);
    }
  }

  lemma DivModBack(i: nat, d: nat)
    requires d > 0
    ensures i / d * d + i % d == i && i % d < d
  {
  }

  /** How many whole pieces of the given size fit. */
  function Pieces(total: nat, size: nat): nat
    requires size > 0
  {
    total / size
  }

  /** Row and column of position p in rows of the given width. */
  function Row(p: nat, width: nat): nat
    requires width > 0
  {
    p / width
  }

  function Column(p: nat, width: nat): nat
    requires width > 0
  {
    p % width
  }

  lemma RadixBound(q: nat, r: nat, n: nat, d: nat)
    requires q < n && r < d
    ensures q * d + r < n * d
  {
    MulMono(q + 1, n, d);
    MulNext(q, d);
  }

  lemma DivBound(i: nat, n: nat, d: nat)
    requires d > 0 && i < n * d
    ensures i / d < n
  {
    if i / d >= n {
      MulMono(n, i / d, d);
      DivModBack(i, d);
    }
  }

  lemma Room(q: nat, n: nat, d: nat)
    requires q < n
    ensures q * d + d <= n * d
  {
    MulMono(q + 1, n, d);
    MulNext(q, d);
  }

  lemma QuotientAtLeast(i: nat, q: nat, d: nat)
    requires d > 0 && q * d <= i
    ensures Row(i, d) >= q
  {
    var k := Row(i, d);
    DivModBack(i, d);
    if k < q {
      Room(k, q, d);
    }
  }

  /** A block index is below the ceiling of n / d exactly when its first element is below n. */
  lemma CeilDivBound(q: nat, n: nat, d: nat)
    requires d > 0
    ensures q < CeilDiv(n, d) <==> q * d < n
  {
    var c := CeilDiv(n, d);
    DivModBack(n + d - 1, d);
    if q < c {
      MulMono(q + 1, c, d);
      MulNext(q, d);
    } else {
      MulMono(c, q, d);
    }
  }

  lemma DivTwice(n: nat, a: nat, b: nat)
    requires a > 0 && b > 0
    ensures a * b > 0 && n / (a * b) == n / a / b
  {
    var q, r := n / a, n % a;
    var s, t := q / b, q % b;
    DivModBack(n, a);
    DivModBack(q, b);
    RadixBound(t, r, b, a);
    DivMod(s, t * a + r, b * a);
    Regrouped(s, t, r, a, b);
  }

  lemma Regrouped(s: nat, t: nat, r: nat, a: nat, b: nat)
    ensures s * (b * a) + (t * a + r) == (s * b + t) * a + r
  {
  }

  /** The numbers below n, as a set. */
  function Range(n: nat): (s: set<nat>)
    ensures |s| == n && forall i :: i in s <==> 0 <= i < n
  {
    if n == 0 then {} else Range(n - 1) + {n - 1}
  }

  /** 0, 1, 2 and so on below n. */
  function Natural(n: nat): (ids: seq<nat>)
    ensures |ids| == n && forall i :: 0 <= i < n ==> ids[i] == i
  {
    seq(n, i requires 0 <= i < n => i)
  }

  function Elements(f: seq<nat>): set<nat>
  {
    set v | v in f
  }

  lemma {:induction false} DistinctElements(f: seq<nat>)
    requires forall i, j :: 0 <= i < j < |f| ==> f[i] != f[j]
    ensures |Elements(f)| == |f|
  {
    if f == [] {
      assert Elements(f) == {};
    } else {
      var front := f[..|f| - 1];
      DistinctElements(front);
      assert Elements(f) == Elements(front) + {f[|f| - 1]};
      assert f[|f| - 1] !in Elements(front);
    }
  }

  lemma SubsetOfSameSize(a: set<nat>, b: set<nat>)
    requires a <= b && |a| == |b|
    ensures a == b
  {
    assert b == a + (b - a);
    assert |b| == |a| + |b - a|;
  }

  lemma SubsetSize(a: set<nat>, b: set<nat>)
    requires a <= b
    ensures |a| <= |b|
  {
    assert b == a + (b - a);
    assert |b| == |a| + |b - a|;
  }

  /** n distinct numbers below n are all the numbers below n. */
  lemma Pigeonhole(f: seq<nat>, v: nat)
    requires forall i :: 0 <= i < |f| ==> f[i] < |f|
    requires forall i, j :: 0 <= i < j < |f| ==> f[i] != f[j]
    requires v < |f|
    ensures v in f
  {
    DistinctElements(f);
    assert Elements(f) <= Range(|f|);
    SubsetOfSameSize(Elements(f), Range(|f|));
    assert v in Elements(f);
  }
}
