/**
 * Finite sums of reals. The modelled code accumulates sums left to right
 * (`total = total + x`), so `Sum` peels the LAST element.
 */
module Sums {
  import opened Wrappers

  function Sum(s: seq<real>): real
  {
    if |s| == 0 then 0.0 else Sum(s[..|s| - 1]) + s[|s| - 1]
  }

  lemma {:induction false} SumConcat(a: seq<real>, b: seq<real>)
    ensures Sum(a + b) == Sum(a) + Sum(b)
  {
    if |b| == 0 {
      assert a + b == a;
    } else {
      assert (a + b)[..|a + b| - 1] == a + b[..|b| - 1];
      SumConcat(a, b[..|b| - 1]);
    }
  }

  /** Sum of the first element plus the rest. */
  lemma {:induction false} SumFront(s: seq<real>)
    requires |s| > 0
    ensures Sum(s) == s[0] + Sum(s[1..])
  {
    assert s == [s[0]] + s[1..];
    SumConcat([s[0]], s[1..]);
    assert Sum([s[0]]) == Sum([s[0]][..0]) + s[0];
  }

  /** Every term of `s` divided by `c`. */
  function Divide(s: seq<real>, c: real): (r: seq<real>)
    requires c != 0.0
    ensures |r| == |s| && forall j :: 0 <= j < |s| ==> r[j] == s[j] / c
  {
    seq(|s|, j requires 0 <= j < |s| => s[j] / c)
  }

  /** Dividing every term by `c` divides the sum by `c`. */
  lemma {:induction false} SumDivide(s: seq<real>, c: real)
    requires c != 0.0
    ensures Sum(Divide(s, c)) == Sum(s) / c
  {
    if |s| > 0 {
      var n := |s| - 1;
      SumDivide(s[..n], c);
      DividePrefix(s, c, n);
      SumLast(Divide(s, c), Sum(s[..n]) / c, s[n] / c);
      DivideStep(Sum(s[..n]), s[n], c);
    }
  }

  lemma DividePrefix(s: seq<real>, c: real, n: nat)
    requires c != 0.0 && n <= |s|
    ensures Divide(s, c)[..n] == Divide(s[..n], c)
  {
    var a, b := Divide(s, c)[..n], Divide(s[..n], c);
    forall j | 0 <= j < n ensures a[j] == b[j] {
      assert a[j] == s[j] / c;
    }
  }

  lemma DivideStep(a: real, b: real, c: real)
    requires c != 0.0
    ensures a / c + b / c == (a + b) / c
  {
  }

  /** Terms divided by their own nonzero total sum to 1. */
  lemma SumNormalized(s: seq<real>)
    requires Sum(s) != 0.0
    ensures Sum(Divide(s, Sum(s))) == 1.0
  {
    SumDivide(s, Sum(s));
    SelfDivide(Sum(s));
  }

  lemma SelfDivide(c: real)
    requires c != 0.0
    ensures c / c == 1.0
  {
  }

  /** Multiplying every term by `c` multiplies the sum by `c`. */
  lemma {:induction false} SumScale(c: real, s: seq<real>)
    ensures Sum(Scale(c, s)) == c * Sum(s)
  {
    if |s| > 0 {
      var n := |s| - 1;
      SumScale(c, s[..n]);
      ScalePrefix(c, s, n);
      SumLast(Scale(c, s), c * Sum(s[..n]), c * s[n]);
      Distribute(c, Sum(s[..n]), s[n]);
    }
  }

  lemma Distribute(c: real, a: real, b: real)
    ensures c * (a + b) == c * a + c * b
  {
  }

  /** Every term of `s` multiplied by `c`. */
  function Scale(c: real, s: seq<real>): (r: seq<real>)
    ensures |r| == |s| && forall j :: 0 <= j < |s| ==> r[j] == c * s[j]
  {
    seq(|s|, j requires 0 <= j < |s| => c * s[j])
  }

  /** All products `p1[i] * p2[j]`, `i` outer and `j` inner. */
  function Outer(p1: seq<real>, p2: seq<real>): seq<real>
  {
    if |p1| == 0 then [] else Outer(p1[..|p1| - 1], p2) + Scale(p1[|p1| - 1], p2)
  }

  lemma ScalePrefix(c: real, s: seq<real>, n: nat)
    requires n <= |s|
    ensures Scale(c, s)[..n] == Scale(c, s[..n])
  {
    var a, b := Scale(c, s)[..n], Scale(c, s[..n]);
    forall j | 0 <= j < n ensures a[j] == b[j] {
      assert a[j] == c * s[j];
    }
  }

  /** `Sum(s)` from the sum of all but the last term and the last term. */
  lemma SumLast(s: seq<real>, front: real, last: real)
    requires |s| > 0 && Sum(s[..|s| - 1]) == front && s[|s| - 1] == last
    ensures Sum(s) == front + last
  {
  }

  /** The products `p1[i] * p2[j]` for the index pairs `(i, j)` of `ps`, in order. */
  function PairProducts(p1: seq<real>, p2: seq<real>, ps: seq<(nat, nat)>): (r: seq<real>)
    requires forall k :: 0 <= k < |ps| ==> ps[k].0 < |p1| && ps[k].1 < |p2|
    ensures |r| == |ps| && forall k :: 0 <= k < |ps| ==> r[k] == p1[ps[k].0] * p2[ps[k].1]
  {
    seq(|ps|, k requires 0 <= k < |ps| => p1[ps[k].0] * p2[ps[k].1])
  }

  /** The pairs `(i, 0), ..., (i, n - 1)`. */
  function RowPairs(i: nat, n: nat): (ps: seq<(nat, nat)>)
    ensures |ps| == n && forall j :: 0 <= j < n ==> ps[j] == (i, j)
  {
    seq(n, j requires 0 <= j < n => (i, j))
  }

  /** All pairs `(i, j)` with `i < m` and `j < n`, `i` outer and `j` inner. */
  function AllPairs(m: nat, n: nat): (ps: seq<(nat, nat)>)
    ensures forall k :: 0 <= k < |ps| ==> ps[k].0 < m && ps[k].1 < n
  {
    if m == 0 then [] else AllPairs(m - 1, n) + RowPairs(m - 1, n)
  }

  lemma PairProductsConcat(p1: seq<real>, p2: seq<real>, a: seq<(nat, nat)>, b: seq<(nat, nat)>)
    requires forall k :: 0 <= k < |a| ==> a[k].0 < |p1| && a[k].1 < |p2|
    requires forall k :: 0 <= k < |b| ==> b[k].0 < |p1| && b[k].1 < |p2|
    ensures PairProducts(p1, p2, a + b) == PairProducts(p1, p2, a) + PairProducts(p1, p2, b)
  {
    var ab := a + b;
    forall k | 0 <= k < |ab|
      ensures PairProducts(p1, p2, ab)[k] == (PairProducts(p1, p2, a) + PairProducts(p1, p2, b))[k]
    {
      if k >= |a| {
        assert ab[k] == b[k - |a|];
      }
    }
  }

  lemma RowPairProducts(p1: seq<real>, p2: seq<real>, i: nat)
    requires i < |p1|
    ensures PairProducts(p1, p2, RowPairs(i, |p2|)) == Scale(p1[i], p2)
  {
    var ps := RowPairs(i, |p2|);
    forall j | 0 <= j < |p2| ensures PairProducts(p1, p2, ps)[j] == Scale(p1[i], p2)[j] {
      assert ps[j] == (i, j);
    }
  }

  /** The products over all pairs, in nested-loop order, are `Outer`. */
  lemma {:induction false} AllPairProducts(p1: seq<real>, p2: seq<real>, m: nat)
    requires m <= |p1|
    ensures PairProducts(p1, p2, AllPairs(m, |p2|)) == Outer(p1[..m], p2)
  {
    if m > 0 {
      AllPairProducts(p1, p2, m - 1);
      PairProductsConcat(p1, p2, AllPairs(m - 1, |p2|), RowPairs(m - 1, |p2|));
      RowPairProducts(p1, p2, m - 1);
      assert p1[..m][..m - 1] == p1[..m - 1];
    }
  }

  /** A sum of zeros is zero. */
  lemma {:induction false} SumZeros(s: seq<real>)
    requires forall i :: 0 <= i < |s| ==> s[i] == 0.0
    ensures Sum(s) == 0.0
  {
    if |s| > 0 {
      SumZeros(s[..|s| - 1]);
    }
  }

  /** Sum of non-negative terms is non-negative. */
  lemma {:induction false} SumNonNegative(s: seq<real>)
    requires forall i :: 0 <= i < |s| ==> s[i] >= 0.0
    ensures Sum(s) >= 0.0
  {
    if |s| > 0 {
      SumNonNegative(s[..|s| - 1]);
    }
  }

  /** Term-by-term sum of two sequences of the same length. */
  function Add(a: seq<real>, b: seq<real>): (r: seq<real>)
    requires |a| == |b|
    ensures |r| == |a| && forall j :: 0 <= j < |a| ==> r[j] == a[j] + b[j]
  {
    seq(|a|, j requires 0 <= j < |a| => a[j] + b[j])
  }

  lemma {:induction false} SumAdd(a: seq<real>, b: seq<real>)
    requires |a| == |b|
    ensures Sum(Add(a, b)) == Sum(a) + Sum(b)
  {
    if |a| > 0 {
      var n := |a| - 1;
      assert Add(a, b)[..n] == Add(a[..n], b[..n]);
      SumAdd(a[..n], b[..n]);
    }
  }

  /** Addition that propagates a failure: an exception raised by either term. */
  function Plus(a: Option<real>, b: Option<real>): (r: Option<real>)
    ensures r.Some? <==> a.Some? && b.Some?
  {
    if a.Some? && b.Some? then Some(a.value + b.value) else None
  }

  /**
   * `total = 0.0; for x in xs: total = total + f(x)`, where evaluating `f(x)`
   * may raise; the whole sum raises as soon as one term does.
   */
  function SumOver<T>(xs: seq<T>, f: T -> Option<real>): Option<real>
  {
    if |xs| == 0 then Some(0.0) else Plus(SumOver(xs[..|xs| - 1], f), f(xs[|xs| - 1]))
  }

  /** One more term of a running sum over `xs`. */
  lemma SumOverStep<T>(xs: seq<T>, i: nat, f: T -> Option<real>, sum: real, term: real)
    requires i < |xs| && SumOver(xs[..i], f) == Some(sum) && f(xs[i]) == Some(term)
    ensures SumOver(xs[..i + 1], f) == Some(sum + term)
  {
    assert xs[..i + 1][..i] == xs[..i];
    var r := SumOver(xs[..i + 1], f);
    assert r.Some? && r.value == sum + term;
  }

  lemma {:induction false} SumOverDefined<T>(xs: seq<T>, f: T -> Option<real>)
    ensures SumOver(xs, f).Some? <==> forall x :: x in xs ==> f(x).Some?
  {
    if |xs| > 0 {
      SumOverDefined(xs[..|xs| - 1], f);
      assert xs == xs[..|xs| - 1] + [xs[|xs| - 1]];
    }
  }

  lemma {:induction false} SumOverCongruent<T>(xs: seq<T>, f: T -> Option<real>, g: T -> Option<real>)
    requires forall x :: x in xs ==> f(x) == g(x)
    ensures SumOver(xs, f) == SumOver(xs, g)
  {
    if |xs| > 0 {
      assert xs[|xs| - 1] in xs;
      SumOverCongruent(xs[..|xs| - 1], f, g);
    }
  }

  /** Summing `f + g` term by term equals adding the two sums. */
  lemma {:induction false} SumOverPlus<T>(xs: seq<T>, f: T -> Option<real>, g: T -> Option<real>)
    ensures SumOver(xs, x => Plus(f(x), g(x))) == Plus(SumOver(xs, f), SumOver(xs, g))
  {
    if |xs| > 0 {
      SumOverPlus(xs[..|xs| - 1], f, g);
    }
  }

  /** `f` with its first argument fixed to `x`. */
  function Fix1<T, U>(f: (T, U) -> Option<real>, x: T): U -> Option<real>
  {
    y => f(x, y)
  }

  /** `f` with its second argument fixed to `y`. */
  function Fix2<T, U>(f: (T, U) -> Option<real>, y: U): T -> Option<real>
  {
    x => f(x, y)
  }

  /** For each `x`, the sum of `f(x, y)` over `ys`. */
  function RowSums<T, U>(ys: seq<U>, f: (T, U) -> Option<real>): T -> Option<real>
  {
    x => SumOver(ys, Fix1(f, x))
  }

  /** For each `y`, the sum of `f(x, y)` over `xs`. */
  function ColumnSums<T, U>(xs: seq<T>, f: (T, U) -> Option<real>): U -> Option<real>
  {
    y => SumOver(xs, Fix2(f, y))
  }

  /** Two nested finite sums can be exchanged. */
  lemma {:induction false} SumOverExchange<T, U>(xs: seq<T>, ys: seq<U>, f: (T, U) -> Option<real>)
    ensures SumOver(xs, RowSums(ys, f)) == SumOver(ys, ColumnSums(xs, f))
  {
    if |xs| == 0 {
      SumOverZero(ys);
      SumOverCongruent(ys, ColumnSums(xs, f), (y: U) => Some(0.0));
    } else {
      var xs' := xs[..|xs| - 1];
      var last := xs[|xs| - 1];
      SumOverExchange(xs', ys, f);
      var inner := ColumnSums(xs', f);
      var tail := Fix1(f, last);
      SumOverPlus(ys, inner, tail);
      forall y | y in ys
        ensures ColumnSums(xs, f)(y) == (y => Plus(inner(y), tail(y)))(y)
      {
      }
      SumOverCongruent(ys, ColumnSums(xs, f), y => Plus(inner(y), tail(y)));
    }
  }

  lemma {:induction false} SumOverZero<U>(ys: seq<U>)
    ensures SumOver(ys, (y: U) => Some(0.0)) == Some(0.0)
  {
    if |ys| > 0 {
      SumOverZero(ys[..|ys| - 1]);
    }
  }

  /** The terms of a `SumOver` none of whose terms fails. */
  function Terms<T>(xs: seq<T>, f: T -> Option<real>): (r: seq<real>)
    requires forall x :: x in xs ==> f(x).Some?
    ensures |r| == |xs| && forall i :: 0 <= i < |xs| ==> r[i] == f(xs[i]).value
  {
    seq(|xs|, i requires 0 <= i < |xs| => f(xs[i]).value)
  }

  /** A `SumOver` whose terms all succeed is the plain sum of its terms. */
  lemma {:induction false} SumOverTerms<T>(xs: seq<T>, f: T -> Option<real>)
    requires forall x :: x in xs ==> f(x).Some?
    ensures SumOver(xs, f) == Some(Sum(Terms(xs, f)))
  {
    if |xs| > 0 {
      var n := |xs| - 1;
      var init := xs[..n];
      assert forall x :: x in init ==> x in xs;
      assert xs[n] in xs;
      SumOverTerms(init, f);
      var t := Terms(xs, f);
      assert t[..n] == Terms(init, f);
      SumLast(t, Sum(Terms(init, f)), f(xs[n]).value);
    }
  }
}
