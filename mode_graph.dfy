/**
 * learning/mode_graph.py: the transition model learned from the cluster
 * index of each data vector (`max_membership_indices`, the argmax of the
 * fuzzy memberships, given as input).
 */
module ModeGraph {
  import opened Sums

  /** The number of positions of `xs` holding `a`. */
  function Occurrences(xs: seq<nat>, a: nat): (n: nat)
    ensures n <= |xs|
  {
    if |xs| == 0 then 0
    else Occurrences(xs[..|xs| - 1], a) + (if xs[|xs| - 1] == a then 1 else 0)
  }

  /** The number of positions `i` with `idx[i] == a` and `idx[i + 1] == b`. */
  function Transitions(idx: seq<nat>, a: nat, b: nat): nat
  {
    if |idx| < 2 then 0
    else
      Transitions(idx[..|idx| - 1], a, b) +
        (if idx[|idx| - 2] == a && idx[|idx| - 1] == b then 1 else 0)
  }

  /**
   * Lines 77-80: the vectors of cluster `a`, less one if the last vector
   * is among them (it has no successor).
   */
  function Denominator(idx: seq<nat>, a: nat): int
  {
    Occurrences(idx, a) - (if |idx| > 0 && idx[|idx| - 1] == a then 1 else 0)
  }

  /** The clusters of the vectors that directly follow a vector of cluster `a`, in order. */
  function Successors(idx: seq<nat>, a: nat): seq<nat>
  {
    if |idx| < 2 then []
    else Successors(idx[..|idx| - 1], a) + (if idx[|idx| - 2] == a then [idx[|idx| - 1]] else [])
  }

  /** Pairing position `i` with `i + 1` adds one transition. */
  lemma TransitionsSnoc(idx: seq<nat>, i: nat)
    requires i + 1 < |idx|
    ensures forall a, b {:trigger Transitions(idx[..i + 2], a, b)} ::
      Transitions(idx[..i + 2], a, b) == Transitions(idx[..i + 1], a, b) + (if idx[i] == a && idx[i + 1] == b then 1 else 0)
  {
    assert idx[..i + 2][..i + 1] == idx[..i + 1];
  }

  lemma InRangeSnoc(idx: seq<nat>, i: nat, m: nat)
    requires i + 1 < |idx| && idx[i] < m && idx[i + 1] < m && (i > 0 ==> InRange(idx[..i + 1], m))
    ensures InRange(idx[..i + 2], m)
  {
  }

  /** Every index addresses a row (and column) of the `number_of_means`-square count matrix. */
  predicate InRange(idx: seq<nat>, m: nat)
  {
    forall i :: 0 <= i < |idx| ==> idx[i] < m
  }

  /** The histogram of `xs` over the clusters `0 .. m - 1`, as the reals numpy holds. */
  function Histogram(xs: seq<nat>, m: nat): (r: seq<real>)
    ensures |r| == m && forall a :: 0 <= a < m ==> r[a] == Occurrences(xs, a) as real
  {
    seq(m, a requires 0 <= a < m => Occurrences(xs, a) as real)
  }

  /** 1.0 at position `b`, 0.0 elsewhere. */
  function Unit(m: nat, b: nat): (r: seq<real>)
    ensures |r| == m && forall a :: 0 <= a < m ==> r[a] == if a == b then 1.0 else 0.0
  {
    seq(m, a requires 0 <= a < m => if a == b then 1.0 else 0.0)
  }

  lemma {:induction false} SumUnit(m: nat, b: nat)
    requires b < m
    ensures Sum(Unit(m, b)) == 1.0
  {
    if m - 1 == b {
      assert Unit(m, b)[..m - 1] == Zeros(m - 1);
      SumZeros(Zeros(m - 1));
    } else {
      assert Unit(m, b)[..m - 1] == Unit(m - 1, b);
      SumUnit(m - 1, b);
    }
  }

  function Zeros(m: nat): (r: seq<real>)
    ensures |r| == m && forall a :: 0 <= a < m ==> r[a] == 0.0
  {
    seq(m, a requires 0 <= a < m => 0.0)
  }

  /** When every index is a cluster, the cluster sizes add up to the number of vectors. */
  lemma {:induction false} SumHistogram(xs: seq<nat>, m: nat)
    requires InRange(xs, m)
    ensures Sum(Histogram(xs, m)) == |xs| as real
  {
    if |xs| == 0 {
      SumZeros(Histogram(xs, m));
    } else {
      var n := |xs| - 1;
      assert InRange(xs[..n], m);
      SumHistogram(xs[..n], m);
      assert Histogram(xs, m) == Add(Histogram(xs[..n], m), Unit(m, xs[n]));
      SumAdd(Histogram(xs[..n], m), Unit(m, xs[n]));
      SumUnit(m, xs[n]);
    }
  }

  /** The transitions out of `a` are the occurrences among its successors. */
  lemma {:induction false} TransitionsAreSuccessors(idx: seq<nat>, a: nat, b: nat)
    ensures Transitions(idx, a, b) == Occurrences(Successors(idx, a), b)
  {
    if |idx| >= 2 {
      var front := idx[..|idx| - 1];
      TransitionsAreSuccessors(front, a, b);
      var next := if idx[|idx| - 2] == a then [idx[|idx| - 1]] else [];
      OccurrencesConcat(Successors(front, a), next, b);
    }
  }

  lemma {:induction false} OccurrencesConcat(xs: seq<nat>, ys: seq<nat>, b: nat)
    ensures Occurrences(xs + ys, b) == Occurrences(xs, b) + Occurrences(ys, b)
  {
    if |ys| > 0 {
      assert (xs + ys)[..|xs + ys| - 1] == xs + ys[..|ys| - 1];
      OccurrencesConcat(xs, ys[..|ys| - 1], b);
    } else {
      assert xs + ys == xs;
    }
  }

  /** Cluster `a` has exactly as many successors as the denominator of lines 77-80 says. */
  lemma {:induction false} SuccessorCount(idx: seq<nat>, a: nat)
    ensures |Successors(idx, a)| == Denominator(idx, a)
  {
    if |idx| >= 2 {
      var front := idx[..|idx| - 1];
      SuccessorCount(front, a);
      assert front[..|front| - 1] == idx[..|idx| - 2];
    } else if |idx| == 1 {
      assert idx[..0] == [];
    }
  }

  /** Row `a` of the count matrix as reals. */
  function TransitionRow(idx: seq<nat>, a: nat, m: nat): (r: seq<real>)
    ensures |r| == m && forall b :: 0 <= b < m ==> r[b] == Transitions(idx, a, b) as real
  {
    seq(m, b requires 0 <= b < m => Transitions(idx, a, b) as real)
  }

  /**
   * Row `a` of the count matrix sums to the denominator of lines 77-80:
   * the counts are exactly what that denominator normalises.
   */
  lemma RowTotal(idx: seq<nat>, a: nat, m: nat)
    requires InRange(idx, m)
    ensures Sum(TransitionRow(idx, a, m)) == Denominator(idx, a) as real
  {
    var succ := Successors(idx, a);
    forall b | 0 <= b < m ensures TransitionRow(idx, a, m)[b] == Histogram(succ, m)[b] {
      TransitionsAreSuccessors(idx, a, b);
    }
    assert TransitionRow(idx, a, m) == Histogram(succ, m);
    SuccessorsInRange(idx, a, m);
    SumHistogram(succ, m);
    SuccessorCount(idx, a);
  }

  lemma {:induction false} SuccessorsInRange(idx: seq<nat>, a: nat, m: nat)
    requires InRange(idx, m)
    ensures InRange(Successors(idx, a), m)
  {
    if |idx| >= 2 {
      assert InRange(idx[..|idx| - 1], m);
      SuccessorsInRange(idx[..|idx| - 1], a, m);
    }
  }

  /** The number of successors of each cluster. */
  function SuccessorCounts(idx: seq<nat>, m: nat): (r: seq<real>)
    ensures |r| == m && forall a :: 0 <= a < m ==> r[a] == |Successors(idx, a)| as real
  {
    seq(m, a requires 0 <= a < m => |Successors(idx, a)| as real)
  }

  lemma {:induction false} SumSuccessorCounts(idx: seq<nat>, m: nat)
    requires InRange(idx, m) && |idx| > 0
    ensures Sum(SuccessorCounts(idx, m)) == (|idx| - 1) as real
  {
    if |idx| == 1 {
      SumZeros(SuccessorCounts(idx, m));
    } else {
      var n := |idx| - 1;
      assert InRange(idx[..n], m);
      SumSuccessorCounts(idx[..n], m);
      assert SuccessorCounts(idx, m) == Add(SuccessorCounts(idx[..n], m), Unit(m, idx[n - 1]));
      SumAdd(SuccessorCounts(idx[..n], m), Unit(m, idx[n - 1]));
      SumUnit(m, idx[n - 1]);
    }
  }

  /** The row totals of the count matrix. */
  function RowTotals(idx: seq<nat>, m: nat): (r: seq<real>)
    ensures |r| == m && forall a :: 0 <= a < m ==> r[a] == Sum(TransitionRow(idx, a, m))
  {
    seq(m, a requires 0 <= a < m => Sum(TransitionRow(idx, a, m)))
  }

  /** For `n >= 1` vectors, the count matrix holds `n - 1` transitions in all (lines 109-112). */
  lemma CountTotal(idx: seq<nat>, m: nat)
    requires InRange(idx, m) && |idx| > 0
    ensures Sum(RowTotals(idx, m)) == (|idx| - 1) as real
  {
    forall a | 0 <= a < m ensures RowTotals(idx, m)[a] == SuccessorCounts(idx, m)[a] {
      RowTotal(idx, a, m);
      SuccessorCount(idx, a);
    }
    assert RowTotals(idx, m) == SuccessorCounts(idx, m);
    SumSuccessorCounts(idx, m);
  }

  /**
   * A numpy float64 division: no exception on a zero divisor, but `nan`
   * for `0/0` and `inf` for a positive numerator.
   */
  datatype Quotient = Finite(value: real) | Infinite | NaN

  function NumpyDivide(x: real, d: real): (q: Quotient)
    requires x >= 0.0
    ensures d != 0.0 ==> q == Finite(x / d)
    ensures d == 0.0 ==> q.NaN? == (x == 0.0) && q.Infinite? == (x > 0.0)
  {
    if d != 0.0 then Finite(x / d) else if x == 0.0 then NaN else Infinite
  }

  /** `transition_probabilities[a, b]` (line 83). */
  function TransitionProbability(idx: seq<nat>, a: nat, b: nat): Quotient
  {
    NumpyDivide(Transitions(idx, a, b) as real, Denominator(idx, a) as real)
  }

  /**
   * Where the denominator is not zero, row `a` of the transition model is
   * a probability distribution over the clusters.
   */
  lemma TransitionRowSumsToOne(idx: seq<nat>, a: nat, m: nat)
    requires InRange(idx, m) && Denominator(idx, a) != 0
    ensures forall b :: 0 <= b < m ==> TransitionProbability(idx, a, b).Finite?
    ensures Sum(seq(m, b requires 0 <= b < m => TransitionProbability(idx, a, b).value)) == 1.0
  {
    var d := Denominator(idx, a) as real;
    var row := TransitionRow(idx, a, m);
    RowTotal(idx, a, m);
    assert seq(m, b requires 0 <= b < m => TransitionProbability(idx, a, b).value) == Divide(row, d);
    SumDivide(row, d);
    SelfDivide(d);
  }

  /**
   * The zero denominator is not guarded (lines 79-83): a cluster with no
   * vector, or holding only the last one, gets a row of `nan`; it is never
   * `inf`, since such a cluster has no transitions either.
   */
  lemma ZeroDenominatorRow(idx: seq<nat>, a: nat, b: nat, m: nat)
    requires InRange(idx, m) && b < m && Denominator(idx, a) == 0
    ensures TransitionProbability(idx, a, b).NaN?
  {
    TransitionsAreSuccessors(idx, a, b);
    SuccessorCount(idx, a);
    assert |Successors(idx, a)| == 0;
  }

  /** A cluster holding only the last vector: `[0, 1]` leaves row 1 without a denominator. */
  lemma LastOnlyCluster()
    ensures Denominator([0, 1], 1) == 0 && TransitionProbability([0, 1], 1, 0).NaN?
  {
    assert [0, 1][..1] == [0];
    assert [0] [..0] == [];
  }

  /** `initial_probabilities[a]` (line 72): the share of vectors in cluster `a`. */
  function InitialProbability(idx: seq<nat>, a: nat): real
    requires |idx| > 0
  {
    Occurrences(idx, a) as real / |idx| as real
  }

  /** The initial probabilities form a distribution over the clusters. */
  lemma InitialSumsToOne(idx: seq<nat>, m: nat)
    requires InRange(idx, m) && |idx| > 0
    ensures Sum(seq(m, a requires 0 <= a < m => InitialProbability(idx, a))) == 1.0
  {
    var n := |idx| as real;
    SumHistogram(idx, m);
    assert seq(m, a requires 0 <= a < m => InitialProbability(idx, a)) == Divide(Histogram(idx, m), n);
    SumDivide(Histogram(idx, m), n);
    SelfDivide(n);
  }

  /**
   * `count_transitions` (lines 106-113) over the `numberOfMeans`-square
   * matrix. `ok` is false where numpy raises IndexError: an index that is
   * not a cluster, once there are two vectors to pair.
   */
  method CountTransitions(numberOfMeans: nat, idx: seq<nat>) returns (counts: array2<nat>, ok: bool)
    ensures fresh(counts) && counts.Length0 == numberOfMeans && counts.Length1 == numberOfMeans
    ensures ok <==> |idx| < 2 || InRange(idx, numberOfMeans)
    ensures ok ==> forall a, b :: 0 <= a < numberOfMeans && 0 <= b < numberOfMeans ==>
      counts[a, b] == Transitions(idx, a, b)
  {
    counts := new nat[numberOfMeans, numberOfMeans]((a, b) => 0);
    if |idx| == 0 {
      return counts, true;
    }
    for i := 0 to |idx| - 1
      invariant i > 0 ==> InRange(idx[..i + 1], numberOfMeans)
      invariant forall a, b :: 0 <= a < numberOfMeans && 0 <= b < numberOfMeans ==>
        counts[a, b] == Transitions(idx[..i + 1], a, b)
    {
      var from, to := idx[i], idx[i + 1];
      if from >= numberOfMeans || to >= numberOfMeans {
        assert !InRange(idx, numberOfMeans);
        return counts, false;
      }
      TransitionsSnoc(idx, i);
      InRangeSnoc(idx, i, numberOfMeans);
      counts[from, to] := counts[from, to] + 1;
    }
    assert idx[..|idx|] == idx;
    ok := true;
  }

  /**
   * `learn_transition_model` (lines 66-85) for the argmax indices `idx`
   * over `numberOfMeans` clusters. `ok` is false where the division of
   * line 72 raises ZeroDivisionError (no vectors, some cluster).
   */
  method LearnTransitionModel(numberOfMeans: nat, idx: seq<nat>)
    returns (initial: seq<real>, transition: seq<seq<Quotient>>, ok: bool)
    requires InRange(idx, numberOfMeans)
    ensures ok <==> |idx| > 0 || numberOfMeans == 0
    ensures ok ==> |initial| == numberOfMeans && |transition| == numberOfMeans
    ensures ok ==> forall a :: 0 <= a < numberOfMeans ==> initial[a] == InitialProbability(idx, a)
    ensures ok ==> forall a :: 0 <= a < numberOfMeans ==> |transition[a]| == numberOfMeans
    ensures ok ==> forall a, b :: 0 <= a < numberOfMeans && 0 <= b < numberOfMeans ==>
      transition[a][b] == TransitionProbability(idx, a, b)
  {
    if |idx| == 0 && numberOfMeans > 0 {
      return [], [], false;
    }
    initial := [];
    for a := 0 to numberOfMeans
      invariant |initial| == a
      invariant forall c :: 0 <= c < a ==> initial[c] == InitialProbability(idx, c)
    {
      initial := initial + [Occurrences(idx, a) as real / |idx| as real];
    }
    var counts, _ := CountTransitions(numberOfMeans, idx);
    transition := [];
    for a := 0 to numberOfMeans
      invariant |transition| == a
      invariant forall c :: 0 <= c < a ==> |transition[c]| == numberOfMeans
      invariant forall c, b :: 0 <= c < a && 0 <= b < numberOfMeans ==>
        transition[c][b] == TransitionProbability(idx, c, b)
    {
      var count := Occurrences(idx, a) as real;
      if idx[|idx| - 1] == a {
        count := count - 1.0;
      }
      var row: seq<Quotient> := [];
      for b := 0 to numberOfMeans
        invariant |row| == b
        invariant forall c :: 0 <= c < b ==> row[c] == TransitionProbability(idx, a, c)
      {
        row := row + [NumpyDivide(counts[a, b] as real, count)];
      }
      transition := transition + [row];
    }
    ok := true;
  }
}
