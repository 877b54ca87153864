/**
 * inference/approximate_inference.py: rejection sampling and likelihood
 * weighting. The random numbers `numpy.random.rand()` would return are
 * passed in (`draws[i]` is the draw for the i-th variable of `V`), and the
 * samples the tallies consume are passed in as sequences.
 */
module ApproximateInference {
  import opened Wrappers
  import opened Sums
  import opened Networks
  import opened Positions

  /** The `1e-10` below which a counter or normaliser is not divided by. */
  const Threshold: real := 0.0000000001

  // ---------------------------------------------------------------------------
  // get_parent_values and the table row it selects
  // ---------------------------------------------------------------------------

  /**
   * `get_parent_values(x, a)`: None where the code raises KeyError,
   * Some(None) for a variable without parents, otherwise the table key
   * built from the parents' values in parent order.
   */
  function ParentKeyOf(net: Network, x: Variable, a: map<Variable, Value>): (r: Option<Option<string>>)
    ensures r.Some? ==> x in net.Vdata
    ensures r == Some(None) <==> x in net.Vdata && net.Vdata[x].parents.None?
    ensures r.None? <==>
      (x !in net.Vdata || (net.Vdata[x].parents.Some? && exists p :: p in net.Vdata[x].parents.value && p !in a))
  {
    if x !in net.Vdata then None
    else
      match net.Vdata[x].parents
      case None => Some(None)
      case Some(ps) =>
        if forall p :: p in ps ==> p in a then Some(Some(ParentKey(ParentValues(ps, a)))) else None
  }

  /**
   * The row the samplers read (lines 101-108): the flat table for a
   * variable without parents, the row stored under the key otherwise.
   * A parentless variable whose table is a dict raises on `cprob[0]`
   * unless the dict is empty, which yields an empty row.
   */
  function TableRow(net: Network, x: Variable, key: Option<string>): Option<seq<real>>
    requires x in net.Vdata
  {
    var cprob := net.Vdata[x].cprob;
    match key
    case None =>
      if cprob.Flat? then Some(cprob.probabilities)
      else if |cprob.rows| == 0 then Some([])
      else None
    case Some(k) =>
      if cprob.Conditional? && k in cprob.rows then Some(cprob.rows[k]) else None
  }

  /** A variable without parents has a flat table (true of every well-formed network). */
  predicate ParentlessFlat(net: Network, x: Variable)
  {
    x in net.Vdata && net.Vdata[x].parents.None? ==> net.Vdata[x].cprob.Flat?
  }

  /** The samplers and the exact engine read the same row: the key formats agree. */
  lemma TableRowIsRow(net: Network, x: Variable, a: map<Variable, Value>)
    requires ParentlessFlat(net, x) && ParentKeyOf(net, x, a).Some?
    ensures TableRow(net, x, ParentKeyOf(net, x, a).value) == Row(net, x, a)
  {
  }

  // ---------------------------------------------------------------------------
  // Inverse-CDF selection
  // ---------------------------------------------------------------------------

  /** `cumulative_distribution`: 0 followed by the running sums of `row`. */
  function Cumulative(row: seq<real>): (cum: seq<real>)
    ensures |cum| == |row| + 1 && cum[0] == 0.0
    ensures forall k {:trigger row[k]} :: 0 <= k < |row| ==> cum[k + 1] == cum[k] + row[k]
  {
    if |row| == 0 then [0.0]
    else
      var front := Cumulative(row[..|row| - 1]);
      front + [front[|row| - 1] + row[|row| - 1]]
  }

  /** The last running sum is the total mass of the row. */
  lemma {:induction false} CumulativeTotal(row: seq<real>)
    ensures Cumulative(row)[|row|] == Sum(row)
  {
    if |row| > 0 {
      var front := row[..|row| - 1];
      CumulativeTotal(front);
      assert Cumulative(row)[|front|] == Cumulative(front)[|front|];
    }
  }

  /** Where the while loop started at `value_index = i` stops. */
  function StopAt(cum: seq<real>, r: real, i: nat): (k: nat)
    requires 1 <= i <= |cum|
    ensures i <= k <= |cum|
    ensures forall j :: i <= j < k ==> r > cum[j]
    ensures k < |cum| ==> r <= cum[k]
    decreases |cum| - i
  {
    if i < |cum| && r > cum[i] then StopAt(cum, r, i + 1) else i
  }

  /**
   * Lines 110-117: the index chosen for the draw `r`, the smallest `i` with
   * `r <= cum[i + 1]`, or `|cum| - 1` when the draw exceeds every entry.
   */
  function Select(cum: seq<real>, r: real): (index: nat)
    requires |cum| > 0
    ensures index < |cum|
    ensures forall j :: 1 <= j <= index ==> r > cum[j]
    ensures index + 1 < |cum| ==> r <= cum[index + 1]
  {
    StopAt(cum, r, 1) - 1
  }

  /** The running sums of non-negative probabilities never decrease. */
  lemma {:induction false} CumulativeMonotone(row: seq<real>, j: nat, k: nat)
    requires forall i :: 0 <= i < |row| ==> row[i] >= 0.0
    requires j <= k <= |row|
    ensures Cumulative(row)[j] <= Cumulative(row)[k]
    decreases k - j
  {
    if j < k {
      CumulativeMonotone(row, j, k - 1);
      assert row[k - 1] >= 0.0;
    }
  }

  /**
   * A draw no larger than the total mass picks a position of the row, and
   * the one whose interval `(cum[i], cum[i + 1]]` holds the draw.
   */
  lemma SelectInRow(row: seq<real>, r: real)
    requires |row| > 0 && r <= Sum(row)
    ensures var i := Select(Cumulative(row), r);
      i < |row| && r <= Cumulative(row)[i + 1] && (i > 0 ==> Cumulative(row)[i] < r)
  {
    CumulativeTotal(row);
  }

  // ---------------------------------------------------------------------------
  // Generating samples
  // ---------------------------------------------------------------------------

  /**
   * Lines 97-118 for the variable `x` with the values `a` and the draw `r`:
   * the value at the selected index. None where the code raises.
   */
  function SampleValue(net: Network, x: Variable, a: map<Variable, Value>, r: real): Option<Value>
  {
    match ParentKeyOf(net, x, a)
    case None => None
    case Some(key) =>
      match TableRow(net, x, key)
      case None => None
      case Some(row) =>
        var index := Select(Cumulative(row), r);
        if index < |net.Vdata[x].vals| then Some(net.Vdata[x].vals[index]) else None
  }

  /** A draw in [0, 1) whose parents hold values of their domains gets a value of `x`'s domain. */
  lemma SampleValueValid(net: Network, x: Variable, a: map<Variable, Value>, r: real)
    requires WellFormed(net) && Normalized(net) && x in net.Vdata && r < 1.0
    requires net.Vdata[x].parents.Some? ==> ValidOn(net, net.Vdata[x].parents.value, a)
    ensures SampleValue(net, x, a, r).Some? && SampleValue(net, x, a, r).value in net.Vdata[x].vals
  {
    assert ParentKeyOf(net, x, a).Some?;
    assert VariableWellFormed(net, x);
    TableRowIsRow(net, x, a);
    RowDefined(net, x, a);
    var row := Row(net, x, a).value;
    assert Distribution(row) by {
      assert VariableWellFormed(net, x);
    }
    assert |row| > 0 by {
      assert VariableWellFormed(net, x);
    }
    SelectInRow(row, r);
  }

  /** `dict((x, '') for x in xs)`. */
  function Blank(xs: seq<Variable>): map<Variable, Value>
  {
    map x | x in xs :: ""
  }

  /**
   * `generate_rs_sample` once the first `n` variables of `V` have been
   * drawn; None where the code raises.
   */
  function RsSample(net: Network, draws: seq<real>, n: nat): Option<map<Variable, Value>>
    requires n <= |net.V| <= |draws|
  {
    if n == 0 then Some(Blank(net.V))
    else
      match RsSample(net, draws, n - 1)
      case None => None
      case Some(a) =>
        match SampleValue(net, net.V[n - 1], a, draws[n - 1])
        case None => None
        case Some(v) => Some(a[net.V[n - 1] := v])
  }

  /**
   * On a well-formed network in topological order with draws in [0, 1),
   * rejection sampling never raises and assigns every variable a value of
   * its own domain.
   */
  lemma {:induction false} RsSampleValid(net: Network, draws: seq<real>, n: nat)
    requires WellFormed(net) && Topological(net) && Normalized(net)
    requires n <= |net.V| <= |draws| && forall i :: 0 <= i < |draws| ==> draws[i] < 1.0
    ensures RsSample(net, draws, n).Some?
    ensures forall x :: x in RsSample(net, draws, n).value <==> x in net.V
    ensures ValidOn(net, net.V[..n], RsSample(net, draws, n).value)
  {
    if n > 0 {
      RsSampleValid(net, draws, n - 1);
      RsSampleNext(net, draws, n - 1);
    }
  }

  /** One more variable drawn keeps the sample valid on the prefix drawn so far. */
  lemma RsSampleNext(net: Network, draws: seq<real>, i: nat)
    requires WellFormed(net) && Topological(net) && Normalized(net)
    requires i < |net.V| <= |draws| && draws[i] < 1.0
    requires RsSample(net, draws, i).Some?
    requires forall x :: x in RsSample(net, draws, i).value <==> x in net.V
    requires ValidOn(net, net.V[..i], RsSample(net, draws, i).value)
    ensures RsSample(net, draws, i + 1).Some?
    ensures forall x :: x in RsSample(net, draws, i + 1).value <==> x in net.V
    ensures ValidOn(net, net.V[..i + 1], RsSample(net, draws, i + 1).value)
  {
    var a := RsSample(net, draws, i).value;
    var x := net.V[i];
    ParentsValid(net, i, a);
    SampleValueValid(net, x, a, draws[i]);
    ValidOnSnoc(net, i, a, SampleValue(net, x, a, draws[i]).value);
  }

  /** The parents of `V[i]` hold valid values once every earlier variable does. */
  lemma ParentsValid(net: Network, i: nat, a: map<Variable, Value>)
    requires WellFormed(net) && Topological(net) && i < |net.V| && ValidOn(net, net.V[..i], a)
    ensures net.V[i] in net.Vdata
    ensures net.Vdata[net.V[i]].parents.Some? ==> ValidOn(net, net.Vdata[net.V[i]].parents.value, a)
  {
    var x := net.V[i];
    assert x in net.Vdata;
    if net.Vdata[x].parents.Some? {
      forall p | p in net.Vdata[x].parents.value ensures p in net.Vdata && p in a && a[p] in net.Vdata[p].vals {
        assert VariableWellFormed(net, x);
        var j :| 0 <= j < |net.V| && net.V[j] == p;
        assert net.V[j] in net.V[..i];
      }
    }
  }

  /** Giving `V[i]` a value of its domain extends the valid prefix by one. */
  lemma ValidOnSnoc(net: Network, i: nat, a: map<Variable, Value>, v: Value)
    requires i < |net.V| && net.V[i] in net.Vdata && v in net.Vdata[net.V[i]].vals
    requires Distinct(net.V) && ValidOn(net, net.V[..i], a)
    ensures ValidOn(net, net.V[..i + 1], a[net.V[i] := v])
  {
    assert net.V[..i + 1] == net.V[..i] + [net.V[i]];
  }

  /** `assigned_values` before the sampling loop of `generate_lw_sample`: evidence clamped, others ''. */
  function Clamped(xs: seq<Variable>, evidence: map<Variable, Value>): map<Variable, Value>
  {
    map x | x in xs :: if x in evidence then evidence[x] else ""
  }

  /**
   * Lines 144-152 for an evidence variable `x` observed at `observed`: its
   * table entry at that value given its parents' values in `a`. None where
   * the code raises (a missing parent, a value outside the domain, a
   * missing row).
   */
  function EvidenceEntry(net: Network, x: Variable, a: map<Variable, Value>, observed: Value): Option<real>
  {
    match ParentKeyOf(net, x, a)
    case None => None
    case Some(key) =>
      var vals := net.Vdata[x].vals;
      if observed !in vals then None
      else
        match TableRow(net, x, key)
        case None => None
        case Some(row) =>
          var index := IndexOf(vals, observed);
          if index < |row| then Some(row[index]) else None
  }

  /** The entry the weighting reads is the one the exact engine's chain rule reads. */
  lemma EvidenceEntryIsLookup(net: Network, x: Variable, a: map<Variable, Value>)
    requires ParentlessFlat(net, x) && x in a
    ensures EvidenceEntry(net, x, a, a[x]) == Lookup(net, x, a)
  {
    if ParentKeyOf(net, x, a).Some? {
      TableRowIsRow(net, x, a);
    }
  }

  /**
   * One pass of the loop of `generate_lw_sample` (lines 143-172): an
   * evidence variable multiplies the weight by its table entry at its
   * observed value, any other variable is drawn. None where the code raises.
   */
  function LwStep(net: Network, evidence: map<Variable, Value>, x: Variable, a: map<Variable, Value>, w: real, r: real)
    : Option<(map<Variable, Value>, real)>
  {
    if x in evidence then
      match EvidenceEntry(net, x, a, evidence[x])
      case None => None
      case Some(p) => Some((a, w * p))
    else
      match SampleValue(net, x, a, r)
      case None => None
      case Some(v) => Some((a[x := v], w))
  }

  /** `generate_lw_sample` once the first `n` variables of `V` have been visited. */
  function LwSample(net: Network, evidence: map<Variable, Value>, draws: seq<real>, n: nat)
    : Option<(map<Variable, Value>, real)>
    requires n <= |net.V| <= |draws|
  {
    if n == 0 then Some((Clamped(net.V, evidence), 1.0))
    else
      match LwSample(net, evidence, draws, n - 1)
      case None => None
      case Some(aw) => LwStep(net, evidence, net.V[n - 1], aw.0, aw.1, draws[n - 1])
  }

  lemma LwSampleUnfold(net: Network, evidence: map<Variable, Value>, draws: seq<real>, n: nat)
    requires 0 < n <= |net.V| <= |draws|
    ensures var before := LwSample(net, evidence, draws, n - 1);
      LwSample(net, evidence, draws, n) ==
        if before.None? then None else LwStep(net, evidence, net.V[n - 1], before.value.0, before.value.1, draws[n - 1])
  {
  }

  /** The variables of `xs` that have evidence, in order. */
  function EvidenceIn(xs: seq<Variable>, evidence: map<Variable, Value>): (r: seq<Variable>)
    ensures forall x :: x in r <==> x in xs && x in evidence
  {
    if |xs| == 0 then []
    else EvidenceIn(xs[..|xs| - 1], evidence) + (if xs[|xs| - 1] in evidence then [xs[|xs| - 1]] else [])
  }

  /**
   * Likelihood weighting keeps every evidence variable at its observed
   * value and assigns exactly the variables of `V`.
   */
  lemma {:induction false} LwSampleEvidence(net: Network, evidence: map<Variable, Value>, draws: seq<real>, n: nat)
    requires n <= |net.V| <= |draws| && LwSample(net, evidence, draws, n).Some?
    ensures var a := LwSample(net, evidence, draws, n).value.0;
      (forall x :: x in a <==> x in net.V) && forall x :: x in net.V && x in evidence ==> a[x] == evidence[x]
  {
    if n > 0 {
      LwSampleEvidence(net, evidence, draws, n - 1);
    }
  }

  /** `LwSampleEvidence` for one variable. */
  lemma LwSampleAt(net: Network, evidence: map<Variable, Value>, draws: seq<real>, n: nat, x: Variable)
    requires n <= |net.V| <= |draws| && LwSample(net, evidence, draws, n).Some? && x in net.V
    ensures var a := LwSample(net, evidence, draws, n).value.0;
      x in a && (x in evidence ==> a[x] == evidence[x])
  {
    LwSampleEvidence(net, evidence, draws, n);
  }

  /** Every observation of a network variable is a value of its domain. */
  predicate ValidEvidence(net: Network, evidence: map<Variable, Value>)
  {
    forall x :: x in net.V && x in evidence ==> x in net.Vdata && evidence[x] in net.Vdata[x].vals
  }

  /**
   * On a well-formed network in topological order, with observations from
   * the domains and draws in [0, 1), likelihood weighting never raises and
   * leaves every variable with a value of its domain.
   */
  lemma {:induction false} LwSampleValid(net: Network, evidence: map<Variable, Value>, draws: seq<real>, n: nat)
    requires WellFormed(net) && Topological(net) && Normalized(net) && ValidEvidence(net, evidence)
    requires n <= |net.V| <= |draws| && forall i :: 0 <= i < |draws| ==> draws[i] < 1.0
    ensures LwSample(net, evidence, draws, n).Some?
    ensures ValidOn(net, net.V[..n], LwSample(net, evidence, draws, n).value.0)
  {
    if n > 0 {
      LwSampleValid(net, evidence, draws, n - 1);
      LwSampleValidNext(net, evidence, draws, n - 1);
    }
  }

  /** Weighing or drawing one more variable keeps the visited prefix valid. */
  lemma LwSampleValidNext(net: Network, evidence: map<Variable, Value>, draws: seq<real>, i: nat)
    requires WellFormed(net) && Topological(net) && Normalized(net) && ValidEvidence(net, evidence)
    requires i < |net.V| <= |draws| && draws[i] < 1.0
    requires LwSample(net, evidence, draws, i).Some?
    requires ValidOn(net, net.V[..i], LwSample(net, evidence, draws, i).value.0)
    ensures LwSample(net, evidence, draws, i + 1).Some?
    ensures ValidOn(net, net.V[..i + 1], LwSample(net, evidence, draws, i + 1).value.0)
  {
    var a := LwSample(net, evidence, draws, i).value.0;
    var x := net.V[i];
    LwSampleAt(net, evidence, draws, i, x);
    LwSampleUnfold(net, evidence, draws, i + 1);
    ParentsValid(net, i, a);
    if x in evidence {
      assert x in net.V;
      assert VariableWellFormed(net, x);
      EvidenceEntryIsLookup(net, x, a);
      LookupDefined(net, x, a);
      ValidOnSnoc(net, i, a, evidence[x]);
      assert a[x := evidence[x]] == a;
    } else {
      SampleValueValid(net, x, a, draws[i]);
      ValidOnSnoc(net, i, a, SampleValue(net, x, a, draws[i]).value);
    }
  }

  /** A table entry depends only on the variable's own value and its parents' values. */
  lemma LookupFrame(net: Network, x: Variable, a: map<Variable, Value>, b: map<Variable, Value>)
    requires x in net.Vdata
    requires (x in a <==> x in b) && (x in a ==> a[x] == b[x])
    requires net.Vdata[x].parents.Some? ==>
      forall p :: p in net.Vdata[x].parents.value ==> (p in a <==> p in b) && (p in a ==> a[p] == b[p])
    ensures Lookup(net, x, a) == Lookup(net, x, b)
  {
    if net.Vdata[x].parents.Some? {
      var ps := net.Vdata[x].parents.value;
      if forall p :: p in ps ==> p in a {
        assert ParentValues(ps, a) == ParentValues(ps, b);
      }
    }
  }

  /** A chain product depends only on the table entries of its variables. */
  lemma {:induction false} ChainProductFrame(net: Network, xs: seq<Variable>, a: map<Variable, Value>,
                                             b: map<Variable, Value>)
    requires forall x :: x in xs ==> Lookup(net, x, a) == Lookup(net, x, b)
    ensures ChainProduct(net, xs, a) == ChainProduct(net, xs, b)
  {
    if |xs| > 0 {
      ChainProductFrame(net, xs[..|xs| - 1], a, b);
      assert xs[|xs| - 1] in xs;
    }
  }

  /** `w` is the chain-rule product of the entries of the evidence variables among `xs` in `a`. */
  ghost predicate WeighsEvidence(net: Network, evidence: map<Variable, Value>, xs: seq<Variable>,
                                 a: map<Variable, Value>, w: real)
  {
    var product := ChainProduct(net, EvidenceIn(xs, evidence), a);
    product.Some? && product.value == w
  }

  /**
   * What the weighting proof needs of the network: distinct variables in
   * topological order, each with a table, a flat one when it has no parents.
   */
  ghost predicate SamplingOrder(net: Network)
  {
    && Distinct(net.V)
    && Topological(net)
    && forall x :: x in net.V ==> x in net.Vdata && ParentlessFlat(net, x)
  }

  /**
   * The likelihood weight is the chain-rule product, in `V` order, of the
   * table entries of the evidence variables at their observed values given
   * the sample's parent values.
   */
  lemma LwWeightIsLikelihood(net: Network, evidence: map<Variable, Value>, draws: seq<real>)
    requires WellFormed(net) && Topological(net)
    requires |net.V| <= |draws| && LwSample(net, evidence, draws, |net.V|).Some?
    ensures var aw := LwSample(net, evidence, draws, |net.V|).value;
      WeighsEvidence(net, evidence, net.V, aw.0, aw.1)
  {
    forall x | x in net.V ensures x in net.Vdata && ParentlessFlat(net, x) {
      assert VariableWellFormed(net, x);
    }
    LwWeight(net, evidence, draws, |net.V|);
    assert net.V[..|net.V|] == net.V;
  }

  /** The weight after the first `n` variables of `V`. */
  lemma {:induction false} LwWeight(net: Network, evidence: map<Variable, Value>, draws: seq<real>, n: nat)
    requires SamplingOrder(net)
    requires n <= |net.V| <= |draws| && LwSample(net, evidence, draws, n).Some?
    ensures var aw := LwSample(net, evidence, draws, n).value;
      WeighsEvidence(net, evidence, net.V[..n], aw.0, aw.1)
  {
    if n == 0 {
      assert EvidenceIn(net.V[..0], evidence) == [];
    } else {
      LwWeight(net, evidence, draws, n - 1);
      LwWeightNext(net, evidence, draws, n - 1);
    }
  }

  /** The weight invariant carried from `i` visited variables to `i + 1`. */
  lemma LwWeightNext(net: Network, evidence: map<Variable, Value>, draws: seq<real>, i: nat)
    requires SamplingOrder(net)
    requires i < |net.V| <= |draws| && LwSample(net, evidence, draws, i + 1).Some?
    requires LwSample(net, evidence, draws, i).Some?
    requires var aw := LwSample(net, evidence, draws, i).value; WeighsEvidence(net, evidence, net.V[..i], aw.0, aw.1)
    ensures var aw := LwSample(net, evidence, draws, i + 1).value;
      WeighsEvidence(net, evidence, net.V[..i + 1], aw.0, aw.1)
  {
    var aw := LwSample(net, evidence, draws, i).value;
    var x := net.V[i];
    LwSampleAt(net, evidence, draws, i, x);
    LwSampleUnfold(net, evidence, draws, i + 1);
    if x in evidence {
      LwEvidenceCase(net, evidence, i, aw.0, aw.1, draws[i]);
    } else {
      LwDrawCase(net, evidence, i, aw.0, aw.1, draws[i]);
    }
  }

  /** Visiting an evidence variable keeps the weight the product of the evidence seen so far. */
  lemma LwEvidenceCase(net: Network, evidence: map<Variable, Value>, i: nat, a: map<Variable, Value>,
                       w: real, r: real)
    requires i < |net.V| && ParentlessFlat(net, net.V[i]) && net.V[i] in evidence
    requires net.V[i] in a && a[net.V[i]] == evidence[net.V[i]]
    requires WeighsEvidence(net, evidence, net.V[..i], a, w)
    requires LwStep(net, evidence, net.V[i], a, w, r).Some?
    ensures var next := LwStep(net, evidence, net.V[i], a, w, r).value;
      WeighsEvidence(net, evidence, net.V[..i + 1], next.0, next.1)
  {
    var x := net.V[i];
    LwEvidenceStep(net, evidence, x, a, w, r);
    var e := Lookup(net, x, a).value;
    LwEvidenceWeight(net, evidence, net.V[..i], x, a, w, e);
    PrefixSnoc(net.V, i);
    assert WeighsEvidence(net, evidence, net.V[..i + 1], a, w * e);
  }

  /** Drawing a variable keeps the weight the product of the evidence seen so far. */
  lemma LwDrawCase(net: Network, evidence: map<Variable, Value>, i: nat, a: map<Variable, Value>,
                   w: real, r: real)
    requires SamplingOrder(net) && i < |net.V| && net.V[i] !in evidence && net.V[i] in a
    requires WeighsEvidence(net, evidence, net.V[..i], a, w)
    requires LwStep(net, evidence, net.V[i], a, w, r).Some?
    ensures var next := LwStep(net, evidence, net.V[i], a, w, r).value;
      WeighsEvidence(net, evidence, net.V[..i + 1], next.0, next.1)
  {
    var x := net.V[i];
    LwDrawStep(net, evidence, x, a, w, r);
    EarlierUnaffected(net, i);
    LwDrawWeight(net, evidence, net.V[..i], x, a, w, SampleValue(net, x, a, r).value);
    PrefixSnoc(net.V, i);
  }

  /** Neither `V[i]` itself nor a parent of any earlier variable is `V[i]`. */
  lemma EarlierUnaffected(net: Network, i: nat)
    requires SamplingOrder(net) && i < |net.V|
    ensures forall e :: e in net.V[..i] ==>
      e != net.V[i] && e in net.Vdata && (net.Vdata[e].parents.Some? ==> net.V[i] !in net.Vdata[e].parents.value)
  {
    forall e | e in net.V[..i]
      ensures e != net.V[i] && e in net.Vdata && (net.Vdata[e].parents.Some? ==> net.V[i] !in net.Vdata[e].parents.value)
    {
      var j :| 0 <= j < i && net.V[j] == e;
      assert e in net.Vdata;
    }
  }

  /** Observed evidence appends its table entry to the product. */
  lemma LwEvidenceWeight(net: Network, evidence: map<Variable, Value>, xs: seq<Variable>, x: Variable,
                         a: map<Variable, Value>, w: real, e: real)
    requires x in evidence && WeighsEvidence(net, evidence, xs, a, w)
    requires var entry := Lookup(net, x, a); entry.Some? && entry.value == e
    ensures WeighsEvidence(net, evidence, xs + [x], a, w * e)
  {
    var before := EvidenceIn(xs, evidence);
    assert (xs + [x])[..|xs|] == xs;
    assert EvidenceIn(xs + [x], evidence) == before + [x];
    ChainProductExtend(net, before, x, a, w, e);
  }

  /** A drawn variable is neither evidence nor a parent of earlier evidence: the product stays. */
  lemma LwDrawWeight(net: Network, evidence: map<Variable, Value>, xs: seq<Variable>, x: Variable,
                     a: map<Variable, Value>, w: real, v: Value)
    requires x in a && x !in evidence
    requires forall e :: e in xs ==>
      e != x && e in net.Vdata && (net.Vdata[e].parents.Some? ==> x !in net.Vdata[e].parents.value)
    requires WeighsEvidence(net, evidence, xs, a, w)
    ensures WeighsEvidence(net, evidence, xs + [x], a[x := v], w)
  {
    var before := EvidenceIn(xs, evidence);
    assert (xs + [x])[..|xs|] == xs;
    assert EvidenceIn(xs + [x], evidence) == before;
    forall e | e in before ensures Lookup(net, e, a) == Lookup(net, e, a[x := v]) {
      LookupFrame(net, e, a, a[x := v]);
    }
    ChainProductFrame(net, before, a, a[x := v]);
  }

  /** A variable without evidence is drawn and the weight is kept. */
  lemma LwDrawStep(net: Network, evidence: map<Variable, Value>, x: Variable, a: map<Variable, Value>,
                   w: real, r: real)
    requires x !in evidence && LwStep(net, evidence, x, a, w, r).Some?
    ensures SampleValue(net, x, a, r).Some?
    ensures LwStep(net, evidence, x, a, w, r).value.0 == a[x := SampleValue(net, x, a, r).value]
    ensures LwStep(net, evidence, x, a, w, r).value.1 == w
  {
  }

  /** Appending a variable multiplies the chain product by its entry. */
  lemma ChainProductExtend(net: Network, xs: seq<Variable>, x: Variable, a: map<Variable, Value>, w: real, e: real)
    requires var product := ChainProduct(net, xs, a); product.Some? && product.value == w
    requires var entry := Lookup(net, x, a); entry.Some? && entry.value == e
    ensures var product := ChainProduct(net, xs + [x], a); product.Some? && product.value == w * e
  {
    assert (xs + [x])[..|xs|] == xs;
  }

  /** An evidence variable keeps the values and multiplies the weight by its table entry. */
  lemma LwEvidenceStep(net: Network, evidence: map<Variable, Value>, x: Variable, a: map<Variable, Value>,
                       w: real, r: real)
    requires ParentlessFlat(net, x) && x in evidence && x in a && a[x] == evidence[x]
    requires LwStep(net, evidence, x, a, w, r).Some?
    ensures Lookup(net, x, a).Some?
    ensures LwStep(net, evidence, x, a, w, r).value.0 == a
    ensures LwStep(net, evidence, x, a, w, r).value.1 == w * Lookup(net, x, a).value
  {
    EvidenceEntryIsLookup(net, x, a);
  }


  // ---------------------------------------------------------------------------
  // Tallies of perform_rs_inference and perform_lw_inference
  // ---------------------------------------------------------------------------

  /** `xs` with every entry present, or None if one is missing. */
  function Collect<T>(xs: seq<Option<T>>): (r: Option<seq<T>>)
    ensures r.Some? <==> forall i :: 0 <= i < |xs| ==> xs[i].Some?
    ensures r.Some? ==> |r.value| == |xs| && forall i :: 0 <= i < |xs| ==> xs[i] == Some(r.value[i])
  {
    if forall i :: 0 <= i < |xs| ==> xs[i].Some? then Some(seq(|xs|, i requires 0 <= i < |xs| => xs[i].value))
    else None
  }

  /** The samples `generate_rs_sample` returns for the draw vectors `draws`, or None if one raises. */
  function RsSamples(net: Network, draws: seq<seq<real>>): Option<seq<map<Variable, Value>>>
    requires forall k :: 0 <= k < |draws| ==> |net.V| <= |draws[k]|
  {
    Collect(RsOutcomes(net, draws))
  }

  /** The outcome of `generate_rs_sample` for each draw vector. */
  function RsOutcomes(net: Network, draws: seq<seq<real>>): (r: seq<Option<map<Variable, Value>>>)
    requires forall k :: 0 <= k < |draws| ==> |net.V| <= |draws[k]|
    ensures |r| == |draws| && forall k :: 0 <= k < |draws| ==> r[k] == RsSample(net, draws[k], |net.V|)
  {
    seq(|draws|, k requires 0 <= k < |draws| => RsSample(net, draws[k], |net.V|))
  }

  /** The samples `generate_lw_sample` returns for the draw vectors `draws`, or None if one raises. */
  function LwSamples(net: Network, evidence: map<Variable, Value>, draws: seq<seq<real>>)
    : Option<seq<(map<Variable, Value>, real)>>
    requires forall k :: 0 <= k < |draws| ==> |net.V| <= |draws[k]|
  {
    Collect(LwOutcomes(net, evidence, draws))
  }

  /** The outcome of `generate_lw_sample` for each draw vector. */
  function LwOutcomes(net: Network, evidence: map<Variable, Value>, draws: seq<seq<real>>)
    : (r: seq<Option<(map<Variable, Value>, real)>>)
    requires forall k :: 0 <= k < |draws| ==> |net.V| <= |draws[k]|
    ensures |r| == |draws| && forall k :: 0 <= k < |draws| ==> r[k] == LwSample(net, evidence, draws[k], |net.V|)
  {
    seq(|draws|, k requires 0 <= k < |draws| => LwSample(net, evidence, draws[k], |net.V|))
  }

  /** `keys` is the order in which `evidence_variables.keys()` yields the evidence variables. */
  predicate EvidenceOrder(keys: seq<Variable>, evidence: map<Variable, Value>)
  {
    Distinct(keys) && (forall k :: k in keys ==> k in evidence) && forall k :: k in evidence ==> k in keys
  }

  /**
   * Lines 37-41: whether the sample agrees with every evidence variable,
   * visited in `keys` order and stopping at the first disagreement. None
   * on the KeyError of an evidence variable the sample does not assign.
   */
  function Supports(keys: seq<Variable>, evidence: map<Variable, Value>, s: map<Variable, Value>): (r: Option<bool>)
    requires forall k :: k in keys ==> k in evidence
    ensures r == Some(true) <==> forall k :: k in keys ==> k in s && s[k] == evidence[k]
    ensures (forall k :: k in keys ==> k in s) ==> r.Some?
  {
    if |keys| == 0 then Some(true)
    else if keys[0] !in s then None
    else if evidence[keys[0]] != s[keys[0]] then Some(false)
    else
      assert forall k :: k in keys ==> k == keys[0] || k in keys[1..];
      Supports(keys[1..], evidence, s)
  }

  /** Rejection sampling keeps the sample. */
  predicate Accepts(keys: seq<Variable>, evidence: map<Variable, Value>, s: map<Variable, Value>)
    requires forall k :: k in keys ==> k in evidence
  {
    Supports(keys, evidence, s) == Some(true)
  }

  /** The sample makes lines 38-45 raise: a missing evidence variable, or an accepted sample without a query value. */
  predicate RsRaises(keys: seq<Variable>, evidence: map<Variable, Value>, query: Variable, vals: seq<Value>,
                     s: map<Variable, Value>)
    requires forall k :: k in keys ==> k in evidence
  {
    Supports(keys, evidence, s).None? || (Accepts(keys, evidence, s) && (query !in s || s[query] !in vals))
  }

  /** `evidence_supporting_sample_counter`: the number of accepted samples. */
  function Accepted(keys: seq<Variable>, evidence: map<Variable, Value>, samples: seq<map<Variable, Value>>): nat
    requires forall k :: k in keys ==> k in evidence
  {
    if |samples| == 0 then 0
    else Accepted(keys, evidence, samples[..|samples| - 1]) + (if Accepts(keys, evidence, samples[|samples| - 1]) then 1 else 0)
  }

  /** The count of accepted samples whose query variable holds `v`. */
  function AcceptedWith(keys: seq<Variable>, evidence: map<Variable, Value>, samples: seq<map<Variable, Value>>,
                        query: Variable, v: Value): (n: nat)
    requires forall k :: k in keys ==> k in evidence
    ensures n <= Accepted(keys, evidence, samples)
  {
    if |samples| == 0 then 0
    else
      var s := samples[|samples| - 1];
      AcceptedWith(keys, evidence, samples[..|samples| - 1], query, v) +
        (if Accepts(keys, evidence, s) && query in s && s[query] == v then 1 else 0)
  }

  /** The entry of the returned distribution for `v`: the share of accepted samples, once there is one. */
  function RsEstimate(keys: seq<Variable>, evidence: map<Variable, Value>, samples: seq<map<Variable, Value>>,
                      query: Variable, v: Value): real
    requires forall k :: k in keys ==> k in evidence
  {
    var counter := Accepted(keys, evidence, samples) as real;
    var count := AcceptedWith(keys, evidence, samples, query, v) as real;
    if counter > Threshold then count / counter else count
  }

  /** The counts for the values `ks`. */
  function RsCounts(keys: seq<Variable>, evidence: map<Variable, Value>, samples: seq<map<Variable, Value>>,
                    query: Variable, ks: seq<Value>): (r: seq<real>)
    requires forall k :: k in keys ==> k in evidence
    ensures |r| == |ks| && forall i :: 0 <= i < |ks| ==> r[i] == AcceptedWith(keys, evidence, samples, query, ks[i]) as real
  {
    seq(|ks|, i requires 0 <= i < |ks| => AcceptedWith(keys, evidence, samples, query, ks[i]) as real)
  }

  /** The estimates for the values `ks`. */
  function RsEstimates(keys: seq<Variable>, evidence: map<Variable, Value>, samples: seq<map<Variable, Value>>,
                       query: Variable, ks: seq<Value>): (r: seq<real>)
    requires forall k :: k in keys ==> k in evidence
    ensures |r| == |ks| && forall i :: 0 <= i < |ks| ==> r[i] == RsEstimate(keys, evidence, samples, query, ks[i])
  {
    seq(|ks|, i requires 0 <= i < |ks| => RsEstimate(keys, evidence, samples, query, ks[i]))
  }

  /** 1.0 where `ks` holds `v`, 0.0 elsewhere. */
  function Indicator(ks: seq<Value>, v: Value): (r: seq<real>)
    ensures |r| == |ks| && forall i :: 0 <= i < |ks| ==> r[i] == if ks[i] == v then 1.0 else 0.0
  {
    seq(|ks|, i requires 0 <= i < |ks| => if ks[i] == v then 1.0 else 0.0)
  }

  /** Over distinct values, the indicator of `v` sums to one exactly when `v` is among them. */
  lemma {:induction false} SumIndicator(ks: seq<Value>, v: Value)
    requires Distinct(ks)
    ensures Sum(Indicator(ks, v)) == if v in ks then 1.0 else 0.0
  {
    if |ks| > 0 {
      var n := |ks| - 1;
      assert Indicator(ks, v)[..n] == Indicator(ks[..n], v);
      assert Distinct(ks[..n]);
      SumIndicator(ks[..n], v);
      assert v in ks <==> v in ks[..n] || v == ks[n];
      assert v == ks[n] ==> v !in ks[..n];
    }
  }

  /**
   * Every accepted sample is counted under exactly one of the distinct
   * values `ks`, so the counts add up to the number of accepted samples.
   */
  lemma {:induction false} RsCountsTotal(keys: seq<Variable>, evidence: map<Variable, Value>,
                                         samples: seq<map<Variable, Value>>, query: Variable, ks: seq<Value>)
    requires forall k :: k in keys ==> k in evidence
    requires Distinct(ks)
    requires forall j :: 0 <= j < |samples| && Accepts(keys, evidence, samples[j]) ==>
      query in samples[j] && samples[j][query] in ks
    ensures Sum(RsCounts(keys, evidence, samples, query, ks)) == Accepted(keys, evidence, samples) as real
  {
    if |samples| > 0 {
      var n := |samples| - 1;
      var s := samples[n];
      var before := RsCounts(keys, evidence, samples[..n], query, ks);
      assert forall j :: 0 <= j < n ==> samples[..n][j] == samples[j];
      RsCountsTotal(keys, evidence, samples[..n], query, ks);
      if Accepts(keys, evidence, s) {
        assert query in s && s[query] in ks;
        RsCountsAccepted(keys, evidence, samples, query, ks);
        SumAdd(before, Indicator(ks, s[query]));
        SumIndicator(ks, s[query]);
        assert Accepted(keys, evidence, samples) == Accepted(keys, evidence, samples[..n]) + 1;
      } else {
        RsCountsRejected(keys, evidence, samples, query, ks);
      }
    } else {
      SumZeros(RsCounts(keys, evidence, samples, query, ks));
    }
  }

  /** An accepted last sample adds one under its query value. */
  lemma RsCountsAccepted(keys: seq<Variable>, evidence: map<Variable, Value>,
                         samples: seq<map<Variable, Value>>, query: Variable, ks: seq<Value>)
    requires forall k :: k in keys ==> k in evidence
    requires |samples| > 0 && Accepts(keys, evidence, samples[|samples| - 1]) && query in samples[|samples| - 1]
    ensures var n := |samples| - 1;
      RsCounts(keys, evidence, samples, query, ks) ==
        Add(RsCounts(keys, evidence, samples[..n], query, ks), Indicator(ks, samples[n][query]))
  {
  }

  /** A rejected last sample leaves the counts as they were. */
  lemma RsCountsRejected(keys: seq<Variable>, evidence: map<Variable, Value>,
                         samples: seq<map<Variable, Value>>, query: Variable, ks: seq<Value>)
    requires forall k :: k in keys ==> k in evidence
    requires |samples| > 0 && !Accepts(keys, evidence, samples[|samples| - 1])
    ensures RsCounts(keys, evidence, samples, query, ks) == RsCounts(keys, evidence, samples[..|samples| - 1], query, ks)
  {
  }

  /**
   * Once a sample is accepted, the returned probabilities over the
   * distinct values of the query variable sum to one.
   */
  lemma RsSumsToOne(keys: seq<Variable>, evidence: map<Variable, Value>, samples: seq<map<Variable, Value>>,
                    query: Variable, ks: seq<Value>)
    requires forall k :: k in keys ==> k in evidence
    requires Distinct(ks)
    requires forall j :: 0 <= j < |samples| && Accepts(keys, evidence, samples[j]) ==>
      query in samples[j] && samples[j][query] in ks
    requires Accepted(keys, evidence, samples) > 0
    ensures Sum(RsEstimates(keys, evidence, samples, query, ks)) == 1.0
  {
    var counter := Accepted(keys, evidence, samples) as real;
    var counts := RsCounts(keys, evidence, samples, query, ks);
    RsCountsTotal(keys, evidence, samples, query, ks);
    assert RsEstimates(keys, evidence, samples, query, ks) == Divide(counts, counter);
    SumDivide(counts, counter);
    SelfDivide(counter);
  }

  /** Every returned probability lies in [0, 1] once a sample is accepted. */
  lemma RsEstimateBounds(keys: seq<Variable>, evidence: map<Variable, Value>, samples: seq<map<Variable, Value>>,
                         query: Variable, v: Value)
    requires forall k :: k in keys ==> k in evidence
    requires Accepted(keys, evidence, samples) > 0
    ensures 0.0 <= RsEstimate(keys, evidence, samples, query, v) <= 1.0
  {
    var counter := Accepted(keys, evidence, samples) as real;
    var count := AcceptedWith(keys, evidence, samples, query, v) as real;
    Ratio(count, counter);
  }

  lemma Ratio(a: real, b: real)
    requires 0.0 <= a <= b && b > 0.0
    ensures 0.0 <= a / b <= 1.0
  {
    assert a / b * b == a;
  }

  /** The sample makes line 72 raise: no query value, or one outside the domain. */
  predicate LwRaises(query: Variable, vals: seq<Value>, s: (map<Variable, Value>, real))
  {
    query !in s.0 || s.0[query] !in vals
  }

  /** The weight accumulated under `v`. */
  function WeightWith(query: Variable, samples: seq<(map<Variable, Value>, real)>, v: Value): real
  {
    if |samples| == 0 then 0.0
    else
      var s := samples[|samples| - 1];
      WeightWith(query, samples[..|samples| - 1], v) + (if query in s.0 && s.0[query] == v then s.1 else 0.0)
  }

  /** The sum of all sample weights. */
  function TotalWeight(samples: seq<(map<Variable, Value>, real)>): real
  {
    if |samples| == 0 then 0.0 else TotalWeight(samples[..|samples| - 1]) + samples[|samples| - 1].1
  }

  /** The entry of the returned distribution for `v`: its share of the total weight, when that exceeds `1e-10`. */
  function LwEstimate(query: Variable, samples: seq<(map<Variable, Value>, real)>, v: Value): real
  {
    var total := TotalWeight(samples);
    if total > Threshold then WeightWith(query, samples, v) / total else WeightWith(query, samples, v)
  }

  /** The accumulated weights for the values `ks`. */
  function LwTotals(query: Variable, samples: seq<(map<Variable, Value>, real)>, ks: seq<Value>): (r: seq<real>)
    ensures |r| == |ks| && forall i :: 0 <= i < |ks| ==> r[i] == WeightWith(query, samples, ks[i])
  {
    seq(|ks|, i requires 0 <= i < |ks| => WeightWith(query, samples, ks[i]))
  }

  /** The estimates for the values `ks`. */
  function LwEstimates(query: Variable, samples: seq<(map<Variable, Value>, real)>, ks: seq<Value>): (r: seq<real>)
    ensures |r| == |ks| && forall i :: 0 <= i < |ks| ==> r[i] == LwEstimate(query, samples, ks[i])
  {
    seq(|ks|, i requires 0 <= i < |ks| => LwEstimate(query, samples, ks[i]))
  }

  /**
   * Every sample's weight is accumulated under exactly one of the distinct
   * values `ks`: the normaliser of lines 74-76 is the total weight.
   */
  lemma {:induction false} LwTotalsSum(query: Variable, samples: seq<(map<Variable, Value>, real)>, ks: seq<Value>)
    requires Distinct(ks)
    requires forall j :: 0 <= j < |samples| ==> query in samples[j].0 && samples[j].0[query] in ks
    ensures Sum(LwTotals(query, samples, ks)) == TotalWeight(samples)
  {
    if |samples| > 0 {
      var n := |samples| - 1;
      var s := samples[n];
      var before := LwTotals(query, samples[..n], ks);
      assert forall j :: 0 <= j < n ==> samples[..n][j] == samples[j];
      LwTotalsSum(query, samples[..n], ks);
      assert query in s.0 && s.0[query] in ks;
      var added := Scale(s.1, Indicator(ks, s.0[query]));
      LwTotalsStep(query, samples, ks);
      assert TotalWeight(samples) == TotalWeight(samples[..n]) + s.1;
      SumAdd(before, added);
      SumScale(s.1, Indicator(ks, s.0[query]));
      SumIndicator(ks, s.0[query]);
    } else {
      SumZeros(LwTotals(query, samples, ks));
    }
  }

  /** The last sample adds its weight under its query value. */
  lemma LwTotalsStep(query: Variable, samples: seq<(map<Variable, Value>, real)>, ks: seq<Value>)
    requires |samples| > 0 && query in samples[|samples| - 1].0
    ensures var s := samples[|samples| - 1];
      LwTotals(query, samples, ks) ==
        Add(LwTotals(query, samples[..|samples| - 1], ks), Scale(s.1, Indicator(ks, s.0[query])))
  {
    var s := samples[|samples| - 1];
    var before := LwTotals(query, samples[..|samples| - 1], ks);
    var added := Scale(s.1, Indicator(ks, s.0[query]));
    forall i | 0 <= i < |ks| ensures LwTotals(query, samples, ks)[i] == Add(before, added)[i] {
      if ks[i] == s.0[query] {
        assert added[i] == s.1 * 1.0;
      } else {
        assert added[i] == s.1 * 0.0;
      }
    }
  }

  /** When the total weight exceeds `1e-10`, the returned probabilities sum to one. */
  lemma LwSumsToOne(query: Variable, samples: seq<(map<Variable, Value>, real)>, ks: seq<Value>)
    requires Distinct(ks)
    requires forall j :: 0 <= j < |samples| ==> query in samples[j].0 && samples[j].0[query] in ks
    requires TotalWeight(samples) > Threshold
    ensures Sum(LwEstimates(query, samples, ks)) == 1.0
  {
    var total := TotalWeight(samples);
    var totals := LwTotals(query, samples, ks);
    LwTotalsSum(query, samples, ks);
    assert LwEstimates(query, samples, ks) == Divide(totals, total);
    SumDivide(totals, total);
    SelfDivide(total);
  }

  // ---------------------------------------------------------------------------
  // perform_rs_inference and perform_lw_inference
  // ---------------------------------------------------------------------------

  /**
   * `perform_rs_inference` with one draw vector per sample and the evidence
   * visited in `keys` order: the share of accepted samples per value of the
   * query variable, or None where the code raises.
   */
  function RsInference(net: Network, query: Variable, evidence: map<Variable, Value>, keys: seq<Variable>,
                       draws: seq<seq<real>>): Option<map<Value, real>>
    requires EvidenceOrder(keys, evidence)
    requires forall k :: 0 <= k < |draws| ==> |net.V| <= |draws[k]|
  {
    if query !in net.Vdata then None
    else
      var vals := net.Vdata[query].vals;
      match RsSamples(net, draws)
      case None => None
      case Some(samples) =>
        if exists j :: 0 <= j < |samples| && RsRaises(keys, evidence, query, vals, samples[j]) then None
        else Some(map v | v in vals :: RsEstimate(keys, evidence, samples, query, v))
  }

  /**
   * `perform_lw_inference` with one draw vector per sample: the share of
   * the total weight per value of the query variable, or None where the
   * code raises.
   */
  function LwInference(net: Network, query: Variable, evidence: map<Variable, Value>, draws: seq<seq<real>>)
    : Option<map<Value, real>>
    requires forall k :: 0 <= k < |draws| ==> |net.V| <= |draws[k]|
  {
    if query !in net.Vdata then None
    else
      var vals := net.Vdata[query].vals;
      match LwSamples(net, evidence, draws)
      case None => None
      case Some(samples) =>
        if exists j :: 0 <= j < |samples| && LwRaises(query, vals, samples[j]) then None
        else Some(map v | v in vals :: LwEstimate(query, samples, v))
  }

  /** The entries of `m` at the keys `ks`, in order. */
  function Entries(m: map<Value, real>, ks: seq<Value>): (r: seq<real>)
    requires forall k :: k in ks ==> k in m
    ensures |r| == |ks| && forall i :: 0 <= i < |ks| ==> r[i] == m[ks[i]]
  {
    seq(|ks|, i requires 0 <= i < |ks| => m[ks[i]])
  }

  /** `distribution` during the sampling loop of `perform_rs_inference`: the accepted counts per value. */
  ghost predicate RsTallied(keys: seq<Variable>, evidence: map<Variable, Value>, samples: seq<map<Variable, Value>>,
                            query: Variable, vals: seq<Value>, table: map<Value, real>)
    requires forall k :: k in keys ==> k in evidence
  {
    && (forall v :: v in table <==> v in vals)
    && (forall v :: v in table ==> table[v] == AcceptedWith(keys, evidence, samples, query, v) as real)
  }

  /** `distribution` during the sampling loop of `perform_lw_inference`: the accumulated weight per value. */
  ghost predicate LwTallied(query: Variable, samples: seq<(map<Variable, Value>, real)>, vals: seq<Value>,
                            table: map<Value, real>)
  {
    && (forall v :: v in table <==> v in vals)
    && (forall v :: v in table ==> table[v] == WeightWith(query, samples, v))
  }

  /** A sample that cannot be generated makes the whole inference raise. */
  lemma RsSampleRaises(net: Network, query: Variable, evidence: map<Variable, Value>, keys: seq<Variable>,
                       draws: seq<seq<real>>, i: nat)
    requires EvidenceOrder(keys, evidence)
    requires forall k :: 0 <= k < |draws| ==> |net.V| <= |draws[k]|
    requires i < |draws| && RsSample(net, draws[i], |net.V|).None?
    ensures RsInference(net, query, evidence, keys, draws).None?
  {
    assert RsOutcomes(net, draws)[i].None?;
  }

  /** A sample that cannot be generated makes the whole inference raise. */
  lemma LwSampleRaises(net: Network, query: Variable, evidence: map<Variable, Value>, draws: seq<seq<real>>, i: nat)
    requires forall k :: 0 <= k < |draws| ==> |net.V| <= |draws[k]|
    requires i < |draws| && LwSample(net, evidence, draws[i], |net.V|).None?
    ensures LwInference(net, query, evidence, draws).None?
  {
    assert LwOutcomes(net, evidence, draws)[i].None?;
  }

  /** A sample on which the tally raises makes the whole inference raise. */
  lemma RsRaisesFails(net: Network, query: Variable, evidence: map<Variable, Value>, keys: seq<Variable>,
                      draws: seq<seq<real>>, i: nat, sample: map<Variable, Value>)
    requires EvidenceOrder(keys, evidence)
    requires forall k :: 0 <= k < |draws| ==> |net.V| <= |draws[k]|
    requires query in net.Vdata && i < |draws| && RsSample(net, draws[i], |net.V|) == Some(sample)
    requires RsRaises(keys, evidence, query, net.Vdata[query].vals, sample)
    ensures RsInference(net, query, evidence, keys, draws).None?
  {
    var all := RsSamples(net, draws);
    if all.Some? {
      assert all.value[i] == sample;
    }
  }

  /** A sample on which the tally raises makes the whole inference raise. */
  lemma LwRaisesFails(net: Network, query: Variable, evidence: map<Variable, Value>, draws: seq<seq<real>>, i: nat,
                      sample: (map<Variable, Value>, real))
    requires forall k :: 0 <= k < |draws| ==> |net.V| <= |draws[k]|
    requires query in net.Vdata && i < |draws| && LwSample(net, evidence, draws[i], |net.V|) == Some(sample)
    requires LwRaises(query, net.Vdata[query].vals, sample)
    ensures LwInference(net, query, evidence, draws).None?
  {
    var all := LwSamples(net, evidence, draws);
    if all.Some? {
      assert all.value[i] == sample;
    }
  }

  /** The normaliser of lines 74-76, whatever the key order, is the total weight of the samples. */
  lemma LwNormaliser(query: Variable, samples: seq<(map<Variable, Value>, real)>, vals: seq<Value>,
                     table: map<Value, real>, order: seq<Value>)
    requires LwTallied(query, samples, vals, table)
    requires forall j :: 0 <= j < |samples| ==> !LwRaises(query, vals, samples[j])
    requires Distinct(order) && forall v :: v in order <==> v in table
    ensures Sum(Entries(table, order)) == TotalWeight(samples)
  {
    assert Entries(table, order) == LwTotals(query, samples, order);
    LwTotalsSum(query, samples, order);
  }

  /**
   * The state of `perform_rs_inference` after the samples `samples` (the
   * first `|samples|` draw vectors): none raised, and `table` and `counter`
   * hold their tallies.
   */
  ghost predicate RsSoFar(net: Network, query: Variable, evidence: map<Variable, Value>, keys: seq<Variable>,
                          draws: seq<seq<real>>, samples: seq<map<Variable, Value>>, table: map<Value, real>, counter: real)
    requires EvidenceOrder(keys, evidence)
    requires forall k :: 0 <= k < |draws| ==> |net.V| <= |draws[k]|
  {
    && query in net.Vdata && |samples| <= |draws|
    && (forall j :: 0 <= j < |samples| ==> RsSample(net, draws[j], |net.V|) == Some(samples[j]))
    && (forall j :: 0 <= j < |samples| ==> !RsRaises(keys, evidence, query, net.Vdata[query].vals, samples[j]))
    && RsTallied(keys, evidence, samples, query, net.Vdata[query].vals, table)
    && counter == Accepted(keys, evidence, samples) as real
  }

  /** The state of `perform_lw_inference` after the samples `samples`. */
  ghost predicate LwSoFar(net: Network, query: Variable, evidence: map<Variable, Value>, draws: seq<seq<real>>,
                          samples: seq<(map<Variable, Value>, real)>, table: map<Value, real>)
    requires forall k :: 0 <= k < |draws| ==> |net.V| <= |draws[k]|
  {
    && query in net.Vdata && |samples| <= |draws|
    && (forall j :: 0 <= j < |samples| ==> LwSample(net, evidence, draws[j], |net.V|) == Some(samples[j]))
    && (forall j :: 0 <= j < |samples| ==> !LwRaises(query, net.Vdata[query].vals, samples[j]))
    && LwTallied(query, samples, net.Vdata[query].vals, table)
  }

  /** After every sample, the tallies are those of the samples the draw vectors generate. */
  lemma RsAllSamples(net: Network, query: Variable, evidence: map<Variable, Value>, keys: seq<Variable>,
                     draws: seq<seq<real>>, samples: seq<map<Variable, Value>>, table: map<Value, real>, counter: real)
    requires EvidenceOrder(keys, evidence)
    requires forall k :: 0 <= k < |draws| ==> |net.V| <= |draws[k]|
    requires RsSoFar(net, query, evidence, keys, draws, samples, table, counter) && |samples| == |draws|
    ensures RsSamples(net, draws) == Some(samples)
    ensures RsInference(net, query, evidence, keys, draws) ==
      Some(map v | v in net.Vdata[query].vals :: RsEstimate(keys, evidence, samples, query, v))
  {
    var outcomes := RsOutcomes(net, draws);
    assert forall k :: 0 <= k < |draws| ==> outcomes[k] == Some(samples[k]);
    var all := Collect(outcomes);
    assert all.Some? && |all.value| == |samples|;
    assert all.value == samples;
  }

  /** After every sample, the tallies are those of the samples the draw vectors generate. */
  lemma LwAllSamples(net: Network, query: Variable, evidence: map<Variable, Value>, draws: seq<seq<real>>,
                     samples: seq<(map<Variable, Value>, real)>, table: map<Value, real>)
    requires forall k :: 0 <= k < |draws| ==> |net.V| <= |draws[k]|
    requires LwSoFar(net, query, evidence, draws, samples, table) && |samples| == |draws|
    ensures LwSamples(net, evidence, draws) == Some(samples)
    ensures LwInference(net, query, evidence, draws) ==
      Some(map v | v in net.Vdata[query].vals :: LwEstimate(query, samples, v))
  {
    var outcomes := LwOutcomes(net, evidence, draws);
    assert forall k :: 0 <= k < |draws| ==> outcomes[k] == Some(samples[k]);
    var all := Collect(outcomes);
    assert all.Some? && |all.value| == |samples|;
    assert all.value == samples;
  }

  /**
   * On a well-formed network in topological order with draws in [0, 1),
   * rejection sampling raises only for a query or an evidence variable
   * that is not in the network.
   */
  lemma RsInferenceDefined(net: Network, query: Variable, evidence: map<Variable, Value>, keys: seq<Variable>,
                           draws: seq<seq<real>>)
    requires EvidenceOrder(keys, evidence)
    requires forall k :: 0 <= k < |draws| ==> |net.V| <= |draws[k]|
    requires WellFormed(net) && Topological(net) && Normalized(net)
    requires forall k, i :: 0 <= k < |draws| && 0 <= i < |draws[k]| ==> draws[k][i] < 1.0
    requires query in net.Vdata && forall x :: x in evidence ==> x in net.Vdata
    ensures RsInference(net, query, evidence, keys, draws).Some?
  {
    var outcomes := RsOutcomes(net, draws);
    forall k | 0 <= k < |draws|
      ensures outcomes[k].Some? && (forall x :: x in outcomes[k].value <==> x in net.V)
      ensures ValidOn(net, net.V, outcomes[k].value)
    {
      RsSampleValid(net, draws[k], |net.V|);
      assert net.V[..|net.V|] == net.V;
    }
    var samples := RsSamples(net, draws).value;
    var vals := net.Vdata[query].vals;
    forall j | 0 <= j < |samples| ensures !RsRaises(keys, evidence, query, vals, samples[j]) {
      assert outcomes[j] == Some(samples[j]);
      assert query in net.V;
    }
  }

  /** Once a sample is accepted, the returned distribution sums to one over the query's distinct values. */
  lemma RsInferenceSumsToOne(net: Network, query: Variable, evidence: map<Variable, Value>, keys: seq<Variable>,
                             draws: seq<seq<real>>)
    requires EvidenceOrder(keys, evidence)
    requires forall k :: 0 <= k < |draws| ==> |net.V| <= |draws[k]|
    requires query in net.Vdata && Distinct(net.Vdata[query].vals)
    requires RsInference(net, query, evidence, keys, draws).Some?
    requires RsSamples(net, draws).Some? && Accepted(keys, evidence, RsSamples(net, draws).value) > 0
    ensures Sum(Entries(RsInference(net, query, evidence, keys, draws).value, net.Vdata[query].vals)) == 1.0
  {
    var samples := RsSamples(net, draws).value;
    var vals := net.Vdata[query].vals;
    var m := RsInference(net, query, evidence, keys, draws).value;
    assert Entries(m, vals) == RsEstimates(keys, evidence, samples, query, vals);
    forall j | 0 <= j < |samples| && Accepts(keys, evidence, samples[j])
      ensures query in samples[j] && samples[j][query] in vals
    {
      assert !RsRaises(keys, evidence, query, vals, samples[j]);
    }
    RsSumsToOne(keys, evidence, samples, query, vals);
  }

  /** Once a sample is accepted, every returned probability lies in [0, 1]. */
  lemma RsInferenceBounds(net: Network, query: Variable, evidence: map<Variable, Value>, keys: seq<Variable>,
                          draws: seq<seq<real>>, v: Value)
    requires EvidenceOrder(keys, evidence)
    requires forall k :: 0 <= k < |draws| ==> |net.V| <= |draws[k]|
    requires RsInference(net, query, evidence, keys, draws).Some? && v in RsInference(net, query, evidence, keys, draws).value
    requires RsSamples(net, draws).Some? && Accepted(keys, evidence, RsSamples(net, draws).value) > 0
    ensures 0.0 <= RsInference(net, query, evidence, keys, draws).value[v] <= 1.0
  {
    RsEstimateBounds(keys, evidence, RsSamples(net, draws).value, query, v);
  }

  /**
   * With observations from the domains, on a well-formed network in
   * topological order with draws in [0, 1), likelihood weighting raises
   * only for a query variable that is not in the network.
   */
  lemma LwInferenceDefined(net: Network, query: Variable, evidence: map<Variable, Value>, draws: seq<seq<real>>)
    requires forall k :: 0 <= k < |draws| ==> |net.V| <= |draws[k]|
    requires WellFormed(net) && Topological(net) && Normalized(net) && ValidEvidence(net, evidence)
    requires forall k, i :: 0 <= k < |draws| && 0 <= i < |draws[k]| ==> draws[k][i] < 1.0
    requires query in net.Vdata
    ensures LwInference(net, query, evidence, draws).Some?
  {
    var outcomes := LwOutcomes(net, evidence, draws);
    forall k | 0 <= k < |draws|
      ensures outcomes[k].Some? && ValidOn(net, net.V, outcomes[k].value.0)
    {
      LwSampleValid(net, evidence, draws[k], |net.V|);
      assert net.V[..|net.V|] == net.V;
    }
    var samples := LwSamples(net, evidence, draws).value;
    var vals := net.Vdata[query].vals;
    forall j | 0 <= j < |samples| ensures !LwRaises(query, vals, samples[j]) {
      assert outcomes[j] == Some(samples[j]);
      assert query in net.V;
    }
  }

  /** When the total weight exceeds `1e-10`, the returned distribution sums to one over the query's distinct values. */
  lemma LwInferenceSumsToOne(net: Network, query: Variable, evidence: map<Variable, Value>, draws: seq<seq<real>>)
    requires forall k :: 0 <= k < |draws| ==> |net.V| <= |draws[k]|
    requires query in net.Vdata && Distinct(net.Vdata[query].vals)
    requires LwInference(net, query, evidence, draws).Some?
    requires LwSamples(net, evidence, draws).Some? && TotalWeight(LwSamples(net, evidence, draws).value) > Threshold
    ensures Sum(Entries(LwInference(net, query, evidence, draws).value, net.Vdata[query].vals)) == 1.0
  {
    var samples := LwSamples(net, evidence, draws).value;
    var vals := net.Vdata[query].vals;
    var m := LwInference(net, query, evidence, draws).value;
    assert Entries(m, vals) == LwEstimates(query, samples, vals);
    forall j | 0 <= j < |samples| ensures query in samples[j].0 && samples[j].0[query] in vals {
      assert !LwRaises(query, vals, samples[j]);
    }
    LwSumsToOne(query, samples, vals);
  }

  // ---------------------------------------------------------------------------
  // The engine
  // ---------------------------------------------------------------------------

  /** Once a variable cannot be drawn, the sample is never completed. */
  lemma {:induction false} RsSampleFails(net: Network, draws: seq<real>, i: nat, n: nat)
    requires i <= n <= |net.V| <= |draws| && RsSample(net, draws, i).None?
    ensures RsSample(net, draws, n).None?
    decreases n - i
  {
    if i < n {
      RsSampleFails(net, draws, i, n - 1);
    }
  }

  /** Once a step raises, the weighted sample is never completed. */
  lemma {:induction false} LwSampleFails(net: Network, evidence: map<Variable, Value>, draws: seq<real>, i: nat, n: nat)
    requires i <= n <= |net.V| <= |draws| && LwSample(net, evidence, draws, i).None?
    ensures LwSample(net, evidence, draws, n).None?
    decreases n - i
  {
    if i < n {
      LwSampleFails(net, evidence, draws, i, n - 1);
    }
  }

  class ApproximateInferenceEngine {
    const network: Network

    /** `__init__`; the `toporder()` call is the precondition `Topological` of the lemmas instead. */
    constructor (network: Network)
      ensures this.network == network
    {
      this.network := network;
    }

    /** `get_parent_values`: the parents' values in parent order, serialised into a table key. */
    method GetParentValues(variable: Variable, assignment: map<Variable, Value>) returns (key: Option<Option<string>>)
      ensures key == ParentKeyOf(network, variable, assignment)
    {
      if variable !in network.Vdata {
        return None;
      }
      match network.Vdata[variable].parents
      case None =>
        key := Some(None);
      case Some(parents) =>
        var parentValues: seq<Value> := [];
        for i := 0 to |parents|
          invariant |parentValues| == i
          invariant forall j :: 0 <= j < i ==> parents[j] in assignment && parentValues[j] == assignment[parents[j]]
        {
          if parents[i] !in assignment {
            assert parents[i] in parents;
            return None;
          }
          parentValues := parentValues + [assignment[parents[i]]];
        }
        assert parentValues == ParentValues(parents, assignment);
        key := Some(Some(ParentKey(parentValues)));
    }

    /** Lines 101-108: `cumulative_distribution`, built by appending running sums to `[0.]`. */
    method CumulativeDistribution(row: seq<real>) returns (cum: seq<real>)
      ensures cum == Cumulative(row)
    {
      cum := [0.0];
      for i := 0 to |row|
        invariant cum == Cumulative(row[..i])
      {
        assert row[..i + 1][..i] == row[..i];
        cum := cum + [cum[i] + row[i]];
      }
      assert row[..|row|] == row;
    }

    /** Lines 110-117: the scan for the first running sum at least the draw, less one. */
    method SelectIndex(cum: seq<real>, r: real) returns (index: nat)
      requires |cum| > 0
      ensures index == Select(cum, r)
    {
      var valueIndex := 1;
      while valueIndex < |cum| && r > cum[valueIndex]
        invariant 1 <= valueIndex <= |cum|
        invariant StopAt(cum, r, valueIndex) == StopAt(cum, r, 1)
        decreases |cum| - valueIndex
      {
        valueIndex := valueIndex + 1;
      }
      index := valueIndex - 1;
    }

    /** Lines 97-118: the value drawn for `variable` with the draw `r`; None where the code raises. */
    method DrawValue(variable: Variable, assignment: map<Variable, Value>, r: real) returns (value: Option<Value>)
      ensures value == SampleValue(network, variable, assignment, r)
    {
      var key := GetParentValues(variable, assignment);
      if key.None? {
        return None;
      }
      var row := TableRow(network, variable, key.value);
      if row.None? {
        return None;
      }
      var cum := CumulativeDistribution(row.value);
      var index := SelectIndex(cum, r);
      var vals := network.Vdata[variable].vals;
      if index >= |vals| {
        return None;
      }
      value := Some(vals[index]);
    }

    /**
     * `generate_rs_sample` with the draws `draws` (`draws[i]` for `V[i]`):
     * every variable set to '', then each drawn in the order of `V`.
     */
    method GenerateRsSample(draws: seq<real>) returns (sample: Option<map<Variable, Value>>)
      requires |network.V| <= |draws|
      ensures sample == RsSample(network, draws, |network.V|)
    {
      var assignment: map<Variable, Value> := map[];
      for i := 0 to |network.V|
        invariant assignment == Blank(network.V[..i])
      {
        PrefixMembers(network.V, i);
        assignment := assignment[network.V[i] := ""];
      }
      assert network.V[..|network.V|] == network.V;
      for i := 0 to |network.V|
        invariant RsSample(network, draws, i) == Some(assignment)
      {
        var value := DrawValue(network.V[i], assignment, draws[i]);
        if value.None? {
          RsSampleFails(network, draws, i + 1, |network.V|);
          return None;
        }
        assignment := assignment[network.V[i] := value.value];
      }
      sample := Some(assignment);
    }

    /** Lines 144-152: the table entry of an evidence variable at its observed value. */
    method EvidenceWeight(variable: Variable, assignment: map<Variable, Value>, observed: Value)
      returns (p: Option<real>)
      ensures p == EvidenceEntry(network, variable, assignment, observed)
    {
      var key := GetParentValues(variable, assignment);
      if key.None? {
        return None;
      }
      var vals := network.Vdata[variable].vals;
      if observed !in vals {
        return None;
      }
      var valueIndex := IndexOf(vals, observed);
      var row := TableRow(network, variable, key.value);
      if row.None? || valueIndex >= |row.value| {
        return None;
      }
      p := Some(row.value[valueIndex]);
    }

    /** Lines 132-137: evidence variables set to their observations, the others to ''. */
    method ClampEvidence(evidence: map<Variable, Value>) returns (assignment: map<Variable, Value>)
      ensures assignment == Clamped(network.V, evidence)
    {
      assignment := map[];
      for i := 0 to |network.V|
        invariant assignment == Clamped(network.V[..i], evidence)
      {
        PrefixMembers(network.V, i);
        if network.V[i] in evidence {
          assignment := assignment[network.V[i] := evidence[network.V[i]]];
        } else {
          assignment := assignment[network.V[i] := ""];
        }
      }
      assert network.V[..|network.V|] == network.V;
    }

    /** One pass of the loop at lines 140-172: weigh an evidence variable, draw any other. */
    method WeighOrDraw(evidence: map<Variable, Value>, variable: Variable, assignment: map<Variable, Value>,
                       weight: real, r: real)
      returns (next: Option<(map<Variable, Value>, real)>)
      ensures next == LwStep(network, evidence, variable, assignment, weight, r)
    {
      if variable in evidence {
        var p := EvidenceWeight(variable, assignment, evidence[variable]);
        if p.None? {
          return None;
        }
        next := Some((assignment, weight * p.value));
        assert next.value.1 == LwStep(network, evidence, variable, assignment, weight, r).value.1;
      } else {
        var value := DrawValue(variable, assignment, r);
        if value.None? {
          return None;
        }
        next := Some((assignment[variable := value.value], weight));
      }
    }

    /**
     * `generate_lw_sample` with the draws `draws`: evidence variables
     * clamped to their observations and weighted, the others drawn.
     */
    method GenerateLwSample(evidence: map<Variable, Value>, draws: seq<real>)
      returns (sample: Option<(map<Variable, Value>, real)>)
      requires |network.V| <= |draws|
      ensures sample == LwSample(network, evidence, draws, |network.V|)
    {
      var assignment := ClampEvidence(evidence);
      var weight := 1.0;
      for i := 0 to |network.V|
        invariant LwSample(network, evidence, draws, i).Some?
        invariant LwSample(network, evidence, draws, i).value == (assignment, weight)
      {
        var next := WeighOrDraw(evidence, network.V[i], assignment, weight, draws[i]);
        LwSampleUnfold(network, evidence, draws, i + 1);
        if next.None? {
          LwSampleFails(network, evidence, draws, i + 1, |network.V|);
          return None;
        }
        assignment, weight := next.value.0, next.value.1;
      }
      sample := Some((assignment, weight));
    }

    /** Lines 37-41: the evidence visited in `keys` order, stopping at the first disagreement. */
    method SupportsEvidence(keys: seq<Variable>, evidence: map<Variable, Value>, sample: map<Variable, Value>)
      returns (supports: Option<bool>)
      requires forall k :: k in keys ==> k in evidence
      ensures supports == Supports(keys, evidence, sample)
    {
      var k := 0;
      while k < |keys|
        invariant k <= |keys|
        invariant Supports(keys, evidence, sample) == Supports(keys[k..], evidence, sample)
      {
        if keys[k] !in sample {
          return None;
        }
        if evidence[keys[k]] != sample[keys[k]] {
          return Some(false);
        }
        assert keys[k..][1..] == keys[k + 1..];
        k := k + 1;
      }
      return Some(true);
    }

    /** Lines 30-33 and 65-68: every value of the query variable mapped to `0.`. */
    method ZeroDistribution(vals: seq<Value>) returns (table: map<Value, real>)
      ensures forall v :: v in table <==> v in vals
      ensures forall v :: v in table ==> table[v] == 0.0
    {
      table := map[];
      for i := 0 to |vals|
        invariant forall v :: v in table <==> v in vals[..i]
        invariant forall v :: v in table ==> table[v] == 0.0
      {
        PrefixMembers(vals, i);
        table := table[vals[i] := 0.0];
      }
      assert vals[..|vals|] == vals;
    }

    /** Lines 47-49 and 78-80: every entry divided by `c`, the keys visited in the dict's (arbitrary) order. */
    method DivideAll(table: map<Value, real>, c: real) returns (divided: map<Value, real>)
      requires c != 0.0
      ensures forall v :: v in divided <==> v in table
      ensures forall v :: v in divided ==> divided[v] == table[v] / c
    {
      divided := table;
      var remaining := table.Keys;
      while remaining != {}
        invariant remaining <= table.Keys
        invariant forall v :: v in divided <==> v in table
        invariant forall v :: v in divided && v !in remaining ==> divided[v] == table[v] / c
        invariant forall v :: v in remaining ==> divided[v] == table[v]
        decreases remaining
      {
        var key :| key in remaining;
        divided := divided[key := divided[key] / c];
        remaining := remaining - {key};
      }
    }

    /**
     * Lines 37-45 for one sample: check the evidence, and for an accepted
     * sample count it and its query value. `ok` is false where the code raises.
     */
    method RsTally(query: Variable, keys: seq<Variable>, evidence: map<Variable, Value>, vals: seq<Value>,
                   ghost samples: seq<map<Variable, Value>>, sample: map<Variable, Value>,
                   table: map<Value, real>, counter: real)
      returns (ok: bool, table': map<Value, real>, counter': real)
      requires forall k :: k in keys ==> k in evidence
      requires RsTallied(keys, evidence, samples, query, vals, table)
      requires counter == Accepted(keys, evidence, samples) as real
      ensures ok <==> !RsRaises(keys, evidence, query, vals, sample)
      ensures ok ==> RsTallied(keys, evidence, samples + [sample], query, vals, table')
      ensures ok ==> counter' == Accepted(keys, evidence, samples + [sample]) as real
    {
      var all := samples + [sample];
      assert all[..|samples|] == samples;
      var supports := SupportsEvidence(keys, evidence, sample);
      if supports.None? {
        return false, table, counter;
      }
      if !supports.value {
        return true, table, counter;
      }
      if query !in sample || sample[query] !in table {
        return false, table, counter;
      }
      counter' := counter + 1.0;
      table' := table[sample[query] := table[sample[query]] + 1.0];
      ok := true;
    }

    /** Line 72 for one sample: its weight added under its query value. `ok` is false where the code raises. */
    method LwTally(query: Variable, vals: seq<Value>, ghost samples: seq<(map<Variable, Value>, real)>,
                   sample: (map<Variable, Value>, real), table: map<Value, real>)
      returns (ok: bool, table': map<Value, real>)
      requires LwTallied(query, samples, vals, table)
      ensures ok <==> !LwRaises(query, vals, sample)
      ensures ok ==> LwTallied(query, samples + [sample], vals, table')
    {
      var all := samples + [sample];
      assert all[..|samples|] == samples;
      if query !in sample.0 || sample.0[query] !in table {
        return false, table;
      }
      table' := table[sample.0[query] := table[sample.0[query]] + sample.1];
      ok := true;
    }

    /**
     * Lines 74-76: the entries of the table summed with the keys visited in
     * the dict's (arbitrary) order, which `order` records.
     */
    method Normaliser(table: map<Value, real>) returns (normaliser: real, ghost order: seq<Value>)
      ensures Distinct(order) && forall v :: v in order <==> v in table
      ensures normaliser == Sum(Entries(table, order))
    {
      normaliser := 0.0;
      order := [];
      var remaining := table.Keys;
      while remaining != {}
        invariant remaining <= table.Keys
        invariant Distinct(order) && forall v :: v in order <==> v in table && v !in remaining
        invariant normaliser == Sum(Entries(table, order))
        decreases remaining
      {
        var key :| key in remaining;
        assert Entries(table, order + [key])[..|order|] == Entries(table, order);
        normaliser := normaliser + table[key];
        order := order + [key];
        remaining := remaining - {key};
      }
    }

    /** One pass of the loop at lines 35-45: generate the next sample and tally it. */
    method RsRound(query: Variable, evidence: map<Variable, Value>, keys: seq<Variable>, draws: seq<seq<real>>, i: nat,
                   ghost samples: seq<map<Variable, Value>>, table: map<Value, real>, counter: real)
      returns (ok: bool, ghost samples': seq<map<Variable, Value>>, table': map<Value, real>, counter': real)
      requires EvidenceOrder(keys, evidence)
      requires forall k :: 0 <= k < |draws| ==> |network.V| <= |draws[k]|
      requires RsSoFar(network, query, evidence, keys, draws, samples, table, counter) && i == |samples| < |draws|
      ensures !ok ==> RsInference(network, query, evidence, keys, draws).None?
      ensures ok ==> |samples'| == |samples| + 1 && RsSoFar(network, query, evidence, keys, draws, samples', table', counter')
    {
      var sample := GenerateRsSample(draws[i]);
      samples', table', counter' := samples, table, counter;
      if sample.None? {
        RsSampleRaises(network, query, evidence, keys, draws, i);
        return false, samples', table', counter';
      }
      var vals := network.Vdata[query].vals;
      ok, table', counter' := RsTally(query, keys, evidence, vals, samples, sample.value, table, counter);
      if !ok {
        RsRaisesFails(network, query, evidence, keys, draws, i, sample.value);
        return;
      }
      samples' := samples + [sample.value];
    }

    /**
     * `perform_rs_inference` with the draw vectors `draws`, one per sample,
     * and the evidence keys visited in `keys` order.
     */
    method PerformRsInference(query: Variable, evidence: map<Variable, Value>, keys: seq<Variable>,
                              draws: seq<seq<real>>)
      returns (distribution: Option<map<Value, real>>)
      requires EvidenceOrder(keys, evidence)
      requires forall k :: 0 <= k < |draws| ==> |network.V| <= |draws[k]|
      ensures distribution == RsInference(network, query, evidence, keys, draws)
    {
      if query !in network.Vdata {
        return None;
      }
      var vals := network.Vdata[query].vals;
      var counter := 0.0;
      var table := ZeroDistribution(vals);
      ghost var samples: seq<map<Variable, Value>> := [];
      for i := 0 to |draws|
        invariant |samples| == i && RsSoFar(network, query, evidence, keys, draws, samples, table, counter)
      {
        var ok;
        ok, samples, table, counter := RsRound(query, evidence, keys, draws, i, samples, table, counter);
        if !ok {
          return None;
        }
      }
      RsAllSamples(network, query, evidence, keys, draws, samples, table, counter);
      if counter > Threshold {
        table := DivideAll(table, counter);
      }
      distribution := Some(table);
      assert table == map v | v in vals :: RsEstimate(keys, evidence, samples, query, v);
    }

    /** One pass of the loop at lines 70-72: generate the next weighted sample and tally it. */
    method LwRound(query: Variable, evidence: map<Variable, Value>, draws: seq<seq<real>>, i: nat,
                   ghost samples: seq<(map<Variable, Value>, real)>, table: map<Value, real>)
      returns (ok: bool, ghost samples': seq<(map<Variable, Value>, real)>, table': map<Value, real>)
      requires forall k :: 0 <= k < |draws| ==> |network.V| <= |draws[k]|
      requires LwSoFar(network, query, evidence, draws, samples, table) && i == |samples| < |draws|
      ensures !ok ==> LwInference(network, query, evidence, draws).None?
      ensures ok ==> |samples'| == |samples| + 1 && LwSoFar(network, query, evidence, draws, samples', table')
    {
      var sample := GenerateLwSample(evidence, draws[i]);
      samples', table' := samples, table;
      if sample.None? {
        LwSampleRaises(network, query, evidence, draws, i);
        return false, samples', table';
      }
      var vals := network.Vdata[query].vals;
      ok, table' := LwTally(query, vals, samples, sample.value, table);
      if !ok {
        LwRaisesFails(network, query, evidence, draws, i, sample.value);
        return;
      }
      samples' := samples + [sample.value];
    }

    /** `perform_lw_inference` with the draw vectors `draws`, one per sample. */
    method PerformLwInference(query: Variable, evidence: map<Variable, Value>, draws: seq<seq<real>>)
      returns (distribution: Option<map<Value, real>>)
      requires forall k :: 0 <= k < |draws| ==> |network.V| <= |draws[k]|
      ensures distribution == LwInference(network, query, evidence, draws)
    {
      if query !in network.Vdata {
        return None;
      }
      var vals := network.Vdata[query].vals;
      var table := ZeroDistribution(vals);
      ghost var samples: seq<(map<Variable, Value>, real)> := [];
      for i := 0 to |draws|
        invariant |samples| == i && LwSoFar(network, query, evidence, draws, samples, table)
      {
        var ok;
        ok, samples, table := LwRound(query, evidence, draws, i, samples, table);
        if !ok {
          return None;
        }
      }
      LwAllSamples(network, query, evidence, draws, samples, table);
      var normaliser, order := Normaliser(table);
      LwNormaliser(query, samples, vals, table, order);
      if normaliser > Threshold {
        table := DivideAll(table, normaliser);
      }
      distribution := Some(table);
      assert table == map v | v in vals :: LwEstimate(query, samples, v);
    }
  }
}
