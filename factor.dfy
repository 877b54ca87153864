/**
 * inference/factor.py: a factor is a probability table over a list of
 * variables. Row `k` of `values` assigns the variables position by position
 * and `probabilities[k]` is that row's value.
 */
module Factors {
  import opened Wrappers
  import opened Sums
  import opened Networks
  import opened Positions

  type Row = seq<Value>

  datatype Table = Table(variables: seq<Variable>, values: seq<Row>, probabilities: seq<real>)

  /** Every row assigns every variable, and each row has its probability. */
  predicate Aligned(t: Table)
  {
    |t.values| == |t.probabilities| && forall k :: 0 <= k < |t.values| ==> |t.values[k]| == |t.variables|
  }

  // ---------------------------------------------------------------------------
  // multiply
  // ---------------------------------------------------------------------------

  /** Both tables aligned and `common` holds only variables of both. */
  predicate Shared(t1: Table, t2: Table, common: seq<Variable>)
  {
    Aligned(t1) && Aligned(t2) && forall v :: v in common ==> v in t1.variables && v in t2.variables
  }

  /**
   * What `multiply` works with: `scope` is the result's variable list
   * (`list(set(...).union(...))`, in whatever order the set yields) and
   * `common` the shared variables (`list(set(...).intersection(...))`).
   */
  ghost predicate ProductArgs(t1: Table, t2: Table, scope: seq<Variable>, common: seq<Variable>)
  {
    && Shared(t1, t2, common)
    && Distinct(scope) && (forall v :: v in scope <==> v in t1.variables || v in t2.variables)
    && Distinct(common) && (forall v :: v in common <==> v in t1.variables && v in t2.variables)
  }

  /** Row `i` of `t1` and row `j` of `t2` give every variable of `common` the same value. */
  predicate Agree(t1: Table, t2: Table, common: seq<Variable>, i: nat, j: nat)
    requires Shared(t1, t2, common) && i < |t1.values| && j < |t2.values|
  {
    forall k :: 0 <= k < |common| ==>
      t1.values[i][IndexOf(t1.variables, common[k])] == t2.values[j][IndexOf(t2.variables, common[k])]
  }

  /**
   * The product row built from row `i` of `t1` and row `j` of `t2`: each
   * variable of `scope` takes its value from `t1` when `t1` has it, else from `t2`.
   */
  function JoinRow(t1: Table, t2: Table, scope: seq<Variable>, i: nat, j: nat): (r: Row)
    requires Aligned(t1) && Aligned(t2) && i < |t1.values| && j < |t2.values|
    requires forall v :: v in scope ==> v in t1.variables || v in t2.variables
    ensures |r| == |scope|
  {
    seq(|scope|, k requires 0 <= k < |scope| =>
      if scope[k] in t1.variables then t1.values[i][IndexOf(t1.variables, scope[k])]
      else t2.values[j][IndexOf(t2.variables, scope[k])])
  }

  /** `row`, over `scope`, gives each variable of `vars` the value `source`, over `vars`, gives it. */
  predicate Consistent(scope: seq<Variable>, row: Row, vars: seq<Variable>, source: Row)
    requires |row| == |scope| && |source| == |vars|
  {
    forall k :: 0 <= k < |scope| && scope[k] in vars ==> row[k] == source[IndexOf(vars, scope[k])]
  }

  /** The agreeing pairs `(i, j)` with `j < n`, in the inner loop's order. */
  function RowMatches(t1: Table, t2: Table, common: seq<Variable>, i: nat, n: nat): (ps: seq<(nat, nat)>)
    requires Shared(t1, t2, common) && i < |t1.values| && n <= |t2.values|
    ensures forall k :: 0 <= k < |ps| ==> ps[k].0 == i && ps[k].1 < n
  {
    if n == 0 then []
    else RowMatches(t1, t2, common, i, n - 1) + (if Agree(t1, t2, common, i, n - 1) then [(i, n - 1)] else [])
  }

  /** The agreeing pairs `(i, j)` with `i < m`, in the nested loops' order. */
  function Matches(t1: Table, t2: Table, common: seq<Variable>, m: nat): (ps: seq<(nat, nat)>)
    requires Shared(t1, t2, common) && m <= |t1.values|
    ensures forall k :: 0 <= k < |ps| ==> ps[k].0 < m && ps[k].1 < |t2.values|
  {
    if m == 0 then [] else Matches(t1, t2, common, m - 1) + RowMatches(t1, t2, common, m - 1, |t2.values|)
  }

  /** A scalar operand without a probability, read as `probabilities[0]` (IndexError). */
  predicate MissingScalar(t1: Table, t2: Table)
  {
    || (|t1.variables| == 0 && |t2.values| > 0 && |t1.probabilities| == 0)
    || (|t1.variables| != 0 && |t2.variables| == 0 && |t1.values| > 0 && |t2.probabilities| == 0)
  }

  /** The joined rows of the pairs `ps`. */
  function JoinRows(t1: Table, t2: Table, scope: seq<Variable>, ps: seq<(nat, nat)>): (r: seq<Row>)
    requires Aligned(t1) && Aligned(t2)
    requires forall v :: v in scope ==> v in t1.variables || v in t2.variables
    requires forall k :: 0 <= k < |ps| ==> ps[k].0 < |t1.values| && ps[k].1 < |t2.values|
    ensures |r| == |ps| && forall k :: 0 <= k < |ps| ==> r[k] == JoinRow(t1, t2, scope, ps[k].0, ps[k].1)
  {
    seq(|ps|, k requires 0 <= k < |ps| => JoinRow(t1, t2, scope, ps[k].0, ps[k].1))
  }

  /**
   * `t1.multiply(t2)` as the code computes it: a factor with an empty scope
   * scales the other's rows, copied in the other's own variable order; otherwise
   * the natural join on the shared variables. None where the code raises.
   */
  function Product(t1: Table, t2: Table, scope: seq<Variable>, common: seq<Variable>): (r: Option<Table>)
    requires ProductArgs(t1, t2, scope, common)
    ensures r.None? <==> MissingScalar(t1, t2)
    ensures r.Some? ==> r.value.variables == scope && |r.value.values| == |r.value.probabilities|
  {
    if |t1.variables| == 0 then
      if |t2.values| == 0 then Some(Table(scope, [], []))
      else if |t1.probabilities| == 0 then None
      else Some(Table(scope, t2.values, Scale(t1.probabilities[0], t2.probabilities)))
    else if |t2.variables| == 0 then
      if |t1.values| == 0 then Some(Table(scope, [], []))
      else if |t2.probabilities| == 0 then None
      else Some(Table(scope, t1.values, Scale(t2.probabilities[0], t1.probabilities)))
    else
      var pairs := Matches(t1, t2, common, |t1.values|);
      Some(Table(scope, JoinRows(t1, t2, scope, pairs), PairProducts(t1.probabilities, t2.probabilities, pairs)))
  }

  lemma {:induction false} RowMatchesExactly(t1: Table, t2: Table, common: seq<Variable>, i: nat, n: nat, j: nat)
    requires Shared(t1, t2, common) && i < |t1.values| && n <= |t2.values|
    ensures (i, j) in RowMatches(t1, t2, common, i, n) <==> j < n && Agree(t1, t2, common, i, j)
  {
    if n > 0 {
      RowMatchesExactly(t1, t2, common, i, n - 1, j);
    }
  }

  /** A pair of rows joins exactly when the rows agree on the shared variables. */
  lemma {:induction false} MatchesExactly(t1: Table, t2: Table, common: seq<Variable>, m: nat, i: nat, j: nat)
    requires Shared(t1, t2, common) && m <= |t1.values|
    ensures (i, j) in Matches(t1, t2, common, m) <==> i < m && j < |t2.values| && Agree(t1, t2, common, i, j)
  {
    if m > 0 {
      var before := Matches(t1, t2, common, m - 1);
      var row := RowMatches(t1, t2, common, m - 1, |t2.values|);
      assert Matches(t1, t2, common, m) == before + row;
      assert (i, j) in before + row <==> (i, j) in before || (i, j) in row;
      MatchesExactly(t1, t2, common, m - 1, i, j);
      if i == m - 1 {
        RowMatchesExactly(t1, t2, common, i, |t2.values|, j);
      } else {
        assert (i, j) !in row;
      }
    }
  }

  lemma {:induction false} RowMatchesCount(t1: Table, t2: Table, common: seq<Variable>, i: nat, n: nat)
    requires Shared(t1, t2, common) && i < |t1.values| && n <= |t2.values|
    ensures |RowMatches(t1, t2, common, i, n)| <= n
    ensures common == [] ==> |RowMatches(t1, t2, common, i, n)| == n
  {
    if n > 0 {
      RowMatchesCount(t1, t2, common, i, n - 1);
    }
  }

  lemma MulSucc(m: nat, n: nat)
    ensures m * n + n == (m + 1) * n
  {
  }

  /** At most one result row per pair of rows; exactly one when no variable is shared. */
  lemma {:induction false} MatchesCount(t1: Table, t2: Table, common: seq<Variable>, m: nat)
    requires Shared(t1, t2, common) && m <= |t1.values|
    ensures |Matches(t1, t2, common, m)| <= m * |t2.values|
    ensures common == [] ==> |Matches(t1, t2, common, m)| == m * |t2.values|
  {
    if m > 0 {
      MatchesCount(t1, t2, common, m - 1);
      RowMatchesCount(t1, t2, common, m - 1, |t2.values|);
      MulSucc(m - 1, |t2.values|);
    }
  }

  /** A joined row agrees with both of its source rows on their own variables. */
  lemma JoinRowConsistent(t1: Table, t2: Table, scope: seq<Variable>, common: seq<Variable>, i: nat, j: nat)
    requires ProductArgs(t1, t2, scope, common)
    requires i < |t1.values| && j < |t2.values| && Agree(t1, t2, common, i, j)
    ensures Consistent(scope, JoinRow(t1, t2, scope, i, j), t1.variables, t1.values[i])
    ensures Consistent(scope, JoinRow(t1, t2, scope, i, j), t2.variables, t2.values[j])
  {
    var r := JoinRow(t1, t2, scope, i, j);
    forall k | 0 <= k < |scope| && scope[k] in t2.variables
      ensures r[k] == t2.values[j][IndexOf(t2.variables, scope[k])]
    {
      if scope[k] in t1.variables {
        assert scope[k] in common;
        var c :| 0 <= c < |common| && common[c] == scope[k];
      }
    }
  }

  /** Row `k` of the general product, built from the `k`-th agreeing pair. */
  lemma ProductRow(t1: Table, t2: Table, scope: seq<Variable>, common: seq<Variable>, k: nat)
    requires ProductArgs(t1, t2, scope, common)
    requires |t1.variables| > 0 && |t2.variables| > 0
    requires k < |Matches(t1, t2, common, |t1.values|)|
    ensures var r := Product(t1, t2, scope, common).value;
      var (i, j) := Matches(t1, t2, common, |t1.values|)[k];
      && k < |r.values| && |r.values[k]| == |scope|
      && Agree(t1, t2, common, i, j)
      && Consistent(scope, r.values[k], t1.variables, t1.values[i])
      && Consistent(scope, r.values[k], t2.variables, t2.values[j])
      && r.probabilities[k] == t1.probabilities[i] * t2.probabilities[j]
  {
    var pairs := Matches(t1, t2, common, |t1.values|);
    var (i, j) := pairs[k];
    assert pairs[k] in pairs;
    MatchesExactly(t1, t2, common, |t1.values|, i, j);
    JoinRowConsistent(t1, t2, scope, common, i, j);
  }

  /**
   * The general case of `multiply`: one result row per agreeing pair of rows
   * (`MatchesExactly` says which pairs those are), consistent with both rows
   * and carrying the product of their probabilities.
   */
  lemma ProductJoin(t1: Table, t2: Table, scope: seq<Variable>, common: seq<Variable>)
    requires ProductArgs(t1, t2, scope, common)
    requires |t1.variables| > 0 && |t2.variables| > 0
    ensures var r := Product(t1, t2, scope, common).value;
      var pairs := Matches(t1, t2, common, |t1.values|);
      && Aligned(r) && |r.values| == |pairs|
      && (forall k :: 0 <= k < |pairs| ==>
            && Agree(t1, t2, common, pairs[k].0, pairs[k].1)
            && Consistent(scope, r.values[k], t1.variables, t1.values[pairs[k].0])
            && Consistent(scope, r.values[k], t2.variables, t2.values[pairs[k].1])
            && r.probabilities[k] == t1.probabilities[pairs[k].0] * t2.probabilities[pairs[k].1])
  {
    var pairs := Matches(t1, t2, common, |t1.values|);
    forall k | 0 <= k < |pairs|
      ensures var r := Product(t1, t2, scope, common).value;
        && k < |r.values| && |r.values[k]| == |scope|
        && Agree(t1, t2, common, pairs[k].0, pairs[k].1)
        && Consistent(scope, r.values[k], t1.variables, t1.values[pairs[k].0])
        && Consistent(scope, r.values[k], t2.variables, t2.values[pairs[k].1])
        && r.probabilities[k] == t1.probabilities[pairs[k].0] * t2.probabilities[pairs[k].1]
    {
      ProductRow(t1, t2, scope, common, k);
    }
  }

  // ---------------------------------------------------------------------------
  // total mass of a product
  // ---------------------------------------------------------------------------

  /** Without shared variables every pair of rows joins, in nested-loop order. */
  lemma {:induction false} RowMatchesAll(t1: Table, t2: Table, i: nat, n: nat)
    requires Shared(t1, t2, []) && i < |t1.values| && n <= |t2.values|
    ensures RowMatches(t1, t2, [], i, n) == RowPairs(i, n)
  {
    if n > 0 {
      RowMatchesAll(t1, t2, i, n - 1);
      assert Agree(t1, t2, [], i, n - 1);
      assert RowPairs(i, n) == RowPairs(i, n - 1) + [(i, n - 1)];
    }
  }

  lemma {:induction false} MatchesAll(t1: Table, t2: Table, m: nat)
    requires Shared(t1, t2, []) && m <= |t1.values|
    ensures Matches(t1, t2, [], m) == AllPairs(m, |t2.values|)
  {
    if m > 0 {
      MatchesAll(t1, t2, m - 1);
      RowMatchesAll(t1, t2, m - 1, |t2.values|);
    }
  }

  lemma NoMembersEmpty<T>(s: seq<T>)
    ensures (forall x :: x !in s) ==> s == []
  {
    if s != [] {
      assert s[0] in s;
    }
  }

  /** A factor with an empty scope scales the other's mass by its single probability. */
  lemma ScalarProductMass(t1: Table, t2: Table, scope: seq<Variable>, common: seq<Variable>)
    requires ProductArgs(t1, t2, scope, common) && |t1.variables| == 0 && |t1.probabilities| > 0
    ensures Sum(Product(t1, t2, scope, common).value.probabilities) == t1.probabilities[0] * Sum(t2.probabilities)
  {
    SumScale(t1.probabilities[0], t2.probabilities);
  }

  /**
   * Without shared variables the product's probabilities are all pairwise
   * products, row-major.
   */
  lemma DisjointProductOuter(t1: Table, t2: Table, scope: seq<Variable>, common: seq<Variable>)
    requires ProductArgs(t1, t2, scope, common) && |t1.variables| > 0 && |t2.variables| > 0
    requires forall v :: v in t1.variables ==> v !in t2.variables
    ensures Product(t1, t2, scope, common).value.probabilities == Outer(t1.probabilities, t2.probabilities)
  {
    assert common == [] by {
      NoMembersEmpty(common);
    }
    MatchesAll(t1, t2, |t1.values|);
    assert |t2.probabilities| == |t2.values|;
    AllPairProducts(t1.probabilities, t2.probabilities, |t1.values|);
    assert t1.probabilities[..|t1.values|] == t1.probabilities;
  }

  // ---------------------------------------------------------------------------
  // the scalar branches, as written and as intended
  // ---------------------------------------------------------------------------

  /** `row`, over `vars`, rearranged into the order of `scope`. */
  function Reorder(scope: seq<Variable>, vars: seq<Variable>, row: Row): (r: Row)
    requires |row| == |vars| && forall v :: v in scope ==> v in vars
    ensures |r| == |scope|
  {
    seq(|scope|, k requires 0 <= k < |scope| => row[IndexOf(vars, scope[k])])
  }

  /** Every row of an aligned table rearranged into the order of `scope`. */
  function ReorderRows(scope: seq<Variable>, t: Table): (r: seq<Row>)
    requires Aligned(t) && forall v :: v in scope ==> v in t.variables
    ensures |r| == |t.values| && forall k :: 0 <= k < |t.values| ==> r[k] == Reorder(scope, t.variables, t.values[k])
  {
    seq(|t.values|, k requires 0 <= k < |t.values| => Reorder(scope, t.variables, t.values[k]))
  }

  /**
   * `multiply` with the scalar branches building each row over the result's
   * variable order, as the general branch does; the general branch is unchanged.
   */
  function AlignedProduct(t1: Table, t2: Table, scope: seq<Variable>, common: seq<Variable>): (r: Option<Table>)
    requires ProductArgs(t1, t2, scope, common)
    ensures r.None? <==> MissingScalar(t1, t2)
  {
    if |t1.variables| == 0 then
      if |t2.values| == 0 then Some(Table(scope, [], []))
      else if |t1.probabilities| == 0 then None
      else Some(Table(scope, ReorderRows(scope, t2), Scale(t1.probabilities[0], t2.probabilities)))
    else if |t2.variables| == 0 then
      if |t1.values| == 0 then Some(Table(scope, [], []))
      else if |t2.probabilities| == 0 then None
      else Some(Table(scope, ReorderRows(scope, t1), Scale(t2.probabilities[0], t1.probabilities)))
    else Product(t1, t2, scope, common)
  }

  /**
   * As written, a scalar factor times a two-variable factor whose scope the
   * set happens to list in the other order: the copied row `["a1", "b1"]`
   * then gives `B` the value of `A`.
   */
  lemma ScalarProductMisaligned()
    ensures var t1 := Table([], [[]], [0.5]);
      var t2 := Table(["A", "B"], [["a1", "b1"]], [1.0]);
      && ProductArgs(t1, t2, ["B", "A"], [])
      && var r := Product(t1, t2, ["B", "A"], []).value;
      && r.values == [["a1", "b1"]]
      && !Consistent(r.variables, r.values[0], t2.variables, t2.values[0])
  {
    var t1 := Table([], [[]], [0.5]);
    var t2 := Table(["A", "B"], [["a1", "b1"]], [1.0]);
    var scope: seq<Variable> := ["B", "A"];
    assert forall v :: v in scope <==> v in t1.variables || v in t2.variables;
    assert forall v :: v in [] <==> v in t1.variables && v in t2.variables;
    assert ProductArgs(t1, t2, scope, []);
    var r := Product(t1, t2, scope, []).value;
    assert r.values == [["a1", "b1"]];
    assert IndexOf(t2.variables, "B") == 1;
    assert r.values[0][0] != t2.values[0][IndexOf(t2.variables, scope[0])];
  }

  /** With the rows rearranged, a scalar product's rows agree with the other factor's rows. */
  lemma AlignedScalarProduct(t1: Table, t2: Table, scope: seq<Variable>, common: seq<Variable>)
    requires ProductArgs(t1, t2, scope, common) && |t1.variables| == 0 && !MissingScalar(t1, t2)
    ensures var r := AlignedProduct(t1, t2, scope, common).value;
      && Aligned(r) && |r.values| == |t2.values|
      && forall k :: 0 <= k < |t2.values| ==>
           && Consistent(scope, r.values[k], t2.variables, t2.values[k])
           && r.probabilities[k] == t1.probabilities[0] * t2.probabilities[k]
  {
    var r := AlignedProduct(t1, t2, scope, common).value;
    forall k | 0 <= k < |t2.values| ensures Consistent(scope, r.values[k], t2.variables, t2.values[k]) {
      assert r.values[k] == Reorder(scope, t2.variables, t2.values[k]);
    }
  }

  /** The mirror case: `other` has the empty scope. */
  lemma AlignedScalarProductRight(t1: Table, t2: Table, scope: seq<Variable>, common: seq<Variable>)
    requires ProductArgs(t1, t2, scope, common) && |t1.variables| > 0 && |t2.variables| == 0
    requires !MissingScalar(t1, t2)
    ensures var r := AlignedProduct(t1, t2, scope, common).value;
      && Aligned(r) && |r.values| == |t1.values|
      && forall k :: 0 <= k < |t1.values| ==>
           && Consistent(scope, r.values[k], t1.variables, t1.values[k])
           && r.probabilities[k] == t2.probabilities[0] * t1.probabilities[k]
  {
    var r := AlignedProduct(t1, t2, scope, common).value;
    forall k | 0 <= k < |t1.values| ensures Consistent(scope, r.values[k], t1.variables, t1.values[k]) {
      assert r.values[k] == Reorder(scope, t1.variables, t1.values[k]);
    }
  }

  /** Rearranging a row into its own variable order leaves it as it is. */
  lemma ReorderIdentity(vars: seq<Variable>, row: Row)
    requires Distinct(vars) && |row| == |vars|
    ensures Reorder(vars, vars, row) == row
  {
    forall k | 0 <= k < |vars| ensures Reorder(vars, vars, row)[k] == row[k] {
      IndexOfDistinct(vars, k);
    }
  }

  /**
   * Where the two versions of `multiply` agree: whenever neither factor is a
   * scalar, and in a scalar branch whenever `scope` lists the other factor's
   * variables in that factor's own order.
   */
  lemma AlignedProductAgrees(t1: Table, t2: Table, scope: seq<Variable>, common: seq<Variable>)
    requires ProductArgs(t1, t2, scope, common)
    requires || (|t1.variables| > 0 && |t2.variables| > 0)
             || (|t1.variables| == 0 && scope == t2.variables)
             || (|t2.variables| == 0 && scope == t1.variables)
    ensures AlignedProduct(t1, t2, scope, common) == Product(t1, t2, scope, common)
  {
    if |t1.variables| == 0 && |t2.values| > 0 && |t1.probabilities| > 0 {
      forall k | 0 <= k < |t2.values| ensures ReorderRows(scope, t2)[k] == t2.values[k] {
        ReorderIdentity(scope, t2.values[k]);
      }
      assert ReorderRows(scope, t2) == t2.values;
    } else if |t1.variables| > 0 && |t2.variables| == 0 && |t1.values| > 0 && |t2.probabilities| > 0 {
      forall k | 0 <= k < |t1.values| ensures ReorderRows(scope, t1)[k] == t1.values[k] {
        ReorderIdentity(scope, t1.values[k]);
      }
      assert ReorderRows(scope, t1) == t1.values;
    }
  }
}
