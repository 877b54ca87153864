/**
 * inference/factor.py `class Factor`: the object whose `multiply` builds a new
 * factor with nested loops and whose `sum_out` rewrites its own lists.
 * `Factors.AlignedProduct` and `Marginals.SumOut` specify the two operations.
 */
module FactorObjects {
  import opened Wrappers
  import opened Sums
  import opened Networks
  import opened Positions
  import opened Factors
  import opened Marginals

  /**
   * The loop that compares the shared variables of two rows, stopping at the
   * first difference: `idx1[k]` and `idx2[k]` locate shared variable `k`.
   */
  method RowsAgree(row1: Row, row2: Row, idx1: seq<nat>, idx2: seq<nat>) returns (equal: bool)
    requires |idx1| == |idx2|
    requires forall k :: 0 <= k < |idx1| ==> idx1[k] < |row1| && idx2[k] < |row2|
    ensures equal <==> forall k :: 0 <= k < |idx1| ==> row1[idx1[k]] == row2[idx2[k]]
  {
    equal := true;
    var k := 0;
    while k < |idx1|
      invariant 0 <= k <= |idx1|
      invariant equal <==> forall k' :: 0 <= k' < k ==> row1[idx1[k']] == row2[idx2[k']]
      invariant !equal ==> k < |idx1|
    {
      if row1[idx1[k]] != row2[idx2[k]] {
        equal := false;
        break;
      }
      k := k + 1;
    }
  }

  /**
   * `new_value_list`: for each variable of `scope`, the value from row `i` of
   * `t1` when `t1` has that variable, else from row `j` of `t2`.
   */
  method BuildRow(t1: Table, t2: Table, scope: seq<Variable>, i: nat, j: nat) returns (row: Row)
    requires Aligned(t1) && Aligned(t2) && i < |t1.values| && j < |t2.values|
    requires forall v :: v in scope ==> v in t1.variables || v in t2.variables
    ensures row == JoinRow(t1, t2, scope, i, j)
  {
    row := [];
    for k := 0 to |scope|
      invariant row == JoinRow(t1, t2, scope, i, j)[..k]
    {
      var v := scope[k];
      if v in t1.variables {
        row := row + [t1.values[i][IndexOf(t1.variables, v)]];
      } else {
        row := row + [t2.values[j][IndexOf(t2.variables, v)]];
      }
    }
  }

  /** A row of `t` rearranged into the order of `scope`, built like `new_value_list`. */
  method ReorderRow(scope: seq<Variable>, t: Table, i: nat) returns (row: Row)
    requires Aligned(t) && i < |t.values| && forall v :: v in scope ==> v in t.variables
    ensures row == Reorder(scope, t.variables, t.values[i])
  {
    row := [];
    for k := 0 to |scope|
      invariant row == Reorder(scope, t.variables, t.values[i])[..k]
    {
      row := row + [t.values[i][IndexOf(t.variables, scope[k])]];
    }
  }

  /** The positions in `vars` of the variables of `common`, in order. */
  method IndicesOf(vars: seq<Variable>, common: seq<Variable>) returns (indices: seq<nat>)
    requires forall v :: v in common ==> v in vars
    ensures |indices| == |common|
    ensures forall k :: 0 <= k < |common| ==> indices[k] == IndexOf(vars, common[k]) && indices[k] < |vars|
  {
    indices := [];
    for k := 0 to |common|
      invariant |indices| == k
      invariant forall k' :: 0 <= k' < k ==> indices[k'] == IndexOf(vars, common[k']) && indices[k'] < |vars|
    {
      indices := indices + [IndexOf(vars, common[k])];
    }
  }

  lemma JoinRowsSnoc(t1: Table, t2: Table, scope: seq<Variable>, ps: seq<(nat, nat)>, i: nat, j: nat)
    requires Aligned(t1) && Aligned(t2)
    requires forall v :: v in scope ==> v in t1.variables || v in t2.variables
    requires forall k :: 0 <= k < |ps| ==> ps[k].0 < |t1.values| && ps[k].1 < |t2.values|
    requires i < |t1.values| && j < |t2.values|
    ensures JoinRows(t1, t2, scope, ps + [(i, j)]) == JoinRows(t1, t2, scope, ps) + [JoinRow(t1, t2, scope, i, j)]
  {
    var a := JoinRows(t1, t2, scope, ps + [(i, j)]);
    var b := JoinRows(t1, t2, scope, ps) + [JoinRow(t1, t2, scope, i, j)];
    forall k | 0 <= k < |a| ensures a[k] == b[k] {
      assert (ps + [(i, j)])[k] == if k < |ps| then ps[k] else (i, j);
    }
  }

  /** Appending the product of one more pair extends the products of the pairs. */
  lemma PairProductsSnoc(p1: seq<real>, p2: seq<real>, ps: seq<(nat, nat)>, i: nat, j: nat, before: seq<real>, x: real)
    requires forall k :: 0 <= k < |ps| ==> ps[k].0 < |p1| && ps[k].1 < |p2|
    requires i < |p1| && j < |p2|
    requires before == PairProducts(p1, p2, ps) && x == p1[i] * p2[j]
    ensures before + [x] == PairProducts(p1, p2, ps + [(i, j)])
  {
    PairProductsConcat(p1, p2, ps, [(i, j)]);
    var single := PairProducts(p1, p2, [(i, j)]);
    assert [(i, j)][0] == (i, j);
    assert single[0] == x;
    assert single == [x];
  }

  /** The loop of the first scalar branch, `self` having the empty scope. */
  method ScaleRows(t1: Table, t2: Table, scope: seq<Variable>) returns (vs: seq<Row>, ps: seq<real>)
    requires Aligned(t2) && |t1.probabilities| > 0 && forall v :: v in scope ==> v in t2.variables
    ensures vs == ReorderRows(scope, t2) && ps == Scale(t1.probabilities[0], t2.probabilities)
  {
    vs, ps := [], [];
    for i := 0 to |t2.values|
      invariant |vs| == |ps| == i
      invariant forall k :: 0 <= k < i ==> vs[k] == Reorder(scope, t2.variables, t2.values[k])
      invariant forall k :: 0 <= k < i ==> ps[k] == t1.probabilities[0] * t2.probabilities[k]
    {
      var row := ReorderRow(scope, t2, i);
      vs := vs + [row];
      ps := ps + [t1.probabilities[0] * t2.probabilities[i]];
    }
    assert forall k :: 0 <= k < |vs| ==> vs[k] == ReorderRows(scope, t2)[k];
    assert forall k :: 0 <= k < |ps| ==> ps[k] == Scale(t1.probabilities[0], t2.probabilities)[k];
  }

  /** The loop of the second scalar branch, `other` having the empty scope. */
  method ScaleRowsRight(t1: Table, t2: Table, scope: seq<Variable>) returns (vs: seq<Row>, ps: seq<real>)
    requires Aligned(t1) && |t2.probabilities| > 0 && forall v :: v in scope ==> v in t1.variables
    ensures vs == ReorderRows(scope, t1)
    ensures ps == Scale(t2.probabilities[0], t1.probabilities)
  {
    vs, ps := [], [];
    for i := 0 to |t1.values|
      invariant |vs| == |ps| == i
      invariant forall k :: 0 <= k < i ==> vs[k] == Reorder(scope, t1.variables, t1.values[k])
      invariant forall k :: 0 <= k < i ==> ps[k] == t2.probabilities[0] * t1.probabilities[k]
    {
      var row := ReorderRow(scope, t1, i);
      vs := vs + [row];
      ps := ps + [t1.probabilities[i] * t2.probabilities[0]];
    }
    assert forall k :: 0 <= k < |vs| ==> vs[k] == ReorderRows(scope, t1)[k];
    assert forall k :: 0 <= k < |ps| ==> ps[k] == Scale(t2.probabilities[0], t1.probabilities)[k];
  }

  /**
   * What the nested loops of the general branch work with: the two tables,
   * the result scope, and the positions of the shared variables in each.
   */
  ghost predicate JoinSetup(t1: Table, t2: Table, scope: seq<Variable>, common: seq<Variable>,
                            indices1: seq<nat>, indices2: seq<nat>)
  {
    && Shared(t1, t2, common)
    && (forall v :: v in scope ==> v in t1.variables || v in t2.variables)
    && |indices1| == |indices2| == |common|
    && (forall k :: 0 <= k < |common| ==> indices1[k] == IndexOf(t1.variables, common[k]))
    && (forall k :: 0 <= k < |common| ==> indices2[k] == IndexOf(t2.variables, common[k]))
  }

  /**
   * The inner loop of the general branch for row `i` of `t1`: each row of
   * `t2` that agrees with it on `common` contributes its joined row and product.
   */
  method JoinWithRow(t1: Table, t2: Table, scope: seq<Variable>, common: seq<Variable>,
                     indices1: seq<nat>, indices2: seq<nat>, i: nat) returns (vs: seq<Row>, ps: seq<real>)
    requires JoinSetup(t1, t2, scope, common, indices1, indices2) && i < |t1.values|
    ensures vs == JoinRows(t1, t2, scope, RowMatches(t1, t2, common, i, |t2.values|))
    ensures ps == PairProducts(t1.probabilities, t2.probabilities, RowMatches(t1, t2, common, i, |t2.values|))
  {
    vs, ps := [], [];
    for j := 0 to |t2.values|
      invariant vs == JoinRows(t1, t2, scope, RowMatches(t1, t2, common, i, j))
      invariant ps == PairProducts(t1.probabilities, t2.probabilities, RowMatches(t1, t2, common, i, j))
    {
      ghost var pairs := RowMatches(t1, t2, common, i, j);
      var equal := RowsAgree(t1.values[i], t2.values[j], indices1, indices2);
      assert equal <==> Agree(t1, t2, common, i, j);
      assert RowMatches(t1, t2, common, i, j + 1) == pairs + (if equal then [(i, j)] else []);
      if equal {
        var row := BuildRow(t1, t2, scope, i, j);
        JoinRowsSnoc(t1, t2, scope, pairs, i, j);
        var product := t1.probabilities[i] * t2.probabilities[j];
        PairProductsSnoc(t1.probabilities, t2.probabilities, pairs, i, j, ps, product);
        vs := vs + [row];
        ps := ps + [product];
      } else {
        assert pairs + [] == pairs;
      }
    }
  }

  lemma JoinRowsConcat(t1: Table, t2: Table, scope: seq<Variable>, a: seq<(nat, nat)>, b: seq<(nat, nat)>)
    requires Aligned(t1) && Aligned(t2)
    requires forall v :: v in scope ==> v in t1.variables || v in t2.variables
    requires forall k :: 0 <= k < |a| ==> a[k].0 < |t1.values| && a[k].1 < |t2.values|
    requires forall k :: 0 <= k < |b| ==> b[k].0 < |t1.values| && b[k].1 < |t2.values|
    ensures JoinRows(t1, t2, scope, a + b) == JoinRows(t1, t2, scope, a) + JoinRows(t1, t2, scope, b)
  {
    var ab := a + b;
    forall k | 0 <= k < |ab|
      ensures JoinRows(t1, t2, scope, ab)[k] == (JoinRows(t1, t2, scope, a) + JoinRows(t1, t2, scope, b))[k]
    {
      if k >= |a| {
        assert ab[k] == b[k - |a|];
      }
    }
  }

  /** The rows joined for the pairs of rows `0 .. i`, from those for `0 .. i - 1`. */
  lemma JoinRowsStep(t1: Table, t2: Table, scope: seq<Variable>, common: seq<Variable>, i: nat,
                     before: seq<Row>, row: seq<Row>)
    requires Shared(t1, t2, common) && forall v :: v in scope ==> v in t1.variables || v in t2.variables
    requires i < |t1.values|
    requires before == JoinRows(t1, t2, scope, Matches(t1, t2, common, i))
    requires row == JoinRows(t1, t2, scope, RowMatches(t1, t2, common, i, |t2.values|))
    ensures before + row == JoinRows(t1, t2, scope, Matches(t1, t2, common, i + 1))
  {
    JoinRowsConcat(t1, t2, scope, Matches(t1, t2, common, i), RowMatches(t1, t2, common, i, |t2.values|));
  }

  /** The products for the pairs of rows `0 .. i`, from those for `0 .. i - 1`. */
  lemma PairProductsStep(t1: Table, t2: Table, common: seq<Variable>, i: nat, before: seq<real>, row: seq<real>)
    requires Shared(t1, t2, common) && i < |t1.values|
    requires before == PairProducts(t1.probabilities, t2.probabilities, Matches(t1, t2, common, i))
    requires row == PairProducts(t1.probabilities, t2.probabilities, RowMatches(t1, t2, common, i, |t2.values|))
    ensures before + row == PairProducts(t1.probabilities, t2.probabilities, Matches(t1, t2, common, i + 1))
  {
    PairProductsConcat(t1.probabilities, t2.probabilities, Matches(t1, t2, common, i), RowMatches(t1, t2, common, i, |t2.values|));
  }

  /**
   * The nested loops of the general branch: every pair of rows, `self`'s
   * outer, that agrees on `common` contributes its joined row and product.
   */
  method JoinAll(t1: Table, t2: Table, scope: seq<Variable>, common: seq<Variable>) returns (vs: seq<Row>, ps: seq<real>)
    requires Shared(t1, t2, common) && forall v :: v in scope ==> v in t1.variables || v in t2.variables
    ensures vs == JoinRows(t1, t2, scope, Matches(t1, t2, common, |t1.values|))
    ensures ps == PairProducts(t1.probabilities, t2.probabilities, Matches(t1, t2, common, |t1.values|))
  {
    var indices1 := IndicesOf(t1.variables, common);
    var indices2 := IndicesOf(t2.variables, common);
    assert JoinSetup(t1, t2, scope, common, indices1, indices2);
    vs, ps := [], [];
    for i := 0 to |t1.values|
      invariant vs == JoinRows(t1, t2, scope, Matches(t1, t2, common, i))
      invariant ps == PairProducts(t1.probabilities, t2.probabilities, Matches(t1, t2, common, i))
    {
      vs, ps := JoinStep(t1, t2, scope, common, indices1, indices2, i, vs, ps);
    }
  }

  /** The body of the outer loop: the pairs of row `i` appended to those of rows `0 .. i - 1`. */
  method JoinStep(t1: Table, t2: Table, scope: seq<Variable>, common: seq<Variable>,
                  indices1: seq<nat>, indices2: seq<nat>, i: nat, vs: seq<Row>, ps: seq<real>)
    returns (vs': seq<Row>, ps': seq<real>)
    requires JoinSetup(t1, t2, scope, common, indices1, indices2) && i < |t1.values|
    requires vs == JoinRows(t1, t2, scope, Matches(t1, t2, common, i))
    requires ps == PairProducts(t1.probabilities, t2.probabilities, Matches(t1, t2, common, i))
    ensures vs' == JoinRows(t1, t2, scope, Matches(t1, t2, common, i + 1))
    ensures ps' == PairProducts(t1.probabilities, t2.probabilities, Matches(t1, t2, common, i + 1))
  {
    var rowValues, rowProbabilities := JoinWithRow(t1, t2, scope, common, indices1, indices2, i);
    JoinRowsStep(t1, t2, scope, common, i, vs, rowValues);
    PairProductsStep(t1, t2, common, i, ps, rowProbabilities);
    vs' := vs + rowValues;
    ps' := ps + rowProbabilities;
  }

  /**
   * One pass of the while loop of `sum_out`: row 0 without position `idx`,
   * the summed probability of its group, and the group's positions.
   */
  method FirstGroup(rows: seq<Row>, probs: seq<real>, idx: nat) returns (otherValues: Row, probabilitySum: real, indicesToRemove: seq<nat>)
    requires |rows| == |probs| && Wide(rows, idx) && |rows| > 0
    ensures otherValues == Pop(rows[0], idx)
    ensures indicesToRemove == Selected(rows, idx, |rows|)
    ensures probabilitySum == Sum(Gather(probs, indicesToRemove))
  {
    var variableValue := rows[0][idx];
    otherValues := Pop(rows[0], idx);
    probabilitySum := probs[0];
    indicesToRemove := [0];
    assert Gather(probs, [0]) == [probs[0]];
    assert Sum([probs[0]]) == Sum([]) + probs[0];
    for i := 1 to |rows|
      invariant indicesToRemove == Selected(rows, idx, i)
      invariant probabilitySum == Sum(Gather(probs, indicesToRemove))
    {
      indicesToRemove, probabilitySum := MergeRow(rows, probs, idx, i, variableValue, otherValues, indicesToRemove, probabilitySum);
    }
  }

  /**
   * The body of the `for` loop of `sum_out`: row `i` joins the group of row 0
   * when it has another value at `idx` and the same values elsewhere.
   */
  method MergeRow(rows: seq<Row>, probs: seq<real>, idx: nat, i: nat, variableValue: Value, otherValues: Row,
                  indices: seq<nat>, sum: real) returns (indices': seq<nat>, sum': real)
    requires |rows| == |probs| && Wide(rows, idx) && 0 < i < |rows|
    requires variableValue == rows[0][idx] && otherValues == Pop(rows[0], idx)
    requires indices == Selected(rows, idx, i) && sum == Sum(Gather(probs, indices))
    ensures indices' == Selected(rows, idx, i + 1)
    ensures sum' == Sum(Gather(probs, indices'))
  {
    ghost var merges := Merges(rows, idx, i);
    assert Selected(rows, idx, i + 1) == indices + (if merges then [i] else []);
    indices', sum' := indices, sum;
    if rows[i][idx] != variableValue {
      var otherValuesI := Pop(rows[i], idx);
      if otherValues == otherValuesI {
        GatherSnoc(probs, indices, i);
        sum' := sum + probs[i];
        indices' := indices + [i];
      } else {
        assert !merges;
      }
    } else {
      assert !merges;
    }
  }

  class Factor {
    var variables: seq<Variable>
    var values: seq<Row>
    var probabilities: seq<real>

    /** The factor's table. */
    function Contents(): Table
      reads this
    {
      Table(variables, values, probabilities)
    }

    /** `Factor(variables, values, probabilities)` stores its three arguments. */
    constructor (variables: seq<Variable>, values: seq<Row>, probabilities: seq<real>)
      ensures Contents() == Table(variables, values, probabilities)
    {
      this.variables := variables;
      this.values := values;
      this.probabilities := probabilities;
    }

    /**
     * `self.multiply(other)` with the scalar branches rearranging rows into
     * the order of `scope` (`Factors.ScalarProductMisaligned` shows why).
     * None where the code raises IndexError; neither operand changes.
     */
    method Multiply(other: Factor, scope: seq<Variable>, common: seq<Variable>) returns (product: Option<Factor>)
      requires ProductArgs(Contents(), other.Contents(), scope, common)
      ensures product.None? <==> MissingScalar(Contents(), other.Contents())
      ensures product.Some? ==>
        (fresh(product.value) && product.value.Contents() == AlignedProduct(Contents(), other.Contents(), scope, common).value)
    {
      var t1 := Contents();
      var t2 := other.Contents();
      var newValues: seq<Row> := [];
      var newProbabilities: seq<real> := [];
      if |variables| == 0 {
        if |other.values| > 0 {
          if |probabilities| == 0 {
            return None;
          }
          newValues, newProbabilities := ScaleRows(t1, t2, scope);
        }
      } else if |other.variables| == 0 {
        if |values| > 0 {
          if |other.probabilities| == 0 {
            return None;
          }
          newValues, newProbabilities := ScaleRowsRight(t1, t2, scope);
        }
      } else {
        newValues, newProbabilities := JoinAll(t1, t2, scope, common);
      }
      var f := new Factor(scope, newValues, newProbabilities);
      product := Some(f);
    }

    /** `for i in xrange(len(positions)-1, -1, -1)`: pop `positions` from both row lists, highest first. */
    method PopRows(positions: seq<nat>)
      requires |values| == |probabilities| && Increasing(positions)
      requires forall k :: 0 <= k < |positions| ==> positions[k] < |values|
      modifies this
      ensures variables == old(variables)
      ensures values == PopDown(old(values), positions, 0)
      ensures probabilities == PopDown(old(probabilities), positions, 0)
    {
      var t := |positions|;
      while t > 0
        invariant 0 <= t <= |positions| && variables == old(variables)
        invariant values == PopDown(old(values), positions, t)
        invariant probabilities == PopDown(old(probabilities), positions, t)
      {
        t := t - 1;
        IncreasingGap(positions, t, |positions| - 1);
        values := Pop(values, positions[t]);
        probabilities := Pop(probabilities, positions[t]);
      }
    }

    /**
     * One pass of the while loop of `sum_out`: row 0's group leaves both row
     * lists, and its merged row and summed probability are returned.
     */
    method SumOutPass(idx: nat) returns (otherValues: Row, probabilitySum: real)
      requires |values| == |probabilities| && Wide(values, idx) && |values| > 0
      modifies this
      ensures variables == old(variables) && |values| == |probabilities| && Wide(values, idx)
      ensures |values| < old(|values|)
      ensures SumOutRows(old(values), old(probabilities), idx).0 == [otherValues] + SumOutRows(values, probabilities, idx).0
      ensures SumOutRows(old(values), old(probabilities), idx).1 == [probabilitySum] + SumOutRows(values, probabilities, idx).1
    {
      var indicesToRemove;
      otherValues, probabilitySum, indicesToRemove := FirstGroup(values, probabilities, idx);
      PopRows(indicesToRemove);
    }

    /**
     * The while loop of `sum_out`: pass after pass, row 0's group is merged
     * into one output row and popped, until no row is left.
     */
    method MergeGroups(idx: nat) returns (newValues: seq<Row>, newProbabilities: seq<real>)
      requires |values| == |probabilities| && Wide(values, idx)
      modifies this
      ensures variables == old(variables)
      ensures (newValues, newProbabilities) == SumOutRows(old(values), old(probabilities), idx)
    {
      ghost var out := SumOutRows(values, probabilities, idx);
      newValues, newProbabilities := [], [];
      assert out.0 == newValues + out.0 && out.1 == newProbabilities + out.1;
      while |values| > 0
        invariant |values| == |probabilities| && Wide(values, idx)
        invariant variables == old(variables)
        invariant out.0 == newValues + SumOutRows(values, probabilities, idx).0
        invariant out.1 == newProbabilities + SumOutRows(values, probabilities, idx).1
        decreases |values|
      {
        var otherValues, probabilitySum := SumOutPass(idx);
        ghost var rest := SumOutRows(values, probabilities, idx);
        ConcatAssoc(newValues, [otherValues], rest.0);
        ConcatAssoc(newProbabilities, [probabilitySum], rest.1);
        newValues := newValues + [otherValues];
        newProbabilities := newProbabilities + [probabilitySum];
      }
      assert newValues == out.0 && newProbabilities == out.1;
    }

    /**
     * `self.sum_out(variable)`: false, with nothing changed, where
     * `variables.index` raises ValueError; otherwise the factor becomes its
     * marginal, the while loop popping each pass's group from the row lists.
     */
    method SumOut(variable: Variable) returns (ok: bool)
      requires Aligned(Contents())
      modifies this
      ensures ok <==> variable in old(variables)
      ensures !ok ==> Contents() == old(Contents())
      ensures ok ==> Contents() == Marginals.SumOut(old(Contents()), variable).value
    {
      if variable !in variables {
        return false;
      }
      var idx := IndexOf(variables, variable);
      var newValues, newProbabilities := MergeGroups(idx);
      variables := Pop(variables, idx);
      values := newValues;
      probabilities := newProbabilities;
      return true;
    }
  }
}
