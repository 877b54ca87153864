/**
 * inference/factor.py `sum_out`, on the row and probability lists. Each pass
 * of the while loop emits row 0 without the summed-out position, together
 * with the summed probability of row 0 and every later row that differs from
 * it at that position but agrees everywhere else; then it pops that group.
 */
module Marginals {
  import opened Wrappers
  import opened Sums
  import opened Networks
  import opened Positions
  import opened Factors

  /** Every row has a position `idx`. */
  predicate Wide(rows: seq<Row>, idx: nat)
  {
    forall r :: r in rows ==> idx < |r|
  }

  /** Every row has length `w`. */
  predicate Uniform(rows: seq<Row>, w: nat)
  {
    forall r :: r in rows ==> |r| == w
  }

  /**
   * The test of the inner loop: row `i` joins row 0's group when its value at
   * `idx` differs from row 0's and the rest of the two rows is equal.
   */
  predicate Merges(rows: seq<Row>, idx: nat, i: nat)
    requires Wide(rows, idx) && i < |rows|
  {
    rows[i][idx] != rows[0][idx] && Pop(rows[i], idx) == Pop(rows[0], idx)
  }

  /** `indices_to_remove` once the inner loop has looked at rows `1 .. n - 1`. */
  function Selected(rows: seq<Row>, idx: nat, n: nat): (xs: seq<nat>)
    requires Wide(rows, idx) && 1 <= n <= |rows|
    ensures |xs| >= 1 && xs[0] == 0 && Increasing(xs)
    ensures forall k :: 0 <= k < |xs| ==> xs[k] < n && Pop(rows[xs[k]], idx) == Pop(rows[0], idx)
  {
    if n == 1 then [0]
    else Selected(rows, idx, n - 1) + (if Merges(rows, idx, n - 1) then [n - 1] else [])
  }

  /** Row 0's group holds exactly the rows the inner loop's test accepts. */
  lemma {:induction false} SelectedExactly(rows: seq<Row>, idx: nat, n: nat, i: nat)
    requires Wide(rows, idx) && 1 <= n <= |rows| && 0 < i < n
    ensures i in Selected(rows, idx, n) <==> Merges(rows, idx, i)
  {
    var before := Selected(rows, idx, n - 1 + (if n == 1 then 1 else 0));
    if n > 1 {
      assert Selected(rows, idx, n) == before + (if Merges(rows, idx, n - 1) then [n - 1] else []);
      if i < n - 1 {
        SelectedExactly(rows, idx, n - 1, i);
      } else {
        assert i !in before;
      }
    }
  }

  /**
   * `(new_values, new_probabilities)` when the while loop of `sum_out` has
   * emptied `rows`.
   */
  function SumOutRows(rows: seq<Row>, probs: seq<real>, idx: nat): (r: (seq<Row>, seq<real>))
    requires |rows| == |probs| && Wide(rows, idx)
    ensures |r.0| == |r.1| <= |rows|
    decreases |rows|
  {
    if |rows| == 0 then ([], [])
    else
      var group := Selected(rows, idx, |rows|);
      var rest := SumOutRows(PopDown(rows, group, 0), PopDown(probs, group, 0), idx);
      ([Pop(rows[0], idx)] + rest.0, [Sum(Gather(probs, group))] + rest.1)
  }

  /** Every probability lands in some output entry: the total mass is unchanged. */
  lemma {:induction false} SumOutMass(rows: seq<Row>, probs: seq<real>, idx: nat)
    requires |rows| == |probs| && Wide(rows, idx)
    ensures Sum(SumOutRows(rows, probs, idx).1) == Sum(probs)
    decreases |rows|
  {
    if |rows| > 0 {
      var group := Selected(rows, idx, |rows|);
      var out := SumOutRows(rows, probs, idx);
      var rest := SumOutRows(PopDown(rows, group, 0), PopDown(probs, group, 0), idx);
      SumOutMass(PopDown(rows, group, 0), PopDown(probs, group, 0), idx);
      PopDownSum(probs, group, 0);
      SumFront(out.1);
      assert Gather(probs, group)[0..] == Gather(probs, group);
      assert out.1[1..] == rest.1;
    }
  }

  /** Each output row is an input row with position `idx` deleted. */
  lemma {:induction false} SumOutOrigin(rows: seq<Row>, probs: seq<real>, idx: nat, x: Row)
    requires |rows| == |probs| && Wide(rows, idx)
    requires x in SumOutRows(rows, probs, idx).0
    ensures exists r :: r in rows && x == Pop(r, idx)
    decreases |rows|
  {
    var group := Selected(rows, idx, |rows|);
    var rest := SumOutRows(PopDown(rows, group, 0), PopDown(probs, group, 0), idx);
    if x != Pop(rows[0], idx) {
      assert x in rest.0;
      SumOutOrigin(PopDown(rows, group, 0), PopDown(probs, group, 0), idx, x);
    }
  }

  /** Every input row, with position `idx` deleted, is an output row. */
  lemma {:induction false} SumOutCovers(rows: seq<Row>, probs: seq<real>, idx: nat, r: Row)
    requires |rows| == |probs| && Wide(rows, idx) && r in rows
    ensures Pop(r, idx) in SumOutRows(rows, probs, idx).0
    decreases |rows|
  {
    var group := Selected(rows, idx, |rows|);
    var m :| 0 <= m < |rows| && rows[m] == r;
    if m !in group {
      PopDownMembers(rows, group, r);
      SumOutCovers(PopDown(rows, group, 0), PopDown(probs, group, 0), idx, r);
    } else {
      var k :| 0 <= k < |group| && group[k] == m;
      assert Pop(r, idx) == Pop(rows[0], idx);
    }
  }

  /** All output rows are one shorter than the input rows. */
  lemma {:induction false} SumOutWidth(rows: seq<Row>, probs: seq<real>, idx: nat, w: nat)
    requires |rows| == |probs| && Uniform(rows, w) && idx < w
    ensures Uniform(SumOutRows(rows, probs, idx).0, w - 1)
  {
    forall x | x in SumOutRows(rows, probs, idx).0 ensures |x| == w - 1 {
      SumOutOrigin(rows, probs, idx, x);
    }
  }

  /**
   * On rows without repeats, the rows left after the first pass are without
   * repeats and none of them reduces to the emitted row.
   */
  lemma FirstPass(rows: seq<Row>, idx: nat, w: nat)
    requires Uniform(rows, w) && idx < w && Distinct(rows) && |rows| > 0
    ensures var rest := PopDown(rows, Selected(rows, idx, |rows|), 0);
      && Uniform(rest, w) && Distinct(rest)
      && forall r :: r in rest ==> Pop(r, idx) != Pop(rows[0], idx)
  {
    var group := Selected(rows, idx, |rows|);
    var rest := PopDown(rows, group, 0);
    PopDownDistinct(rows, group);
    forall r | r in rest ensures Pop(r, idx) != Pop(rows[0], idx) {
      PopDownMembers(rows, group, r);
      var m :| 0 <= m < |rows| && m !in group && rows[m] == r;
      assert m != 0;
      if Pop(r, idx) == Pop(rows[0], idx) {
        if r[idx] != rows[0][idx] {
          SelectedExactly(rows, idx, |rows|, m);
        } else {
          PopEqual(r, rows[0], idx);
        }
        assert false;
      }
    }
  }

  /** On rows without repeats, the output rows are without repeats. */
  lemma {:induction false} SumOutDistinct(rows: seq<Row>, probs: seq<real>, idx: nat, w: nat)
    requires |rows| == |probs| && Uniform(rows, w) && idx < w && Distinct(rows)
    ensures Distinct(SumOutRows(rows, probs, idx).0)
    decreases |rows|
  {
    if |rows| > 0 {
      var group := Selected(rows, idx, |rows|);
      var rest := SumOutRows(PopDown(rows, group, 0), PopDown(probs, group, 0), idx);
      var head := Pop(rows[0], idx);
      FirstPass(rows, idx, w);
      SumOutDistinct(PopDown(rows, group, 0), PopDown(probs, group, 0), idx, w);
      if head in rest.0 {
        SumOutOrigin(PopDown(rows, group, 0), PopDown(probs, group, 0), idx, head);
        assert false;
      }
      DistinctCons(head, rest.0);
    }
  }

  lemma DistinctCons<T>(x: T, s: seq<T>)
    requires x !in s && Distinct(s)
    ensures Distinct([x] + s)
  {
    var out := [x] + s;
    forall i, j | 0 <= i < j < |out| ensures out[i] != out[j] {
      assert out[j] == s[j - 1];
      if i > 0 {
        assert out[i] == s[i - 1];
      }
    }
  }

  /** The probabilities of the rows that reduce to `key`, and zero at the others. */
  function Filtered(rows: seq<Row>, probs: seq<real>, idx: nat, key: Row): (f: seq<real>)
    requires |rows| == |probs|
    ensures |f| == |rows|
    ensures forall m :: 0 <= m < |rows| ==> f[m] == if Reduces(rows[m], idx, key) then probs[m] else 0.0
  {
    seq(|rows|, m requires 0 <= m < |rows| => if Reduces(rows[m], idx, key) then probs[m] else 0.0)
  }

  /** `row` with position `idx` deleted is `key`. */
  predicate Reduces(row: Row, idx: nat, key: Row)
  {
    idx < |row| && Pop(row, idx) == key
  }

  /** The total probability of the input rows that reduce to `key`: the marginal at `key`. */
  function GroupMass(rows: seq<Row>, probs: seq<real>, idx: nat, key: Row): real
    requires |rows| == |probs|
  {
    Sum(Filtered(rows, probs, idx, key))
  }

  lemma FilteredPop(rows: seq<Row>, probs: seq<real>, idx: nat, key: Row, p: nat)
    requires |rows| == |probs| && p < |rows|
    ensures Filtered(Pop(rows, p), Pop(probs, p), idx, key) == Pop(Filtered(rows, probs, idx, key), p)
  {
    var a := Filtered(Pop(rows, p), Pop(probs, p), idx, key);
    var b := Pop(Filtered(rows, probs, idx, key), p);
    forall m | 0 <= m < |a| ensures a[m] == b[m] {
      var m' := if m < p then m else m + 1;
      assert Pop(rows, p)[m] == rows[m'] && Pop(probs, p)[m] == probs[m'];
    }
  }

  lemma {:induction false} FilteredPopDown(rows: seq<Row>, probs: seq<real>, idx: nat, key: Row, xs: seq<nat>, from: nat)
    requires |rows| == |probs|
    requires Increasing(xs) && from <= |xs| && forall k :: 0 <= k < |xs| ==> xs[k] < |rows|
    ensures Filtered(PopDown(rows, xs, from), PopDown(probs, xs, from), idx, key)
         == PopDown(Filtered(rows, probs, idx, key), xs, from)
    decreases |xs| - from
  {
    if from < |xs| {
      FilteredPopDown(rows, probs, idx, key, xs, from + 1);
      IncreasingGap(xs, from, |xs| - 1);
      FilteredPop(PopDown(rows, xs, from + 1), PopDown(probs, xs, from + 1), idx, key, xs[from]);
    }
  }

  /**
   * The mass at `key` splits into what the first pass leaves and the first
   * pass's group, which counts only when it reduces to `key`.
   */
  lemma GroupMassSplit(rows: seq<Row>, probs: seq<real>, idx: nat, key: Row)
    requires |rows| == |probs| && Wide(rows, idx) && |rows| > 0
    ensures var group := Selected(rows, idx, |rows|);
      GroupMass(rows, probs, idx, key)
        == GroupMass(PopDown(rows, group, 0), PopDown(probs, group, 0), idx, key)
         + (if key == Pop(rows[0], idx) then Sum(Gather(probs, group)) else 0.0)
  {
    var group := Selected(rows, idx, |rows|);
    var f := Filtered(rows, probs, idx, key);
    FilteredPopDown(rows, probs, idx, key, group, 0);
    PopDownSum(f, group, 0);
    assert Gather(f, group)[0..] == Gather(f, group);
    GroupGather(rows, probs, idx, key);
  }

  /** The first pass's group contributes its whole mass at its own row, none elsewhere. */
  lemma GroupGather(rows: seq<Row>, probs: seq<real>, idx: nat, key: Row)
    requires |rows| == |probs| && Wide(rows, idx) && |rows| > 0
    ensures var group := Selected(rows, idx, |rows|);
      Sum(Gather(Filtered(rows, probs, idx, key), group))
        == if key == Pop(rows[0], idx) then Sum(Gather(probs, group)) else 0.0
  {
    var group := Selected(rows, idx, |rows|);
    var g := Gather(Filtered(rows, probs, idx, key), group);
    if key == Pop(rows[0], idx) {
      assert g == Gather(probs, group);
    } else {
      SumZeros(g);
    }
  }

  lemma {:induction false} NoGroupMass(rows: seq<Row>, probs: seq<real>, idx: nat, key: Row)
    requires |rows| == |probs|
    requires forall r :: r in rows ==> !Reduces(r, idx, key)
    ensures GroupMass(rows, probs, idx, key) == 0.0
  {
    SumZeros(Filtered(rows, probs, idx, key));
  }

  /**
   * On rows without repeats `sum_out` marginalises: each output probability
   * is the total probability of the input rows that reduce to its row.
   */
  lemma {:induction false} SumOutMarginal(rows: seq<Row>, probs: seq<real>, idx: nat, w: nat, k: nat)
    requires |rows| == |probs| && Uniform(rows, w) && idx < w && Distinct(rows)
    requires k < |SumOutRows(rows, probs, idx).0|
    ensures SumOutRows(rows, probs, idx).1[k] == GroupMass(rows, probs, idx, SumOutRows(rows, probs, idx).0[k])
    decreases |rows|
  {
    var group := Selected(rows, idx, |rows|);
    var rows' := PopDown(rows, group, 0);
    var probs' := PopDown(probs, group, 0);
    var rest := SumOutRows(rows', probs', idx);
    var out := SumOutRows(rows, probs, idx);
    var head := Pop(rows[0], idx);
    FirstPass(rows, idx, w);
    GroupMassSplit(rows, probs, idx, out.0[k]);
    if k == 0 {
      NoGroupMass(rows', probs', idx, head);
    } else {
      SumOutMarginal(rows', probs', idx, w, k - 1);
      assert out.0[k] == rest.0[k - 1] && rest.0[k - 1] in rest.0;
      if out.0[k] == head {
        SumOutOrigin(rows', probs', idx, head);
        assert false;
      }
    }
  }

  /**
   * With a repeated row the copies differ nowhere, so none joins the other's
   * group and the output repeats a row.
   */
  lemma SumOutKeepsDuplicates(row: Row, p: real, q: real)
    requires |row| > 0
    ensures SumOutRows([row, row], [p, q], 0) == ([row[1..], row[1..]], [p, q])
  {
    var rows := [row, row];
    var probs := [p, q];
    assert !Merges(rows, 0, 1);
    var group := Selected(rows, 0, |rows|);
    assert group == Selected(rows, 0, 1) + [];
    assert PopDown(rows, group, 0) == [row];
    assert PopDown(probs, group, 0) == [q];
    assert Sum(Gather(probs, group)) == p by {
      assert Gather(probs, group) == [p];
      assert Sum([p]) == Sum([]) + p;
    }
    assert Pop(row, 0) == row[1..];
    SumOutSingle(row, q);
    var out := SumOutRows(rows, probs, 0);
    assert out == ([Pop(row, 0)] + SumOutRows([row], [q], 0).0,
                   [Sum(Gather(probs, group))] + SumOutRows([row], [q], 0).1);
    assert out.0 == [row[1..], row[1..]];
    assert out.1 == [p, q];
  }

  lemma SumOutSingle(row: Row, p: real)
    requires |row| > 0
    ensures SumOutRows([row], [p], 0) == ([row[1..]], [p])
  {
    var group := Selected([row], 0, |[row]|);
    assert group == [0];
    assert PopDown([row], group, 0) == [];
    assert PopDown([p], group, 0) == [];
    assert Sum(Gather([p], group)) == p by {
      assert Gather([p], group) == [p];
      assert Sum([p]) == Sum([]) + p;
    }
    assert Pop(row, 0) == row[1..];
    assert SumOutRows([], [], 0) == ([], []);
    var out := SumOutRows([row], [p], 0);
    assert out == ([Pop(row, 0)] + SumOutRows([], [], 0).0, [Sum(Gather([p], group))] + SumOutRows([], [], 0).1);
    assert out.0 == [row[1..]];
    assert out.1 == [p];
  }

  // ---------------------------------------------------------------------------
  // sum_out on a table
  // ---------------------------------------------------------------------------

  /**
   * `t.sum_out(variable)`: None where `variables.index` raises ValueError;
   * otherwise the scope without the variable and the merged rows.
   */
  function SumOut(t: Table, variable: Variable): (r: Option<Table>)
    requires Aligned(t)
    ensures r.None? <==> variable !in t.variables
    ensures r.Some? ==> Aligned(r.value) && |r.value.variables| == |t.variables| - 1
  {
    if variable !in t.variables then None
    else
      var idx := IndexOf(t.variables, variable);
      SumOutWidth(t.values, t.probabilities, idx, |t.variables|);
      var out := SumOutRows(t.values, t.probabilities, idx);
      Some(Table(Pop(t.variables, idx), out.0, out.1))
  }

  /** On a scope without repeats, summing out loses exactly that variable. */
  lemma SumOutScope(t: Table, variable: Variable)
    requires Aligned(t) && Distinct(t.variables) && variable in t.variables
    ensures var r := SumOut(t, variable).value;
      Distinct(r.variables) && forall v :: v in r.variables <==> v in t.variables && v != variable
  {
    var idx := IndexOf(t.variables, variable);
    var vs := Pop(t.variables, idx);
    forall v ensures v in vs <==> v in t.variables && v != variable {
      if v in t.variables && v != variable {
        var m :| 0 <= m < |t.variables| && t.variables[m] == v;
        if m < idx {
          assert vs[m] == v;
        } else {
          assert vs[m - 1] == v;
        }
      }
      if v in vs {
        var m :| 0 <= m < |vs| && vs[m] == v;
        if m >= idx {
          assert vs[m] == t.variables[m + 1];
        }
      }
    }
    forall i, j | 0 <= i < j < |vs| ensures vs[i] != vs[j] {
      var i' := if i < idx then i else i + 1;
      var j' := if j < idx then j else j + 1;
      assert vs[i] == t.variables[i'] && vs[j] == t.variables[j'];
    }
  }
}
