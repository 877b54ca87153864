/**
 * The discrete Bayesian network the inference engines consume (a libpgm
 * `DiscreteBayesianNetwork`): the variable list `V` and, per variable, its
 * `Vdata` record with the ordered domain `vals`, the `parents` list (None for
 * a root) and the conditional probability table `cprob`. A root's table is a
 * flat list aligned with `vals`; any other table is a dictionary from the
 * serialised parent values to such a list.
 */
module Networks {
  import opened Wrappers
  import opened Sums

  type Variable = string
  type Value = string

  datatype Cpt = Flat(probabilities: seq<real>) | Conditional(rows: map<string, seq<real>>)

  datatype VariableData = VariableData(vals: seq<Value>, parents: Option<seq<Variable>>, cprob: Cpt)

  datatype Network = Network(V: seq<Variable>, Vdata: map<Variable, VariableData>)

  predicate Distinct<T(==)>(s: seq<T>)
  {
    forall i, j :: 0 <= i < j < |s| ==> s[i] != s[j]
  }

  /** Python's `list.index`: the first position holding `x`. */
  function IndexOf<T(==)>(s: seq<T>, x: T): (i: nat)
    requires x in s
    ensures i < |s| && s[i] == x
    ensures forall j :: 0 <= j < i ==> s[j] != x
  {
    if s[0] == x then 0 else 1 + IndexOf(s[1..], x)
  }

  lemma IndexOfDistinct<T>(s: seq<T>, k: nat)
    requires Distinct(s) && k < |s|
    ensures IndexOf(s, s[k]) == k
  {
  }

  // ---------------------------------------------------------------------------
  // The table key: "[" + ", ".join("'" + v + "'" for v in values) + "]"
  // ---------------------------------------------------------------------------

  function JoinQuoted(vs: seq<Value>): string
  {
    if |vs| == 0 then ""
    else "'" + vs[0] + "'" + (if |vs| == 1 then "" else ", " + JoinQuoted(vs[1..]))
  }

  /** The string under which a CPT stores the row for the parent values `vs`. */
  function ParentKey(vs: seq<Value>): string
  {
    "[" + JoinQuoted(vs) + "]"
  }

  predicate QuoteFree(vs: seq<Value>)
  {
    forall i :: 0 <= i < |vs| ==> '\'' !in vs[i]
  }

  lemma QuotedWordPrefix(p: string, q: string, t1: string, t2: string)
    requires '\'' !in p && '\'' !in q
    requires "'" + p + "'" + t1 == "'" + q + "'" + t2
    ensures p == q && t1 == t2
  {
    var s := "'" + p + "'" + t1;
    var s' := "'" + q + "'" + t2;
    // the second quote of each side sits right after its word
    assert s[|p| + 1] == '\'' && s'[|q| + 1] == '\'';
    NoQuoteInWord(q, t2, |p| + 1);
    NoQuoteInWord(p, t1, |q| + 1);
    assert p == s[1..|p| + 1];
    assert q == s'[1..|q| + 1];
    assert t1 == s[|p| + 2..];
    assert t2 == s'[|q| + 2..];
  }

  lemma NoQuoteInWord(p: string, t: string, k: int)
    requires '\'' !in p
    ensures 1 <= k <= |p| ==> ("'" + p + "'" + t)[k] != '\''
  {
    if 1 <= k <= |p| {
      assert ("'" + p + "'" + t)[k] == p[k - 1];
    }
  }

  /** What follows the first quoted value: nothing, or a comma and the rest. */
  function QuotedTail(vs: seq<Value>): string
    requires |vs| > 0
  {
    if |vs| == 1 then "" else ", " + JoinQuoted(vs[1..])
  }

  lemma QuotedTailEmpty(vs: seq<Value>)
    requires |vs| > 0
    ensures |QuotedTail(vs)| == 0 <==> |vs| == 1
    ensures |vs| > 1 ==> QuotedTail(vs)[2..] == JoinQuoted(vs[1..])
  {
  }

  lemma QuoteFreeTail(vs: seq<Value>)
    requires QuoteFree(vs) && |vs| > 0
    ensures QuoteFree(vs[1..])
  {
    forall i | 0 <= i < |vs[1..]| ensures '\'' !in vs[1..][i] {
      assert vs[1..][i] == vs[i + 1];
    }
  }

  lemma {:induction false} JoinQuotedInjective(vs: seq<Value>, ws: seq<Value>)
    requires QuoteFree(vs) && QuoteFree(ws)
    requires JoinQuoted(vs) == JoinQuoted(ws)
    ensures vs == ws
  {
    if |vs| == 0 || |ws| == 0 {
      assert |JoinQuoted(vs)| == 0 <==> |vs| == 0;
      assert |JoinQuoted(ws)| == 0 <==> |ws| == 0;
    } else {
      assert JoinQuoted(vs) == "'" + vs[0] + "'" + QuotedTail(vs);
      assert JoinQuoted(ws) == "'" + ws[0] + "'" + QuotedTail(ws);
      assert '\'' !in vs[0] && '\'' !in ws[0];
      QuotedWordPrefix(vs[0], ws[0], QuotedTail(vs), QuotedTail(ws));
      QuotedTailEmpty(vs);
      QuotedTailEmpty(ws);
      if |vs| > 1 && |ws| > 1 {
        QuoteFreeTail(vs);
        QuoteFreeTail(ws);
        JoinQuotedInjective(vs[1..], ws[1..]);
        assert vs == [vs[0]] + vs[1..] && ws == [ws[0]] + ws[1..];
      } else {
        assert vs == [vs[0]] && ws == [ws[0]];
      }
    }
  }

  /** Two parent-value lists whose values contain no quote never share a key. */
  lemma ParentKeyInjective(vs: seq<Value>, ws: seq<Value>)
    requires QuoteFree(vs) && QuoteFree(ws)
    requires ParentKey(vs) == ParentKey(ws)
    ensures vs == ws
  {
    var k := ParentKey(vs);
    assert JoinQuoted(vs) == k[1..|k| - 1] == JoinQuoted(ws);
    JoinQuotedInjective(vs, ws);
  }

  /** A value that contains a quote can forge the key of two other values. */
  lemma ParentKeyCollision()
    ensures ParentKey(["a', 'b"]) == ParentKey(["a", "b"])
  {
    assert JoinQuoted(["b"]) == "'b'";
    assert JoinQuoted(["a", "b"]) == "'a', " + JoinQuoted(["b"]);
  }

  // ---------------------------------------------------------------------------
  // Well-formedness that libpgm guarantees of a loaded network
  // ---------------------------------------------------------------------------

  /** `vs` assigns to the parent list `ps` values taken from the parents' domains. */
  predicate ValidParentValues(net: Network, ps: seq<Variable>, vs: seq<Value>)
  {
    |vs| == |ps| && forall i :: 0 <= i < |ps| ==> ps[i] in net.Vdata && vs[i] in net.Vdata[ps[i]].vals
  }

  ghost predicate VariableWellFormed(net: Network, x: Variable)
    requires x in net.Vdata
  {
    var d := net.Vdata[x];
    && |d.vals| > 0
    && Distinct(d.vals)
    && match d.parents
       case None =>
         d.cprob.Flat? && |d.cprob.probabilities| == |d.vals|
       case Some(ps) =>
         && (forall p :: p in ps ==> p in net.Vdata)
         && d.cprob.Conditional?
         && (forall key :: key in d.cprob.rows ==> |d.cprob.rows[key]| == |d.vals|)
         && (forall vs :: ValidParentValues(net, ps, vs) ==> ParentKey(vs) in d.cprob.rows)
  }

  ghost predicate WellFormed(net: Network)
  {
    && Distinct(net.V)
    && (forall x :: x in net.Vdata <==> x in net.V)
    && (forall x :: x in net.Vdata ==> VariableWellFormed(net, x))
  }

  /** Every variable's parents come before it in `V` (what `toporder()` establishes). */
  ghost predicate Topological(net: Network)
  {
    forall i, j ::
      (0 <= i < |net.V| && 0 <= j < |net.V| && net.V[i] in net.Vdata &&
       net.Vdata[net.V[i]].parents.Some? && net.V[j] in net.Vdata[net.V[i]].parents.value) ==> j < i
  }

  predicate Distribution(ps: seq<real>)
  {
    (forall i :: 0 <= i < |ps| ==> ps[i] >= 0.0) && Sum(ps) == 1.0
  }

  /** Every row of every table is a probability distribution. */
  ghost predicate Normalized(net: Network)
  {
    forall x :: x in net.Vdata ==>
      match net.Vdata[x].cprob
      case Flat(ps) => Distribution(ps)
      case Conditional(rows) => forall key :: key in rows ==> Distribution(rows[key])
  }

  // ---------------------------------------------------------------------------
  // Table lookups
  // ---------------------------------------------------------------------------

  function ParentValues(ps: seq<Variable>, a: map<Variable, Value>): (vs: seq<Value>)
    requires forall p :: p in ps ==> p in a
    ensures |vs| == |ps| && forall i :: 0 <= i < |ps| ==> vs[i] == a[ps[i]]
  {
    seq(|ps|, i requires 0 <= i < |ps| => a[ps[i]])
  }

  /**
   * The row of `x`'s table selected by the values `a` gives its parents; None
   * where the code raises (a parent missing from `a`, a key missing from the table).
   */
  function Row(net: Network, x: Variable, a: map<Variable, Value>): Option<seq<real>>
  {
    if x !in net.Vdata then None
    else
      var d := net.Vdata[x];
      match d.parents
      case None => if d.cprob.Flat? then Some(d.cprob.probabilities) else None
      case Some(ps) =>
        if exists p :: p in ps && p !in a then None
        else if d.cprob.Flat? then None
        else
          var key := ParentKey(ParentValues(ps, a));
          if key in d.cprob.rows then Some(d.cprob.rows[key]) else None
  }

  /** P(x = a[x] | parents = a[parents]) read from the table; None where the code raises. */
  function Lookup(net: Network, x: Variable, a: map<Variable, Value>): Option<real>
  {
    if x !in net.Vdata || x !in a || a[x] !in net.Vdata[x].vals then None
    else
      var index := IndexOf(net.Vdata[x].vals, a[x]);
      match Row(net, x, a)
      case None => None
      case Some(row) => if index < |row| then Some(row[index]) else None
  }

  /** Every variable of `xs` is assigned a value of its own domain in `a`. */
  predicate ValidOn(net: Network, xs: seq<Variable>, a: map<Variable, Value>)
  {
    forall x :: x in xs ==> x in net.Vdata && x in a && a[x] in net.Vdata[x].vals
  }

  lemma RowDefined(net: Network, x: Variable, a: map<Variable, Value>)
    requires WellFormed(net) && x in net.Vdata
    requires net.Vdata[x].parents.Some? ==> ValidOn(net, net.Vdata[x].parents.value, a)
    ensures Row(net, x, a).Some? && |Row(net, x, a).value| == |net.Vdata[x].vals|
  {
    var d := net.Vdata[x];
    assert VariableWellFormed(net, x);
    if d.parents.Some? {
      var ps := d.parents.value;
      var vs := ParentValues(ps, a);
      assert ValidParentValues(net, ps, vs) by {
        forall i | 0 <= i < |ps| ensures ps[i] in net.Vdata && vs[i] in net.Vdata[ps[i]].vals {
          assert ps[i] in ps;
        }
      }
    }
  }

  /** A lookup succeeds when `x` and its parents hold values of their domains. */
  lemma LookupDefined(net: Network, x: Variable, a: map<Variable, Value>)
    requires WellFormed(net) && ValidOn(net, [x], a)
    requires net.Vdata[x].parents.Some? ==> ValidOn(net, net.Vdata[x].parents.value, a)
    ensures Lookup(net, x, a).Some?
  {
    assert x in [x];
    RowDefined(net, x, a);
  }

  function Times(a: Option<real>, b: Option<real>): (r: Option<real>)
    ensures r.Some? <==> a.Some? && b.Some?
  {
    if a.Some? && b.Some? then Some(a.value * b.value) else None
  }

  /**
   * The chain rule over the variables `xs`, multiplied left to right from
   * 1.0: the product of each one's table entry at its assigned value given
   * its parents' values.
   */
  function ChainProduct(net: Network, xs: seq<Variable>, a: map<Variable, Value>): Option<real>
  {
    if |xs| == 0 then Some(1.0) else Times(ChainProduct(net, xs[..|xs| - 1], a), Lookup(net, xs[|xs| - 1], a))
  }

  lemma {:induction false} ChainProductDefined(net: Network, xs: seq<Variable>, a: map<Variable, Value>)
    ensures ChainProduct(net, xs, a).Some? <==> forall x :: x in xs ==> Lookup(net, x, a).Some?
  {
    if |xs| > 0 {
      var init := xs[..|xs| - 1];
      ChainProductDefined(net, init, a);
      assert xs == init + [xs[|xs| - 1]];
    }
  }

  /** Real multiplication under a name, so that products of products stay apart in the proofs below. */
  function Mul(x: real, y: real): real
  {
    x * y
  }

  lemma MulSwap(a: real, b: real, c: real)
    ensures Mul(Mul(a, b), c) == Mul(Mul(a, c), b)
  {
  }

  lemma TimesSome(p: Option<real>, q: Option<real>)
    requires p.Some? && q.Some?
    ensures Times(p, q) == Some(Mul(p.value, q.value))
  {
  }

  /** Two factors multiplied in either order give the same product, defined or not. */
  lemma TimesSwap(p: Option<real>, q: Option<real>, r: Option<real>)
    ensures Times(Times(p, q), r) == Times(Times(p, r), q)
  {
    if p.Some? && q.Some? && r.Some? {
      TimesSome(p, q);
      TimesSome(p, r);
      TimesSome(Times(p, q), r);
      TimesSome(Times(p, r), q);
      MulSwap(p.value, q.value, r.value);
    }
  }

  /** The factor of the variable at position `k` can be multiplied in last. */
  lemma {:induction false} ChainProductRemove(net: Network, xs: seq<Variable>, k: nat, a: map<Variable, Value>)
    requires k < |xs|
    ensures ChainProduct(net, xs, a) == Times(ChainProduct(net, xs[..k] + xs[k + 1..], a), Lookup(net, xs[k], a))
    decreases |xs|
  {
    var n := |xs| - 1;
    var init := xs[..n];
    if k == n {
      assert xs[..k] + xs[k + 1..] == init;
    } else {
      var rest := xs[..k] + xs[k + 1..];
      assert init[..k] + init[k + 1..] == rest[..|rest| - 1];
      assert rest[|rest| - 1] == xs[n];
      ChainProductRemove(net, init, k, a);
      assert init[k] == xs[k];
      var p, lk, ln := ChainProduct(net, init[..k] + init[k + 1..], a), Lookup(net, xs[k], a), Lookup(net, xs[n], a);
      assert ChainProduct(net, xs, a) == Times(Times(p, lk), ln);
      assert ChainProduct(net, rest, a) == Times(p, ln);
      TimesSwap(p, lk, ln);
    }
  }

  /**
   * The chain-rule product does not depend on the order of the variables:
   * any two orders of the same variables give the same result, defined or not.
   */
  lemma {:induction false} ChainProductPermutation(net: Network, xs: seq<Variable>, ys: seq<Variable>, a: map<Variable, Value>)
    requires multiset(xs) == multiset(ys)
    ensures ChainProduct(net, xs, a) == ChainProduct(net, ys, a)
    decreases |ys|
  {
    if |ys| == 0 {
      assert |xs| == |multiset(xs)| == 0;
    } else {
      var n := |ys| - 1;
      var y := ys[n];
      assert ys == ys[..n] + [y];
      assert y in multiset(xs);
      var k :| 0 <= k < |xs| && xs[k] == y;
      var rest := xs[..k] + xs[k + 1..];
      assert xs == xs[..k] + [xs[k]] + xs[k + 1..];
      assert multiset(xs) == multiset(xs[..k]) + multiset{y} + multiset(xs[k + 1..]);
      assert multiset(rest) == multiset(xs[..k]) + multiset(xs[k + 1..]);
      assert multiset(ys) == multiset(ys[..n]) + multiset{y};
      assert multiset(rest) == multiset(xs) - multiset{y};
      assert multiset(ys[..n]) == multiset(ys) - multiset{y};
      ChainProductRemove(net, xs, k, a);
      ChainProductPermutation(net, rest, ys[..n], a);
    }
  }

  /**
   * Over a list holding exactly the network's variables, the product is
   * defined exactly when every variable holds a value of its domain.
   */
  lemma ChainProductValid(net: Network, xs: seq<Variable>, a: map<Variable, Value>)
    requires WellFormed(net) && forall x :: x in xs <==> x in net.V
    ensures ChainProduct(net, xs, a).Some? <==> ValidOn(net, xs, a)
  {
    ChainProductDefined(net, xs, a);
    if ValidOn(net, xs, a) {
      forall x | x in xs ensures Lookup(net, x, a).Some? {
        assert ValidOn(net, [x], a);
        assert VariableWellFormed(net, x);
        if net.Vdata[x].parents.Some? {
          forall p | p in net.Vdata[x].parents.value
            ensures p in net.Vdata && p in a && a[p] in net.Vdata[p].vals
          {
            assert p in net.V;
          }
        }
        LookupDefined(net, x, a);
      }
    } else {
      var x :| x in xs && !(x in net.Vdata && x in a && a[x] in net.Vdata[x].vals);
      assert Lookup(net, x, a).None?;
    }
  }
}
