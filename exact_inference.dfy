/**
 * inference/exact_inference.py: inference by enumeration. For each value of
 * the query variable the engine sums, over every assignment of the hidden
 * variables, the chain-rule product of the network's table entries; it then
 * divides by the sum over all query values.
 */
module ExactInference {
  import opened Wrappers
  import opened Sums
  import opened Networks
  import opened Positions

  // ---------------------------------------------------------------------------
  // The assignment dictionary
  // ---------------------------------------------------------------------------

  /**
   * The keys of a dict after `d[x] = ...` for each `x` of `xs` in turn, listed
   * in insertion order: new keys go last. This is one arrangement of the keys
   * a dict may iterate in; `UnnormalizedKeyOrder` shows that the result does
   * not depend on which.
   */
  function Inserted(keys: seq<Variable>, xs: seq<Variable>): (r: seq<Variable>)
    ensures forall x :: x in r <==> x in keys || x in xs
    ensures Distinct(keys) ==> Distinct(r)
  {
    if |xs| == 0 then keys
    else
      var n := |xs| - 1;
      assert xs == xs[..n] + [xs[n]];
      var k := Inserted(keys, xs[..n]);
      if xs[n] in k then k else k + [xs[n]]
  }

  /**
   * `variable_assignments` once lines 30-35 have run over `xs`: the query and
   * every variable of `xs`, holding its evidence value or ''.
   */
  function InitialEntries(query: Variable, xs: seq<Variable>, evidence: map<Variable, Value>): map<Variable, Value>
  {
    map x | x in [query] + xs :: if x in xs && x in evidence then evidence[x] else ""
  }

  lemma InsertedSnoc(keys: seq<Variable>, xs: seq<Variable>, x: Variable)
    ensures Inserted(keys, xs + [x]) == if x in Inserted(keys, xs) then Inserted(keys, xs) else Inserted(keys, xs) + [x]
  {
    assert (xs + [x])[..|xs|] == xs;
  }

  lemma InitialEntriesSnoc(query: Variable, xs: seq<Variable>, x: Variable, evidence: map<Variable, Value>)
    ensures InitialEntries(query, xs + [x], evidence) == InitialEntries(query, xs, evidence)[x := if x in evidence then evidence[x] else ""]
  {
  }

  /**
   * A Python dict from variables to values: its entries and its keys, kept in
   * insertion order (any other iteration order gives the same result, by
   * `UnnormalizedKeyOrder`).
   */
  class Assignments {
    var keys: seq<Variable>
    var entries: map<Variable, Value>

    ghost predicate Valid()
      reads this
    {
      Distinct(keys) && forall x :: x in entries <==> x in keys
    }

    /** `{x: v}` */
    constructor (x: Variable, v: Value)
      ensures Valid() && keys == [x] && entries == map[x := v]
    {
      keys := [x];
      entries := map[x := v];
    }

    /** `d[x] = v`: a new key goes after the others, an existing key keeps its place. */
    method Set(x: Variable, v: Value)
      requires Valid()
      modifies this
      ensures Valid()
      ensures entries == old(entries)[x := v]
      ensures keys == if x in old(entries) then old(keys) else old(keys) + [x]
    {
      if x !in entries {
        keys := keys + [x];
      }
      entries := entries[x := v];
    }
  }

  // ---------------------------------------------------------------------------
  // What the engine computes
  // ---------------------------------------------------------------------------

  /**
   * `__sum_and_enumerate(hidden, a)` over a dict whose keys are `ks`: the
   * chain-rule product once no variable is hidden, else the sum over the
   * first hidden variable's values of the enumeration of the others. None
   * where the code raises.
   */
  function Enumerate(net: Network, ks: seq<Variable>, hidden: seq<Variable>, a: map<Variable, Value>): Option<real>
    decreases |hidden|, 1
  {
    if |hidden| == 0 then ChainProduct(net, ks, a)
    else if hidden[0] !in net.Vdata then None
    else SumOver(net.Vdata[hidden[0]].vals, Branch(net, ks, hidden[1..], a, hidden[0]))
  }

  /** The enumeration of `hidden` once `h` is given the value `v`. */
  function Branch(net: Network, ks: seq<Variable>, hidden: seq<Variable>, a: map<Variable, Value>, h: Variable): Value -> Option<real>
    decreases |hidden|, 2
  {
    v => Enumerate(net, ks, hidden, a[h := v])
  }

  /** The order `list(set(V) - set(known_variables))` may give the hidden variables. */
  ghost predicate HiddenOrder(net: Network, query: Variable, evidence: map<Variable, Value>, hidden: seq<Variable>)
  {
    Distinct(hidden) && forall x :: x in hidden <==> x in net.V && x !in evidence && x != query
  }

  /** The unnormalised probability of each query value (line 40). */
  function Unnormalized(net: Network, query: Variable, evidence: map<Variable, Value>, hidden: seq<Variable>): Value -> Option<real>
  {
    Branch(net, Inserted([query], net.V), hidden, InitialEntries(query, net.V, evidence), query)
  }

  /**
   * What a call of `__sum_and_enumerate` over `hidden` keeps of the dict it
   * started from (`keys`, `entries`): the key order, the key set, and every
   * entry outside `hidden`.
   */
  ghost predicate Untouched(d: Assignments, keys: seq<Variable>, entries: map<Variable, Value>, hidden: seq<Variable>)
    reads d
  {
    d.Valid() && d.keys == keys && d.entries.Keys == entries.Keys &&
    forall x :: x in d.entries && x !in hidden ==> d.entries[x] == entries[x]
  }

  /**
   * `perform_inference(query, evidence)` with the hidden variables in the
   * order `hidden`: each query value's unnormalised probability divided by
   * their sum. None where the code raises, including the unguarded division
   * by a zero normaliser.
   */
  function Inference(net: Network, query: Variable, evidence: map<Variable, Value>, hidden: seq<Variable>): Option<map<Value, real>>
  {
    if query !in net.Vdata then None
    else
      var vals := net.Vdata[query].vals;
      var u := Unnormalized(net, query, evidence, hidden);
      match SumOver(vals, u)
      case None => None
      case Some(normalizer) =>
        if |vals| == 0 then Some(map[])
        else if normalizer == 0.0 then None
        else
          SumOverDefined(vals, u);
          Some(map v | v in vals :: u(v).value / normalizer)
  }

  // ---------------------------------------------------------------------------
  // The engine
  // ---------------------------------------------------------------------------

  /**
   * `table` holds `u(v)` for each value `v` of `vals` and for no other key;
   * `order` lists its keys once each, in the order they were first inserted.
   */
  ghost predicate Tabulated(u: Value -> Option<real>, vals: seq<Value>, table: map<Value, real>, order: seq<Value>)
  {
    && Distinct(order)
    && (forall v :: v in order <==> v in vals)
    && (forall v :: v in table <==> v in vals)
    && (forall v :: v in table ==> u(v) == Some(table[v]))
  }

  /**
   * Lines 40-41 for the query value `vals[i]` whose enumeration is `p`:
   * `distribution[value] = p` (a new key goes last in the key order) and
   * `normalizer = normalizer + p`.
   */
  method Record(ghost u: Value -> Option<real>, vals: seq<Value>, i: nat, table: map<Value, real>, order: seq<Value>,
                sum: real, p: real) returns (table': map<Value, real>, order': seq<Value>, sum': real)
    requires i < |vals| && u(vals[i]) == Some(p)
    requires Tabulated(u, vals[..i], table, order) && SumOver(vals[..i], u) == Some(sum)
    ensures Tabulated(u, vals[..i + 1], table', order') && SumOver(vals[..i + 1], u) == Some(sum')
  {
    order' := if vals[i] in table then order else order + [vals[i]];
    table' := table[vals[i] := p];
    sum' := sum + p;
    TabulatedStep(u, vals, i, table, order, p);
    SumOverStep(vals, i, u, sum, p);
  }

  /** Storing the value of one more query value keeps the table and its key order. */
  lemma TabulatedStep(u: Value -> Option<real>, vals: seq<Value>, i: nat, table: map<Value, real>, order: seq<Value>,
                      p: real)
    requires i < |vals| && Tabulated(u, vals[..i], table, order) && u(vals[i]) == Some(p)
    ensures Tabulated(u, vals[..i + 1], table[vals[i] := p], if vals[i] in table then order else order + [vals[i]])
  {
    PrefixMembers(vals, i);
  }

  class ExactInferenceEngine {
    const network: Network

    constructor (network: Network)
      ensures this.network == network
    {
      this.network := network;
    }

    /**
     * One factor of the base case (lines 68-78): the table entry of
     * `variable` at its assigned value, the parents' values serialised into
     * the table key.
     */
    method TableEntry(d: Assignments, variable: Variable) returns (entry: Option<real>)
      requires d.Valid() && variable in d.entries
      ensures entry == Lookup(network, variable, d.entries)
    {
      if variable !in network.Vdata {
        return None;
      }
      var data := network.Vdata[variable];
      var value := d.entries[variable];
      if value !in data.vals {
        return None;
      }
      var valueIndex := IndexOf(data.vals, value);
      match data.parents
      case None =>
        if !data.cprob.Flat? || valueIndex >= |data.cprob.probabilities| {
          return None;
        }
        entry := Some(data.cprob.probabilities[valueIndex]);
      case Some(parents) =>
        var parentValues: seq<Value> := [];
        for k := 0 to |parents|
          invariant |parentValues| == k
          invariant forall j :: 0 <= j < k ==> parents[j] in d.entries && parentValues[j] == d.entries[parents[j]]
        {
          if parents[k] !in d.entries {
            assert parents[k] in parents;
            return None;
          }
          parentValues := parentValues + [d.entries[parents[k]]];
        }
        assert parentValues == ParentValues(parents, d.entries);
        var key := ParentKey(parentValues);
        if !data.cprob.Conditional? || key !in data.cprob.rows || valueIndex >= |data.cprob.rows[key]| {
          return None;
        }
        entry := Some(data.cprob.rows[key][valueIndex]);
    }

    /** The base case (lines 66-79): the product of the table entries over the dict's keys, in order. */
    method ChainTerm(d: Assignments) returns (probability: Option<real>)
      requires d.Valid()
      ensures probability == ChainProduct(network, d.keys, d.entries)
    {
      var product := 1.0;
      for i := 0 to |d.keys|
        invariant ChainProduct(network, d.keys[..i], d.entries) == Some(product)
      {
        assert d.keys[..i + 1][..i] == d.keys[..i];
        var entry := TableEntry(d, d.keys[i]);
        if entry.None? {
          ChainProductDefined(network, d.keys, d.entries);
          return None;
        }
        var next := Times(Some(product), entry);
        assert next.Some? && next.value == product * entry.value;
        assert ChainProduct(network, d.keys[..i + 1], d.entries) == next;
        product := product * entry.value;
      }
      assert d.keys[..|d.keys|] == d.keys;
      probability := Some(product);
    }

    /**
     * `__sum_and_enumerate`: assigns each value of the first hidden variable
     * in the shared dict and recurses on the rest. Only hidden entries are
     * written; the result is the enumeration from the dict as it was on entry.
     */
    method SumAndEnumerate(hidden: seq<Variable>, d: Assignments) returns (probability: Option<real>)
      requires d.Valid() && forall h :: h in hidden ==> h in d.entries
      modifies d
      decreases |hidden|, 1
      ensures Untouched(d, old(d.keys), old(d.entries), hidden)
      ensures probability == Enumerate(network, old(d.keys), hidden, old(d.entries))
    {
      if |hidden| == 0 {
        probability := ChainTerm(d);
        return;
      }
      var variableToAssign := hidden[0];
      var newHidden := hidden[1..];
      if variableToAssign !in network.Vdata {
        return None;
      }
      var vals := network.Vdata[variableToAssign].vals;
      ghost var keys0, entries0 := d.keys, d.entries;
      ghost var f := Branch(network, keys0, newHidden, entries0, variableToAssign);
      var sum := 0.0;
      assert hidden == [variableToAssign] + newHidden;
      for i := 0 to |vals|
        invariant Untouched(d, keys0, entries0, hidden)
        invariant SumOver(vals[..i], f) == Some(sum)
      {
        var p := AssignAndEnumerate(variableToAssign, vals[i], newHidden, d, keys0, entries0);
        if p.None? {
          SumOverDefined(vals, f);
          assert vals[i] in vals;
          return None;
        }
        SumOverStep(vals, i, f, sum, p.value);
        sum := sum + p.value;
      }
      assert vals[..|vals|] == vals;
      probability := Some(sum);
    }

    /**
     * One iteration of the loops at lines 38-40 and 88-90: `d[h] = v`, then
     * the enumeration of `rest`. The dict may already differ from
     * `entries` at `h` and `rest`, which the enumeration does not read.
     */
    method AssignAndEnumerate(h: Variable, v: Value, rest: seq<Variable>, d: Assignments,
                              ghost keys: seq<Variable>, ghost entries: map<Variable, Value>)
      returns (probability: Option<real>)
      requires Untouched(d, keys, entries, [h] + rest)
      requires h in d.entries && forall x :: x in rest ==> x in d.entries
      modifies d
      decreases |rest|, 2
      ensures Untouched(d, keys, entries, [h] + rest)
      ensures probability == Enumerate(network, keys, rest, entries[h := v])
    {
      d.Set(h, v);
      ghost var before := d.entries;
      probability := SumAndEnumerate(rest, d);
      EnumerateFrame(network, keys, rest, before, entries[h := v]);
    }

    /** Lines 30-35: the dict holding the query and every network variable, with the evidence filled in. */
    method InitialAssignments(query: Variable, evidence: map<Variable, Value>) returns (d: Assignments)
      ensures fresh(d) && d.Valid()
      ensures d.keys == Inserted([query], network.V) && d.entries == InitialEntries(query, network.V, evidence)
    {
      d := new Assignments(query, "");
      for i := 0 to |network.V|
        invariant d.Valid() && d.keys == Inserted([query], network.V[..i])
        invariant d.entries == InitialEntries(query, network.V[..i], evidence)
      {
        var variable := network.V[i];
        PrefixSnoc(network.V, i);
        InsertedSnoc([query], network.V[..i], variable);
        InitialEntriesSnoc(query, network.V[..i], variable, evidence);
        if variable in evidence {
          d.Set(variable, evidence[variable]);
        } else {
          d.Set(variable, "");
        }
      }
      assert network.V[..|network.V|] == network.V;
    }

    /**
     * Lines 38-41: each query value's enumeration, stored in `table` (whose
     * keys were first inserted in the order `order`) and summed into the
     * normaliser. None where an enumeration raises.
     */
    method QueryTable(query: Variable, hidden: seq<Variable>, d: Assignments)
      returns (table: map<Value, real>, order: seq<Value>, normalizer: Option<real>)
      requires query in network.Vdata && query in d.entries && query !in hidden
      requires d.Valid() && forall h :: h in hidden ==> h in d.entries
      modifies d
      ensures var vals := network.Vdata[query].vals;
              normalizer == SumOver(vals, Branch(network, old(d.keys), hidden, old(d.entries), query))
      ensures var vals := network.Vdata[query].vals;
              normalizer.Some? ==>
                Distinct(order) && (forall v :: v in order <==> v in vals) && (forall v :: v in table <==> v in vals) &&
                forall v :: v in table ==> Branch(network, old(d.keys), hidden, old(d.entries), query)(v) == Some(table[v])
    {
      var vals := network.Vdata[query].vals;
      ghost var keys0, entries0 := d.keys, d.entries;
      ghost var u := Branch(network, keys0, hidden, entries0, query);
      table, order := map[], [];
      var sum := 0.0;
      for i := 0 to |vals|
        invariant Untouched(d, keys0, entries0, [query] + hidden)
        invariant SumOver(vals[..i], u) == Some(sum)
        invariant Tabulated(u, vals[..i], table, order)
      {
        var p := AssignAndEnumerate(query, vals[i], hidden, d, keys0, entries0);
        if p.None? {
          SumOverDefined(vals, u);
          assert vals[i] in vals;
          return table, order, None;
        }
        table, order, sum := Record(u, vals, i, table, order, sum, p.value);
      }
      assert vals[..|vals|] == vals;
      normalizer := Some(sum);
      assert Tabulated(u, vals, table, order);
    }

    /**
     * Lines 43-44: each entry of the table, visited in key order, divided by
     * the normaliser. None when there is an entry to divide and the
     * normaliser is zero (the division raises).
     */
    method Normalize(table: map<Value, real>, order: seq<Value>, normalizer: real) returns (result: Option<map<Value, real>>)
      requires Distinct(order) && forall v :: v in order <==> v in table
      ensures result.None? <==> |order| > 0 && normalizer == 0.0
      ensures result.Some? ==> forall v :: v in result.value <==> v in table
      ensures result.Some? ==> forall v :: v in result.value ==> result.value[v] == table[v] / normalizer
    {
      var divided := table;
      for i := 0 to |order|
        invariant i > 0 ==> normalizer != 0.0
        invariant forall v :: v in divided <==> v in table
        invariant forall j :: 0 <= j < i ==> divided[order[j]] == table[order[j]] / normalizer
        invariant forall v :: v in divided && v !in order[..i] ==> divided[v] == table[v]
      {
        if normalizer == 0.0 {
          return None;
        }
        assert forall j :: 0 <= j < i ==> order[j] != order[i];
        divided := divided[order[i] := divided[order[i]] / normalizer];
      }
      forall v | v in divided ensures divided[v] == table[v] / normalizer {
        var j :| 0 <= j < |order| && order[j] == v;
      }
      return Some(divided);
    }

    /**
     * `perform_inference`, with the order in which `list(set(...))` yields
     * the hidden variables given as `hidden`.
     */
    method PerformInference(query: Variable, evidence: map<Variable, Value>, hidden: seq<Variable>)
      returns (distribution: Option<map<Value, real>>)
      requires HiddenOrder(network, query, evidence, hidden)
      ensures distribution == Inference(network, query, evidence, hidden)
    {
      var d := InitialAssignments(query, evidence);
      if query !in network.Vdata {
        return None;
      }
      var vals := network.Vdata[query].vals;
      ghost var u := Unnormalized(network, query, evidence, hidden);
      var table, order, normalizer := QueryTable(query, hidden, d);
      if normalizer.None? {
        assert Inference(network, query, evidence, hidden) == None;
        return None;
      }
      assert normalizer == SumOver(vals, u);
      if |vals| == 0 {
        assert table == map[];
      } else {
        assert vals[0] in order;
      }
      distribution := Normalize(table, order, normalizer.value);
      if distribution.Some? {
        if |vals| == 0 {
          assert distribution.value == map[];
          assert Inference(network, query, evidence, hidden) == Some(map[]);
        } else {
          SumOverDefined(vals, u);
          assert distribution.value == map v | v in vals :: u(v).value / normalizer.value;
          assert Inference(network, query, evidence, hidden) == Some(map v | v in vals :: u(v).value / normalizer.value);
        }
      } else {
        assert order[0] in order && normalizer.value == 0.0;
        assert Inference(network, query, evidence, hidden) == None;
      }
    }
  }

  // ---------------------------------------------------------------------------
  // Properties
  // ---------------------------------------------------------------------------

  /**
   * The enumeration reads a hidden variable only after assigning it, so
   * whatever the dict held for the hidden variables does not matter.
   */
  lemma {:induction false} EnumerateFrame(net: Network, ks: seq<Variable>, hidden: seq<Variable>,
                                          a: map<Variable, Value>, b: map<Variable, Value>)
    requires forall x :: x !in hidden ==> (x in a <==> x in b) && (x in a ==> a[x] == b[x])
    ensures Enumerate(net, ks, hidden, a) == Enumerate(net, ks, hidden, b)
    decreases |hidden|
  {
    if |hidden| == 0 {
      assert a == b;
    } else if hidden[0] in net.Vdata {
      var h, rest := hidden[0], hidden[1..];
      var vals := net.Vdata[h].vals;
      forall v | v in vals ensures Branch(net, ks, rest, a, h)(v) == Branch(net, ks, rest, b, h)(v) {
        EnumerateFrame(net, ks, rest, a[h := v], b[h := v]);
      }
      SumOverCongruent(vals, Branch(net, ks, rest, a, h), Branch(net, ks, rest, b, h));
    }
  }

  /**
   * The enumeration does not depend on the order in which the dict lists its
   * keys: the base case multiplies the same table entries in another order.
   */
  lemma {:induction false} EnumerateKeyOrder(net: Network, ks1: seq<Variable>, ks2: seq<Variable>,
                                             hidden: seq<Variable>, a: map<Variable, Value>)
    requires multiset(ks1) == multiset(ks2)
    ensures Enumerate(net, ks1, hidden, a) == Enumerate(net, ks2, hidden, a)
    decreases |hidden|
  {
    if |hidden| == 0 {
      ChainProductPermutation(net, ks1, ks2, a);
    } else if hidden[0] in net.Vdata {
      var h, rest := hidden[0], hidden[1..];
      var vals := net.Vdata[h].vals;
      forall v | v in vals ensures Branch(net, ks1, rest, a, h)(v) == Branch(net, ks2, rest, a, h)(v) {
        EnumerateKeyOrder(net, ks1, ks2, rest, a[h := v]);
      }
      SumOverCongruent(vals, Branch(net, ks1, rest, a, h), Branch(net, ks2, rest, a, h));
    }
  }

  /**
   * Whatever order the dict of lines 30-35 iterates its keys in (any
   * arrangement `ks` of the keys), each query value's unnormalised
   * probability is the one computed over the insertion order.
   */
  lemma UnnormalizedKeyOrder(net: Network, query: Variable, evidence: map<Variable, Value>, hidden: seq<Variable>,
                             ks: seq<Variable>, v: Value)
    requires multiset(ks) == multiset(Inserted([query], net.V))
    ensures Branch(net, ks, hidden, InitialEntries(query, net.V, evidence), query)(v)
         == Unnormalized(net, query, evidence, hidden)(v)
  {
    EnumerateKeyOrder(net, ks, Inserted([query], net.V), hidden, InitialEntries(query, net.V, evidence)[query := v]);
  }

  /** The result's keys are exactly the query variable's values. */
  lemma InferenceKeys(net: Network, query: Variable, evidence: map<Variable, Value>, hidden: seq<Variable>)
    requires Inference(net, query, evidence, hidden).Some?
    ensures query in net.Vdata
    ensures forall v :: v in Inference(net, query, evidence, hidden).value <==> v in net.Vdata[query].vals
  {
  }

  /** Whenever the division happens, the normalised probabilities of the query values sum to 1. */
  lemma InferenceNormalized(net: Network, query: Variable, evidence: map<Variable, Value>, hidden: seq<Variable>)
    requires Inference(net, query, evidence, hidden).Some?
    requires query in net.Vdata && |net.Vdata[query].vals| > 0
    ensures var vals, r := net.Vdata[query].vals, Inference(net, query, evidence, hidden).value;
            Sum(seq(|vals|, i requires 0 <= i < |vals| => r[vals[i]])) == 1.0
  {
    var vals, r := net.Vdata[query].vals, Inference(net, query, evidence, hidden).value;
    var u := Unnormalized(net, query, evidence, hidden);
    SumOverDefined(vals, u);
    SumOverTerms(vals, u);
    var us := Terms(vals, u);
    var normalized := seq(|vals|, i requires 0 <= i < |vals| => r[vals[i]]);
    assert normalized == Divide(us, Sum(us));
    SumNormalized(us);
  }

  /** Popping position `k` of a list without repeats removes exactly `s[k]` and leaves no repeats. */
  lemma PopDistinct<T>(s: seq<T>, k: nat)
    requires Distinct(s) && k < |s|
    ensures Distinct(Pop(s, k))
    ensures forall x :: x in Pop(s, k) <==> x in s && x != s[k]
  {
    var r := Pop(s, k);
    forall x | x in s && x != s[k] ensures x in r {
      var j :| 0 <= j < |s| && s[j] == x;
      if j < k {
        assert r[j] == x;
      } else {
        assert r[j - 1] == x;
      }
    }
  }

  lemma DistinctTail<T>(s: seq<T>)
    requires Distinct(s) && |s| > 0
    ensures Distinct(s[1..])
  {
    var t := s[1..];
    forall i, j | 0 <= i < j < |t| ensures t[i] != t[j] {
      assert t[i] == s[i + 1] && t[j] == s[j + 1];
    }
  }

  /** In a list without repeats every element occurs once. */
  lemma {:induction false} DistinctCounts<T>(s: seq<T>)
    requires Distinct(s)
    ensures forall x :: multiset(s)[x] == if x in s then 1 else 0
  {
    if |s| > 0 {
      var t := s[1..];
      DistinctTail(s);
      DistinctCounts(t);
      assert s == [s[0]] + t;
      assert s[0] !in t;
    }
  }

  /** Two lists without repeats holding the same elements have the same length. */
  lemma SameElementsLength<T>(a: seq<T>, b: seq<T>)
    requires Distinct(a) && Distinct(b) && forall x :: x in a <==> x in b
    ensures |a| == |b|
  {
    DistinctCounts(a);
    DistinctCounts(b);
    assert multiset(a) == multiset(b);
  }

  /** Two adjacent hidden variables can be enumerated in either order. */
  lemma EnumerateSwap(net: Network, ks: seq<Variable>, x: Variable, y: Variable, rest: seq<Variable>,
                      a: map<Variable, Value>)
    requires x != y && x in net.Vdata && y in net.Vdata
    ensures Enumerate(net, ks, [x, y] + rest, a) == Enumerate(net, ks, [y, x] + rest, a)
  {
    var xs, ys := net.Vdata[x].vals, net.Vdata[y].vals;
    var f := (v: Value, w: Value) => Enumerate(net, ks, rest, a[x := v][y := w]);
    assert ([x, y] + rest)[1..] == [y] + rest && ([y] + rest)[1..] == rest;
    assert ([y, x] + rest)[1..] == [x] + rest && ([x] + rest)[1..] == rest;
    forall v | v in xs ensures Branch(net, ks, [y] + rest, a, x)(v) == RowSums(ys, f)(v) {
      SumOverCongruent(ys, Branch(net, ks, rest, a[x := v], y), Fix1(f, v));
    }
    SumOverCongruent(xs, Branch(net, ks, [y] + rest, a, x), RowSums(ys, f));
    forall w | w in ys ensures Branch(net, ks, [x] + rest, a, y)(w) == ColumnSums(xs, f)(w) {
      forall v | v in xs ensures Branch(net, ks, rest, a[y := w], x)(v) == Fix2(f, w)(v) {
        assert a[y := w][x := v] == a[x := v][y := w];
      }
      SumOverCongruent(xs, Branch(net, ks, rest, a[y := w], x), Fix2(f, w));
    }
    SumOverCongruent(ys, Branch(net, ks, [x] + rest, a, y), ColumnSums(xs, f));
    SumOverExchange(xs, ys, f);
  }

  /** The hidden variable at position `k` can be enumerated first instead. */
  lemma {:induction false} EnumerateMoveToFront(net: Network, ks: seq<Variable>, h: seq<Variable>, k: nat,
                                                a: map<Variable, Value>)
    requires k < |h| && Distinct(h) && forall x :: x in h ==> x in net.Vdata
    ensures Enumerate(net, ks, h, a) == Enumerate(net, ks, [h[k]] + Pop(h, k), a)
    decreases k
  {
    if k == 0 {
      assert [h[0]] + Pop(h, 0) == h;
    } else {
      var h0, t := h[0], h[1..];
      var x := t[k - 1];
      var t' := [x] + Pop(t, k - 1);
      DistinctTail(h);
      forall v | v in net.Vdata[h0].vals ensures Branch(net, ks, t, a, h0)(v) == Branch(net, ks, t', a, h0)(v) {
        EnumerateMoveToFront(net, ks, t, k - 1, a[h0 := v]);
      }
      SumOverCongruent(net.Vdata[h0].vals, Branch(net, ks, t, a, h0), Branch(net, ks, t', a, h0));
      SwapShape(h, k);
      EnumerateSwap(net, ks, h0, x, Pop(t, k - 1), a);
    }
  }

  /** The lists `EnumerateMoveToFront` passes between, written out. */
  lemma SwapShape<T>(h: seq<T>, k: nat)
    requires 0 < k < |h| && Distinct(h)
    ensures var t := h[1..]; var x := t[k - 1];
      && h[0] != x && x == h[k]
      && h == [h[0]] + t
      && ([h[0]] + ([x] + Pop(t, k - 1)))[1..] == [x] + Pop(t, k - 1)
      && [h[0], x] + Pop(t, k - 1) == [h[0]] + ([x] + Pop(t, k - 1))
      && [x, h[0]] + Pop(t, k - 1) == [h[k]] + Pop(h, k)
  {
    var t := h[1..];
    var x := t[k - 1];
    assert h[0] != h[k];
    assert [x, h[0]] + Pop(t, k - 1) == [h[k]] + Pop(h, k);
  }

  /** The enumeration does not depend on the order of the hidden variables. */
  lemma {:induction false} EnumerateReorder(net: Network, ks: seq<Variable>, h1: seq<Variable>, h2: seq<Variable>,
                                            a: map<Variable, Value>)
    requires Distinct(h1) && Distinct(h2) && forall x :: x in h1 <==> x in h2
    requires forall x :: x in h1 ==> x in net.Vdata
    ensures Enumerate(net, ks, h1, a) == Enumerate(net, ks, h2, a)
    decreases |h1|
  {
    SameElementsLength(h1, h2);
    if |h1| > 0 {
      var x := h1[0];
      assert x in h2;
      var k :| 0 <= k < |h2| && h2[k] == x;
      EnumerateMoveToFront(net, ks, h2, k, a);
      var t1, t2 := h1[1..], Pop(h2, k);
      PopDistinct(h2, k);
      PopDistinct(h1, 0);
      assert Pop(h1, 0) == t1;
      forall v | v in net.Vdata[x].vals ensures Branch(net, ks, t1, a, x)(v) == Branch(net, ks, t2, a, x)(v) {
        EnumerateReorder(net, ks, t1, t2, a[x := v]);
      }
      SumOverCongruent(net.Vdata[x].vals, Branch(net, ks, t1, a, x), Branch(net, ks, t2, a, x));
      assert ([x] + t2)[1..] == t2;
    }
  }

  /**
   * Inference does not depend on the order in which `list(set(...))` gives
   * the hidden variables.
   */
  lemma InferenceHiddenOrder(net: Network, query: Variable, evidence: map<Variable, Value>,
                             h1: seq<Variable>, h2: seq<Variable>)
    requires WellFormed(net)
    requires HiddenOrder(net, query, evidence, h1) && HiddenOrder(net, query, evidence, h2)
    ensures Inference(net, query, evidence, h1) == Inference(net, query, evidence, h2)
  {
    if query in net.Vdata {
      var ks, a := Inserted([query], net.V), InitialEntries(query, net.V, evidence);
      var u1, u2 := Unnormalized(net, query, evidence, h1), Unnormalized(net, query, evidence, h2);
      assert forall x :: x in h1 <==> x in h2;
      assert forall x :: x in h1 ==> x in net.Vdata;
      forall v ensures u1(v) == u2(v) {
        EnumerateReorder(net, ks, h1, h2, a[query := v]);
      }
      InferenceCongruent(net, query, evidence, h1, h2);
    }
  }

  /** Inference only depends on the unnormalised value of each query value. */
  lemma InferenceCongruent(net: Network, query: Variable, evidence: map<Variable, Value>,
                           h1: seq<Variable>, h2: seq<Variable>)
    requires query in net.Vdata
    requires forall v :: Unnormalized(net, query, evidence, h1)(v) == Unnormalized(net, query, evidence, h2)(v)
    ensures Inference(net, query, evidence, h1) == Inference(net, query, evidence, h2)
  {
    var vals := net.Vdata[query].vals;
    var u1, u2 := Unnormalized(net, query, evidence, h1), Unnormalized(net, query, evidence, h2);
    SumOverCongruent(vals, u1, u2);
    match SumOver(vals, u1)
    case None =>
    case Some(n) =>
      if |vals| > 0 && n != 0.0 {
        SumOverDefined(vals, u1);
        assert (map v | v in vals :: u1(v).value / n) == (map v | v in vals :: u2(v).value / n);
      }
  }
}
