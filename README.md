# graphical-models in Dafny

A model of the probabilistic core of the graphical-models repository, with proofs about it:

- **Probability tables.** The `Factor` class of `inference/factor.py`: `multiply` (a natural join of two tables on their shared variables) and `sum_out` (marginalising one variable in place).
- **Exact inference by enumeration.** `inference/exact_inference.py`: the query value's unnormalised probability is the sum, over every assignment of the hidden variables, of the chain-rule product of table entries; the results are then normalised.
- **Sampling inference.** The deterministic parts of `inference/approximate_inference.py`:
  - the parent-value key;
  - the cumulative distribution and the inverse-CDF index scan;
  - rejection and likelihood-weighted samples, with the random draws passed in;
  - the tallies and the normalisation.
- **Transition learning.** `learning/mode_graph.py`: the bigram count matrix over cluster indices, and the initial and transition probabilities built from it.
- **Grid MDP.** `decision/mdp.py`:
  - clamping a move into the grid and bouncing it off obstacles;
  - the arg-max over the expected utilities;
  - value iteration over two-dimensional arrays, with its Jacobi-style sweep from a snapshot, its fixed cells and its stopping rule.

Probabilities and utilities are `real`.

Python exceptions are modelled as failure results, `None` or `ok == false`:
- `KeyError`, `ValueError` and `IndexError` from dictionary and list lookups;
- `ZeroDivisionError` from a division.

Python dictionaries and sets iterate in an order the program does not choose. That order is an input to the model:
- the key order of a dict, or the union order of a set, is a sequence parameter;
- or the loop picks the next key with `:|`.

Some results do not depend on that order, and lemmas prove it:
- `ExactInference.InferenceHiddenOrder`: the enumeration result is the same for any order of the hidden variables;
- `ExactInference.UnnormalizedKeyOrder`: it is the same for any order in which the assignment dict lists its keys. The model keeps that dict's keys in insertion order, one of the orders Python 2's hash order may give;
- `MarkovDecision.SweepsOrder`: value iteration's utilities are the same for any order of the expected-utility dict.

Other results do depend on it, as they do in the code, and the order stays an input there:
- the policy of value iteration: on a tie, `__find_dict_max` picks the first of the largest in the dict's order (lines 151-157 of `decision/mdp.py`);
- rejection sampling: the evidence loop stops at the first disagreement, so whether a sample that lacks some evidence variable raises `KeyError` depends on the order of the evidence keys (lines 37-41 of `inference/approximate_inference.py`);
- the order of the result's variables in `multiply`, which comes from `list(set(...))`.

The code implements only plain enumeration with an unguarded division by the normaliser.

Files and modules:

- `wrappers.dfy` (`Wrappers`): `Option`.
- `sums.dfy` (`Sums`): sums of real sequences, and sums over a sequence of a partial function.
- `positions.dfy` (`Positions`): `list.pop` and popping several indices from the back (`Pop`, `PopDown`).
- `network.dfy` (`Networks`): the discrete Bayesian network as a datatype, the parent-value key (the `"['v1', 'v2']"` string), table lookup and the chain-rule product.
- `factor.dfy` (`Factors`): `multiply` as a function on tables.
- `marginal.dfy` (`Marginals`): `sum_out` as a function on tables.
- `factor_object.dfy` (`FactorObjects`): the `Factor` class with its loops.
- `exact_inference.dfy` (`ExactInference`): the enumeration engine with its shared, mutated assignment dictionary.
- `approximate_inference.dfy` (`ApproximateInference`): the sampling engine.
- `mode_graph.dfy` (`ModeGraph`): transition learning.
- `mdp.dfy` (`MarkovDecision`): the MDP.

## Model

| member | source | states |
|---|---|---|
| Networks.IndexOf | inference/factor.py:49-50 | `list.index`: the first position holding the element |
| Networks.IndexOfDistinct | inference/exact_inference.py:68 | in a duplicate-free domain, `index` of the `k`-th value is `k` |
| Networks.JoinQuotedInjective | inference/exact_inference.py:77 | the quoted, comma-joined values determine the values, when no value contains a quote |
| Networks.ParentKeyInjective | inference/exact_inference.py:74-77 | two parent-value lists with the same key string are equal, when no value contains a quote |
| Networks.ParentKeyCollision | inference/exact_inference.py:77 | a value containing `', '` gives the same key as two separate values |
| Networks.ParentValues | inference/exact_inference.py:74-76 | the parents' assigned values, in the parents' order |
| Networks.RowDefined | inference/exact_inference.py:68-78 | the table row of a variable exists and matches its domain whenever its parents hold valid values |
| Networks.LookupDefined | inference/exact_inference.py:68-78 | a variable's table entry exists whenever it and its parents hold valid values |
| Networks.Times | inference/exact_inference.py:72-78 | a product of two lookups is defined exactly when both are |
| Networks.ChainProductDefined | inference/exact_inference.py:65-79 | the chain-rule product is defined iff every variable's table entry is |
| Networks.ChainProductValid | inference/exact_inference.py:65-79 | over all network variables, the chain-rule product is defined iff every variable holds a value of its domain |
| Networks.TimesSwap | inference/exact_inference.py:72-78 | two table entries multiplied into a product in either order give the same result |
| Networks.ChainProductRemove | inference/exact_inference.py:65-79 | any variable's entry can be multiplied in last |
| Networks.ChainProductPermutation | inference/exact_inference.py:65-79 | the chain-rule product over any arrangement of the same variables is the same, defined or not |
| Positions.Pop | inference/factor.py:122-123 | `list.pop(k)`: one element fewer, the ones before `k` unchanged, the ones after shifted down |
| Positions.PopDown | inference/factor.py:121-123 | popping the increasing indices from the last to the first removes one element per index |
| Positions.PopDownIsKeep | inference/factor.py:121-123 | popping from the back removes exactly the listed positions and keeps the others in order |
| Positions.PopDownSum | inference/factor.py:121-123 | the popped probabilities plus the remaining ones make up the original total |
| Factors.JoinRow | inference/factor.py:69-76 | the joined row has one value per result variable |
| Factors.JoinRows | inference/factor.py:69-78 | the rows appended for a list of matching pairs, one per pair |
| Factors.RowMatches | inference/factor.py:54-64 | the pairs found for row `i` scanning the other table pair `i` with earlier rows |
| Factors.Matches | inference/factor.py:53-64 | every pair found names a row of each table |
| Factors.Product | inference/factor.py:19-82 | `multiply` as written fails iff a scalar operand has no probability; otherwise its scope is the union order and values and probabilities have equal length |
| Factors.RowMatchesExactly | inference/factor.py:54-64 | `(i, j)` is found while scanning row `i` iff the rows agree on every shared variable |
| Factors.MatchesExactly | inference/factor.py:45-64 | a row pair produces a result row iff the two rows agree on every shared variable |
| Factors.RowMatchesCount | inference/factor.py:54-64 | a row of `self` matches at most every row of `other`, exactly every row with no shared variable |
| Factors.MatchesCount | inference/factor.py:53-79 | the result has at most `len(self.values) * len(other.values)` rows, exactly that many with no shared variable |
| Factors.JoinRowConsistent | inference/factor.py:66-78 | a joined row agrees with both source rows on their variables |
| Factors.ProductRow | inference/factor.py:53-79 | the `k`-th result row comes from an agreeing pair `(i, j)`, agrees with both rows, and has probability `p1[i]·p2[j]` |
| Factors.ProductJoin | inference/factor.py:43-79 | the general case: result rows are exactly the agreeing pairs in scan order, each consistent with both rows, with the product probability |
| Factors.RowMatchesAll | inference/factor.py:54-64 | with no shared variable, row `i` matches every row of `other`, in order |
| Factors.MatchesAll | inference/factor.py:53-64 | with no shared variable, every pair matches, in row-major order |
| Factors.ScalarProductMass | inference/factor.py:35-38 | the scalar product's mass is the scalar times the other table's mass |
| Factors.DisjointProductOuter | inference/factor.py:43-79 | with disjoint scopes, the result probabilities are the outer product of the operands' |
| Factors.Reorder | inference/factor.py:69-76 | a row rearranged into the result's variable order |
| Factors.ReorderRows | inference/factor.py:35-42 | every operand row rearranged into the result's variable order |
| Factors.AlignedProduct | inference/factor.py:19-82 | the corrected `multiply` fails exactly when the code raises |
| Factors.ScalarProductMisaligned | inference/factor.py:31-38 | the scalar branch as written copies a row in the operand's order although the result scope is in union order, so the row disagrees with its source |
| Factors.AlignedScalarProduct | inference/factor.py:35-38 | corrected scalar branch: one row per row of `other`, in order, consistent with it, probability times the scalar's |
| Factors.AlignedScalarProductRight | inference/factor.py:39-42 | the same for a scalar right operand |
| Factors.ReorderIdentity | inference/factor.py:69-76 | a row rearranged into its own variable order is unchanged |
| Factors.AlignedProductAgrees | inference/factor.py:19-82 | the corrected product equals the code's whenever neither operand is a scalar, or the result's scope lists the other operand's variables in its own order |
| Marginals.Selected | inference/factor.py:109-118 | `indices_to_remove` starts at 0, increases, and lists rows equal to row 0 once the variable is deleted |
| Marginals.SelectedExactly | inference/factor.py:111-118 | a later row joins row 0's group iff its value for the variable differs and the rest is equal |
| Marginals.SumOutRows | inference/factor.py:102-123 | the pass loop yields as many values as probabilities, at most one per input row |
| Marginals.SumOutMass | inference/factor.py:102-123 | summing out preserves the total probability mass |
| Marginals.SumOutOrigin | inference/factor.py:103-106 | every output row is an input row with the variable's position deleted |
| Marginals.SumOutCovers | inference/factor.py:102-123 | every input row, with that position deleted, appears in the output |
| Marginals.SumOutWidth | inference/factor.py:103-106 | output rows are one value shorter |
| Marginals.FirstPass | inference/factor.py:102-123 | after one pass the remaining rows are still distinct and none belongs to the group just merged |
| Marginals.SumOutDistinct | inference/factor.py:102-123 | on duplicate-free rows the output rows are duplicate-free |
| Marginals.Filtered | inference/factor.py:111-118 | the probabilities of the rows that reduce to a given key, zero elsewhere |
| Marginals.FilteredPopDown | inference/factor.py:121-123 | popping rows and then filtering is filtering and then popping |
| Marginals.GroupMassSplit | inference/factor.py:108-123 | a key's mass is the first group's sum, if it is that group's key, plus the mass left in the remaining rows |
| Marginals.SumOutMarginal | inference/factor.py:102-123 | on duplicate-free rows each output probability is the total mass of the input rows reducing to its row (a marginal) |
| Marginals.SumOutKeepsDuplicates | inference/factor.py:111-112 | two equal rows are not merged, because only rows differing in the variable join a group |
| Marginals.SumOutSingle | inference/factor.py:102-123 | a single row passes through with the variable deleted |
| Marginals.SumOut | inference/factor.py:84-127 | `sum_out` fails iff the variable is not in scope; the scope loses one variable |
| Marginals.SumOutScope | inference/factor.py:94-125 | the new scope is the old one without the variable, still duplicate-free |
| FactorObjects.RowsAgree | inference/factor.py:57-61 | `common_variable_values_equal` iff the rows agree at every pair of shared indices |
| FactorObjects.BuildRow | inference/factor.py:69-78 | the loop builds the joined row |
| FactorObjects.ReorderRow | inference/factor.py:69-76 | the loop builds a row in the result's variable order |
| FactorObjects.IndicesOf | inference/factor.py:45-50 | one index per shared variable, its first position in the scope |
| FactorObjects.JoinRowsSnoc | inference/factor.py:78 | appending a row for one more pair extends the joined rows by that row |
| FactorObjects.PairProductsSnoc | inference/factor.py:79 | appending one more product extends the product list by it |
| FactorObjects.ScaleRows | inference/factor.py:35-38 | corrected scalar branch: the other rows reordered, probabilities scaled by the scalar |
| FactorObjects.ScaleRowsRight | inference/factor.py:39-42 | the same for a scalar right operand |
| FactorObjects.JoinWithRow | inference/factor.py:54-79 | the inner loop appends the joins and products of row `i`'s matching pairs |
| FactorObjects.JoinRowsConcat | inference/factor.py:53-79 | joining a concatenation of pair lists concatenates the joined rows |
| FactorObjects.JoinRowsStep | inference/factor.py:53-79 | one outer iteration extends the joined rows to the next row of `self` |
| FactorObjects.PairProductsStep | inference/factor.py:53-79 | one outer iteration extends the products to the next row of `self` |
| FactorObjects.JoinAll | inference/factor.py:53-79 | the nested loops produce the joined rows and products of all matching pairs |
| FactorObjects.JoinStep | inference/factor.py:53-79 | one outer iteration, stated against the specification of all pairs so far |
| FactorObjects.FirstGroup | inference/factor.py:103-118 | one pass: row 0 without the variable, its group of indices, and the group's summed probability |
| FactorObjects.MergeRow | inference/factor.py:111-118 | one inner iteration extends the group and its sum by row `i` when it merges |
| FactorObjects.Factor.constructor | inference/factor.py:4-17 | the factor holds the given variables, values and probabilities |
| FactorObjects.Factor.Multiply | inference/factor.py:19-82 | returns a fresh factor holding the corrected product, or fails exactly where the code raises; the operands are unchanged |
| FactorObjects.Factor.PopRows | inference/factor.py:121-123 | popping the group's indices from the back removes exactly those rows and probabilities |
| FactorObjects.Factor.SumOutPass | inference/factor.py:102-123 | one pass emits the first output row and probability and strictly shrinks the table |
| FactorObjects.Factor.MergeGroups | inference/factor.py:102-123 | the while loop produces exactly the pass-by-pass specification's rows and probabilities |
| FactorObjects.Factor.SumOut | inference/factor.py:84-129 | succeeds iff the variable is in scope, and then holds the summed-out table; otherwise nothing changes |
| ExactInference.Inserted | inference/exact_inference.py:30-35 | the dict's keys, listed in insertion order: exactly the query and the network variables, without duplicates |
| ExactInference.InsertedSnoc | inference/exact_inference.py:31-35 | one more assignment appends the key only if it is new |
| ExactInference.InitialEntriesSnoc | inference/exact_inference.py:31-35 | one more iteration writes the evidence value or `''` |
| ExactInference.Assignments.constructor | inference/exact_inference.py:30 | the dict `{query_variable: ''}` |
| ExactInference.Assignments.Set | inference/exact_inference.py:89 | `d[x] = v` updates the entry; the key list, kept in insertion order, gains only a new key |
| ExactInference.Record | inference/exact_inference.py:38-41 | one query value stored in the table and added to the running normaliser |
| ExactInference.TabulatedStep | inference/exact_inference.py:40 | storing the next value's enumeration keeps the table consistent with the query values so far |
| ExactInference.ExactInferenceEngine.constructor | inference/exact_inference.py:2-9 | the engine holds the network |
| ExactInference.ExactInferenceEngine.TableEntry | inference/exact_inference.py:67-78 | one factor of the base case is the table lookup, failing where `index` or a key lookup raises |
| ExactInference.ExactInferenceEngine.ChainTerm | inference/exact_inference.py:65-79 | the base case is the chain-rule product over the dict's keys in order |
| ExactInference.ExactInferenceEngine.SumAndEnumerate | inference/exact_inference.py:48-92 | the recursion returns the enumeration sum and leaves every non-hidden entry as it found it |
| ExactInference.ExactInferenceEngine.AssignAndEnumerate | inference/exact_inference.py:88-90 | assigning `h := v` and recursing gives the enumeration of the rest under that assignment |
| ExactInference.ExactInferenceEngine.InitialAssignments | inference/exact_inference.py:29-35 | the query and every network variable, evidence variables holding their observed values |
| ExactInference.ExactInferenceEngine.QueryTable | inference/exact_inference.py:37-41 | each query value's enumeration stored, keys exactly the domain, normaliser their sum |
| ExactInference.ExactInferenceEngine.Normalize | inference/exact_inference.py:43-44 | every entry divided by the normaliser, failing iff there is an entry and the normaliser is 0 |
| ExactInference.ExactInferenceEngine.PerformInference | inference/exact_inference.py:11-46 | `perform_inference` returns exactly the enumeration-based specification `Inference` |
| ExactInference.EnumerateKeyOrder | inference/exact_inference.py:65-92 | any two arrangements of the dict's keys give the same enumeration, defined or not |
| ExactInference.UnnormalizedKeyOrder | inference/exact_inference.py:30-40 | in whatever order the assignment dict iterates its keys, each query value's unnormalised probability is the same |
| ExactInference.EnumerateFrame | inference/exact_inference.py:83-92 | the enumeration depends only on the entries of non-hidden variables |
| ExactInference.InferenceKeys | inference/exact_inference.py:38-40 | the result's keys are exactly the query's domain values |
| ExactInference.InferenceNormalized | inference/exact_inference.py:41-44 | the normalised values sum to 1 |
| ExactInference.EnumerateSwap | inference/exact_inference.py:83-92 | swapping the first two hidden variables does not change the sum |
| ExactInference.EnumerateMoveToFront | inference/exact_inference.py:83-92 | moving any hidden variable to the front does not change the sum |
| ExactInference.EnumerateReorder | inference/exact_inference.py:83-92 | any two orders of the same hidden variables give the same sum |
| ExactInference.InferenceHiddenOrder | inference/exact_inference.py:24-26 | the result does not depend on the order the set gives the hidden variables |
| ExactInference.InferenceCongruent | inference/exact_inference.py:38-44 | equal unnormalised values give equal results |
| ApproximateInference.ParentKeyOf | inference/approximate_inference.py:176-198 | `None` for a parentless variable, the key string when every parent is assigned, failure otherwise |
| ApproximateInference.TableRowIsRow | inference/approximate_inference.py:101-108 | the row the sampler reads is the network's table row |
| ApproximateInference.Cumulative | inference/approximate_inference.py:100-108 | starts at 0, one entry more than the row, entry `k+1` is entry `k` plus the `k`-th probability |
| ApproximateInference.CumulativeTotal | inference/approximate_inference.py:100-108 | the last cumulative entry is the row's total |
| ApproximateInference.CumulativeMonotone | inference/approximate_inference.py:100-108 | for non-negative rows the cumulative array never decreases |
| ApproximateInference.StopAt | inference/approximate_inference.py:110-115 | the while loop stops at the first entry at least the draw, or at the end |
| ApproximateInference.Select | inference/approximate_inference.py:110-117 | the chosen index is below the array length, the draw exceeds every entry up to it, and is at most the next entry |
| ApproximateInference.SelectInRow | inference/approximate_inference.py:110-118 | for a draw at most the total, the index is a value of the row and the draw falls in its interval |
| ApproximateInference.SampleValueValid | inference/approximate_inference.py:96-118 | with valid parents and a draw below 1, the drawn value exists and is in the domain |
| ApproximateInference.RsSampleValid | inference/approximate_inference.py:83-120 | a rejection sample assigns every variable a value of its domain |
| ApproximateInference.RsSampleNext | inference/approximate_inference.py:96-118 | one more loop iteration keeps the sample valid on the variables so far |
| ApproximateInference.ParentsValid | inference/approximate_inference.py:98 | in topological order the parents are already assigned valid values |
| ApproximateInference.ValidOnSnoc | inference/approximate_inference.py:118 | assigning the next variable a domain value keeps the prefix valid |
| ApproximateInference.EvidenceEntryIsLookup | inference/approximate_inference.py:147-152 | the weight factor is the network's table entry at the observed value |
| ApproximateInference.LwSampleUnfold | inference/approximate_inference.py:142-172 | a weighted sample of `n` variables is one more step from that of `n-1` |
| ApproximateInference.EvidenceIn | inference/approximate_inference.py:136 | the variables that are evidence |
| ApproximateInference.LwSampleEvidence | inference/approximate_inference.py:133-152 | evidence variables keep their observed values and are never resampled |
| ApproximateInference.LwSampleAt | inference/approximate_inference.py:133-152 | each network variable is assigned, evidence ones at their observation |
| ApproximateInference.LwSampleValid | inference/approximate_inference.py:122-174 | a weighted sample assigns valid values to every variable |
| ApproximateInference.LwSampleValidNext | inference/approximate_inference.py:142-172 | one more iteration keeps validity |
| ApproximateInference.LookupFrame | inference/approximate_inference.py:144-152 | a table entry depends only on the variable's and its parents' values |
| ApproximateInference.ChainProductFrame | inference/approximate_inference.py:141-152 | a product of entries is unchanged when each entry is |
| ApproximateInference.LwWeightIsLikelihood | inference/approximate_inference.py:141-152 | the weight is the product of the evidence variables' table entries at their observations |
| ApproximateInference.LwWeight | inference/approximate_inference.py:141-152 | the same, for the first `n` variables |
| ApproximateInference.LwWeightNext | inference/approximate_inference.py:142-172 | one more iteration keeps the weight equal to that product |
| ApproximateInference.LwEvidenceCase | inference/approximate_inference.py:147-152 | an evidence variable multiplies the weight by its entry |
| ApproximateInference.LwDrawCase | inference/approximate_inference.py:153-172 | a drawn variable leaves the weight unchanged |
| ApproximateInference.EarlierUnaffected | inference/approximate_inference.py:142-144 | in topological order no earlier variable has the current one as a parent |
| ApproximateInference.LwEvidenceWeight | inference/approximate_inference.py:150-152 | multiplying by the evidence entry extends the product |
| ApproximateInference.LwDrawWeight | inference/approximate_inference.py:172 | assigning a non-evidence variable leaves the evidence product unchanged |
| ApproximateInference.LwDrawStep | inference/approximate_inference.py:153-172 | a non-evidence step assigns the drawn value and keeps the weight |
| ApproximateInference.ChainProductExtend | inference/approximate_inference.py:150-152 | the product over one more variable is the old product times its entry |
| ApproximateInference.LwEvidenceStep | inference/approximate_inference.py:147-152 | an evidence step keeps the assignment and multiplies the weight by the entry |
| ApproximateInference.Collect | inference/approximate_inference.py:35-36 | all samples, defined iff every sample is |
| ApproximateInference.RsOutcomes | inference/approximate_inference.py:35-36 | the `k`-th sample is generated from the `k`-th draw vector |
| ApproximateInference.LwOutcomes | inference/approximate_inference.py:70-71 | the `k`-th weighted sample is generated from the `k`-th draw vector |
| ApproximateInference.Supports | inference/approximate_inference.py:37-41 | a sample supports the evidence iff it agrees on every evidence key; the check fails only on a missing key |
| ApproximateInference.AcceptedWith | inference/approximate_inference.py:43-45 | the count for one query value never exceeds the accepted count |
| ApproximateInference.RsCounts | inference/approximate_inference.py:43-45 | the bucket of each value counts the accepted samples with that query value |
| ApproximateInference.RsEstimates | inference/approximate_inference.py:47-49 | each value's estimate |
| ApproximateInference.Indicator | inference/approximate_inference.py:45 | the increment of one bucket |
| ApproximateInference.SumIndicator | inference/approximate_inference.py:45 | an increment adds 1 to the total iff the value is a bucket |
| ApproximateInference.RsCountsTotal | inference/approximate_inference.py:35-45 | the buckets sum to the number of samples agreeing with all evidence |
| ApproximateInference.RsCountsAccepted | inference/approximate_inference.py:43-45 | an accepted sample increments exactly its query value's bucket |
| ApproximateInference.RsCountsRejected | inference/approximate_inference.py:37-45 | a rejected sample changes no bucket |
| ApproximateInference.RsSumsToOne | inference/approximate_inference.py:47-49 | after division by a positive counter, the estimates sum to 1 |
| ApproximateInference.RsEstimateBounds | inference/approximate_inference.py:47-49 | every estimate lies in [0, 1] |
| ApproximateInference.LwTotals | inference/approximate_inference.py:70-72 | each bucket is the total weight of the samples with that query value |
| ApproximateInference.LwEstimates | inference/approximate_inference.py:78-80 | each value's estimate |
| ApproximateInference.LwTotalsSum | inference/approximate_inference.py:70-76 | the buckets sum to the total weight |
| ApproximateInference.LwTotalsStep | inference/approximate_inference.py:72 | a sample adds its weight to exactly its query value's bucket |
| ApproximateInference.LwSumsToOne | inference/approximate_inference.py:74-80 | after division by a normaliser above 1e-10, the estimates sum to 1 |
| ApproximateInference.Entries | inference/approximate_inference.py:75-76 | the table's entries in a given key order |
| ApproximateInference.RsSampleRaises | inference/approximate_inference.py:36 | a failing sample makes the whole inference fail |
| ApproximateInference.LwSampleRaises | inference/approximate_inference.py:71 | the same for likelihood weighting |
| ApproximateInference.RsRaisesFails | inference/approximate_inference.py:38-45 | a sample that makes the tally raise makes the inference fail |
| ApproximateInference.LwRaisesFails | inference/approximate_inference.py:72 | the same for likelihood weighting |
| ApproximateInference.LwNormaliser | inference/approximate_inference.py:74-76 | in any key order, the normaliser is the total weight |
| ApproximateInference.RsAllSamples | inference/approximate_inference.py:35-50 | after all samples the table is the specification's estimate map |
| ApproximateInference.LwAllSamples | inference/approximate_inference.py:70-81 | the same for likelihood weighting |
| ApproximateInference.RsInferenceDefined | inference/approximate_inference.py:16-50 | on a well-formed network in topological order with normalised tables, the query and every evidence variable in the network, and one draw below 1 per variable per sample, rejection sampling never raises |
| ApproximateInference.RsInferenceSumsToOne | inference/approximate_inference.py:47-50 | when some sample is accepted, the result sums to 1 over the domain |
| ApproximateInference.RsInferenceBounds | inference/approximate_inference.py:47-50 | when some sample is accepted, every result value lies in [0, 1] |
| ApproximateInference.LwInferenceDefined | inference/approximate_inference.py:52-81 | on a well-formed network in topological order with normalised tables, the query in the network, every observed value of a network variable in that variable's domain, and one draw below 1 per variable per sample, likelihood weighting never raises |
| ApproximateInference.LwInferenceSumsToOne | inference/approximate_inference.py:74-80 | when the total weight exceeds 1e-10, the result sums to 1 over the domain |
| ApproximateInference.RsSampleFails | inference/approximate_inference.py:96-118 | once a rejection sample fails it stays failed |
| ApproximateInference.LwSampleFails | inference/approximate_inference.py:142-172 | once a weighted sample fails it stays failed |
| ApproximateInference.ApproximateInferenceEngine.constructor | inference/approximate_inference.py:4-14 | the engine holds the network |
| ApproximateInference.ApproximateInferenceEngine.GetParentValues | inference/approximate_inference.py:176-198 | the loop builds the parent key of `ParentKeyOf` |
| ApproximateInference.ApproximateInferenceEngine.CumulativeDistribution | inference/approximate_inference.py:100-108 | the appending loop builds `Cumulative` |
| ApproximateInference.ApproximateInferenceEngine.SelectIndex | inference/approximate_inference.py:110-117 | the while loop and the decrement give `Select` |
| ApproximateInference.ApproximateInferenceEngine.DrawValue | inference/approximate_inference.py:97-118 | the value drawn for a variable, failing where the code raises |
| ApproximateInference.ApproximateInferenceEngine.GenerateRsSample | inference/approximate_inference.py:83-120 | `generate_rs_sample` computes the specification `RsSample` |
| ApproximateInference.ApproximateInferenceEngine.EvidenceWeight | inference/approximate_inference.py:147-152 | the table entry at the observed value |
| ApproximateInference.ApproximateInferenceEngine.ClampEvidence | inference/approximate_inference.py:133-139 | evidence variables set to their observations, the others to `''` |
| ApproximateInference.ApproximateInferenceEngine.WeighOrDraw | inference/approximate_inference.py:142-172 | one iteration of the weighting loop is `LwStep` |
| ApproximateInference.ApproximateInferenceEngine.GenerateLwSample | inference/approximate_inference.py:122-174 | `generate_lw_sample` computes the specification `LwSample` |
| ApproximateInference.ApproximateInferenceEngine.SupportsEvidence | inference/approximate_inference.py:37-41 | the early-exit loop computes `Supports` |
| ApproximateInference.ApproximateInferenceEngine.ZeroDistribution | inference/approximate_inference.py:29-33 | the keys are exactly the query's domain, each mapped to 0 |
| ApproximateInference.ApproximateInferenceEngine.DivideAll | inference/approximate_inference.py:47-49 | same keys, every entry divided by the constant, in any key order |
| ApproximateInference.ApproximateInferenceEngine.RsTally | inference/approximate_inference.py:37-45 | a sample is tallied (counter and bucket) unless it makes the code raise |
| ApproximateInference.ApproximateInferenceEngine.LwTally | inference/approximate_inference.py:72 | a weighted sample is tallied unless it makes the code raise |
| ApproximateInference.ApproximateInferenceEngine.Normaliser | inference/approximate_inference.py:74-76 | the normaliser is the sum of the entries in the order visited |
| ApproximateInference.ApproximateInferenceEngine.RsRound | inference/approximate_inference.py:35-45 | one sampling round keeps the tallies equal to their specification, or the inference fails |
| ApproximateInference.ApproximateInferenceEngine.PerformRsInference | inference/approximate_inference.py:16-50 | `perform_rs_inference` returns exactly the specification `RsInference` |
| ApproximateInference.ApproximateInferenceEngine.LwRound | inference/approximate_inference.py:70-72 | one weighting round keeps the tallies equal to their specification, or the inference fails |
| ApproximateInference.ApproximateInferenceEngine.PerformLwInference | inference/approximate_inference.py:52-81 | `perform_lw_inference` returns exactly the specification `LwInference` |
| ModeGraph.Occurrences | learning/mode_graph.py:71 | a cluster's vector count is at most the number of vectors |
| ModeGraph.TransitionsSnoc | learning/mode_graph.py:109-112 | one more loop iteration increments exactly the cell of the next pair |
| ModeGraph.InRangeSnoc | learning/mode_graph.py:110-112 | indices below `number_of_means` stay in range as the scan grows |
| ModeGraph.Histogram | learning/mode_graph.py:70-71 | the cluster sizes, one per cluster |
| ModeGraph.SumHistogram | learning/mode_graph.py:68-72 | the cluster sizes add up to the number of vectors |
| ModeGraph.TransitionsAreSuccessors | learning/mode_graph.py:109-112 | `counts[a][b]` is the number of successors of cluster `a`'s vectors that lie in `b` |
| ModeGraph.OccurrencesConcat | learning/mode_graph.py:109-112 | counts over concatenated scans add |
| ModeGraph.SuccessorCount | learning/mode_graph.py:77-80 | cluster `a` has exactly as many successors as the denominator (its size, less one if it holds the last vector) |
| ModeGraph.TransitionRow | learning/mode_graph.py:82-83 | row `a` of the count matrix |
| ModeGraph.RowTotal | learning/mode_graph.py:76-83 | row `a` of the counts sums to the denominator of row `a` |
| ModeGraph.SuccessorsInRange | learning/mode_graph.py:109-112 | successor indices are valid cluster indices |
| ModeGraph.SumSuccessorCounts | learning/mode_graph.py:109-112 | every vector but the last is a successor's predecessor once |
| ModeGraph.CountTotal | learning/mode_graph.py:109-112 | for `n >= 1` vectors the counts add up to `n - 1` |
| ModeGraph.NumpyDivide | learning/mode_graph.py:83 | numpy float division: the quotient, NaN for 0/0, infinity for a positive number over 0 |
| ModeGraph.TransitionRowSumsToOne | learning/mode_graph.py:76-83 | with a nonzero denominator every transition probability is finite and the row sums to 1 |
| ModeGraph.ZeroDenominatorRow | learning/mode_graph.py:79-83 | with a zero denominator, which is not guarded, the row is NaN |
| ModeGraph.LastOnlyCluster | learning/mode_graph.py:77-83 | a cluster holding only the last vector has denominator 0 |
| ModeGraph.InitialSumsToOne | learning/mode_graph.py:68-72 | the initial probabilities are the clusters' shares and sum to 1 |
| ModeGraph.CountTransitions | learning/mode_graph.py:106-113 | `counts[a][b]` is the number of `i` with `idx[i] = a` and `idx[i+1] = b`; fails iff an index of a counted pair is out of range |
| ModeGraph.LearnTransitionModel | learning/mode_graph.py:66-85 | the initial and transition arrays hold the shares and the count ratios; fails iff there are no vectors and some cluster |
| MarkovDecision.Clamp | decision/mdp.py:122-131 | the index lands in `[0, n-1]`, unchanged if already there |
| MarkovDecision.CorrectStateIndicesAsWritten | decision/mdp.py:107-138 | as written: in the grid when the clamped cell is free; an in-grid obstacle target goes back to the start |
| MarkovDecision.BounceLeavesGrid | decision/mdp.py:133-136 | as written, bouncing off an obstacle reached after clamping can leave the grid |
| MarkovDecision.BounceMovesElsewhere | decision/mdp.py:133-136 | as written, the bounce can land on a cell that is neither the start nor the target |
| MarkovDecision.CorrectStateIndices | decision/mdp.py:107-138 | corrected: a free clamped cell is the result; an obstacle sends the move back to its start, which is a free cell of the grid |
| MarkovDecision.CorrectionsAgree | decision/mdp.py:122-136 | the corrected and written versions agree on every in-grid target and every unit axis move |
| MarkovDecision.ArgMax | decision/mdp.py:154-155 | `numpy.argmax`: the first index of a largest value |
| MarkovDecision.FindDictMax | decision/mdp.py:140-158 | fails iff the dict is empty; otherwise a key together with its value, which is at least every value |
| MarkovDecision.Target | decision/mdp.py:84-86 | every outcome's cell, with the corrected bounce, is in the grid |
| MarkovDecision.TargetAsWritten | decision/mdp.py:84-86 | that cell is the one the code as written reads whenever the move stays in the grid or is a one-step axis move |
| MarkovDecision.ActionValues | decision/mdp.py:80-89 | one expected utility per action, computed from the snapshot at the corrected cells |
| MarkovDecision.BackupIsMax | decision/mdp.py:80-95 | the new utility is reward plus discount times the best action's expected utility, and that action's expected utility is at least every action's |
| MarkovDecision.Sweep | decision/mdp.py:60-96 | every cell is updated from the previous snapshot (Jacobi), moves using the corrected bounce |
| MarkovDecision.BackupOrder | decision/mdp.py:80-95 | a cell's next utility is the same for any order of the expected-utility dict, though a tie may pick another action |
| MarkovDecision.SweepOrder | decision/mdp.py:60-96 | a sweep's utilities are the same for any order of the expected-utility dict |
| MarkovDecision.SweepsOrder | decision/mdp.py:55-103 | the utilities after any number of sweeps are the same for any order of the expected-utility dict |
| MarkovDecision.FixedCellsKept | decision/mdp.py:39-77 | after any number of sweeps, terminal states hold their utility and obstacles their initial utility |
| MarkovDecision.GridChange | decision/mdp.py:61-100 | `maximum_change` is never negative |
| MarkovDecision.RowChangeBounds | decision/mdp.py:98-100 | the running maximum bounds every updated cell visited so far and is 0 or one of their changes |
| MarkovDecision.GridChangeBounds | decision/mdp.py:98-100 | `maximum_change` bounds every updated cell's change and is 0 or one of them |
| MarkovDecision.GridChangeExceeds | decision/mdp.py:98-103 | another sweep follows iff some updated cell changed by more than the bound, or the bound is negative |
| MarkovDecision.Truncate | decision/mdp.py:42 | a numpy `S10` entry keeps at most the first ten characters |
| MarkovDecision.SweepPolicy | decision/mdp.py:96 | each policy entry is that cell's arg-max action, `'x'` on fixed cells |
| MarkovDecision.PolicyAfterFixed | decision/mdp.py:45-77 | terminal and obstacle cells hold `'x'` in every policy value iteration produces |
| MarkovDecision.HistoryStep | decision/mdp.py:57-103 | one more sweep extends the loop's history by the stopping test on that sweep |
| MarkovDecision.HistoryDone | decision/mdp.py:57 | when the loop exits, the number of sweeps is the one the stopping rule gives |
| MarkovDecision.SweepCountUnique | decision/mdp.py:55-103 | the stopping rule fixes the number of sweeps uniquely |
| MarkovDecision.Contents | decision/mdp.py:41-42 | the array's cells as a grid |
| MarkovDecision.SweepIsSweptTo | decision/mdp.py:60-96 | the sweep's utilities and policy satisfy the per-row description the loops use |
| MarkovDecision.Mdp.constructor | decision/mdp.py:4-22 | the process and its `rows`/`columns` |
| MarkovDecision.Mdp.ExpectedUtilityOf | decision/mdp.py:82-87 | the accumulating loop computes one action's expected utility from the snapshot at the corrected cells |
| MarkovDecision.Mdp.ActionUtilities | decision/mdp.py:80-89 | the loop over actions computes every expected utility |
| MarkovDecision.Mdp.MaximisingAction | decision/mdp.py:80-92 | the action and utility `__find_dict_max` returns for those values |
| MarkovDecision.Mdp.UpdateCell | decision/mdp.py:80-96 | a free cell gets its backed-up utility and action; no other cell changes |
| MarkovDecision.Mdp.SweepRow | decision/mdp.py:63-100 | row `i` gets its swept values and policy, other rows unchanged, running maximum extended over the row |
| MarkovDecision.Mdp.SweepRows | decision/mdp.py:60-100 | the nested loops write the whole sweep and return `maximum_change` |
| MarkovDecision.Mdp.SweepGrid | decision/mdp.py:57-100 | the arrays become `Sweep`/`SweepPolicy` of their old contents, with the matching `maximum_change` |
| MarkovDecision.Mdp.Sweeping | decision/mdp.py:56-102 | the `k+1`-th sweep, stated against the iterated specification |
| MarkovDecision.Mdp.Initialise | decision/mdp.py:39-53 | fresh arrays holding the initial utilities, terminal values written in, and the initial policy |
| MarkovDecision.Mdp.WriteTerminals | decision/mdp.py:44-47 | every terminal state gets its utility and `'x'`, nothing else changes |
| MarkovDecision.Mdp.MarkObstacles | decision/mdp.py:49-53 | `'x'` on every obstacle, giving the initial policy |
| MarkovDecision.Mdp.ValueIteration | decision/mdp.py:24-105 | fails iff a sweep happens with discount 0; otherwise the sweep count is the stopping rule's (at most `max_iterations`, at least 1 when `max_iterations >= 1`), and the arrays hold that many sweeps' utilities and policy, moves using the corrected bounce |

## Left out

- Randomness. The draws of `numpy.random.rand` are parameters, one vector of draws per sample. Sampling distributions and convergence are not modelled.
- Floating point. Probabilities and utilities are exact reals:
  - the thresholds `1e-10` and `change_tolerance` are real constants;
  - IEEE rounding is not modelled;
  - NaN and infinity appear only in `ModeGraph.NumpyDivide`, numpy's division by zero at line 83 of `learning/mode_graph.py`.
- Dictionary and set order. Python 2 iteration order is an input, given as a sequence parameter or a `:|` choice. The exception is the assignment dict of exact inference, whose keys are listed in insertion order; `ExactInference.UnnormalizedKeyOrder` shows that any other order gives the same result. The policy's tie-break and rejection sampling's `KeyError` on a missing evidence variable depend on the order, in the model as in the code.
- The libpgm network object:
  - it is a datatype of variables, domains, parents and tables;
  - `toporder()` is replaced by the assumption that `V` is topologically ordered;
  - loading networks from files is not modelled.
- Fuzzy c-means `cluster_data` and `learn_observation_model` (floating-point numerics with norms and powers). The argmax cluster indices are an input to `ModeGraph.LearnTransitionModel`.
- Test and demo scripts, printing, plotting and file I/O.
- Aliasing. Factor fields are sequences, so two effects are not modelled:
  - the constructor's shared mutable default lists;
  - `self.variables.pop` changing a list the caller still holds.
- MarkovDecision.Process: `WellFormed` excludes the inputs below, so the model does not describe what the code does with them. Except where a line says otherwise, each makes the code raise, or read a wrapped cell where the line says so, once a sweep reaches a free, non-terminal cell that uses it (a bad terminal key already at initialisation):
  - a grid with no rows or no columns. A `world` of `[]` already raises in the constructor (see `Mdp.constructor`). A `world` such as `[[]]` gets through, and its sweeps visit no cell, so `maximum_change` stays 0 and line 102 alone decides whether another sweep follows. The code then stops after one sweep when `change_tolerance * (1 - discount) / discount >= 0`, sweeps `max_iterations` times when that bound is negative, and raises `ZeroDivisionError` when `discount` is 0;
  - an MDP with no action. Its empty expected-utility dict makes `numpy.max` raise. A grid whose every cell is an obstacle or a terminal never builds that dict, so the code runs the empty-grid stopping rule above: it returns normally for a nonzero discount and raises `ZeroDivisionError` for a zero one;
  - a terminal key outside the grid, which numpy wraps (negative index) or rejects with `IndexError`;
  - an action with no entry in `transition_function` (`KeyError` at line 83 of `decision/mdp.py`);
  - an outcome that is not a key of `actions` (`KeyError` at line 84);
  - a `rewards` array of another shape than `world`, which raises `IndexError` at line 95 or, for negative or wrapped indices, reads another cell.
- Mdp.constructor: returns normally for every `Process`, taking `columns` as 0 for a `world` of `[]` and as the first row's width for a ragged one. It does not model the `IndexError` that line 22 of `decision/mdp.py` raises for a `world` that is not a 2-D array (`[]`, or a ragged list of rows, which `numpy.array` makes one-dimensional). `WellFormed`, which every later method requires, excludes both.
- Factor.Multiply: returns `Factors.AlignedProduct`, which rearranges the copied rows of the scalar branches into the result's variable order. `Factors.AlignedProductAgrees` proves it equals the product of lines 19-82 whenever neither operand is a scalar, or `scope` lists the other operand's variables in that operand's order; otherwise the code's rows disagree with the result's scope (`Factors.ScalarProductMisaligned`).
- ScaleRows: rearranges the rows of `other`, so it agrees with lines 35-38 only where `Factors.AlignedProductAgrees` applies: `scope` lists the variables of `other` in their own order.
- ScaleRowsRight: rearranges the rows of `self`, so it agrees with lines 39-42 only where `Factors.AlignedProductAgrees` applies: `scope` lists the variables of `self` in their own order.
- Target: uses the corrected bounce of `MarkovDecision.CorrectStateIndices`, not the bounce as written at lines 133-136 of `decision/mdp.py`. `MarkovDecision.TargetAsWritten` proves the two read the same cell whenever the move stays in the grid or is a one-step move along a row or a column. For other moves the code reads another cell, a wrapped cell or raises `IndexError`; the model does not describe that. The same holds for every member built on `Target`: `Mdp.ActionUtilities`, `Mdp.MaximisingAction`, `Mdp.UpdateCell`, `Mdp.SweepRow`, `Mdp.SweepRows`, `Mdp.SweepGrid` and `Mdp.Sweeping`.
- ActionValues: reads the snapshot at the cells of `Target`, so it agrees with lines 80-89 only where `MarkovDecision.TargetAsWritten` applies.
- Sweep: built on `ActionValues`, so it agrees with lines 60-96 only where `MarkovDecision.TargetAsWritten` applies.
- Mdp.ExpectedUtilityOf: reads the cells of `Target`, so it agrees with lines 82-87 only where `MarkovDecision.TargetAsWritten` applies.
- Mdp.ValueIteration:
  - its sweeps use the corrected bounce, so the arrays it promises agree with the code only where `MarkovDecision.TargetAsWritten` applies (for example, a grid world whose actions are one-step axis moves);
  - integer-typed initial utility arrays and the array comparison `initial_utilities == None` are not modelled;
  - the cells of `numpy.empty` that are never written are modelled as `""`;
  - on a zero discount it reports failure without describing the arrays at the moment the division raises.
- MarkovDecision.Truncate: counts characters, where numpy's `S10` counts bytes.
- ModeGraph.LearnTransitionModel: requires every index below `number_of_means`. `numpy.argmax` over `number_of_means` columns guarantees this.

## Findings

| source | as written | input that shows it | evidently intended | confidence | as-written member | corrected member |
|---|---|---|---|---|---|---|
| inference/factor.py:31-42 | when one operand has no variables, the other operand's rows are copied in their own variable order, but the result's scope is `list(set(...))` in an arbitrary order | scalar `Table([], [[]], [0.5])` times `Table(["A", "B"], [["a1", "b1"]], [1.0])` with the union ordered `["B", "A"]` gives the row `["a1", "b1"]` under `["B", "A"]` | each copied row rearranged into the result's variable order | not executed | Factors.ScalarProductMisaligned | Factors.AlignedScalarProduct |
| decision/mdp.py:133-136 | on an obstacle, the update is subtracted from the clamped indices, not from the target | world `[[False, True]]`, start (0, 0) with move (1, 1): the target (1, 1) clamps to the obstacle (0, 1) and bounces to (-1, 0), outside the grid | the move is undone and the state returns to its start cell | not executed | MarkovDecision.BounceLeavesGrid | MarkovDecision.CorrectStateIndices |
