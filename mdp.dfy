/**
 * decision/mdp.py: value iteration on a grid world. Cells are
 * `(row, column)` pairs; an action moves by a `(row, column)` offset; the
 * transition function lists, for each action, the actions whose moves may
 * actually happen and their probabilities, in the dict's iteration order.
 */
module MarkovDecision {
  import opened Wrappers
  import Networks

  type Action = string

  datatype Process = Process(
    world: seq<seq<bool>>,
    actions: map<Action, (int, int)>,
    transitions: map<Action, seq<(Action, real)>>,
    rewards: seq<seq<real>>,
    terminals: map<(int, int), real>)

  predicate Shaped<T>(g: seq<seq<T>>, rows: nat, columns: nat)
  {
    |g| == rows && forall i :: 0 <= i < rows ==> |g[i]| == columns
  }

  /** `world.shape[0]`. */
  function Rows(p: Process): nat
  {
    |p.world|
  }

  /** `world.shape[1]`. */
  function Columns(p: Process): nat
  {
    if |p.world| == 0 then 0 else |p.world[0]|
  }

  predicate InGrid(p: Process, row: int, column: int)
  {
    0 <= row < Rows(p) && 0 <= column < Columns(p)
  }

  /**
   * What value iteration relies on: a non-empty rectangular grid with
   * rewards of the same shape, at least one action, a transition entry for
   * every action whose outcomes are actions, and terminal cells in the grid.
   */
  predicate WellFormed(p: Process)
  {
    && Rows(p) > 0 && Columns(p) > 0
    && Shaped(p.world, Rows(p), Columns(p)) && Shaped(p.rewards, Rows(p), Columns(p))
    && |p.actions| > 0
    && (forall a :: a in p.actions ==> a in p.transitions)
    && (forall a, k :: a in p.transitions && 0 <= k < |p.transitions[a]| ==> p.transitions[a][k].0 in p.actions)
    && (forall c :: c in p.terminals ==> InGrid(p, c.0, c.1))
  }

  /** `order` is the order in which the dict of expected utilities lists the actions. */
  ghost predicate KeyOrder(p: Process, order: seq<Action>)
  {
    Networks.Distinct(order) && forall a :: a in order <==> a in p.actions
  }

  // ---------------------------------------------------------------------------
  // __correct_state_indices
  // ---------------------------------------------------------------------------

  /** Lines 122-131: an index moved back into `[0, n - 1]`. */
  function Clamp(x: int, n: nat): (r: int)
    requires n > 0
    ensures 0 <= r < n && (0 <= x < n ==> r == x)
  {
    if x < 0 then 0 else if x >= n then n - 1 else x
  }

  /**
   * `__correct_state_indices` as written: the target is clamped into the
   * grid and, if the clamped cell is an obstacle, the update is subtracted
   * from the CLAMPED indices.
   */
  function CorrectStateIndicesAsWritten(p: Process, row: int, column: int, rowUpdate: int, columnUpdate: int)
    : (r: (int, int))
    requires WellFormed(p)
    ensures !p.world[Clamp(row, Rows(p))][Clamp(column, Columns(p))] ==> InGrid(p, r.0, r.1)
    ensures InGrid(p, row, column) && p.world[row][column] ==> r == (row - rowUpdate, column - columnUpdate)
  {
    var r := Clamp(row, Rows(p));
    var c := Clamp(column, Columns(p));
    if p.world[r][c] then (r - rowUpdate, c - columnUpdate) else (r, c)
  }

  /**
   * A diagonal move off the edge of a one-row grid into an obstacle: the
   * corrected indices `(-1, 0)` lie outside the grid, not at the start `(0, 0)`.
   */
  lemma BounceLeavesGrid()
    ensures var p := Process([[false, true]], map["d" := (1, 1)], map["d" := []], [[0.0, 0.0]], map[]);
      WellFormed(p) && CorrectStateIndicesAsWritten(p, 1, 1, 1, 1) == (-1, 0) && !InGrid(p, -1, 0)
  {
  }

  /**
   * The same move from `(0, 0)` up and right in a 2x2 grid whose cell
   * `(0, 1)` is an obstacle lands on `(1, 0)`, a cell the move never aimed at.
   */
  lemma BounceMovesElsewhere()
    ensures var p := Process([[false, true], [false, false]], map["d" := (-1, 1)], map["d" := []],
                             [[0.0, 0.0], [0.0, 0.0]], map[]);
      WellFormed(p) && CorrectStateIndicesAsWritten(p, -1, 1, -1, 1) == (1, 0)
  {
  }

  /**
   * `__correct_state_indices` as its comment intends: the clamped target,
   * or the starting cell `(row - rowUpdate, column - columnUpdate)` when the
   * clamped target is an obstacle.
   */
  function CorrectStateIndices(p: Process, row: int, column: int, rowUpdate: int, columnUpdate: int)
    : (r: (int, int))
    requires WellFormed(p)
    ensures InGrid(p, row - rowUpdate, column - columnUpdate) && !p.world[row - rowUpdate][column - columnUpdate] ==>
      InGrid(p, r.0, r.1) && !p.world[r.0][r.1]
    ensures !p.world[Clamp(row, Rows(p))][Clamp(column, Columns(p))] ==>
      r == (Clamp(row, Rows(p)), Clamp(column, Columns(p)))
    ensures p.world[Clamp(row, Rows(p))][Clamp(column, Columns(p))] ==> r == (row - rowUpdate, column - columnUpdate)
  {
    var r := Clamp(row, Rows(p));
    var c := Clamp(column, Columns(p));
    if p.world[r][c] then (row - rowUpdate, column - columnUpdate) else (r, c)
  }

  /**
   * From a free cell, the code as written and the corrected version agree
   * whenever the target is in the grid, and for every one-step move along a
   * row or a column (the moves of the four-direction grid world).
   */
  lemma CorrectionsAgree(p: Process, row: int, column: int, rowUpdate: int, columnUpdate: int)
    requires WellFormed(p)
    requires InGrid(p, row - rowUpdate, column - columnUpdate) && !p.world[row - rowUpdate][column - columnUpdate]
    requires InGrid(p, row, column) || (-1 <= rowUpdate <= 1 && -1 <= columnUpdate <= 1 && (rowUpdate == 0 || columnUpdate == 0))
    ensures CorrectStateIndicesAsWritten(p, row, column, rowUpdate, columnUpdate) ==
      CorrectStateIndices(p, row, column, rowUpdate, columnUpdate)
  {
    if !InGrid(p, row, column) {
      assert (Clamp(row, Rows(p)), Clamp(column, Columns(p))) == (row - rowUpdate, column - columnUpdate);
    }
  }

  // ---------------------------------------------------------------------------
  // __find_dict_max
  // ---------------------------------------------------------------------------

  /** `numpy.argmax`: the first position of the largest value. */
  function ArgMax(values: seq<real>): (k: nat)
    requires |values| > 0
    ensures k < |values|
    ensures forall i :: 0 <= i < |values| ==> values[i] <= values[k]
    ensures forall i :: 0 <= i < k ==> values[i] < values[k]
  {
    if |values| == 1 then 0
    else
      var k := ArgMax(values[..|values| - 1]);
      if values[|values| - 1] > values[k] then |values| - 1 else k
  }

  /**
   * `__find_dict_max` for a dict listing `keys` with `values`: a key of the
   * largest value, the first in the dict's order, and that value. None where
   * `numpy.max` raises on an empty dict.
   */
  function FindDictMax(keys: seq<Action>, values: seq<real>): (r: Option<(Action, real)>)
    requires |keys| == |values|
    ensures r.None? <==> |keys| == 0
    ensures r.Some? ==> exists k :: 0 <= k < |keys| && keys[k] == r.value.0 && values[k] == r.value.1
    ensures r.Some? ==> forall k :: 0 <= k < |values| ==> values[k] <= r.value.1
  {
    if |values| == 0 then None
    else
      var k := ArgMax(values);
      Some((keys[k], values[k]))
  }

  // ---------------------------------------------------------------------------
  // One sweep of value_iteration
  // ---------------------------------------------------------------------------

  /** Obstacles and terminal states are never updated (lines 66-77). */
  predicate Fixed(p: Process, i: int, j: int)
    requires WellFormed(p) && InGrid(p, i, j)
  {
    p.world[i][j] || (i, j) in p.terminals
  }

  /**
   * Lines 84-86: the cell the move of `outcome` from `(i, j)` leads to, with
   * the corrected bounce of `CorrectStateIndices` (see `TargetAsWritten`).
   */
  function Target(p: Process, i: int, j: int, outcome: Action): (t: (int, int))
    requires WellFormed(p) && InGrid(p, i, j) && !p.world[i][j] && outcome in p.actions
    ensures InGrid(p, t.0, t.1)
  {
    var d := p.actions[outcome];
    CorrectStateIndices(p, i + d.0, j + d.1, d.0, d.1)
  }

  /** A move of at most one step along a row or a column. */
  predicate AxisMove(d: (int, int))
  {
    -1 <= d.0 <= 1 && -1 <= d.1 <= 1 && (d.0 == 0 || d.1 == 0)
  }

  /**
   * Where the cell `Target` reads is the one lines 84-86 read as written:
   * for every move that stays in the grid and for every one-step axis move.
   */
  lemma TargetAsWritten(p: Process, i: int, j: int, outcome: Action)
    requires WellFormed(p) && InGrid(p, i, j) && !p.world[i][j] && outcome in p.actions
    requires InGrid(p, i + p.actions[outcome].0, j + p.actions[outcome].1) || AxisMove(p.actions[outcome])
    ensures Target(p, i, j, outcome) ==
      CorrectStateIndicesAsWritten(p, i + p.actions[outcome].0, j + p.actions[outcome].1,
                                   p.actions[outcome].0, p.actions[outcome].1)
  {
    var d := p.actions[outcome];
    CorrectionsAgree(p, i + d.0, j + d.1, d.0, d.1);
  }

  /** Lines 82-87: the expected utility of the outcomes `items` read from the snapshot `prev`. */
  function ExpectedUtility(p: Process, prev: seq<seq<real>>, i: int, j: int, items: seq<(Action, real)>): real
    requires WellFormed(p) && Shaped(prev, Rows(p), Columns(p)) && InGrid(p, i, j) && !p.world[i][j]
    requires forall k :: 0 <= k < |items| ==> items[k].0 in p.actions
  {
    if |items| == 0 then 0.0
    else
      var last := items[|items| - 1];
      var t := Target(p, i, j, last.0);
      ExpectedUtility(p, prev, i, j, items[..|items| - 1]) + prev[t.0][t.1] * last.1
  }

  /** The expected utility of each action, in `order`. */
  function ActionValues(p: Process, prev: seq<seq<real>>, i: int, j: int, order: seq<Action>): (r: seq<real>)
    requires WellFormed(p) && Shaped(prev, Rows(p), Columns(p)) && InGrid(p, i, j) && !p.world[i][j]
    requires forall a :: a in order ==> a in p.actions
    ensures |r| == |order|
    ensures forall k :: 0 <= k < |order| ==> r[k] == ExpectedUtility(p, prev, i, j, p.transitions[order[k]])
  {
    seq(|order|, k requires 0 <= k < |order| => ExpectedUtility(p, prev, i, j, p.transitions[order[k]]))
  }

  /** Lines 80-95: the next utility of a free cell and the action of its policy. */
  function Backup(p: Process, prev: seq<seq<real>>, i: int, j: int, order: seq<Action>, discount: real)
    : (real, Action)
    requires WellFormed(p) && Shaped(prev, Rows(p), Columns(p)) && InGrid(p, i, j) && !p.world[i][j]
    requires KeyOrder(p, order)
  {
    var values := ActionValues(p, prev, i, j, order);
    assert |order| > 0 by {
      var a :| a in p.actions;
      assert a in order;
    }
    var best := FindDictMax(order, values).value;
    (Bellman(p.rewards[i][j], discount, best.1), best.0)
  }

  /** Line 93: the reward plus the discounted expected utility. */
  function Bellman(reward: real, discount: real, utility: real): real
  {
    reward + discount * utility
  }

  /**
   * The Bellman backup: the chosen action has the largest expected
   * utility of all actions, and the next utility is the reward plus the
   * discounted expected utility of that action.
   */
  lemma BackupIsMax(p: Process, prev: seq<seq<real>>, i: int, j: int, order: seq<Action>, discount: real)
    requires WellFormed(p) && Shaped(prev, Rows(p), Columns(p)) && InGrid(p, i, j) && !p.world[i][j]
    requires KeyOrder(p, order)
    ensures var b := Backup(p, prev, i, j, order, discount);
      && b.1 in p.actions
      && b.0 == Bellman(p.rewards[i][j], discount, ExpectedUtility(p, prev, i, j, p.transitions[b.1]))
      && forall a :: a in p.actions ==>
        ExpectedUtility(p, prev, i, j, p.transitions[a]) <= ExpectedUtility(p, prev, i, j, p.transitions[b.1])
  {
    var values := ActionValues(p, prev, i, j, order);
    var a0 :| a0 in p.actions;
    assert a0 in order;
    var r := FindDictMax(order, values);
    var k :| 0 <= k < |order| && order[k] == r.value.0 && values[k] == r.value.1;
    var best := order[k];
    var b := Backup(p, prev, i, j, order, discount);
    assert b.1 == best;
    assert b.0 == Bellman(p.rewards[i][j], discount, values[k]);
    forall a | a in p.actions
      ensures ExpectedUtility(p, prev, i, j, p.transitions[a]) <= values[k]
    {
      var m :| 0 <= m < |order| && order[m] == a;
      assert values[m] <= r.value.1;
    }
  }


  /** The utility of cell `(i, j)` after a sweep from `prev`. */
  function SweepCell(p: Process, prev: seq<seq<real>>, order: seq<Action>, discount: real, i: int, j: int): real
    requires WellFormed(p) && Shaped(prev, Rows(p), Columns(p)) && InGrid(p, i, j) && KeyOrder(p, order)
  {
    if Fixed(p, i, j) then prev[i][j] else Backup(p, prev, i, j, order, discount).0
  }

  /** Lines 60-96: every cell updated from the snapshot `prev` of the previous utilities. */
  function Sweep(p: Process, prev: seq<seq<real>>, order: seq<Action>, discount: real): (r: seq<seq<real>>)
    requires WellFormed(p) && Shaped(prev, Rows(p), Columns(p)) && KeyOrder(p, order)
    ensures Shaped(r, Rows(p), Columns(p))
    ensures forall i, j {:trigger SweepCell(p, prev, order, discount, i, j)} :: InGrid(p, i, j) ==>
      r[i][j] == SweepCell(p, prev, order, discount, i, j)
  {
    seq(Rows(p), i requires 0 <= i < Rows(p) =>
      seq(Columns(p), j requires 0 <= j < Columns(p) => SweepCell(p, prev, order, discount, i, j)))
  }

  /** The utilities after `k` sweeps from `start`. */
  function Sweeps(p: Process, start: seq<seq<real>>, order: seq<Action>, discount: real, k: nat): (r: seq<seq<real>>)
    requires WellFormed(p) && Shaped(start, Rows(p), Columns(p)) && KeyOrder(p, order)
    ensures Shaped(r, Rows(p), Columns(p))
  {
    if k == 0 then start else Sweep(p, Sweeps(p, start, order, discount, k - 1), order, discount)
  }

  /**
   * The next utility does not depend on the order of the expected-utility
   * dict: two orders may choose different actions on a tie, but the largest
   * expected utility is the same.
   */
  lemma BackupOrder(p: Process, prev: seq<seq<real>>, i: int, j: int, o1: seq<Action>, o2: seq<Action>, discount: real)
    requires WellFormed(p) && Shaped(prev, Rows(p), Columns(p)) && InGrid(p, i, j) && !p.world[i][j]
    requires KeyOrder(p, o1) && KeyOrder(p, o2)
    ensures Backup(p, prev, i, j, o1, discount).0 == Backup(p, prev, i, j, o2, discount).0
  {
    BackupIsMax(p, prev, i, j, o1, discount);
    BackupIsMax(p, prev, i, j, o2, discount);
  }

  /** A sweep's utilities are the same for any order of the actions. */
  lemma SweepOrder(p: Process, prev: seq<seq<real>>, o1: seq<Action>, o2: seq<Action>, discount: real)
    requires WellFormed(p) && Shaped(prev, Rows(p), Columns(p)) && KeyOrder(p, o1) && KeyOrder(p, o2)
    ensures Sweep(p, prev, o1, discount) == Sweep(p, prev, o2, discount)
  {
    var r1 := Sweep(p, prev, o1, discount);
    var r2 := Sweep(p, prev, o2, discount);
    forall i | 0 <= i < Rows(p) ensures r1[i] == r2[i] {
      forall j | 0 <= j < Columns(p) ensures r1[i][j] == r2[i][j] {
        if !Fixed(p, i, j) {
          BackupOrder(p, prev, i, j, o1, o2, discount);
        }
        assert r1[i][j] == SweepCell(p, prev, o1, discount, i, j);
        assert r2[i][j] == SweepCell(p, prev, o2, discount, i, j);
      }
    }
  }

  /** The utilities after any number of sweeps are the same for any order of the actions. */
  lemma {:induction false} SweepsOrder(p: Process, start: seq<seq<real>>, o1: seq<Action>, o2: seq<Action>, discount: real, k: nat)
    requires WellFormed(p) && Shaped(start, Rows(p), Columns(p)) && KeyOrder(p, o1) && KeyOrder(p, o2)
    ensures Sweeps(p, start, o1, discount, k) == Sweeps(p, start, o2, discount, k)
  {
    if k > 0 {
      SweepsOrder(p, start, o1, o2, discount, k - 1);
      SweepOrder(p, Sweeps(p, start, o1, discount, k - 1), o1, o2, discount);
    }
  }

  /** Lines 39-46: the initial utilities (zeros when none are given) with the terminal utilities written in. */
  function Start(p: Process, initial: Option<seq<seq<real>>>): (r: seq<seq<real>>)
    requires WellFormed(p) && (initial.Some? ==> Shaped(initial.value, Rows(p), Columns(p)))
    ensures Shaped(r, Rows(p), Columns(p))
  {
    seq(Rows(p), i requires 0 <= i < Rows(p) =>
      seq(Columns(p), j requires 0 <= j < Columns(p) =>
        if (i, j) in p.terminals then p.terminals[(i, j)]
        else if initial.Some? then initial.value[i][j] else 0.0))
  }

  /**
   * Terminal states hold their given utility and obstacles their initial
   * one after any number of sweeps (lines 45-46, 66-77).
   */
  lemma {:induction false} FixedCellsKept(p: Process, initial: Option<seq<seq<real>>>, order: seq<Action>,
                                          discount: real, k: nat, i: int, j: int)
    requires WellFormed(p) && (initial.Some? ==> Shaped(initial.value, Rows(p), Columns(p))) && KeyOrder(p, order)
    requires InGrid(p, i, j) && Fixed(p, i, j)
    ensures var u := Sweeps(p, Start(p, initial), order, discount, k);
      && ((i, j) in p.terminals ==> u[i][j] == p.terminals[(i, j)])
      && ((i, j) !in p.terminals ==> u[i][j] == if initial.Some? then initial.value[i][j] else 0.0)
  {
    if k > 0 {
      FixedCellsKept(p, initial, order, discount, k - 1, i, j);
      var prev := Sweeps(p, Start(p, initial), order, discount, k - 1);
      assert Sweeps(p, Start(p, initial), order, discount, k)[i][j] == SweepCell(p, prev, order, discount, i, j);
    }
  }

  function Abs(x: real): real
  {
    if x < 0.0 then -x else x
  }

  function Max(a: real, b: real): real
  {
    if b > a then b else a
  }

  /**
   * Lines 61 and 98-100: `maximum_change` once the sweep from `prev` to
   * `next` has visited the first `n` rows: the largest change of an updated
   * cell there, at least 0.
   */
  function GridChange(p: Process, prev: seq<seq<real>>, next: seq<seq<real>>, n: nat): (r: real)
    requires WellFormed(p) && Shaped(prev, Rows(p), Columns(p)) && Shaped(next, Rows(p), Columns(p))
    requires n <= Rows(p)
    ensures r >= 0.0
    decreases n, 0
  {
    if n == 0 then 0.0 else RowChange(p, prev, next, n - 1, Columns(p))
  }

  /** `maximum_change` once the sweep has visited the rows before `i` and the first `m` cells of row `i`. */
  function RowChange(p: Process, prev: seq<seq<real>>, next: seq<seq<real>>, i: nat, m: nat): (r: real)
    requires WellFormed(p) && Shaped(prev, Rows(p), Columns(p)) && Shaped(next, Rows(p), Columns(p))
    requires i < Rows(p) && m <= Columns(p)
    ensures r >= 0.0
    decreases i, m + 1
  {
    if m == 0 then GridChange(p, prev, next, i)
    else
      var before := RowChange(p, prev, next, i, m - 1);
      if Fixed(p, i, m - 1) then before else Max(before, Abs(next[i][m - 1] - prev[i][m - 1]))
  }

  /** Whether cell `(r, c)` comes before cell `(i, m)` in the order of the sweep. */
  predicate Visited(r: int, c: int, i: int, m: int)
  {
    r < i || (r == i && c < m)
  }

  /** The running change bounds every visited updated cell's change and is 0 or one of them. */
  lemma {:induction false} RowChangeBounds(p: Process, prev: seq<seq<real>>, next: seq<seq<real>>, i: nat, m: nat)
    requires WellFormed(p) && Shaped(prev, Rows(p), Columns(p)) && Shaped(next, Rows(p), Columns(p))
    requires i < Rows(p) && m <= Columns(p)
    ensures forall r, c :: InGrid(p, r, c) && Visited(r, c, i, m) && !Fixed(p, r, c) ==>
      Abs(next[r][c] - prev[r][c]) <= RowChange(p, prev, next, i, m)
    ensures RowChange(p, prev, next, i, m) == 0.0 ||
      exists r, c :: InGrid(p, r, c) && Visited(r, c, i, m) && !Fixed(p, r, c) &&
        Abs(next[r][c] - prev[r][c]) == RowChange(p, prev, next, i, m)
    decreases i, m
  {
    if m > 0 {
      RowChangeBounds(p, prev, next, i, m - 1);
    } else if i > 0 {
      RowChangeBounds(p, prev, next, i - 1, Columns(p));
    }
  }

  /** `maximum_change` bounds every updated cell's change and is 0 or one of them. */
  lemma GridChangeBounds(p: Process, prev: seq<seq<real>>, next: seq<seq<real>>, n: nat)
    requires WellFormed(p) && Shaped(prev, Rows(p), Columns(p)) && Shaped(next, Rows(p), Columns(p))
    requires n <= Rows(p)
    ensures forall i, j :: 0 <= i < n && 0 <= j < Columns(p) && !Fixed(p, i, j) ==>
      Abs(next[i][j] - prev[i][j]) <= GridChange(p, prev, next, n)
    ensures GridChange(p, prev, next, n) == 0.0 ||
      exists i, j :: 0 <= i < n && 0 <= j < Columns(p) && !Fixed(p, i, j) &&
        Abs(next[i][j] - prev[i][j]) == GridChange(p, prev, next, n)
  {
    if n > 0 {
      RowChangeBounds(p, prev, next, n - 1, Columns(p));
    }
  }

  /** Line 102: the bound the largest change is compared with. */
  function Tolerance(changeTolerance: real, discount: real): real
    requires discount != 0.0
  {
    changeTolerance * (1.0 - discount) / discount
  }

  /**
   * Another sweep follows (line 102) exactly when some updated cell changed
   * by more than the bound, or the bound is negative.
   */
  lemma GridChangeExceeds(p: Process, prev: seq<seq<real>>, next: seq<seq<real>>, bound: real)
    requires WellFormed(p) && Shaped(prev, Rows(p), Columns(p)) && Shaped(next, Rows(p), Columns(p))
    ensures GridChange(p, prev, next, Rows(p)) > bound <==>
      bound < 0.0 ||
      exists i, j :: InGrid(p, i, j) && !Fixed(p, i, j) && Abs(next[i][j] - prev[i][j]) > bound
  {
    GridChangeBounds(p, prev, next, Rows(p));
  }

  /** numpy's `|S10` strings keep at most ten characters. */
  function Truncate(s: string): (r: string)
    ensures |r| <= 10 && |r| <= |s| && r == s[..|r|] && (|s| <= 10 ==> r == s)
  {
    if |s| <= 10 then s else s[..10]
  }

  /**
   * Lines 42-53: `'x'` on terminal states and obstacles; the other cells of
   * `numpy.empty` hold no chosen value, here `""`.
   */
  function InitialPolicy(p: Process): (r: seq<seq<string>>)
    requires WellFormed(p)
    ensures Shaped(r, Rows(p), Columns(p))
  {
    seq(Rows(p), i requires 0 <= i < Rows(p) =>
      seq(Columns(p), j requires 0 <= j < Columns(p) => if Fixed(p, i, j) then "x" else ""))
  }

  /** The policy entry of cell `(i, j)` after a sweep from `prev` (line 96). */
  function PolicyCell(p: Process, prev: seq<seq<real>>, order: seq<Action>, discount: real, i: int, j: int): string
    requires WellFormed(p) && Shaped(prev, Rows(p), Columns(p)) && InGrid(p, i, j) && KeyOrder(p, order)
  {
    if Fixed(p, i, j) then "x" else Truncate(Backup(p, prev, i, j, order, discount).1)
  }

  /** The policy after a sweep from `prev`: the maximising action wherever the utility was updated. */
  function SweepPolicy(p: Process, prev: seq<seq<real>>, order: seq<Action>, discount: real): (r: seq<seq<string>>)
    requires WellFormed(p) && Shaped(prev, Rows(p), Columns(p)) && KeyOrder(p, order)
    ensures Shaped(r, Rows(p), Columns(p))
    ensures forall i, j {:trigger PolicyCell(p, prev, order, discount, i, j)} :: InGrid(p, i, j) ==>
      r[i][j] == PolicyCell(p, prev, order, discount, i, j)
  {
    seq(Rows(p), i requires 0 <= i < Rows(p) =>
      seq(Columns(p), j requires 0 <= j < Columns(p) => PolicyCell(p, prev, order, discount, i, j)))
  }

  /** The policy after `k` sweeps from `start`. */
  function PolicyAfter(p: Process, start: seq<seq<real>>, order: seq<Action>, discount: real, k: nat)
    : (r: seq<seq<string>>)
    requires WellFormed(p) && Shaped(start, Rows(p), Columns(p)) && KeyOrder(p, order)
    ensures Shaped(r, Rows(p), Columns(p))
  {
    if k == 0 then InitialPolicy(p) else SweepPolicy(p, Sweeps(p, start, order, discount, k - 1), order, discount)
  }

  /** Obstacles and terminal states carry `x` in every policy the iteration produces. */
  lemma PolicyAfterFixed(p: Process, start: seq<seq<real>>, order: seq<Action>, discount: real, k: nat, i: int, j: int)
    requires WellFormed(p) && Shaped(start, Rows(p), Columns(p)) && KeyOrder(p, order)
    requires InGrid(p, i, j) && Fixed(p, i, j)
    ensures PolicyAfter(p, start, order, discount, k)[i][j] == "x"
  {
    if k > 0 {
      assert PolicyAfter(p, start, order, discount, k)[i][j]
        == PolicyCell(p, Sweeps(p, start, order, discount, k - 1), order, discount, i, j);
    }
  }

  /** Line 102: whether the `k`-th sweep from `start` is followed by another. */
  ghost predicate Continues(p: Process, start: seq<seq<real>>, order: seq<Action>, discount: real,
                            changeTolerance: real, k: nat)
    requires WellFormed(p) && Shaped(start, Rows(p), Columns(p)) && KeyOrder(p, order) && discount != 0.0 && k >= 1
  {
    GridChange(p, Sweeps(p, start, order, discount, k - 1), Sweeps(p, start, order, discount, k), Rows(p))
      > Tolerance(changeTolerance, discount)
  }

  /**
   * Lines 55-102: value iteration from `start` performs exactly `n` sweeps:
   * none when `max_iterations` is not positive, and otherwise sweeps until
   * one changes no utility by more than the bound or `max_iterations` is
   * reached.
   */
  ghost predicate SweepCount(p: Process, start: seq<seq<real>>, order: seq<Action>, discount: real,
                             changeTolerance: real, maxIterations: int, n: nat)
    requires WellFormed(p) && Shaped(start, Rows(p), Columns(p)) && KeyOrder(p, order)
  {
    if maxIterations <= 0 then n == 0
    else
      && 1 <= n <= maxIterations && discount != 0.0
      && (forall k :: 1 <= k < n ==> Continues(p, start, order, discount, changeTolerance, k))
      && (n < maxIterations ==> !Continues(p, start, order, discount, changeTolerance, n))
  }

  /**
   * The state of the loop of lines 55-104 after `n` sweeps: `updated` says
   * whether the last sweep asks for another, and every earlier sweep did.
   */
  ghost predicate History(p: Process, start: seq<seq<real>>, order: seq<Action>, discount: real,
                          changeTolerance: real, maxIterations: int, n: nat, updated: bool)
    requires WellFormed(p) && Shaped(start, Rows(p), Columns(p)) && KeyOrder(p, order)
  {
    && (n == 0 ==> updated)
    && (maxIterations <= 0 ==> n == 0)
    && (maxIterations >= 1 ==> n <= maxIterations)
    && (n >= 1 ==> discount != 0.0 && (updated <==> Continues(p, start, order, discount, changeTolerance, n)))
    && (forall k :: 1 <= k < n ==> Continues(p, start, order, discount, changeTolerance, k))
  }

  /** One more sweep of the loop. */
  lemma HistoryStep(p: Process, start: seq<seq<real>>, order: seq<Action>, discount: real,
                    changeTolerance: real, maxIterations: int, n: nat)
    requires WellFormed(p) && Shaped(start, Rows(p), Columns(p)) && KeyOrder(p, order)
    requires History(p, start, order, discount, changeTolerance, maxIterations, n, true)
    requires n < maxIterations && discount != 0.0
    ensures History(p, start, order, discount, changeTolerance, maxIterations, n + 1,
      GridChange(p, Sweeps(p, start, order, discount, n), Sweeps(p, start, order, discount, n + 1), Rows(p))
        > Tolerance(changeTolerance, discount))
  {
    forall k | 1 <= k < n + 1
      ensures Continues(p, start, order, discount, changeTolerance, k)
    {
      if k == n {
      }
    }
  }

  /** When the loop stops, it has performed the number of sweeps the stopping rule gives. */
  lemma HistoryDone(p: Process, start: seq<seq<real>>, order: seq<Action>, discount: real,
                    changeTolerance: real, maxIterations: int, n: nat, updated: bool)
    requires WellFormed(p) && Shaped(start, Rows(p), Columns(p)) && KeyOrder(p, order)
    requires History(p, start, order, discount, changeTolerance, maxIterations, n, updated)
    requires !(updated && n < maxIterations)
    ensures SweepCount(p, start, order, discount, changeTolerance, maxIterations, n)
  {
  }

  /** The number of sweeps is determined by the process and the parameters. */
  lemma SweepCountUnique(p: Process, start: seq<seq<real>>, order: seq<Action>, discount: real,
                         changeTolerance: real, maxIterations: int, n: nat, m: nat)
    requires WellFormed(p) && Shaped(start, Rows(p), Columns(p)) && KeyOrder(p, order)
    requires SweepCount(p, start, order, discount, changeTolerance, maxIterations, n)
    requires SweepCount(p, start, order, discount, changeTolerance, maxIterations, m)
    ensures n == m
  {
  }

  /** The contents of `a`, row by row. */
  function Contents<T>(a: array2<T>): (g: seq<seq<T>>)
    reads a
    ensures Shaped(g, a.Length0, a.Length1)
    ensures forall i, j :: 0 <= i < a.Length0 && 0 <= j < a.Length1 ==> g[i][j] == a[i, j]
  {
    seq(a.Length0, i requires 0 <= i < a.Length0 reads a =>
      seq(a.Length1, j requires 0 <= j < a.Length1 reads a => a[i, j]))
  }

  /**
   * `nextRow` and `labelRow` are row `i` of a sweep from `prev`, cell by
   * cell; obstacles and terminal states keep their utility and get `'x'`.
   */
  ghost predicate RowSweptTo(p: Process, prev: seq<seq<real>>, order: seq<Action>, discount: real, i: int,
                             nextRow: seq<real>, labelRow: seq<string>)
    requires WellFormed(p) && Shaped(prev, Rows(p), Columns(p)) && KeyOrder(p, order) && 0 <= i < Rows(p)
  {
    && |nextRow| == |labelRow| == Columns(p)
    && (forall c {:trigger SweepCell(p, prev, order, discount, i, c)} :: 0 <= c < Columns(p) ==>
      nextRow[c] == SweepCell(p, prev, order, discount, i, c))
    && (forall c {:trigger PolicyCell(p, prev, order, discount, i, c)} :: 0 <= c < Columns(p) ==>
      labelRow[c] == PolicyCell(p, prev, order, discount, i, c))
    && (forall c :: 0 <= c < Columns(p) && Fixed(p, i, c) ==> nextRow[c] == prev[i][c] && labelRow[c] == "x")
  }

  /** `next` and `labels` are the utilities and the policy after a sweep from `prev`, row by row. */
  ghost predicate SweptTo(p: Process, prev: seq<seq<real>>, order: seq<Action>, discount: real,
                          next: seq<seq<real>>, labels: seq<seq<string>>)
    requires WellFormed(p) && Shaped(prev, Rows(p), Columns(p)) && KeyOrder(p, order)
  {
    && |next| == |labels| == Rows(p)
    && forall i {:trigger next[i]} {:trigger labels[i]} :: 0 <= i < Rows(p) ==>
      RowSweptTo(p, prev, order, discount, i, next[i], labels[i])
  }

  lemma SweepIsSweptTo(p: Process, prev: seq<seq<real>>, order: seq<Action>, discount: real)
    requires WellFormed(p) && Shaped(prev, Rows(p), Columns(p)) && KeyOrder(p, order)
    ensures SweptTo(p, prev, order, discount, Sweep(p, prev, order, discount), SweepPolicy(p, prev, order, discount))
  {
    var next := Sweep(p, prev, order, discount);
    var labels := SweepPolicy(p, prev, order, discount);
    forall i | 0 <= i < Rows(p)
      ensures RowSweptTo(p, prev, order, discount, i, next[i], labels[i])
    {
      forall c | 0 <= c < Columns(p) && Fixed(p, i, c)
        ensures next[i][c] == prev[i][c] && labels[i][c] == "x"
      {
        assert next[i][c] == SweepCell(p, prev, order, discount, i, c);
        assert labels[i][c] == PolicyCell(p, prev, order, discount, i, c);
      }
    }
  }

  lemma ContentsEqual<T>(a: array2<T>, g: seq<seq<T>>)
    requires Shaped(g, a.Length0, a.Length1)
    requires forall i, j :: 0 <= i < a.Length0 && 0 <= j < a.Length1 ==> a[i, j] == g[i][j]
    ensures Contents(a) == g
  {
    var c := Contents(a);
    forall i | 0 <= i < a.Length0
      ensures c[i] == g[i]
    {
    }
  }

  /** `decision.mdp.MDP`. */
  class Mdp {
    const process: Process
    const rows: nat
    const columns: nat

    constructor (process: Process)
      ensures this.process == process && rows == Rows(process) && columns == Columns(process)
    {
      this.process := process;
      rows := Rows(process);
      columns := Columns(process);
    }

    /** A well-formed process whose dimensions are `rows` and `columns`. */
    predicate Valid()
    {
      WellFormed(process) && rows == Rows(process) && columns == Columns(process)
    }

    /** Lines 82-87: the expected utility of `action` from the free cell `(i, j)`. */
    method ExpectedUtilityOf(prev: seq<seq<real>>, i: int, j: int, action: Action) returns (utility: real)
      requires WellFormed(process) && Shaped(prev, Rows(process), Columns(process))
      requires InGrid(process, i, j) && !process.world[i][j] && action in process.actions
      ensures utility == ExpectedUtility(process, prev, i, j, process.transitions[action])
    {
      var items := process.transitions[action];
      utility := 0.0;
      for k := 0 to |items|
        invariant utility == ExpectedUtility(process, prev, i, j, items[..k])
      {
        var outcome := items[k].0;
        var probability := items[k].1;
        var newRow := i + process.actions[outcome].0;
        var newColumn := j + process.actions[outcome].1;
        var target := CorrectStateIndices(process, newRow, newColumn, newRow - i, newColumn - j);
        utility := utility + prev[target.0][target.1] * probability;
        assert items[..k + 1][..k] == items[..k];
      }
      assert items[..|items|] == items;
    }

    /** Lines 80-88: the expected utility of every action, in `order`. */
    method ActionUtilities(prev: seq<seq<real>>, i: int, j: int, order: seq<Action>) returns (utilities: seq<real>)
      requires WellFormed(process) && Shaped(prev, Rows(process), Columns(process))
      requires InGrid(process, i, j) && !process.world[i][j] && forall a :: a in order ==> a in process.actions
      ensures utilities == ActionValues(process, prev, i, j, order)
    {
      ghost var values := ActionValues(process, prev, i, j, order);
      utilities := [];
      for k := 0 to |order|
        invariant utilities == values[..k]
      {
        var u := ExpectedUtilityOf(prev, i, j, order[k]);
        utilities := utilities + [u];
      }
      assert values[..|order|] == values;
    }

    /** Lines 80-91: the action of largest expected utility and that utility. */
    method MaximisingAction(prev: seq<seq<real>>, i: int, j: int, order: seq<Action>)
      returns (action: Action, utility: real)
      requires WellFormed(process) && Shaped(prev, Rows(process), Columns(process))
      requires InGrid(process, i, j) && !process.world[i][j] && KeyOrder(process, order)
      ensures var r := FindDictMax(order, ActionValues(process, prev, i, j, order));
        r.Some? && action == r.value.0 && utility == r.value.1
    {
      var utilities := ActionUtilities(prev, i, j, order);
      assert |order| > 0 by {
        var a :| a in process.actions;
        assert a in order;
      }
      var best := FindDictMax(order, utilities);
      action, utility := best.value.0, best.value.1;
    }

    /**
     * Lines 80-96 for the free cell `(i, j)`: it gets its backed-up utility
     * and action, the values `nextRow` and `labelRow` hold for its row.
     */
    method UpdateCell(u: array2<real>, policy: array2<string>, prev: seq<seq<real>>, i: int, j: int,
                      order: seq<Action>, discount: real, ghost nextRow: seq<real>, ghost labelRow: seq<string>)
      modifies u, policy
      requires Valid() && Shaped(prev, Rows(process), Columns(process)) && KeyOrder(process, order)
      requires u.Length0 == policy.Length0 == Rows(process) && u.Length1 == policy.Length1 == Columns(process)
      requires InGrid(process, i, j) && !Fixed(process, i, j) && 0 <= i < Rows(process)
      requires RowSweptTo(process, prev, order, discount, i, nextRow, labelRow)
      ensures forall r, c :: 0 <= r < u.Length0 && 0 <= c < u.Length1 && (r != i || c != j) ==>
        u[r, c] == old(u[r, c]) && policy[r, c] == old(policy[r, c])
      ensures u[i, j] == nextRow[j] && policy[i, j] == labelRow[j]
    {
      var action, utility := MaximisingAction(prev, i, j, order);
      u[i, j] := Bellman(process.rewards[i][j], discount, utility);
      policy[i, j] := Truncate(action);
      assert u[i, j] == SweepCell(process, prev, order, discount, i, j);
      assert policy[i, j] == PolicyCell(process, prev, order, discount, i, j);
    }

    /**
     * Lines 61-100 for row `i`: every cell of the row ends up holding its
     * value in `nextRow` and its policy entry in `labelRow`, and `change`
     * grows to the largest change so far.
     */
    method SweepRow(u: array2<real>, policy: array2<string>, prev: seq<seq<real>>, i: int,
                    order: seq<Action>, discount: real, change: real, ghost next: seq<seq<real>>,
                    ghost nextRow: seq<real>, ghost labelRow: seq<string>)
      returns (maximumChange: real)
      modifies u, policy
      requires Valid() && Shaped(prev, Rows(process), Columns(process)) && KeyOrder(process, order)
      requires u.Length0 == policy.Length0 == Rows(process) && u.Length1 == policy.Length1 == Columns(process)
      requires 0 <= i < Rows(process) && Shaped(next, Rows(process), Columns(process)) && next[i] == nextRow
      requires change == GridChange(process, prev, next, i)
      requires RowSweptTo(process, prev, order, discount, i, nextRow, labelRow)
      requires forall c :: 0 <= c < Columns(process) ==> u[i, c] == prev[i][c]
      requires forall c :: 0 <= c < Columns(process) && Fixed(process, i, c) ==> policy[i, c] == "x"
      ensures forall r, c :: 0 <= r < Rows(process) && r != i && 0 <= c < Columns(process) ==>
        u[r, c] == old(u[r, c]) && policy[r, c] == old(policy[r, c])
      ensures forall c :: 0 <= c < Columns(process) ==> u[i, c] == nextRow[c] && policy[i, c] == labelRow[c]
      ensures maximumChange == GridChange(process, prev, next, i + 1)
    {
      maximumChange := change;
      for j := 0 to columns
        invariant forall r, c :: 0 <= r < Rows(process) && r != i && 0 <= c < Columns(process) ==>
          u[r, c] == old(u[r, c]) && policy[r, c] == old(policy[r, c])
        invariant forall c :: 0 <= c < j ==> u[i, c] == nextRow[c] && policy[i, c] == labelRow[c]
        invariant forall c :: j <= c < Columns(process) ==> u[i, c] == prev[i][c]
        invariant forall c :: j <= c < Columns(process) && Fixed(process, i, c) ==> policy[i, c] == "x"
        invariant maximumChange == RowChange(process, prev, next, i, j)
      {
        if !Fixed(process, i, j) {
          UpdateCell(u, policy, prev, i, j, order, discount, nextRow, labelRow);
          maximumChange := Max(maximumChange, Abs(u[i, j] - prev[i][j]));
        }
      }
    }

    /**
     * Lines 60-100: the sweep proper, row by row, towards the utilities
     * `next` and the policy `labels`; returns `maximum_change`.
     */
    method SweepRows(u: array2<real>, policy: array2<string>, prev: seq<seq<real>>, order: seq<Action>, discount: real,
                     ghost next: seq<seq<real>>, ghost labels: seq<seq<string>>)
      returns (maximumChange: real)
      modifies u, policy
      requires Valid() && Shaped(prev, Rows(process), Columns(process)) && KeyOrder(process, order)
      requires u.Length0 == policy.Length0 == Rows(process) && u.Length1 == policy.Length1 == Columns(process)
      requires SweptTo(process, prev, order, discount, next, labels) && Shaped(next, Rows(process), Columns(process))
      requires forall r, c :: InGrid(process, r, c) ==> u[r, c] == prev[r][c]
      requires forall r, c :: InGrid(process, r, c) && Fixed(process, r, c) ==> policy[r, c] == "x"
      ensures forall r, c :: InGrid(process, r, c) ==> u[r, c] == next[r][c] && policy[r, c] == labels[r][c]
      ensures forall r, c :: InGrid(process, r, c) && Fixed(process, r, c) ==> policy[r, c] == "x"
      ensures maximumChange == GridChange(process, prev, next, Rows(process))
    {
      maximumChange := 0.0;
      for i := 0 to rows
        invariant forall r, c :: 0 <= r < i && 0 <= c < Columns(process) ==>
          u[r, c] == next[r][c] && policy[r, c] == labels[r][c]
        invariant forall r, c :: i <= r < Rows(process) && 0 <= c < Columns(process) ==>
          u[r, c] == prev[r][c] && policy[r, c] == old(policy[r, c])
        invariant maximumChange == GridChange(process, prev, next, i)
      {
        assert RowSweptTo(process, prev, order, discount, i, next[i], labels[i]);
        maximumChange := SweepRow(u, policy, prev, i, order, discount, maximumChange, next, next[i], labels[i]);
      }
    }

    /**
     * Lines 57-100: one sweep from a snapshot of the utilities; returns
     * `maximum_change`.
     */
    method SweepGrid(u: array2<real>, policy: array2<string>, order: seq<Action>, discount: real)
      returns (maximumChange: real)
      modifies u, policy
      requires Valid() && KeyOrder(process, order)
      requires u.Length0 == policy.Length0 == Rows(process) && u.Length1 == policy.Length1 == Columns(process)
      requires forall r, c :: InGrid(process, r, c) && Fixed(process, r, c) ==> policy[r, c] == "x"
      ensures Contents(u) == Sweep(process, old(Contents(u)), order, discount)
      ensures Contents(policy) == SweepPolicy(process, old(Contents(u)), order, discount)
      ensures maximumChange == GridChange(process, old(Contents(u)), Contents(u), Rows(process))
      ensures forall r, c :: InGrid(process, r, c) && Fixed(process, r, c) ==> policy[r, c] == "x"
    {
      var prev := Contents(u);
      ghost var next := Sweep(process, prev, order, discount);
      ghost var labels := SweepPolicy(process, prev, order, discount);
      SweepIsSweptTo(process, prev, order, discount);
      maximumChange := SweepRows(u, policy, prev, order, discount, next, labels);
      ContentsEqual(u, next);
      ContentsEqual(policy, labels);
    }

    /** Lines 56-102: the `k + 1`-th sweep from `start`; returns `maximum_change`. */
    method Sweeping(u: array2<real>, policy: array2<string>, order: seq<Action>, discount: real,
                    ghost start: seq<seq<real>>, ghost k: nat)
      returns (maximumChange: real)
      modifies u, policy
      requires Valid() && KeyOrder(process, order) && Shaped(start, Rows(process), Columns(process))
      requires u.Length0 == policy.Length0 == Rows(process) && u.Length1 == policy.Length1 == Columns(process)
      requires Contents(u) == Sweeps(process, start, order, discount, k)
      requires Contents(policy) == PolicyAfter(process, start, order, discount, k)
      ensures Contents(u) == Sweeps(process, start, order, discount, k + 1)
      ensures Contents(policy) == PolicyAfter(process, start, order, discount, k + 1)
      ensures maximumChange ==
        GridChange(process, Sweeps(process, start, order, discount, k), Sweeps(process, start, order, discount, k + 1), Rows(process))
    {
      forall r, c | InGrid(process, r, c) && Fixed(process, r, c)
        ensures policy[r, c] == "x"
      {
        PolicyAfterFixed(process, start, order, discount, k, r, c);
      }
      maximumChange := SweepGrid(u, policy, order, discount);
    }

    /** Lines 39-53: the initial utilities and policy. */
    method Initialise(initial: Option<seq<seq<real>>>) returns (u: array2<real>, policy: array2<string>)
      requires Valid() && (initial.Some? ==> Shaped(initial.value, Rows(process), Columns(process)))
      ensures fresh(u) && fresh(policy)
      ensures u.Length0 == policy.Length0 == Rows(process) && u.Length1 == policy.Length1 == Columns(process)
      ensures Contents(u) == Start(process, initial)
      ensures Contents(policy) == InitialPolicy(process)
    {
      if initial.None? {
        u := new real[rows, columns]((i, j) => 0.0);
      } else {
        var values := initial.value;
        u := new real[rows, columns]((i, j) requires 0 <= i < rows && 0 <= j < columns => values[i][j]);
      }
      policy := new string[rows, columns]((i, j) => "");
      WriteTerminals(u, policy);
      ContentsEqual(u, Start(process, initial));
      MarkObstacles(policy);
    }

    /** Lines 44-46: every terminal state gets its utility and `'x'`. */
    method WriteTerminals(u: array2<real>, policy: array2<string>)
      modifies u, policy
      requires Valid()
      requires u.Length0 == policy.Length0 == Rows(process) && u.Length1 == policy.Length1 == Columns(process)
      ensures forall r, c :: InGrid(process, r, c) ==>
        u[r, c] == (if (r, c) in process.terminals then process.terminals[(r, c)] else old(u[r, c]))
      ensures forall r, c :: InGrid(process, r, c) ==>
        policy[r, c] == (if (r, c) in process.terminals then "x" else old(policy[r, c]))
    {
      var remaining := process.terminals.Keys;
      while remaining != {}
        invariant remaining <= process.terminals.Keys
        invariant forall r, c :: InGrid(process, r, c) ==>
          u[r, c] == if (r, c) in process.terminals && (r, c) !in remaining then process.terminals[(r, c)] else old(u[r, c])
        invariant forall r, c :: InGrid(process, r, c) ==>
          policy[r, c] == if (r, c) in process.terminals && (r, c) !in remaining then "x" else old(policy[r, c])
        decreases remaining
      {
        var key :| key in remaining;
        u[key.0, key.1] := process.terminals[key];
        policy[key.0, key.1] := "x";
        remaining := remaining - {key};
      }
    }

    /** Lines 49-53: `'x'` on every obstacle. */
    method MarkObstacles(policy: array2<string>)
      modifies policy
      requires Valid() && policy.Length0 == Rows(process) && policy.Length1 == Columns(process)
      requires forall r, c :: InGrid(process, r, c) ==> policy[r, c] == if (r, c) in process.terminals then "x" else ""
      ensures Contents(policy) == InitialPolicy(process)
    {
      for i := 0 to rows
        invariant forall r, c :: InGrid(process, r, c) ==>
          policy[r, c] == if (r, c) in process.terminals || (r < i && process.world[r][c]) then "x" else ""
      {
        for j := 0 to columns
          invariant forall r, c :: InGrid(process, r, c) ==>
            policy[r, c] ==
              if (r, c) in process.terminals || ((r < i || (r == i && c < j)) && process.world[r][c]) then "x" else ""
        {
          if process.world[i][j] {
            policy[i, j] := "x";
          }
        }
      }
      ContentsEqual(policy, InitialPolicy(process));
    }

    /**
     * `value_iteration`: the utilities and the policy after the number of
     * sweeps the stopping rule gives, or failure (a ZeroDivisionError) when
     * the discount is 0 and a sweep takes place.
     */
    method ValueIteration(initial: Option<seq<seq<real>>>, discount: real, changeTolerance: real,
                          maxIterations: int, order: seq<Action>)
      returns (utilities: array2<real>, policy: array2<string>, iterations: nat, ok: bool)
      requires Valid() && KeyOrder(process, order)
      requires initial.Some? ==> Shaped(initial.value, Rows(process), Columns(process))
      ensures ok <==> !(discount == 0.0 && maxIterations >= 1)
      ensures ok ==> fresh(utilities) && fresh(policy)
      ensures ok ==> SweepCount(process, Start(process, initial), order, discount, changeTolerance, maxIterations, iterations)
      ensures ok ==> Contents(utilities) == Sweeps(process, Start(process, initial), order, discount, iterations)
      ensures ok ==> Contents(policy) == PolicyAfter(process, Start(process, initial), order, discount, iterations)
    {
      ghost var start := Start(process, initial);
      utilities, policy := Initialise(initial);
      var updated := true;
      iterations := 0;
      while updated && iterations < maxIterations
        invariant fresh(utilities) && fresh(policy)
        invariant utilities.Length0 == policy.Length0 == Rows(process)
        invariant utilities.Length1 == policy.Length1 == Columns(process)
        invariant Contents(utilities) == Sweeps(process, start, order, discount, iterations)
        invariant Contents(policy) == PolicyAfter(process, start, order, discount, iterations)
        invariant History(process, start, order, discount, changeTolerance, maxIterations, iterations, updated)
        decreases maxIterations - iterations
      {
        ghost var done := iterations;
        updated := false;
        var maximumChange := Sweeping(utilities, policy, order, discount, start, iterations);
        iterations := iterations + 1;
        if discount == 0.0 {
          ok := false;
          return;
        }
        if maximumChange > Tolerance(changeTolerance, discount) {
          updated := true;
        }
        HistoryStep(process, start, order, discount, changeTolerance, maxIterations, done);
      }
      HistoryDone(process, start, order, discount, changeTolerance, maxIterations, iterations, updated);
      ok := true;
    }
  }
}
