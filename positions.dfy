/**
 * Sequence helpers for the factor tables: deleting one position, popping a
 * run of positions from the highest down, and what survives.
 */
module Positions {
  import opened Sums

  /** `list.pop(k)` on a copy: `s` without position `k`. */
  function Pop<T>(s: seq<T>, k: nat): (r: seq<T>)
    requires k < |s|
    ensures |r| == |s| - 1
    ensures forall j :: 0 <= j < k ==> r[j] == s[j]
    ensures forall j :: k <= j < |r| ==> r[j] == s[j + 1]
    ensures forall x :: x in r ==> x in s
  {
    s[..k] + s[k + 1..]
  }

  /** Two lists of one length that agree at `k` and agree once `k` is popped are equal. */
  lemma PopEqual<T>(a: seq<T>, b: seq<T>, k: nat)
    requires k < |a| == |b| && a[k] == b[k] && Pop(a, k) == Pop(b, k)
    ensures a == b
  {
    forall j | 0 <= j < |a| ensures a[j] == b[j] {
      if j < k {
        assert a[j] == Pop(a, k)[j];
      } else if j > k {
        assert a[j] == Pop(a, k)[j - 1];
      }
    }
  }

  predicate Increasing(xs: seq<nat>)
  {
    forall a, b :: 0 <= a < b < |xs| ==> xs[a] < xs[b]
  }

  /** Each later entry of a strictly increasing list is at least one larger. */
  lemma {:induction false} IncreasingGap(xs: seq<nat>, a: nat, b: nat)
    requires Increasing(xs) && a <= b < |xs|
    ensures xs[a] + (b - a) <= xs[b]
    decreases b - a
  {
    if a < b {
      IncreasingGap(xs, a + 1, b);
    }
  }

  /**
   * `for t in xrange(len(xs)-1, -1, -1): s.pop(xs[t])` stopped before `t`
   * reaches `from`: the positions `xs[from..]` removed, highest first.
   */
  function PopDown<T>(s: seq<T>, xs: seq<nat>, from: nat): (r: seq<T>)
    requires Increasing(xs) && from <= |xs|
    requires forall k :: 0 <= k < |xs| ==> xs[k] < |s|
    ensures |r| == |s| - (|xs| - from)
    ensures forall x :: x in r ==> x in s
    decreases |xs| - from
  {
    if from == |xs| then s
    else
      var rest := PopDown(s, xs, from + 1);
      IncreasingGap(xs, from, |xs| - 1);
      Pop(rest, xs[from])
  }

  /** Positions below the lowest popped one keep their element. */
  lemma {:induction false} PopDownPrefix<T>(s: seq<T>, xs: seq<nat>, from: nat, j: nat)
    requires Increasing(xs) && from <= |xs|
    requires forall k :: 0 <= k < |xs| ==> xs[k] < |s|
    requires j < (if from < |xs| then xs[from] else |s|)
    ensures j < |PopDown(s, xs, from)| && PopDown(s, xs, from)[j] == s[j]
    decreases |xs| - from
  {
    if from < |xs| {
      IncreasingGap(xs, from, |xs| - 1);
      PopDownPrefix(s, xs, from + 1, j);
    }
  }

  /** The elements of `s` at the positions `xs`, in that order. */
  function Gather<T>(s: seq<T>, xs: seq<nat>): (r: seq<T>)
    requires forall k :: 0 <= k < |xs| ==> xs[k] < |s|
    ensures |r| == |xs| && forall k :: 0 <= k < |xs| ==> r[k] == s[xs[k]]
  {
    seq(|xs|, k requires 0 <= k < |xs| => s[xs[k]])
  }

  lemma SumPop(s: seq<real>, k: nat)
    requires k < |s|
    ensures Sum(Pop(s, k)) + s[k] == Sum(s)
  {
    var front, tail := s[..k], s[k..];
    assert s == front + tail;
    assert Pop(s, k) == front + tail[1..];
    SumConcat(front, tail);
    SumConcat(front, tail[1..]);
    SumFront(tail);
  }

  /** Popping moves mass, never creates or loses it. */
  lemma {:induction false} PopDownSum(s: seq<real>, xs: seq<nat>, from: nat)
    requires Increasing(xs) && from <= |xs|
    requires forall k :: 0 <= k < |xs| ==> xs[k] < |s|
    ensures Sum(PopDown(s, xs, from)) + Sum(Gather(s, xs)[from..]) == Sum(s)
    decreases |xs| - from
  {
    if from < |xs| {
      var rest := PopDown(s, xs, from + 1);
      IncreasingGap(xs, from, |xs| - 1);
      PopDownSum(s, xs, from + 1);
      PopDownPrefix(s, xs, from + 1, xs[from]);
      SumPop(rest, xs[from]);
      var g := Gather(s, xs)[from..];
      SumFront(g);
      assert g[1..] == Gather(s, xs)[from + 1..];
    }
  }

  /** The elements of `s[..n]` whose position is outside `gone`, in order. */
  function Keep<T>(s: seq<T>, gone: set<nat>, n: nat): (r: seq<T>)
    requires n <= |s|
    ensures |r| <= n
  {
    if n == 0 then [] else Keep(s, gone, n - 1) + (if n - 1 in gone then [] else [s[n - 1]])
  }

  lemma {:induction false} KeepNothing<T>(s: seq<T>, gone: set<nat>, n: nat)
    requires n <= |s| && forall p :: p in gone ==> p >= n
    ensures Keep(s, gone, n) == s[..n]
  {
    if n > 0 {
      KeepNothing(s, gone, n - 1);
      assert s[..n] == s[..n - 1] + [s[n - 1]];
    }
  }

  /** Removing one more position `p`, below all removed ones, is a pop at `p`. */
  lemma {:induction false} KeepPop<T>(s: seq<T>, gone: set<nat>, p: nat, n: nat)
    requires p < n <= |s| && forall q :: q in gone ==> q > p
    ensures p < |Keep(s, gone, n)|
    ensures Keep(s, gone + {p}, n) == Pop(Keep(s, gone, n), p)
  {
    if n == p + 1 {
      KeepNothing(s, gone, n);
      KeepNothing(s, gone + {p}, p);
      KeepNothing(s, gone, p);
      assert Keep(s, gone + {p}, n) == Keep(s, gone + {p}, p);
      assert s[..n] == s[..p] + [s[p]];
    } else {
      KeepPop(s, gone, p, n - 1);
      var tail := if n - 1 in gone then [] else [s[n - 1]];
      assert Keep(s, gone + {p}, n) == Keep(s, gone + {p}, n - 1) + tail;
      var k := Keep(s, gone, n - 1);
      assert Pop(k + tail, p) == Pop(k, p) + tail;
    }
  }

  lemma {:induction false} PopDownIsKeep<T>(s: seq<T>, xs: seq<nat>, from: nat)
    requires Increasing(xs) && from <= |xs|
    requires forall k :: 0 <= k < |xs| ==> xs[k] < |s|
    ensures PopDown(s, xs, from) == Keep(s, set k | from <= k < |xs| :: xs[k], |s|)
    decreases |xs| - from
  {
    var gone := set k | from <= k < |xs| :: xs[k];
    if from == |xs| {
      assert gone == {};
      KeepNothing(s, gone, |s|);
    } else {
      var later := set k | from + 1 <= k < |xs| :: xs[k];
      PopDownIsKeep(s, xs, from + 1);
      assert gone == later + {xs[from]};
      KeepPop(s, later, xs[from], |s|);
    }
  }

  lemma {:induction false} KeepElements<T>(s: seq<T>, gone: set<nat>, n: nat, x: T)
    requires n <= |s|
    ensures x in Keep(s, gone, n) <==> exists m :: 0 <= m < n && m !in gone && s[m] == x
  {
    if n > 0 {
      KeepElements(s, gone, n - 1, x);
    }
  }

  lemma {:induction false} KeepDistinct<T>(s: seq<T>, gone: set<nat>, n: nat)
    requires n <= |s|
    requires forall i, j :: 0 <= i < j < |s| ==> s[i] != s[j]
    ensures var r := Keep(s, gone, n); forall i, j :: 0 <= i < j < |r| ==> r[i] != r[j]
  {
    if n > 0 {
      KeepDistinct(s, gone, n - 1);
      if n - 1 !in gone {
        var k := Keep(s, gone, n - 1);
        KeepElements(s, gone, n - 1, s[n - 1]);
        assert s[n - 1] !in k;
        var r := k + [s[n - 1]];
        assert Keep(s, gone, n) == r;
        forall i, j | 0 <= i < j < |r| ensures r[i] != r[j] {
          if j == |k| {
            assert r[i] == k[i] && k[i] in k;
          }
        }
      } else {
        assert Keep(s, gone, n) == Keep(s, gone, n - 1) + [];
        assert Keep(s, gone, n) == Keep(s, gone, n - 1);
      }
    }
  }

  /** What survives popping the positions `xs`: the elements at every other position. */
  lemma PopDownMembers<T>(s: seq<T>, xs: seq<nat>, x: T)
    requires Increasing(xs)
    requires forall k :: 0 <= k < |xs| ==> xs[k] < |s|
    ensures x in PopDown(s, xs, 0) <==> exists m :: 0 <= m < |s| && m !in xs && s[m] == x
  {
    var gone := set k | 0 <= k < |xs| :: xs[k];
    PopDownIsKeep(s, xs, 0);
    assert PopDown(s, xs, 0) == Keep(s, gone, |s|);
    KeepElements(s, gone, |s|, x);
    assert forall m :: m in gone <==> m in xs;
  }

  /** Popping positions from a list without repeats leaves a list without repeats. */
  lemma PopDownDistinct<T>(s: seq<T>, xs: seq<nat>)
    requires Increasing(xs)
    requires forall k :: 0 <= k < |xs| ==> xs[k] < |s|
    requires forall i, j :: 0 <= i < j < |s| ==> s[i] != s[j]
    ensures var r := PopDown(s, xs, 0); forall i, j :: 0 <= i < j < |r| ==> r[i] != r[j]
  {
    var gone := set k | 0 <= k < |xs| :: xs[k];
    PopDownIsKeep(s, xs, 0);
    assert PopDown(s, xs, 0) == Keep(s, gone, |s|);
    KeepDistinct(s, gone, |s|);
  }

  /** Gathering one more position adds its element to the sum. */
  lemma GatherSnoc(s: seq<real>, xs: seq<nat>, i: nat)
    requires i < |s| && forall k :: 0 <= k < |xs| ==> xs[k] < |s|
    ensures Sum(Gather(s, xs + [i])) == Sum(Gather(s, xs)) + s[i]
  {
    var g := Gather(s, xs + [i]);
    assert g[..|g| - 1] == Gather(s, xs);
  }

  lemma ConcatAssoc<T>(a: seq<T>, b: seq<T>, c: seq<T>)
    ensures a + (b + c) == (a + b) + c
  {
  }

  lemma PrefixSnoc<T>(s: seq<T>, i: nat)
    requires i < |s|
    ensures s[..i + 1] == s[..i] + [s[i]]
  {
  }

  lemma PrefixMembers<T>(s: seq<T>, i: nat)
    requires i < |s|
    ensures forall x :: x in s[..i + 1] <==> x in s[..i] || x == s[i]
  {
    PrefixSnoc(s, i);
  }
}
