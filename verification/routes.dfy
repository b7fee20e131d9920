/**
 * Routes over an `n × n` weight matrix: the permutation invariant, the
 * position swap both engines use, Fisher–Yates shuffling driven by explicit
 * draws, and the open-path fitness (no edge back from the last node to the
 * first).
 */
module Routes {
  import opened Sums

  /** A visiting order: node indices. */
  type Route = seq<nat>

  /** Edge weights; `adj[u][v]` is the cost of going from `u` to `v`, 0 meaning "no edge". */
  type Matrix = seq<seq<real>>

  /** Every weight is non-negative. */
  predicate NonNegative(adj: Matrix)
  {
    forall i, j | 0 <= i < |adj| && 0 <= j < |adj[i]| :: adj[i][j] >= 0.0
  }

  /** `[0, 1, …, n-1]`, the list `list(range(n))` / the identity the C fills in. */
  function Iota(n: nat): (r: Route)
    ensures |r| == n
  {
    seq(n, i => i)
  }

  /**
   * `r` is a permutation of `0..n-1`. The multiset equation alone implies the
   * other two conjuncts (`MultisetPermutation`); they are spelled out so
   * that contracts can index matrices with route entries directly. That no
   * node repeats is `PermutationDistinct`.
   */
  predicate IsPermutation(r: Route, n: nat)
  {
    |r| == n && InRange(r, n) && multiset(r) == multiset(Iota(n))
  }

  /** Every entry of `r` is a node of an `n`-node graph. */
  predicate InRange(r: Route, n: nat)
  {
    forall i | 0 <= i < |r| :: r[i] < n
  }

  /** No node occurs twice in `r`. */
  predicate Distinct(r: Route)
  {
    forall i, j | 0 <= i < j < |r| :: r[i] != r[j]
  }

  /** Exchanging the entries at positions `a` and `b` (which may coincide). */
  function Swap<T>(r: seq<T>, a: nat, b: nat): (r': seq<T>)
    requires a < |r| && b < |r|
    ensures |r'| == |r| && r'[a] == r[b] && r'[b] == r[a]
    ensures forall k | 0 <= k < |r| && k != a && k != b :: r'[k] == r[k]
    ensures multiset(r') == multiset(r)
  {
    var r' := r[a := r[b]][b := r[a]];
    SwapMultiset(r, a, b);
    r'
  }

  lemma SwapMultiset<T>(r: seq<T>, a: nat, b: nat)
    requires a < |r| && b < |r|
    ensures multiset(r[a := r[b]][b := r[a]]) == multiset(r)
  {
    var t := r[a := r[b]];
    assert multiset(t) == multiset(r) - multiset{r[a]} + multiset{r[b]};
    assert multiset(t[b := r[a]]) == multiset(t) - multiset{t[b]} + multiset{r[a]};
  }

  /** Each node below `n` occurs exactly once in `0..n-1`, and no other value does. */
  lemma {:induction false} IotaCount(n: nat, v: nat)
    ensures multiset(Iota(n))[v] == if v < n then 1 else 0
  {
    if n > 0 {
      IotaCount(n - 1, v);
      var prev := Iota(n - 1);
      var last: seq<nat> := [n - 1];
      assert Iota(n) == prev + last;
      assert multiset(Iota(n)) == multiset(prev) + multiset(last);
    }
  }

  lemma TwoOccurrences(r: Route, i: nat, j: nat)
    requires i < j < |r| && r[i] == r[j]
    ensures multiset(r)[r[i]] >= 2
  {
    assert r == r[..i] + [r[i]] + r[i + 1..j] + [r[j]] + r[j + 1..];
  }

  /** Having the multiset of `0..n-1` makes a sequence a permutation: right length, nodes only. */
  lemma MultisetPermutation(r: Route, n: nat)
    requires multiset(r) == multiset(Iota(n))
    ensures IsPermutation(r, n)
  {
    assert |multiset(r)| == |r|;
    forall i | 0 <= i < |r| ensures r[i] < n {
      assert r[i] in multiset(r);
      IotaCount(n, r[i]);
    }
  }

  /** No node occurs twice in a permutation. */
  lemma PermutationDistinct(r: Route, n: nat)
    requires IsPermutation(r, n)
    ensures Distinct(r)
  {
    forall i, j | 0 <= i < j < |r| ensures r[i] != r[j] {
      if r[i] == r[j] {
        TwoOccurrences(r, i, j);
        IotaCount(n, r[i]);
      }
    }
  }

  /** Exchanging two positions of a permutation leaves a permutation. */
  lemma SwapPermutation(r: Route, n: nat, a: nat, b: nat)
    requires IsPermutation(r, n) && a < n && b < n
    ensures IsPermutation(Swap(r, a, b), n)
  {
    MultisetPermutation(Swap(r, a, b), n);
  }

  /** In a permutation of `0..n-1` every node occurs exactly once. */
  lemma PermutationCount(r: Route, n: nat, v: nat)
    requires IsPermutation(r, n)
    ensures multiset(r)[v] == if v < n then 1 else 0
  {
    IotaCount(n, v);
  }

  /**
   * Fisher–Yates draws for a list of length `n`: the `k`-th draw is the
   * partner `j` of position `i = n-1-k`, with `0 <= j <= i`.
   */
  predicate ValidDraws(draws: seq<nat>, n: nat)
  {
    && |draws| == (if n == 0 then 0 else n - 1)
    && forall k | 0 <= k < |draws| :: draws[k] <= n - 1 - k
  }

  /** The Fisher–Yates loop from position `i` down to 1. */
  function ShuffleFrom(r: Route, i: nat, draws: seq<nat>): (s: Route)
    requires i < |r|
    requires ValidDraws(draws, i + 1)
    ensures multiset(s) == multiset(r)
    decreases i
  {
    if i == 0 then r else ShuffleFrom(Swap(r, i, draws[0]), i - 1, draws[1..])
  }

  /**
   * `random.shuffle` (CPython) and the C `random_route` loop: for `i` from
   * `|r|-1` down to 1, exchange `r[i]` with `r[j]` for the drawn `j <= i`.
   */
  function Shuffle(r: Route, draws: seq<nat>): (s: Route)
    requires ValidDraws(draws, |r|)
    ensures multiset(s) == multiset(r)
  {
    if |r| == 0 then r else ShuffleFrom(r, |r| - 1, draws)
  }

  /** A fresh random permutation: `perm = list(range(n)); random.shuffle(perm)`. */
  function RandomPermutation(n: nat, draws: seq<nat>): (r: Route)
    requires ValidDraws(draws, n)
    ensures IsPermutation(r, n)
  {
    var r := Shuffle(Iota(n), draws);
    MultisetPermutation(r, n);
    r
  }

  /** Every route the engines index with lies inside the matrix. */
  predicate Indexes(adj: Matrix, route: Route)
  {
    IsSquare(adj, |adj|) && InRange(route, |adj|)
  }

  /**
   * Total weight of the consecutive pairs of `route`: the sum of
   * `adj[route[i-1]][route[i]]` for `i` in `1..|route|-1`, accumulated left
   * to right as both evaluators do.
   */
  function Fitness(adj: Matrix, route: Route): (f: real)
    requires Indexes(adj, route)
    ensures |route| <= 1 ==> f == 0.0
    ensures NonNegative(adj) ==> f >= 0.0
  {
    if |route| <= 1 then 0.0
    else Fitness(adj, route[..|route| - 1]) + adj[route[|route| - 2]][route[|route| - 1]]
  }

  /** Reference definition of the path weight: first edge plus the weight of the rest. */
  function PathWeight(adj: Matrix, route: Route): real
    requires Indexes(adj, route)
  {
    if |route| <= 1 then 0.0 else adj[route[0]][route[1]] + PathWeight(adj, route[1..])
  }

  /** Appending a node adds exactly the weight of the one new edge to the reference weight. */
  lemma {:induction false} PathWeightSnoc(adj: Matrix, route: Route)
    requires Indexes(adj, route) && |route| >= 2
    ensures PathWeight(adj, route)
         == PathWeight(adj, route[..|route| - 1]) + adj[route[|route| - 2]][route[|route| - 1]]
  {
    if |route| > 2 {
      PathWeightSnoc(adj, route[1..]);
      assert route[1..][..|route| - 2] == route[..|route| - 1][1..];
    }
  }

  /** The evaluator's left-to-right sum equals the edge-by-edge reference weight. */
  lemma {:induction false} FitnessIsPathWeight(adj: Matrix, route: Route)
    requires Indexes(adj, route)
    ensures Fitness(adj, route) == PathWeight(adj, route)
  {
    if |route| >= 2 {
      FitnessIsPathWeight(adj, route[..|route| - 1]);
      PathWeightSnoc(adj, route);
    }
  }

  /** With every weight at most `c >= 0`, a route of `k` nodes weighs at most `(k-1) * c`. */
  lemma {:induction false} FitnessBound(adj: Matrix, route: Route, c: real)
    requires Indexes(adj, route) && c >= 0.0
    requires forall i, j | 0 <= i < |adj| && 0 <= j < |adj[i]| :: adj[i][j] <= c
    ensures |route| >= 1 ==> Fitness(adj, route) <= (|route| - 1) as real * c
  {
    if |route| >= 2 {
      FitnessBound(adj, route[..|route| - 1], c);
    }
  }
}
