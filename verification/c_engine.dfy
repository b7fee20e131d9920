/**
 * The C route optimiser (`randint`, `random_route`, `evaluate` and `run_ssa`
 * in ssa.c, without its file output).
 *
 * Each value `rand()` returns is an explicit argument (`raw`); `randint`
 * folds it into its range. Unlike the Python engine, the population is
 * exchange-sorted by its (possibly stale) fitness field at the start of
 * every iteration, the two producer positions may coincide, scroungers
 * copy `pop[0]` and then really swap their suffix, visits are counted per
 * directed edge in an `n × n` matrix, and the best route is always a copy.
 */
module CEngine {
  import opened Sums
  import opened Schedule
  import opened Routes
  import opened VisitFold

  /** `global_best`'s starting value, `1e308`: larger than any fitness the run is meant to see. */
  const Sentinel: real := 1.0e308

  /** `randint(min, max)`: `min + rand() % (max - min + 1)`, `raw` being what `rand()` returned. */
  function RandInt(lo: int, hi: int, raw: nat): (r: int)
    requires lo <= hi
    ensures lo <= r <= hi
  {
    lo + raw % (hi - lo + 1)
  }

  /** Every value of the range is reachable: `rand()` returning `x - lo` yields `x`. */
  lemma RandIntCovers(lo: int, hi: int, x: int)
    requires lo <= x <= hi
    ensures RandInt(lo, hi, x - lo) == x
  {
  }

  /** `randint(0, n - 1)`: a position of an `n`-node route. */
  function Pick(n: nat, raw: nat): (k: nat)
    requires n >= 1
    ensures k < n
  {
    RandInt(0, n - 1, raw)
  }

  /** How many times `random_route` calls `rand()` for `n` nodes. */
  function RouteRawCount(n: nat): nat
  {
    if n == 0 then 0 else n - 1
  }

  /** The Fisher–Yates positions `random_route` draws: `randint(0, i)` for `i = n-1` down to 1. */
  function RouteDraws(n: nat, raws: seq<nat>): (d: seq<nat>)
    requires |raws| == RouteRawCount(n)
    ensures ValidDraws(d, n)
  {
    seq(|raws|, k requires 0 <= k < |raws| => RandInt(0, n - 1 - k, raws[k]))
  }

  /** The first loop of `random_route`: `route[i] = i` for every `i < n`. */
  method IdentityRoute(n: nat) returns (route: Route)
    ensures route == Iota(n)
  {
    route := [];
    var i := 0;
    while i < n
      invariant i <= n && route == Iota(i)
    {
      route := route + [i];
      i := i + 1;
    }
  }

  /**
   * The second loop of `random_route`: for `i = n-1` down to 1, exchange
   * `route[i]` with `route[randint(0, i)]`. It is the same Fisher–Yates
   * shuffle the Python engine gets from `random.shuffle`.
   */
  method ShuffleRoute(route: Route, raws: seq<nat>) returns (r: Route)
    requires |route| >= 1 && |raws| == RouteRawCount(|route|)
    ensures r == Shuffle(route, RouteDraws(|route|, raws))
  {
    r := SwapDown(route, RouteDraws(|route|, raws));
  }

  /** The exchange loop itself, over positions already drawn with `randint(0, i)`. */
  method SwapDown(route: Route, draws: seq<nat>) returns (r: Route)
    requires |route| >= 1 && ValidDraws(draws, |route|)
    ensures r == Shuffle(route, draws)
  {
    var n := |route|;
    var ds := draws;
    r := route;
    var i: nat := n - 1;
    while i > 0
      invariant i < n && |r| == n
      invariant ValidDraws(ds, i + 1)
      invariant ShuffleFrom(r, i, ds) == ShuffleFrom(route, n - 1, draws)
    {
      var j := ds[0];  // randint(0, i), by the definition of the draws
      ShuffleStep(r, i, ds);
      r := Swap(r, i, j);
      ds := ds[1..];
      i := i - 1;
    }
  }

  /** One round of the Fisher–Yates loop: swap position `i` with the first draw, then go on with the rest. */
  lemma ShuffleStep(r: Route, i: nat, ds: seq<nat>)
    requires 0 < i < |r| && ValidDraws(ds, i + 1)
    ensures ds[0] <= i && ValidDraws(ds[1..], i)
    ensures ShuffleFrom(r, i, ds) == ShuffleFrom(Swap(r, i, ds[0]), i - 1, ds[1..])
  {
  }

  /** `random_route(route, n)`: a permutation of the `n` nodes, the one the Fisher–Yates draws select. */
  method RandomRoute(n: nat, raws: seq<nat>) returns (route: Route)
    requires |raws| == RouteRawCount(n)
    ensures route == RandomPermutation(n, RouteDraws(n, raws))
    ensures IsPermutation(route, n)
  {
    route := IdentityRoute(n);
    if n > 0 {
      route := ShuffleRoute(route, raws);
    }
  }

  /** `evaluate`: the sum of `adj[route[i-1]][route[i]]` for `i` in `1..len-1`, the open-path weight. */
  method Evaluate(adj: Matrix, route: Route) returns (sum: real)
    requires Indexes(adj, route)
    ensures sum == PathWeight(adj, route)
  {
    sum := 0.0;
    var i := 1;
    while i < |route|
      invariant |route| == 0 ==> sum == 0.0
      invariant |route| >= 1 ==> i <= |route| && sum == Fitness(adj, route[..i])
    {
      assert route[..i + 1][..i] == route[..i];
      sum := sum + adj[route[i - 1]][route[i]];
      i := i + 1;
    }
    assert |route| >= 1 ==> route[..|route|] == route;
    FitnessIsPathWeight(adj, route);
  }

  /** One sparrow: its route (`len` is always `n`) and the fitness last computed for it. */
  datatype Sparrow = Sparrow(route: Route, fitness: real)

  /** Every sparrow's route is a permutation of the `n` nodes. */
  predicate Feasible(pop: seq<Sparrow>, n: nat)
  {
    forall i | 0 <= i < |pop| :: IsPermutation(pop[i].route, n)
  }

  /** Every fitness field is the weight of its route: true at each sort, stale in between. */
  predicate Accurate(adj: Matrix, pop: seq<Sparrow>)
  {
    && IsSquare(adj, |adj|)
    && forall i | 0 <= i < |pop| :: InRange(pop[i].route, |adj|) && pop[i].fitness == Fitness(adj, pop[i].route)
  }

  predicate SortedByFitness(pop: seq<Sparrow>)
  {
    forall i, j | 0 <= i < j < |pop| :: pop[i].fitness <= pop[j].fitness
  }

  /**
   * The exchange sort at the top of each iteration: for each `i`, every
   * later sparrow with a strictly smaller fitness is swapped into slot `i`.
   */
  method SortByFitness(pop: seq<Sparrow>) returns (s: seq<Sparrow>)
    ensures |s| == |pop| && multiset(s) == multiset(pop)
    ensures SortedByFitness(s)
  {
    s := pop;
    var i := 0;
    while i + 1 < |s|
      invariant |s| == |pop| && multiset(s) == multiset(pop)
      invariant forall a, b | 0 <= a < b < |s| && a < i :: s[a].fitness <= s[b].fitness
    {
      var j := i + 1;
      while j < |s|
        invariant i < j <= |s|
        invariant |s| == |pop| && multiset(s) == multiset(pop)
        invariant forall a, b | 0 <= a < b < |s| && a < i :: s[a].fitness <= s[b].fitness
        invariant forall b | i < b < j :: s[i].fitness <= s[b].fitness
      {
        if s[j].fitness < s[i].fitness {
          s := Swap(s, i, j);
        }
        j := j + 1;
      }
      i := i + 1;
    }
  }

  /** Reordering keeps every sparrow, so it keeps feasibility and accurate fitness. */
  lemma RearrangedPopulation(adj: Matrix, pop: seq<Sparrow>, s: seq<Sparrow>, n: nat)
    requires multiset(s) == multiset(pop)
    ensures Feasible(pop, n) ==> Feasible(s, n)
    ensures Accurate(adj, pop) ==> Accurate(adj, s)
  {
    forall i | 0 <= i < |s| ensures exists j | 0 <= j < |pop| :: s[i] == pop[j] {
      assert s[i] in multiset(pop);
    }
  }

  /** The random choices of one iteration, as raw `rand()` values. */
  datatype CDraws = CDraws(
    producers: seq<(nat, nat)>,         // `a` and `b` of each producer
    scroungers: seq<seq<nat>>,          // one `k` per suffix position of each scrounger
    restarts: seq<(nat, seq<nat>)>)     // `idx` and the `random_route` draws of each jump

  /** Draws of the right shape for an iteration over `popSize >= 1` sparrows of `n` nodes. */
  predicate ValidCDraws(d: CDraws, n: nat, popSize: nat)
  {
    && |d.producers| == ProducerCount(popSize)
    && |d.scroungers| == popSize - ProducerCount(popSize)
    && (forall k | 0 <= k < |d.scroungers| :: |d.scroungers[k]| == n - n / 2)
    && |d.restarts| == DangerCount(popSize)
    && forall k | 0 <= k < |d.restarts| :: |d.restarts[k].1| == RouteRawCount(n)
  }

  /**
   * Producer stage: sparrow `i < |draws|` exchanges positions `randint(0, n-1)`
   * and `randint(0, n-1)`, which may coincide; fitness fields are not updated.
   */
  function Producers(pop: seq<Sparrow>, n: nat, draws: seq<(nat, nat)>): (r: seq<Sparrow>)
    requires n >= 1 && |draws| <= |pop| && Feasible(pop, n)
    ensures |r| == |pop| && Feasible(r, n)
    ensures forall i | 0 <= i < |pop| :: r[i].fitness == pop[i].fitness
    ensures forall i | |draws| <= i < |pop| :: r[i] == pop[i]
    ensures forall i | 0 <= i < |draws| ::
      r[i].route == Swap(pop[i].route, Pick(n, draws[i].0), Pick(n, draws[i].1))
  {
    forall i | 0 <= i < |draws| ensures IsPermutation(Swap(pop[i].route, Pick(n, draws[i].0), Pick(n, draws[i].1)), n) {
      SwapPermutation(pop[i].route, n, Pick(n, draws[i].0), Pick(n, draws[i].1));
    }
    seq(|pop|, i requires 0 <= i < |pop| =>
      if i < |draws| then Sparrow(Swap(pop[i].route, Pick(n, draws[i].0), Pick(n, draws[i].1)), pop[i].fitness)
      else pop[i])
  }

  /** `for (j = start; j < n; j++) swap(route[j], route[randint(0, n-1)])`. */
  function Mutate(route: Route, j: nat, raws: seq<nat>): (r: Route)
    requires 1 <= |route| && j <= |route| && |raws| == |route| - j
    ensures |r| == |route| && multiset(r) == multiset(route)
    decreases |route| - j
  {
    if j == |route| then route
    else Mutate(Swap(route, j, Pick(|route|, raws[0])), j + 1, raws[1..])
  }

  /** Each entry of `route` before `j` is still at its place in `r`, or sits somewhere in `r`'s suffix from `j` on. */
  predicate KeptOrMoved(r: Route, route: Route, j: nat)
    requires j <= |route| <= |r|
  {
    forall k | 0 <= k < j :: r[k] == route[k] || route[k] in r[j..]
  }

  /** The swaps only touch the suffix: each entry before `j` stays in place or has been moved into the suffix. */
  lemma {:induction false} MutatePrefix(route: Route, j: nat, raws: seq<nat>)
    requires 1 <= |route| && j <= |route| && |raws| == |route| - j
    ensures KeptOrMoved(Mutate(route, j, raws), route, j)
    decreases |route| - j, 1
  {
    if j < |route| {
      MutateKeptStep(route, j, raws);
    } else {
      MutateKeptEnd(route, raws);
    }
  }

  /** With no suffix left to mutate, the route is unchanged. */
  lemma MutateKeptEnd(route: Route, raws: seq<nat>)
    requires 1 <= |route| && |raws| == 0
    ensures KeptOrMoved(Mutate(route, |route|, raws), route, |route|)
  {
    assert Mutate(route, |route|, raws) == route;
  }

  /** One step of `Mutate` from `j`: the property from `j + 1` on, carried back to `j`. */
  lemma {:induction false} MutateKeptStep(route: Route, j: nat, raws: seq<nat>)
    requires 1 <= |route| && j < |route| && |raws| == |route| - j
    ensures KeptOrMoved(Mutate(route, j, raws), route, j)
    decreases |route| - j, 0
  {
    var p := Pick(|route|, raws[0]);
    MutatePrefix(Swap(route, j, p), j + 1, raws[1..]);
    KeptStep(Mutate(route, j, raws), route, j, p);
  }

  /** Swapping position `j` with `p` and keeping the entries before `j + 1` keeps those of the original before `j`. */
  lemma KeptStep(r: Route, route: Route, j: nat, p: nat)
    requires j < |route| == |r| && p < |route|
    requires KeptOrMoved(r, Swap(route, j, p), j + 1)
    ensures KeptOrMoved(r, route, j)
  {
    var s := Swap(route, j, p);
    forall k | 0 <= k < j
      ensures r[k] == route[k] || route[k] in r[j..]
    {
      var q := if k == p then j else k;
      assert s[q] == route[k];
      if q == j {
        assert r[j..][0] == r[q];
      } else if r[q] != s[q] {
        var m :| 0 <= m < |r[j + 1..]| && r[j + 1..][m] == s[q];
        assert r[j..][m + 1] == s[q];
      }
    }
  }

  /**
   * Scrounger stage: each slot from `np` on gets a copy of `pop[0]`'s route
   * (already perturbed by its producer swap), whose positions `n/2..n-1` are
   * then each exchanged with an arbitrary position; fitness fields stay stale.
   * The contract pins the producers and the fitness fields; the contents of a
   * scrounger slot are stated by `ScroungerCopiesLeader`.
   */
  function Scroungers(pop: seq<Sparrow>, np: nat, n: nat, raws: seq<seq<nat>>): (r: seq<Sparrow>)
    requires n >= 1 && 1 <= np <= |pop| && |raws| == |pop| - np && Feasible(pop, n)
    requires forall k | 0 <= k < |raws| :: |raws[k]| == n - n / 2
    ensures |r| == |pop| && Feasible(r, n)
    ensures forall i | 0 <= i < |pop| :: r[i].fitness == pop[i].fitness
    ensures forall i | 0 <= i < np :: r[i] == pop[i]
    ensures forall i | np <= i < |pop| :: multiset(r[i].route) == multiset(pop[0].route)
  {
    seq(|pop|, i requires 0 <= i < |pop| =>
      if i < np then pop[i] else Sparrow(Scrounge(pop[0].route, n, raws[i - np]), pop[i].fitness))
  }

  /**
   * Scrounger `i` holds a copy of the leader's route (slot 0, which the loop
   * never overwrites) with positions `n/2..n-1` exchanged by its own draws.
   */
  lemma ScroungerCopiesLeader(pop: seq<Sparrow>, np: nat, n: nat, raws: seq<seq<nat>>, i: nat)
    requires n >= 1 && 1 <= np <= |pop| && |raws| == |pop| - np && Feasible(pop, n)
    requires forall k | 0 <= k < |raws| :: |raws[k]| == n - n / 2
    requires np <= i < |pop|
    ensures Scroungers(pop, np, n, raws)[i] == Sparrow(Mutate(pop[0].route, n / 2, raws[i - np]), pop[i].fitness)
  {
  }

  /** One scrounger's copy of the leader's route with its second half mutated: still a permutation. */
  function Scrounge(route: Route, n: nat, raw: seq<nat>): (r: Route)
    requires n >= 1 && IsPermutation(route, n) && |raw| == n - n / 2
    ensures IsPermutation(r, n) && multiset(r) == multiset(route)
  {
    var r := Mutate(route, n / 2, raw);
    MultisetPermutation(r, n);
    r
  }

  /** Slot `i` is the target of some jump among `jumps[k..]`. */
  predicate Jumped(jumps: seq<(nat, seq<nat>)>, k: nat, popSize: nat, i: nat)
    requires popSize >= 1
    decreases |jumps| - k
  {
    k < |jumps| && (Pick(popSize, jumps[k].0) == i || Jumped(jumps, k + 1, popSize, i))
  }

  /** The last jump among `jumps[k..]` that hits slot `i`: the one whose route the slot keeps. */
  function LastPick(jumps: seq<(nat, seq<nat>)>, k: nat, popSize: nat, i: nat): (m: nat)
    requires popSize >= 1 && Jumped(jumps, k, popSize, i)
    ensures k <= m < |jumps| && Pick(popSize, jumps[m].0) == i
    ensures !Jumped(jumps, m + 1, popSize, i)
    decreases |jumps| - k
  {
    if Jumped(jumps, k + 1, popSize, i) then LastPick(jumps, k + 1, popSize, i) else k
  }

  /**
   * Danger stage from jump `k` on: slot `randint(0, pop-1)` gets a fresh
   * `random_route`; a slot may be hit twice. Fitness fields stay stale.
   */
  function Restarts(pop: seq<Sparrow>, n: nat, jumps: seq<(nat, seq<nat>)>, k: nat): (r: seq<Sparrow>)
    requires |pop| >= 1 && k <= |jumps| && Feasible(pop, n)
    requires forall m | 0 <= m < |jumps| :: |jumps[m].1| == RouteRawCount(n)
    ensures |r| == |pop| && Feasible(r, n)
    ensures forall i | 0 <= i < |pop| :: r[i].fitness == pop[i].fitness
    ensures forall i | 0 <= i < |pop| && !Jumped(jumps, k, |pop|, i) :: r[i] == pop[i]
    ensures forall i | 0 <= i < |pop| && Jumped(jumps, k, |pop|, i) ::
      r[i].route == RandomPermutation(n, RouteDraws(n, jumps[LastPick(jumps, k, |pop|, i)].1))
    decreases |jumps| - k
  {
    if k == |jumps| then pop
    else
      var idx := Pick(|pop|, jumps[k].0);
      var newRoute := RandomPermutation(n, RouteDraws(n, jumps[k].1));
      FeasibleUpdate(pop, n, idx, newRoute);
      var r := Restarts(pop[idx := Sparrow(newRoute, pop[idx].fitness)], n, jumps, k + 1);
      assert forall i | 0 <= i < |pop| && Jumped(jumps, k, |pop|, i) ::
        r[i].route == RandomPermutation(n, RouteDraws(n, jumps[LastPick(jumps, k, |pop|, i)].1)) by {
        forall i | 0 <= i < |pop| && Jumped(jumps, k, |pop|, i)
          ensures r[i].route == RandomPermutation(n, RouteDraws(n, jumps[LastPick(jumps, k, |pop|, i)].1))
        {
          if !Jumped(jumps, k + 1, |pop|, i) {
            assert i == idx;
          }
        }
      }
      r
  }

  /**
   * Giving one slot another permutation, its fitness field untouched, keeps
   * the population feasible, every fitness field and every other slot.
   */
  lemma FeasibleUpdate(pop: seq<Sparrow>, n: nat, idx: nat, route: Route)
    requires Feasible(pop, n) && idx < |pop| && IsPermutation(route, n)
    ensures Feasible(pop[idx := Sparrow(route, pop[idx].fitness)], n)
    ensures forall i | 0 <= i < |pop| :: pop[idx := Sparrow(route, pop[idx].fitness)][i].fitness == pop[i].fitness
    ensures forall i | 0 <= i < |pop| && i != idx :: pop[idx := Sparrow(route, pop[idx].fitness)][i] == pop[i]
  {
    var p := pop[idx := Sparrow(route, pop[idx].fitness)];
    forall i | 0 <= i < |p|
      ensures IsPermutation(p[i].route, n)
    {
      if i != idx {
        assert p[i] == pop[i];
      }
    }
  }

  /** The number of `j` in `1..k-1` with `route[j-1] == u` and `route[j] == v`: how often the edge `u -> v` is walked. */
  function EdgeCount(route: Route, k: nat, u: nat, v: nat): nat
    requires k <= |route|
  {
    if k <= 1 then 0
    else EdgeCount(route, k - 1, u, v) + (if route[k - 2] == u && route[k - 1] == v then 1 else 0)
  }

  /** A route with no repeated node never walks a self-loop. */
  lemma {:induction false} EdgeCountDistinct(route: Route, k: nat, v: nat)
    requires k <= |route| && Distinct(route)
    ensures EdgeCount(route, k, v, v) == 0
  {
    if k > 1 {
      EdgeCountDistinct(route, k - 1, v);
    }
  }

  /** `for (j = 1; j < len; j++) visit_matrix[route[j-1]][route[j]]++`. */
  method AddEdges(visits: seq<seq<int>>, route: Route) returns (r: seq<seq<int>>)
    requires IsSquare(visits, |visits|) && InRange(route, |visits|)
    ensures IsSquare(r, |visits|)
    ensures forall u, v | 0 <= u < |visits| && 0 <= v < |visits| ::
      r[u][v] == visits[u][v] + EdgeCount(route, |route|, u, v)
    ensures |route| >= 1 ==> MatrixSum(r) == MatrixSum(visits) + (|route| - 1)
  {
    r := visits;
    if |route| == 0 {
      return;
    }
    var j := 1;
    while j < |route|
      invariant 1 <= j <= |route| && IsSquare(r, |visits|)
      invariant MatrixSum(r) == MatrixSum(visits) + (j - 1)
      invariant forall u, v | 0 <= u < |visits| && 0 <= v < |visits| ::
        r[u][v] == visits[u][v] + EdgeCount(route, j, u, v)
    {
      var a, b := route[j - 1], route[j];
      MatrixSumIncrement(r, a, b);
      r := r[a := r[a][b := r[a][b] + 1]];
      j := j + 1;
    }
  }

  /** Every diagonal cell of the visit matrix is zero. */
  predicate ZeroDiagonal(m: seq<seq<int>>)
    requires IsSquare(m, |m|)
  {
    forall v | 0 <= v < |m| :: m[v][v] == 0
  }

  /** The C best-so-far: `global_best` and `gb_route[0..gb_len-1]`. */
  datatype Best = Best(fitness: real, route: Route)

  /** Either nothing was recorded yet (`gb_len == 0`, `global_best == 1e308`) or a permutation of exactly that weight was copied. */
  predicate BestValid(adj: Matrix, b: Best)
  {
    || (b.route == [] && b.fitness == Sentinel)
    || (b.fitness < Sentinel && IsSquare(adj, |adj|) && IsPermutation(b.route, |adj|)
        && Fitness(adj, b.route) == b.fitness)
  }

  /** Counting the edges of a permutation route adds `n - 1` visits and none on the diagonal. */
  method CountRouteEdges(visits: seq<seq<int>>, route: Route, n: nat) returns (r: seq<seq<int>>)
    requires n >= 1 && IsSquare(visits, n) && ZeroDiagonal(visits) && IsPermutation(route, n)
    ensures IsSquare(r, n) && ZeroDiagonal(r)
    ensures MatrixSum(r) == MatrixSum(visits) + (n - 1)
  {
    PermutationDistinct(route, n);
    forall v | 0 <= v < n ensures EdgeCount(route, |route|, v, v) == 0 {
      EdgeCountDistinct(route, |route|, v);
    }
    r := AddEdges(visits, route);
  }

  /**
   * The evaluation of one sparrow: its fitness, its edges counted, and the
   * best-so-far replaced by a copy of its route when strictly better.
   */
  method EvaluateSparrow(adj: Matrix, route: Route, visits: seq<seq<int>>, best: Best)
    returns (f: real, visits': seq<seq<int>>, best': Best)
    requires IsSquare(adj, |adj|) && |adj| >= 1 && IsPermutation(route, |adj|)
    requires IsSquare(visits, |adj|) && ZeroDiagonal(visits)
    requires BestValid(adj, best)
    ensures f == Fitness(adj, route)
    ensures IsSquare(visits', |adj|) && ZeroDiagonal(visits')
    ensures MatrixSum(visits') == MatrixSum(visits) + (|adj| - 1)
    ensures BestValid(adj, best') && best'.fitness <= best.fitness && best'.fitness <= f
    ensures best'.fitness == best.fitness ==> best' == best
    ensures best'.fitness < best.fitness ==> best' == Best(f, route)
  {
    f := Evaluate(adj, route);
    FitnessIsPathWeight(adj, route);
    visits' := CountRouteEdges(visits, route, |adj|);
    best' := best;
    if f < best.fitness {
      best' := Best(f, route);
    }
  }

  /** Slots `0..i-1` have up-to-date fitness fields, none lighter than `f`, and every route is the one of `orig`. */
  predicate Evaluated(adj: Matrix, pop: seq<Sparrow>, orig: seq<Sparrow>, i: nat, f: real)
    requires IsSquare(adj, |adj|) && Feasible(pop, |adj|)
  {
    && |pop| == |orig| && i <= |pop|
    && (forall k | 0 <= k < |pop| :: pop[k].route == orig[k].route)
    && (forall k | 0 <= k < i :: pop[k].fitness == Fitness(adj, pop[k].route) && f <= pop[k].fitness)
  }

  /** Refreshing slot `i` with its weight `w`, under a best of at most `w` and at most the previous best, extends the evaluated prefix. */
  lemma Refresh(adj: Matrix, pop: seq<Sparrow>, orig: seq<Sparrow>, i: nat, w: real, f: real, f': real)
    requires IsSquare(adj, |adj|) && Feasible(pop, |adj|) && i < |pop|
    requires Evaluated(adj, pop, orig, i, f)
    requires w == Fitness(adj, pop[i].route) && f' <= f && f' <= w
    ensures Feasible(pop[i := Sparrow(pop[i].route, w)], |adj|)
    ensures Evaluated(adj, pop[i := Sparrow(pop[i].route, w)], orig, i + 1, f')
  {
    var p := pop[i := Sparrow(pop[i].route, w)];
    forall k | 0 <= k < |p|
      ensures IsPermutation(p[k].route, |adj|) && p[k].route == orig[k].route
    {
      assert p[k].route == pop[k].route;
    }
    forall k | 0 <= k < i + 1
      ensures p[k].fitness == Fitness(adj, p[k].route) && f' <= p[k].fitness
    {
      if k < i {
        assert p[k] == pop[k];
      }
    }
  }

  /**
   * Evaluation stage: each sparrow's fitness is recomputed, its edges are
   * counted, and it is copied into the best-so-far when strictly better.
   */
  method EvaluatePhase(adj: Matrix, pop: seq<Sparrow>, visits: seq<seq<int>>, best: Best)
    returns (pop': seq<Sparrow>, visits': seq<seq<int>>, best': Best)
    requires IsSquare(adj, |adj|) && |adj| >= 1 && Feasible(pop, |adj|)
    requires IsSquare(visits, |adj|) && ZeroDiagonal(visits)
    requires BestValid(adj, best)
    ensures |pop'| == |pop| && Feasible(pop', |adj|) && Accurate(adj, pop')
    ensures forall i | 0 <= i < |pop| :: pop'[i].route == pop[i].route
    ensures IsSquare(visits', |adj|) && ZeroDiagonal(visits')
    ensures MatrixSum(visits') == MatrixSum(visits) + |pop| * (|adj| - 1)
    ensures BestValid(adj, best') && best'.fitness <= best.fitness
    ensures best'.fitness == best.fitness ==> best' == best
    ensures best'.fitness < best.fitness ==> exists i | 0 <= i < |pop'| :: best' == Best(pop'[i].fitness, pop'[i].route)
    ensures forall i | 0 <= i < |pop'| :: best'.fitness <= pop'[i].fitness
  {
    ghost var w;
    pop', visits', best', w := EvaluateLoop(adj, pop, visits, best);
    AchievedWitness(pop', best', best, w, |pop|);
  }

  /** The `for (int i = 0; i < pop; i++)` loop itself, with the witness of the best as a ghost result. */
  method EvaluateLoop(adj: Matrix, pop: seq<Sparrow>, visits: seq<seq<int>>, best: Best)
    returns (pop': seq<Sparrow>, visits': seq<seq<int>>, best': Best, ghost w: nat)
    requires IsSquare(adj, |adj|) && |adj| >= 1 && Feasible(pop, |adj|)
    requires IsSquare(visits, |adj|) && ZeroDiagonal(visits)
    requires BestValid(adj, best)
    ensures Feasible(pop', |adj|) && Evaluated(adj, pop', pop, |pop|, best'.fitness)
    ensures IsSquare(visits', |adj|) && ZeroDiagonal(visits')
    ensures MatrixSum(visits') == MatrixSum(visits) + |pop| * (|adj| - 1)
    ensures BestValid(adj, best') && best'.fitness <= best.fitness
    ensures best'.fitness == best.fitness ==> best' == best
    ensures Achieved(pop', best', best, w, |pop|)
  {
    var n := |adj|;
    pop', visits', best' := pop, visits, best;
    var i := 0;
    w := 0;
    while i < |pop|
      invariant Feasible(pop', n) && Evaluated(adj, pop', pop, i, best'.fitness)
      invariant IsSquare(visits', n) && ZeroDiagonal(visits')
      invariant MatrixSum(visits') == MatrixSum(visits) + i * (n - 1)
      invariant BestValid(adj, best') && best'.fitness <= best.fitness
      invariant best'.fitness == best.fitness ==> best' == best
      invariant Achieved(pop', best', best, w, i)
    {
      pop', visits', best', w := EvaluateSlot(adj, pop', pop, i, visits', best', best, w);
      MulSucc(i, n - 1);
      i := i + 1;
    }
  }

  /** One pass of the evaluation loop at slot `i`: the evaluated prefix, the visit count and the best's witness all grow by one. */
  method EvaluateSlot(adj: Matrix, pop: seq<Sparrow>, orig: seq<Sparrow>, i: nat, visits: seq<seq<int>>, best: Best, start: Best, ghost w: nat)
    returns (pop': seq<Sparrow>, visits': seq<seq<int>>, best': Best, ghost w': nat)
    requires IsSquare(adj, |adj|) && |adj| >= 1 && i < |pop|
    requires Feasible(pop, |adj|) && Evaluated(adj, pop, orig, i, best.fitness)
    requires IsSquare(visits, |adj|) && ZeroDiagonal(visits)
    requires BestValid(adj, best) && best.fitness <= start.fitness
    requires best.fitness == start.fitness ==> best == start
    requires Achieved(pop, best, start, w, i)
    ensures Feasible(pop', |adj|) && Evaluated(adj, pop', orig, i + 1, best'.fitness)
    ensures IsSquare(visits', |adj|) && ZeroDiagonal(visits')
    ensures MatrixSum(visits') == MatrixSum(visits) + (|adj| - 1)
    ensures BestValid(adj, best') && best'.fitness <= start.fitness
    ensures best'.fitness == start.fitness ==> best' == start
    ensures Achieved(pop', best', start, w', i + 1)
  {
    var route := pop[i].route;
    var f;
    f, visits', best' := EvaluateSparrow(adj, route, visits, best);
    Refresh(adj, pop, orig, i, f, best.fitness, best'.fitness);
    AchievedStep(pop, best, best', start, w, i, f);
    w' := if best'.fitness < best.fitness then i else w;
    pop' := pop[i := Sparrow(route, f)];
  }

  /** A best below the starting one is a copy of slot `w`, one of the first `i` evaluated. */
  predicate Achieved(pop: seq<Sparrow>, b: Best, best: Best, w: nat, i: nat)
  {
    b.fitness < best.fitness ==> w < i && w < |pop| && b == Best(pop[w].fitness, pop[w].route)
  }

  /** Evaluating slot `i` keeps the witness: a strictly better `b` is the new sparrow, otherwise `b` is the old best. */
  lemma AchievedStep(pop: seq<Sparrow>, b: Best, b': Best, best: Best, w: nat, i: nat, f: real)
    requires i < |pop| && Achieved(pop, b, best, w, i)
    requires b.fitness <= best.fitness && b'.fitness <= b.fitness
    requires b'.fitness == b.fitness ==> b' == b
    requires b'.fitness < b.fitness ==> b' == Best(f, pop[i].route)
    ensures Achieved(pop[i := Sparrow(pop[i].route, f)], b', best, if b'.fitness < b.fitness then i else w, i + 1)
  {
  }

  /** The witness of `Achieved` is a slot of the population. */
  lemma AchievedWitness(pop: seq<Sparrow>, b: Best, best: Best, w: nat, i: nat)
    requires Achieved(pop, b, best, w, i)
    ensures b.fitness < best.fitness ==> exists k | 0 <= k < |pop| :: b == Best(pop[k].fitness, pop[k].route)
  {
  }

  /** One iteration of the main loop: sort, producers, scroungers, danger-aware restarts, evaluation. */
  method Iteration(adj: Matrix, pop: seq<Sparrow>, visits: seq<seq<int>>, best: Best, d: CDraws)
    returns (pop': seq<Sparrow>, visits': seq<seq<int>>, best': Best)
    requires IsSquare(adj, |adj|) && |adj| >= 1 && |pop| >= 1 && Feasible(pop, |adj|)
    requires ValidCDraws(d, |adj|, |pop|)
    requires IsSquare(visits, |adj|) && ZeroDiagonal(visits)
    requires BestValid(adj, best)
    ensures |pop'| == |pop| && Feasible(pop', |adj|) && Accurate(adj, pop')
    ensures IsSquare(visits', |adj|) && ZeroDiagonal(visits')
    ensures MatrixSum(visits') == MatrixSum(visits) + |pop| * (|adj| - 1)
    ensures BestValid(adj, best') && best'.fitness <= best.fitness
    ensures best'.fitness == best.fitness ==> best' == best
    ensures best'.fitness < best.fitness ==> exists i | 0 <= i < |pop'| :: best' == Best(pop'[i].fitness, pop'[i].route)
    ensures forall i | 0 <= i < |pop'| :: best'.fitness <= pop'[i].fitness
  {
    var n := |adj|;
    var sorted := SortByFitness(pop);
    RearrangedPopulation(adj, pop, sorted, n);
    var np := ProducerCount(|pop|);
    var p1 := Producers(sorted, n, d.producers);
    var p2 := Scroungers(p1, np, n, d.scroungers);
    var p3 := Restarts(p2, n, d.restarts, 0);
    pop', visits', best' := EvaluatePhase(adj, p3, visits, best);
  }

  /** One sparrow of the initial population: `random_route` then `evaluate`. */
  method NewSparrow(adj: Matrix, raws: seq<nat>) returns (s: Sparrow)
    requires IsSquare(adj, |adj|) && |raws| == RouteRawCount(|adj|)
    ensures s.route == RandomPermutation(|adj|, RouteDraws(|adj|, raws))
    ensures IsPermutation(s.route, |adj|) && s.fitness == Fitness(adj, s.route)
  {
    var route := RandomRoute(|adj|, raws);
    var f := Evaluate(adj, route);
    FitnessIsPathWeight(adj, route);
    s := Sparrow(route, f);
  }

  /** Appending a sparrow whose route is a permutation with an accurate fitness keeps the population feasible and accurate. */
  lemma AppendSparrow(adj: Matrix, pop: seq<Sparrow>, s: Sparrow)
    requires Feasible(pop, |adj|) && Accurate(adj, pop)
    requires IsPermutation(s.route, |adj|) && s.fitness == Fitness(adj, s.route)
    ensures Feasible(pop + [s], |adj|) && Accurate(adj, pop + [s])
  {
    var p := pop + [s];
    forall i | 0 <= i < |p|
      ensures IsPermutation(p[i].route, |adj|)
      ensures InRange(p[i].route, |adj|) && p[i].fitness == Fitness(adj, p[i].route)
    {
      if i < |pop| {
        assert p[i] == pop[i];
      } else {
        assert p[i] == s;
      }
    }
  }

  /** Slot `k` holds the route `random_route` makes from the `k`-th batch of `rand()` values. */
  predicate FromDraws(pop: seq<Sparrow>, n: nat, raws: seq<seq<nat>>)
  {
    && |pop| <= |raws|
    && forall k | 0 <= k < |pop| ::
         |raws[k]| == RouteRawCount(n) && pop[k].route == RandomPermutation(n, RouteDraws(n, raws[k]))
  }

  /** Appending the sparrow of the next batch of draws keeps `FromDraws`. */
  lemma FromDrawsAppend(pop: seq<Sparrow>, s: Sparrow, n: nat, raws: seq<seq<nat>>)
    requires FromDraws(pop, n, raws) && |pop| < |raws| && |raws[|pop|]| == RouteRawCount(n)
    requires s.route == RandomPermutation(n, RouteDraws(n, raws[|pop|]))
    ensures FromDraws(pop + [s], n, raws)
  {
    var p := pop + [s];
    forall k | 0 <= k < |p|
      ensures |raws[k]| == RouteRawCount(n) && p[k].route == RandomPermutation(n, RouteDraws(n, raws[k]))
    {
      if k < |pop| {
        assert p[k] == pop[k];
      }
    }
  }

  /** The initial population, one fresh evaluated sparrow per slot. */
  method InitialPopulation(adj: Matrix, raws: seq<seq<nat>>) returns (pop: seq<Sparrow>)
    requires IsSquare(adj, |adj|)
    requires forall i | 0 <= i < |raws| :: |raws[i]| == RouteRawCount(|adj|)
    ensures |pop| == |raws| && Feasible(pop, |adj|) && Accurate(adj, pop)
    ensures forall i | 0 <= i < |raws| :: pop[i].route == RandomPermutation(|adj|, RouteDraws(|adj|, raws[i]))
  {
    pop := [];
    var i := 0;
    while i < |raws|
      invariant i <= |raws| && |pop| == i && Feasible(pop, |adj|) && Accurate(adj, pop)
      invariant FromDraws(pop, |adj|, raws)
    {
      var s := NewSparrow(adj, raws[i]);
      AppendSparrow(adj, pop, s);
      FromDrawsAppend(pop, s, |adj|, raws);
      pop := pop + [s];
      i := i + 1;
    }
  }

  /**
   * `node_visits`: for every off-diagonal cell `(i, j)`, add it to node `i`
   * (outgoing) and to node `j` (incoming). The same loop as the Python
   * `calculate_node_visit_counts`, so the same vector.
   */
  method NodeVisits(m: seq<seq<int>>) returns (node: seq<int>)
    requires IsSquare(m, |m|)
    ensures node == CalculateNodeVisitCounts(m) && node == NodeTotals(m)
    ensures Sum(node) == 2 * OffDiagonal(m, |m|)
  {
    var n := |m|;
    node := ZeroVector(n);
    var i := 0;
    while i < n
      invariant i <= n && node == RowsPass(m, i)
    {
      var j := 0;
      while j < n
        invariant j <= n && node == RowPass(m, i, j, RowsPass(m, i))
      {
        if i != j {
          node := node[i := node[i] + m[i][j]];
          node := node[j := node[j] + m[i][j]];
        }
        j := j + 1;
      }
      i := i + 1;
    }
  }

  /** No weight of `adj` exceeds `w`. */
  predicate WeightsAtMost(adj: Matrix, w: real)
  {
    forall i, j | 0 <= i < |adj| && 0 <= j < |adj[i]| :: adj[i][j] <= w
  }

  /**
   * `for (iter = 0; iter < max_iter; iter++)`: every iteration adds
   * `population_size * (n - 1)` edge visits and never raises `global_best`.
   */
  method MainLoop(adj: Matrix, pop: seq<Sparrow>, maxIter: int, iters: seq<CDraws>)
    returns (pop': seq<Sparrow>, visits: seq<seq<int>>, best: Best)
    requires IsSquare(adj, |adj|) && Feasible(pop, |adj|) && Accurate(adj, pop)
    requires maxIter >= 1 ==> |adj| >= 1 && |pop| >= 1
    requires |iters| >= Iterations(maxIter)
    requires forall k | 0 <= k < |iters| :: ValidCDraws(iters[k], |adj|, |pop|)
    ensures |pop'| == |pop| && Feasible(pop', |adj|) && Accurate(adj, pop')
    ensures maxIter <= 0 ==> best == Best(Sentinel, [])
    ensures BestValid(adj, best)
    ensures maxIter >= 1 ==> forall i | 0 <= i < |pop'| :: best.fitness <= pop'[i].fitness
    ensures IsSquare(visits, |adj|) && ZeroDiagonal(visits)
    ensures MatrixSum(visits) == Iterations(maxIter) * (|pop| * (|adj| - 1))
  {
    var n := |adj|;
    visits := Zeros(n);
    MatrixSumZeros(visits);
    pop' := pop;
    best := Best(Sentinel, []);
    var k := 0;
    while k < Iterations(maxIter)
      invariant k <= Iterations(maxIter) && |pop'| == |pop| && Feasible(pop', n) && Accurate(adj, pop')
      invariant IsSquare(visits, n) && ZeroDiagonal(visits)
      invariant MatrixSum(visits) == k * (|pop| * (n - 1))
      invariant BestValid(adj, best)
      invariant k == 0 ==> best == Best(Sentinel, [])
      invariant k >= 1 ==> forall i | 0 <= i < |pop'| :: best.fitness <= pop'[i].fitness
    {
      pop', visits, best := Iteration(adj, pop', visits, best, iters[k]);
      MulSucc(k, |pop| * (n - 1));
      k := k + 1;
    }
  }

  /** With weights at most `w` and `(n-1) * w` below the sentinel, any evaluated sparrow beats `1e308`, so a route was copied. */
  lemma BestRecorded(adj: Matrix, pop: seq<Sparrow>, best: Best, w: real)
    requires IsSquare(adj, |adj|) && Feasible(pop, |adj|) && Accurate(adj, pop) && |pop| >= 1
    requires BestValid(adj, best) && forall i | 0 <= i < |pop| :: best.fitness <= pop[i].fitness
    requires WeightsAtMost(adj, w) && 0.0 <= w && (|adj| - 1) as real * w < Sentinel
    ensures |best.route| == |adj|
  {
    FitnessBound(adj, pop[0].route, w);
  }

  /**
   * `run_ssa(g, population_size, max_iter, best_route, out_len)` without its
   * file output. `max_iter >= 1` needs at least one node and one sparrow
   * (otherwise `randint(0, -1)` divides by zero or `pop[0]` is out of
   * bounds). Returns the best route (`best_route[0..out_len-1]`), the
   * final `global_best`, the visit matrix and the per-node totals.
   */
  method RunSsa(adj: Matrix, popSize: nat, maxIter: int, init: seq<seq<nat>>, iters: seq<CDraws>)
    returns (route: Route, globalBest: real, visits: seq<seq<int>>, nodeVisits: seq<int>)
    requires IsSquare(adj, |adj|) && |init| == popSize
    requires forall i | 0 <= i < |init| :: |init[i]| == RouteRawCount(|adj|)
    requires maxIter >= 1 ==> |adj| >= 1 && popSize >= 1
    requires |iters| >= Iterations(maxIter)
    requires forall k | 0 <= k < |iters| :: ValidCDraws(iters[k], |adj|, popSize)
    ensures maxIter <= 0 ==> route == [] && globalBest == Sentinel
    ensures route == [] <==> globalBest == Sentinel
    ensures route != [] ==> IsPermutation(route, |adj|) && Fitness(adj, route) == globalBest < Sentinel
    ensures IsSquare(visits, |adj|) && ZeroDiagonal(visits)
    ensures MatrixSum(visits) == Iterations(maxIter) * (popSize * (|adj| - 1))
    ensures nodeVisits == NodeTotals(visits) && Sum(nodeVisits) == 2 * MatrixSum(visits)
    ensures forall w: real | WeightsAtMost(adj, w) ::
      maxIter >= 1 && 0.0 <= w && (|adj| - 1) as real * w < Sentinel ==> |route| == |adj|
  {
    var n := |adj|;
    var pop := InitialPopulation(adj, init);
    var best;
    pop, visits, best := MainLoop(adj, pop, maxIter, iters);
    route, globalBest := best.route, best.fitness;
    nodeVisits := NodeVisits(visits);
    OffDiagonalZeroDiagonal(visits, n);
    assert visits[..n] == visits;
    BestRecordedAll(adj, pop, best, maxIter);
  }

  /** `BestRecorded` for every weight bound at once, and vacuous when no iteration ran. */
  lemma BestRecordedAll(adj: Matrix, pop: seq<Sparrow>, best: Best, maxIter: int)
    requires IsSquare(adj, |adj|) && Feasible(pop, |adj|) && Accurate(adj, pop) && BestValid(adj, best)
    requires maxIter >= 1 ==> |pop| >= 1 && forall i | 0 <= i < |pop| :: best.fitness <= pop[i].fitness
    ensures forall w: real | WeightsAtMost(adj, w) ::
      maxIter >= 1 && 0.0 <= w && (|adj| - 1) as real * w < Sentinel ==> |best.route| == |adj|
  {
    forall w: real | WeightsAtMost(adj, w)
      ensures maxIter >= 1 && 0.0 <= w && (|adj| - 1) as real * w < Sentinel ==> |best.route| == |adj|
    {
      if maxIter >= 1 && 0.0 <= w && (|adj| - 1) as real * w < Sentinel {
        BestRecorded(adj, pop, best, w);
      }
    }
  }
}
