/**
 * The Python route optimiser (`evaluate_route`, `ssa_optimize` and the
 * argument checks of `main` in map_generator.py).
 *
 * Random draws are explicit arguments. The population is a sequence of
 * routes that is never re-sorted; producers are the first
 * `max(population_size // 5, 1)` slots by position. The list object bound to
 * `best_route` is tracked by `BestRef`: right after initialisation it IS the
 * list in one population slot (`Slot`), so in-place producer swaps on that
 * slot change it too; once that slot is re-bound to another list, or once a
 * strictly better route is found and copied, it is a list no slot shares
 * (`Detached`).
 */
module PyEngine {
  import opened Wrappers
  import opened Routes
  import opened Sums
  import opened Schedule

  /** Why `ssa_optimize` raises instead of returning. */
  datatype PyError =
    | SampleLargerThanPopulation  // `random.sample(range(n), 2)` with n < 2
    | MinOfEmptySequence          // `min(fitness)` with no individuals

  /** Which list object the name `best_route` is bound to. */
  datatype BestRef =
    | Slot(index: nat)        // the very list stored in `population[index]`
    | Detached(route: Route)  // a list no population slot shares

  /** The optimiser's variables between statements of the main loop. */
  datatype State = State(population: seq<Route>, best: BestRef, bestFitness: real, visits: seq<int>)

  /** Every individual is a permutation of the `n` nodes. */
  predicate AllPermutations(pop: seq<Route>, n: nat)
  {
    forall i | 0 <= i < |pop| :: IsPermutation(pop[i], n)
  }

  /** The alias, if any, points at an existing slot. */
  predicate BestInBounds(st: State)
  {
    st.best.Slot? ==> st.best.index < |st.population|
  }

  /** The shape every reachable state has. */
  predicate Wf(adj: Matrix, st: State)
  {
    && IsSquare(adj, |adj|)
    && |st.population| >= 1
    && AllPermutations(st.population, |adj|)
    && BestInBounds(st)
    && (st.best.Detached? ==> IsPermutation(st.best.route, |adj|))
    && |st.visits| == |adj|
  }

  /** The current contents of the list bound to `best_route`. */
  function BestRoute(st: State): Route
    requires BestInBounds(st)
  {
    match st.best
    case Slot(i) => st.population[i]
    case Detached(r) => r
  }

  lemma BestRouteIsPermutation(adj: Matrix, st: State)
    requires Wf(adj, st)
    ensures IsPermutation(BestRoute(st), |adj|)
  {
  }

  /** `evaluate_route`: the weight of the open path, as the shared evaluator computes it. */
  function EvaluateRoute(adj: Matrix, route: Route): (f: real)
    requires Indexes(adj, route)
    ensures f == PathWeight(adj, route)
    ensures NonNegative(adj) ==> f >= 0.0
  {
    FitnessIsPathWeight(adj, route);
    Fitness(adj, route)
  }

  // ---------------------------------------------------------------- draws

  /** One danger-aware restart: the slot drawn by `random.randint` and the shuffle of the fresh permutation. */
  datatype Jump = Jump(slot: nat, draws: seq<nat>)

  /**
   * The random choices of one iteration: one `random.sample` pair per
   * producer and one `Jump` per restart. The scrounger's shuffle needs no
   * draws here because its result is discarded.
   */
  datatype IterDraws = IterDraws(swaps: seq<(nat, nat)>, jumps: seq<Jump>)

  /** Two distinct positions of an `n`-node route, as `random.sample(range(n), 2)` returns them. */
  predicate ValidSwaps(swaps: seq<(nat, nat)>, n: nat)
  {
    forall k | 0 <= k < |swaps| :: swaps[k].0 < n && swaps[k].1 < n && swaps[k].0 != swaps[k].1
  }

  predicate ValidJumps(jumps: seq<Jump>, n: nat, popSize: nat)
  {
    forall k | 0 <= k < |jumps| :: jumps[k].slot < popSize && ValidDraws(jumps[k].draws, n)
  }

  /** Draws the random module can produce for one iteration (no pair exists when n < 2). */
  predicate ValidIterDraws(d: IterDraws, n: nat, popSize: nat)
  {
    && |d.swaps| == ProducerCount(popSize)
    && (n >= 2 ==> ValidSwaps(d.swaps, n))
    && |d.jumps| == DangerCount(popSize)
    && ValidJumps(d.jumps, n, popSize)
  }

  // ---------------------------------------------------------------- phases

  /**
   * Producer phase: route `i < |swaps|` has positions `a != b` exchanged in
   * place; every other slot is untouched.
   */
  function ProducerPhase(pop: seq<Route>, swaps: seq<(nat, nat)>, n: nat): (r: seq<Route>)
    requires |swaps| <= |pop|
    requires AllPermutations(pop, n) && ValidSwaps(swaps, n)
    ensures |r| == |pop| && AllPermutations(r, n)
    ensures forall i | |swaps| <= i < |pop| :: r[i] == pop[i]
    ensures forall i | 0 <= i < |swaps| ::
      && r[i] != pop[i]
      && r[i][swaps[i].0] == pop[i][swaps[i].1]
      && r[i][swaps[i].1] == pop[i][swaps[i].0]
      && forall k | 0 <= k < n && k != swaps[i].0 && k != swaps[i].1 :: r[i][k] == pop[i][k]
  {
    forall i | 0 <= i < |swaps| ensures IsPermutation(Swap(pop[i], swaps[i].0, swaps[i].1), n) {
      SwapPermutation(pop[i], n, swaps[i].0, swaps[i].1);
    }
    forall i | 0 <= i < |swaps| ensures Swap(pop[i], swaps[i].0, swaps[i].1) != pop[i] {
      PermutationDistinct(pop[i], n);
      assert Swap(pop[i], swaps[i].0, swaps[i].1)[swaps[i].0] != pop[i][swaps[i].0];
    }
    seq(|pop|, i requires 0 <= i < |pop| =>
      if i < |swaps| then Swap(pop[i], swaps[i].0, swaps[i].1) else pop[i])
  }

  /**
   * One scrounger step: `population[i] = best_route[:]`. If `best_route` was
   * the list in slot `i`, it stays bound to that (now unlisted) list.
   */
  function Scrounge(st: State, i: nat): (st': State)
    requires BestInBounds(st) && i < |st.population|
  {
    var copy := BestRoute(st);
    var best := if st.best == Slot(i) then Detached(st.population[i]) else st.best;
    st.(population := st.population[i := copy], best := best)
  }

  /**
   * Scrounger phase from slot `i` on: each slot becomes a fresh copy of the
   * best route. `random.shuffle(source[n//2:])` shuffles a temporary slice
   * and leaves `source` as it was, so nothing of it is modelled.
   */
  function ScroungeFrom(st: State, i: nat): (st': State)
    requires BestInBounds(st) && i <= |st.population|
    ensures |st'.population| == |st.population| && BestInBounds(st')
    ensures BestRoute(st') == BestRoute(st)
    ensures forall k | 0 <= k < i :: st'.population[k] == st.population[k]
    ensures forall k | i <= k < |st.population| :: st'.population[k] == BestRoute(st)
    ensures st'.best.Slot? ==> st'.best == st.best && st.best.index < i
    ensures st.best.Detached? ==> st'.best == st.best
    ensures st'.bestFitness == st.bestFitness && st'.visits == st.visits
    decreases |st.population| - i
  {
    if i == |st.population| then st else ScroungeFrom(Scrounge(st, i), i + 1)
  }

  /** One danger-aware restart: slot `j.slot` is re-bound to a fresh random permutation. */
  function Restart(st: State, j: Jump, n: nat): (st': State)
    requires BestInBounds(st) && j.slot < |st.population| && ValidDraws(j.draws, n)
    ensures |st'.population| == |st.population| && BestInBounds(st')
    ensures BestRoute(st') == BestRoute(st)
    ensures st'.population[j.slot] == RandomPermutation(n, j.draws)
    ensures forall i | 0 <= i < |st.population| && i != j.slot :: st'.population[i] == st.population[i]
    ensures AllPermutations(st.population, n) ==> AllPermutations(st'.population, n)
    ensures st.best.Detached? ==> st'.best == st.best
    ensures st'.best.Slot? ==> st'.best == st.best
    ensures st'.bestFitness == st.bestFitness && st'.visits == st.visits
  {
    var best := if st.best == Slot(j.slot) then Detached(st.population[j.slot]) else st.best;
    st.(population := st.population[j.slot := RandomPermutation(n, j.draws)], best := best)
  }

  /** Slot `i` is the target of some restart among `jumps[k..]`. */
  predicate DrawnFrom(jumps: seq<Jump>, k: nat, i: nat)
  {
    exists m | k <= m < |jumps| :: jumps[m].slot == i
  }

  /** The last restart among `jumps[k..]` that targets slot `i`: the one whose route the slot keeps. */
  function LastJump(jumps: seq<Jump>, k: nat, i: nat): (m: nat)
    requires DrawnFrom(jumps, k, i)
    ensures k <= m < |jumps| && jumps[m].slot == i
    ensures !DrawnFrom(jumps, m + 1, i)
    decreases |jumps| - k
  {
    if DrawnFrom(jumps, k + 1, i) then LastJump(jumps, k + 1, i)
    else
      assert jumps[k].slot == i;
      k
  }

  /** Every slot no restart of `jumps[k..]` targets keeps its route from `pop`. */
  predicate UndrawnKept(pop': seq<Route>, pop: seq<Route>, jumps: seq<Jump>, k: nat)
    requires |pop'| == |pop|
  {
    forall i | 0 <= i < |pop| && !DrawnFrom(jumps, k, i) :: pop'[i] == pop[i]
  }

  /** Restart `jumps[k]` changes only its own slot, which is drawn from `k` on. */
  lemma UndrawnStep(pop': seq<Route>, pop1: seq<Route>, pop: seq<Route>, jumps: seq<Jump>, k: nat)
    requires |pop'| == |pop1| == |pop| && k < |jumps|
    requires UndrawnKept(pop', pop1, jumps, k + 1)
    requires forall i | 0 <= i < |pop| && i != jumps[k].slot :: pop1[i] == pop[i]
    ensures UndrawnKept(pop', pop, jumps, k)
  {
    forall i | 0 <= i < |pop| && !DrawnFrom(jumps, k, i)
      ensures pop'[i] == pop[i]
    {
      assert i != jumps[k].slot;
      assert !DrawnFrom(jumps, k + 1, i);
    }
  }

  /** Every slot some restart of `jumps[k..]` targets holds the route of the last such restart. */
  predicate LastDrawKept(pop: seq<Route>, jumps: seq<Jump>, k: nat, n: nat)
    requires ValidJumps(jumps, n, |pop|)
  {
    forall i | 0 <= i < |pop| && DrawnFrom(jumps, k, i) ::
      pop[i] == RandomPermutation(n, jumps[LastJump(jumps, k, i)].draws)
  }

  /** Restart `jumps[k]` is the last one for its slot unless a later restart targets that slot again. */
  lemma LastDrawStep(pop: seq<Route>, jumps: seq<Jump>, k: nat, n: nat)
    requires ValidJumps(jumps, n, |pop|) && k < |jumps|
    requires LastDrawKept(pop, jumps, k + 1, n)
    requires !DrawnFrom(jumps, k + 1, jumps[k].slot) ==> pop[jumps[k].slot] == RandomPermutation(n, jumps[k].draws)
    ensures LastDrawKept(pop, jumps, k, n)
  {
    forall i | 0 <= i < |pop| && DrawnFrom(jumps, k, i)
      ensures pop[i] == RandomPermutation(n, jumps[LastJump(jumps, k, i)].draws)
    {
      LastJumpStep(jumps, k, i);
    }
  }

  /** Peeling restart `jumps[k]` off: the last restart of a slot is found in `jumps[k + 1..]`, or it is `jumps[k]` itself. */
  lemma LastJumpStep(jumps: seq<Jump>, k: nat, i: nat)
    requires k < |jumps| && DrawnFrom(jumps, k, i)
    ensures DrawnFrom(jumps, k + 1, i) ==> LastJump(jumps, k, i) == LastJump(jumps, k + 1, i)
    ensures !DrawnFrom(jumps, k + 1, i) ==> LastJump(jumps, k, i) == k && jumps[k].slot == i
  {
  }

  /** The restarts `jumps[k..]`, in draw order (a slot may be drawn more than once). */
  function DangerFrom(st: State, jumps: seq<Jump>, k: nat, n: nat): (st': State)
    requires BestInBounds(st) && ValidJumps(jumps, n, |st.population|) && k <= |jumps|
    ensures |st'.population| == |st.population| && BestInBounds(st')
    ensures BestRoute(st') == BestRoute(st)
    ensures UndrawnKept(st'.population, st.population, jumps, k)
    ensures LastDrawKept(st'.population, jumps, k, n)
    ensures AllPermutations(st.population, n) ==> AllPermutations(st'.population, n)
    ensures st.best.Detached? ==> st'.best == st.best
    ensures st'.best.Slot? ==> st'.best == st.best
    ensures st'.bestFitness == st.bestFitness && st'.visits == st.visits
    decreases |jumps| - k
  {
    if k == |jumps| then st
    else
      var st1 := Restart(st, jumps[k], n);
      var st' := DangerFrom(st1, jumps, k + 1, n);
      UndrawnStep(st'.population, st1.population, st.population, jumps, k);
      LastDrawStep(st'.population, jumps, k, n);
      st'
  }

  /** `for node in route: visit_counts[node] += 1`. */
  function AddVisits(visits: seq<int>, route: Route): (r: seq<int>)
    requires InRange(route, |visits|)
    ensures |r| == |visits|
    ensures forall v | 0 <= v < |visits| :: r[v] == visits[v] + multiset(route)[v]
  {
    if |route| == 0 then visits
    else
      var init := route[..|route| - 1];
      var last := route[|route| - 1];
      assert route == init + [last];
      var prev := AddVisits(visits, init);
      prev[last := prev[last] + 1]
  }

  /** `for node in route: visit_counts[node] += 1` for every route of the population, in order. */
  function CountVisits(visits: seq<int>, pop: seq<Route>): (r: seq<int>)
    requires forall k | 0 <= k < |pop| :: InRange(pop[k], |visits|)
    ensures |r| == |visits|
  {
    if |pop| == 0 then visits
    else AddVisits(CountVisits(visits, pop[..|pop| - 1]), pop[|pop| - 1])
  }

  /** When every route is a permutation, each node is counted once per route. */
  lemma {:induction false} CountVisitsPermutations(visits: seq<int>, pop: seq<Route>)
    requires AllPermutations(pop, |visits|)
    ensures forall v | 0 <= v < |visits| :: CountVisits(visits, pop)[v] == visits[v] + |pop|
  {
    if |pop| > 0 {
      var init := pop[..|pop| - 1];
      CountVisitsPermutations(visits, init);
      forall v | 0 <= v < |visits| ensures CountVisits(visits, pop)[v] == visits[v] + |pop| {
        PermutationCount(pop[|pop| - 1], |visits|, v);
      }
    }
  }

  /**
   * `if fit < best_fitness: best_fitness = fit; best_route = route[:]` over
   * the population in order, with `fs[k]` the fitness of `pop[k]`.
   */
  function KeepBest(best: BestRef, bf: real, pop: seq<Route>, fs: seq<real>): (r: (BestRef, real))
    requires |fs| == |pop|
  {
    if |pop| == 0 then (best, bf)
    else
      var prev := KeepBest(best, bf, pop[..|pop| - 1], fs[..|fs| - 1]);
      if fs[|fs| - 1] < prev.1 then (Detached(pop[|pop| - 1]), fs[|fs| - 1]) else prev
  }

  /**
   * The strict-improvement scan ends at the first minimum of the fitness list
   * when that minimum beats the best fitness so far, and changes nothing otherwise.
   */
  lemma {:induction false} KeepBestIsFirstMin(best: BestRef, bf: real, pop: seq<Route>, fs: seq<real>)
    requires |fs| == |pop|
    ensures |fs| >= 1 && fs[FirstMin(fs)] < bf ==>
      KeepBest(best, bf, pop, fs) == (Detached(pop[FirstMin(fs)]), fs[FirstMin(fs)])
    ensures (|fs| == 0 || fs[FirstMin(fs)] >= bf) ==> KeepBest(best, bf, pop, fs) == (best, bf)
  {
    if |pop| > 0 {
      var ipop, ifs := pop[..|pop| - 1], fs[..|fs| - 1];
      KeepBestIsFirstMin(best, bf, ipop, ifs);
      if |ifs| > 0 {
        assert ifs[FirstMin(ifs)] == fs[FirstMin(ifs)];
        assert ipop[FirstMin(ifs)] == pop[FirstMin(ifs)];
      }
    }
  }

  /**
   * The bookkeeping loop. Visit counting and best tracking touch disjoint
   * variables, so the single Python loop is the two folds side by side.
   * Every node gains one visit per individual; the best fitness never rises,
   * ends at most every individual's fitness, and when it falls `best_route`
   * becomes a copy of a route of exactly that fitness.
   */
  function Bookkeep(adj: Matrix, st: State): (st': State)
    requires Wf(adj, st)
    ensures Wf(adj, st') && st'.population == st.population
    ensures forall v | 0 <= v < |adj| :: st'.visits[v] == st.visits[v] + |st.population|
    ensures st'.bestFitness <= st.bestFitness
    ensures forall k | 0 <= k < |st.population| :: st'.bestFitness <= Fitness(adj, st.population[k])
    ensures st'.bestFitness == st.bestFitness ==> st'.best == st.best
    ensures st'.bestFitness < st.bestFitness ==>
      st'.best.Detached? && Fitness(adj, st'.best.route) == st'.bestFitness
  {
    var fs := Fitnesses(adj, st.population);
    var kb := KeepBest(st.best, st.bestFitness, st.population, fs);
    CountVisitsPermutations(st.visits, st.population);
    KeepBestIsFirstMin(st.best, st.bestFitness, st.population, fs);
    st.(visits := CountVisits(st.visits, st.population), best := kb.0, bestFitness := kb.1)
  }

  /**
   * Producers, scroungers and restarts: every slot stays a permutation and
   * neither the best fitness nor the counters change. A detached
   * `best_route` is untouched; an aliased one may have been swapped.
   */
  function Move(adj: Matrix, st: State, d: IterDraws): (st': State)
    requires Wf(adj, st) && |adj| >= 2 && ValidIterDraws(d, |adj|, |st.population|)
    ensures Wf(adj, st') && |st'.population| == |st.population|
    ensures st'.bestFitness == st.bestFitness && st'.visits == st.visits
    ensures st.best.Detached? ==> st'.best == st.best
  {
    var n := |adj|;
    var s1 := st.(population := ProducerPhase(st.population, d.swaps, n));
    var s2 := ScroungeFrom(s1, ProducerCount(|st.population|));
    assert AllPermutations(s2.population, n) by {
      BestRouteIsPermutation(adj, s1);
    }
    var s3 := DangerFrom(s2, d.jumps, 0, n);
    assert Wf(adj, s3) by {
      BestRouteIsPermutation(adj, s1);
    }
    s3
  }

  /** One main-loop iteration: producers, scroungers, restarts, bookkeeping. */
  method Iterate(adj: Matrix, st: State, d: IterDraws) returns (r: Result<State, PyError>)
    requires Wf(adj, st) && ValidIterDraws(d, |adj|, |st.population|)
    ensures r.Err? <==> |adj| < 2
    ensures r.Err? ==> r.error == SampleLargerThanPopulation
    ensures r.Ok? ==> Wf(adj, r.value) && |r.value.population| == |st.population|
    ensures r.Ok? ==> forall v | 0 <= v < |adj| :: r.value.visits[v] == st.visits[v] + |st.population|
    ensures r.Ok? ==> r.value.bestFitness <= st.bestFitness
    ensures r.Ok? && st.best.Detached? && Fitness(adj, st.best.route) == st.bestFitness ==>
      r.value.best.Detached? && Fitness(adj, r.value.best.route) == r.value.bestFitness
  {
    if |adj| < 2 {
      return Err(SampleLargerThanPopulation);
    }
    var moved := Move(adj, st, d);
    r := Ok(Bookkeep(adj, moved));
  }

  /** The main loop: `for iteration in range(max_iter)`, iteration `k` drawing `iters[k]`. */
  method MainLoop(adj: Matrix, st: State, iters: seq<IterDraws>, maxIter: int) returns (r: Result<State, PyError>)
    requires Wf(adj, st) && |iters| >= Iterations(maxIter)
    requires forall k | 0 <= k < |iters| :: ValidIterDraws(iters[k], |adj|, |st.population|)
    ensures r.Err? <==> maxIter >= 1 && |adj| < 2
    ensures r.Err? ==> r.error == SampleLargerThanPopulation
    ensures r.Ok? ==> Wf(adj, r.value) && |r.value.population| == |st.population|
    ensures r.Ok? ==> forall v | 0 <= v < |adj| ::
      r.value.visits[v] == st.visits[v] + Iterations(maxIter) * |st.population|
    ensures r.Ok? ==> r.value.bestFitness <= st.bestFitness
    ensures r.Ok? && st.best.Detached? && Fitness(adj, st.best.route) == st.bestFitness ==>
      r.value.best.Detached? && Fitness(adj, r.value.best.route) == r.value.bestFitness
  {
    var s := st;
    var k := 0;
    while k < Iterations(maxIter)
      invariant k <= Iterations(maxIter) && (k >= 1 ==> |adj| >= 2)
      invariant Wf(adj, s) && |s.population| == |st.population|
      invariant forall v | 0 <= v < |adj| :: s.visits[v] == st.visits[v] + k * |st.population|
      invariant s.bestFitness <= st.bestFitness
      invariant st.best.Detached? && Fitness(adj, st.best.route) == st.bestFitness ==>
        s.best.Detached? && Fitness(adj, s.best.route) == s.bestFitness
    {
      var step := Iterate(adj, s, iters[k]);
      if step.Err? {
        return Err(step.error);
      }
      MulSucc(k, |st.population|);
      s := step.value;
      k := k + 1;
    }
    return Ok(s);
  }

  // ---------------------------------------------------------------- initialisation

  /** `fitness.index(min(fitness))`: the lowest index attaining the minimum. */
  function FirstMin(fs: seq<real>): (k: nat)
    requires |fs| >= 1
    ensures k < |fs|
    ensures forall i | 0 <= i < |fs| :: fs[k] <= fs[i]
    ensures forall i | 0 <= i < k :: fs[i] > fs[k]
  {
    if |fs| == 1 then 0
    else
      var k := FirstMin(fs[..|fs| - 1]);
      if fs[|fs| - 1] < fs[k] then |fs| - 1 else k
  }

  /** `population_size` permutations `list(range(n))`, each shuffled with its own draws. */
  function InitialPopulation(n: nat, shuffles: seq<seq<nat>>): (pop: seq<Route>)
    requires forall i | 0 <= i < |shuffles| :: ValidDraws(shuffles[i], n)
    ensures |pop| == |shuffles| && AllPermutations(pop, n)
    ensures forall i | 0 <= i < |shuffles| :: pop[i] == RandomPermutation(n, shuffles[i])
  {
    seq(|shuffles|, i requires 0 <= i < |shuffles| => RandomPermutation(n, shuffles[i]))
  }

  /** The fitness list computed before the loop. */
  function Fitnesses(adj: Matrix, pop: seq<Route>): (fs: seq<real>)
    requires IsSquare(adj, |adj|) && AllPermutations(pop, |adj|)
    ensures |fs| == |pop|
    ensures forall i | 0 <= i < |pop| :: fs[i] == Fitness(adj, pop[i])
  {
    seq(|pop|, i requires 0 <= i < |pop| => Fitness(adj, pop[i]))
  }

  /** The state on entry to the loop: `best_route = population[best_idx]`, an alias, not a copy. */
  function InitialState(adj: Matrix, shuffles: seq<seq<nat>>): (st: State)
    requires IsSquare(adj, |adj|) && |shuffles| >= 1
    requires forall i | 0 <= i < |shuffles| :: ValidDraws(shuffles[i], |adj|)
    ensures Wf(adj, st) && |st.population| == |shuffles| && st.best.Slot?
    ensures forall i | 0 <= i < |adj| :: st.visits[i] == 0
    ensures forall i | 0 <= i < |shuffles| :: st.population[i] == RandomPermutation(|adj|, shuffles[i])
  {
    var pop := InitialPopulation(|adj|, shuffles);
    var k := FirstMin(Fitnesses(adj, pop));
    FirstFittest(adj, pop, k);
    State(pop, Slot(k), Fitness(adj, pop[k]), ZeroVector(|adj|))
  }

  /**
   * `best_idx = fitness.index(min(fitness))`: the initial best is the first
   * individual of least weight, and `best_fitness` is that weight.
   */
  lemma InitialBest(adj: Matrix, shuffles: seq<seq<nat>>)
    requires IsSquare(adj, |adj|) && |shuffles| >= 1
    requires forall i | 0 <= i < |shuffles| :: ValidDraws(shuffles[i], |adj|)
    ensures var st := InitialState(adj, shuffles);
      && st.bestFitness == Fitness(adj, BestRoute(st))
      && (forall i | 0 <= i < |st.population| :: st.bestFitness <= Fitness(adj, st.population[i]))
      && (forall i | 0 <= i < st.best.index :: Fitness(adj, st.population[i]) > st.bestFitness)
  {
    var pop := InitialPopulation(|adj|, shuffles);
    FirstFittest(adj, pop, FirstMin(Fitnesses(adj, pop)));
  }

  /** The index `FirstMin` picks from the fitness list is the first route of least weight. */
  lemma FirstFittest(adj: Matrix, pop: seq<Route>, k: nat)
    requires IsSquare(adj, |adj|) && |pop| >= 1 && AllPermutations(pop, |adj|)
    requires k == FirstMin(Fitnesses(adj, pop))
    ensures k < |pop|
    ensures forall i | 0 <= i < |pop| :: Fitness(adj, pop[k]) <= Fitness(adj, pop[i])
    ensures forall i | 0 <= i < k :: Fitness(adj, pop[i]) > Fitness(adj, pop[k])
  {
    var fs := Fitnesses(adj, pop);
    assert fs[k] == Fitness(adj, pop[k]);
  }

  /**
   * The intended initial state: `best_route` is a copy of the first fittest
   * individual, so it weighs exactly `best_fitness`, which is at most every
   * initial fitness.
   */
  function InitialCopy(adj: Matrix, shuffles: seq<seq<nat>>): (st: State)
    requires IsSquare(adj, |adj|) && |shuffles| >= 1
    requires forall i | 0 <= i < |shuffles| :: ValidDraws(shuffles[i], |adj|)
    ensures Wf(adj, st) && |st.population| == |shuffles| && st.best.Detached?
    ensures forall i | 0 <= i < |adj| :: st.visits[i] == 0
    ensures st.bestFitness == Fitness(adj, st.best.route)
    ensures forall i | 0 <= i < |shuffles| :: st.bestFitness <= Fitness(adj, RandomPermutation(|adj|, shuffles[i]))
  {
    var st0 := InitialState(adj, shuffles);
    InitialBest(adj, shuffles);
    BestRouteIsPermutation(adj, st0);
    st0.(best := Detached(BestRoute(st0)))
  }

  /** Draws for a whole run: one shuffle per initial individual and one `IterDraws` per iteration. */
  predicate ValidRunDraws(n: nat, popSize: int, shuffles: seq<seq<nat>>, iters: seq<IterDraws>, maxIter: int)
  {
    && |shuffles| == (if popSize > 0 then popSize else 0)
    && (forall i | 0 <= i < |shuffles| :: ValidDraws(shuffles[i], n))
    && |iters| >= Iterations(maxIter)
    && forall k | 0 <= k < |iters| :: ValidIterDraws(iters[k], n, |shuffles|)
  }

  /**
   * `ssa_optimize(adj_matrix, max_iter, population_size)` as written: it
   * raises for an empty population and, once an iteration runs, for fewer
   * than two nodes; otherwise every node has been counted once per
   * individual per iteration and the returned route is a permutation. Its
   * weight is not tied to the best fitness found: see `AliasedBestDrifts`.
   */
  method SsaOptimize(adj: Matrix, maxIter: int, popSize: int, shuffles: seq<seq<nat>>, iters: seq<IterDraws>)
    returns (r: Result<(Route, seq<int>), PyError>)
    requires IsSquare(adj, |adj|) && ValidRunDraws(|adj|, popSize, shuffles, iters, maxIter)
    ensures popSize <= 0 ==> r == Err(MinOfEmptySequence)
    ensures popSize >= 1 ==> (r.Err? <==> maxIter >= 1 && |adj| < 2)
    ensures r.Err? && popSize >= 1 ==> r.error == SampleLargerThanPopulation
    ensures r.Ok? ==> IsPermutation(r.value.0, |adj|) && |r.value.1| == |adj|
    ensures r.Ok? ==> forall v | 0 <= v < |adj| :: r.value.1[v] == Iterations(maxIter) * popSize
    ensures r.Ok? ==> Sum(r.value.1) == |adj| * (Iterations(maxIter) * popSize)
  {
    if popSize <= 0 {
      return Err(MinOfEmptySequence);
    }
    var st := InitialState(adj, shuffles);
    var res := MainLoop(adj, st, iters, maxIter);
    if res.Err? {
      return Err(res.error);
    }
    BestRouteIsPermutation(adj, res.value);
    SumConstant(res.value.visits, Iterations(maxIter) * popSize);
    r := Ok((BestRoute(res.value), res.value.visits));
  }

  /**
   * The evidently intended `ssa_optimize`: `best_route` starts as a copy
   * (`population[best_idx][:]`), so the returned route is never worse than
   * any initial individual.
   */
  method SsaOptimizeCopied(adj: Matrix, maxIter: int, popSize: int, shuffles: seq<seq<nat>>, iters: seq<IterDraws>)
    returns (r: Result<(Route, seq<int>), PyError>)
    requires IsSquare(adj, |adj|) && ValidRunDraws(|adj|, popSize, shuffles, iters, maxIter)
    ensures popSize <= 0 ==> r == Err(MinOfEmptySequence)
    ensures popSize >= 1 ==> (r.Err? <==> maxIter >= 1 && |adj| < 2)
    ensures r.Ok? ==> IsPermutation(r.value.0, |adj|) && |r.value.1| == |adj|
    ensures r.Ok? ==> forall v | 0 <= v < |adj| :: r.value.1[v] == Iterations(maxIter) * popSize
    ensures r.Ok? ==> forall i | 0 <= i < |shuffles| ::
      Fitness(adj, r.value.0) <= Fitness(adj, RandomPermutation(|adj|, shuffles[i]))
  {
    if popSize <= 0 {
      return Err(MinOfEmptySequence);
    }
    var st := InitialCopy(adj, shuffles);
    var res := MainLoop(adj, st, iters, maxIter);
    if res.Err? {
      return Err(res.error);
    }
    BestRouteIsPermutation(adj, res.value);
    r := Ok((BestRoute(res.value), res.value.visits));
  }

  // ---------------------------------------------------------------- the aliasing finding

  /** Three nodes where `0 -> 1 -> 2` costs 2 and every other step costs 10. */
  const DriftGraph: Matrix := [[0.0, 1.0, 10.0], [10.0, 0.0, 1.0], [10.0, 10.0, 0.0]]

  /** The draws of the iteration: producer swap of positions 0 and 2, restart of slot 0 with `[2, 1]`. */
  const DriftDraws: IterDraws := IterDraws([(0, 2)], [Jump(0, [2, 1])])

  /**
   * One iteration of the code as written, one individual: the initial route
   * `[0, 1, 2]` (weight 2) is both `population[0]` and `best_route`; the
   * producer swaps positions 0 and 2 of that very list; the restart re-binds
   * slot 0 to a fresh `[0, 1, 2]`, which is not strictly better. The run
   * then keeps `best_fitness` at 2 internally but returns `[2, 1, 0]`, of weight 20.
   */
  lemma AliasedBestDrifts()
    ensures
      var st := InitialState(DriftGraph, [[2, 1]]);
      && ValidIterDraws(DriftDraws, 3, 1)
      && st.population == [[0, 1, 2]] && st.best == Slot(0) && st.bestFitness == 2.0
      && var st' := Bookkeep(DriftGraph, Move(DriftGraph, st, DriftDraws));
      && st'.bestFitness == 2.0
      && BestRoute(st') == [2, 1, 0]
      && Fitness(DriftGraph, BestRoute(st')) == 20.0
  {
    DriftStart();
    DriftMove();
    DriftBookkeep();
    DriftWeights();
  }

  lemma DriftStart()
    ensures InitialState(DriftGraph, [[2, 1]]) == State([[0, 1, 2]], Slot(0), 2.0, [0, 0, 0])
  {
    IdentityDraws();
    DriftWeights();
    var pop := InitialPopulation(3, [[2, 1]]);
    assert pop == [[0, 1, 2]];
    assert Fitnesses(DriftGraph, pop) == [2.0];
    assert ZeroVector(3) == [0, 0, 0];
  }

  lemma DriftValid()
    ensures ValidIterDraws(DriftDraws, 3, 1)
    ensures Wf(DriftGraph, State([[0, 1, 2]], Slot(0), 2.0, [0, 0, 0]))
  {
    DriftPermutations();
  }

  lemma DriftMove()
    ensures ValidIterDraws(DriftDraws, 3, 1)
    ensures Wf(DriftGraph, State([[0, 1, 2]], Slot(0), 2.0, [0, 0, 0]))
    ensures Move(DriftGraph, State([[0, 1, 2]], Slot(0), 2.0, [0, 0, 0]), DriftDraws)
      == State([[0, 1, 2]], Detached([2, 1, 0]), 2.0, [0, 0, 0])
  {
    DriftValid();
    DriftProducer();
    var s1 := State([[2, 1, 0]], Slot(0), 2.0, [0, 0, 0]);
    assert ScroungeFrom(s1, 1) == s1;
    DriftRestart();
  }

  lemma DriftPermutations()
    ensures IsPermutation([0, 1, 2], 3) && IsPermutation([2, 1, 0], 3)
    ensures ValidDraws([2, 1], 3)
  {
    IdentityDraws();
    SwapPermutation([0, 1, 2], 3, 0, 2);
    assert Swap([0, 1, 2], 0, 2) == [2, 1, 0];
  }

  lemma DriftProducer()
    ensures ValidSwaps([(0, 2)], 3) && AllPermutations([[0, 1, 2]], 3)
    ensures ProducerPhase([[0, 1, 2]], [(0, 2)], 3) == [[2, 1, 0]]
  {
    DriftPermutations();
    var r := ProducerPhase([[0, 1, 2]], [(0, 2)], 3);
    assert Swap([0, 1, 2], 0, 2) == [2, 1, 0];
    assert |r| == 1 && r[0] == Swap([0, 1, 2], 0, 2);
  }

  lemma DriftRestart()
    ensures ValidDraws([2, 1], 3)
    ensures DangerFrom(State([[2, 1, 0]], Slot(0), 2.0, [0, 0, 0]), [Jump(0, [2, 1])], 0, 3)
      == State([[0, 1, 2]], Detached([2, 1, 0]), 2.0, [0, 0, 0])
  {
    IdentityDraws();
    var st := State([[2, 1, 0]], Slot(0), 2.0, [0, 0, 0]);
    var j := Jump(0, [2, 1]);
    var s1 := Restart(st, j, 3);
    assert s1 == State([[0, 1, 2]], Detached([2, 1, 0]), 2.0, [0, 0, 0]);
    assert DangerFrom(s1, [j], 1, 3) == s1;
  }

  lemma DriftBookkeep()
    ensures Wf(DriftGraph, State([[0, 1, 2]], Detached([2, 1, 0]), 2.0, [0, 0, 0]))
    ensures Bookkeep(DriftGraph, State([[0, 1, 2]], Detached([2, 1, 0]), 2.0, [0, 0, 0])).best == Detached([2, 1, 0])
    ensures Bookkeep(DriftGraph, State([[0, 1, 2]], Detached([2, 1, 0]), 2.0, [0, 0, 0])).bestFitness == 2.0
  {
    DriftPermutations();
    DriftWeights();
    var pop: seq<Route> := [[0, 1, 2]];
    var fs := Fitnesses(DriftGraph, pop);
    assert fs == [2.0];
    KeepBestIsFirstMin(Detached([2, 1, 0]), 2.0, pop, fs);
  }

  /** The draws `[2, 1]` leave `list(range(3))` as it is. */
  lemma IdentityDraws()
    ensures ValidDraws([2, 1], 3) && RandomPermutation(3, [2, 1]) == [0, 1, 2]
  {
    var draws: seq<nat> := [2, 1];
    assert Iota(3) == [0, 1, 2];
    assert Swap(Iota(3), 2, 2) == [0, 1, 2];
    assert Swap([0, 1, 2], 1, 1) == [0, 1, 2];
    assert draws[1..] == [1];
    assert ShuffleFrom([0, 1, 2], 0, []) == [0, 1, 2];
  }

  /** The weights of the forward and the reversed route. */
  lemma DriftWeights()
    ensures Fitness(DriftGraph, [0, 1, 2]) == 2.0 && Fitness(DriftGraph, [2, 1, 0]) == 20.0
  {
    var a: Route := [0, 1, 2];
    var b: Route := [2, 1, 0];
    assert a[..2] == [0, 1] && [0, 1][..1] == [0];
    assert b[..2] == [2, 1] && [2, 1][..1] == [2];
  }

  // ---------------------------------------------------------------- main's argument checks

  /** What `main` prints while checking its arguments. */
  datatype Message =
    | NodesNotPositive | ManyNodesWarning | NegativeDensity
    | HighDensityWarning | IterationsNotPositive | PopulationNotPositive

  predicate IsError(m: Message)
  {
    m.NodesNotPositive? || m.NegativeDensity? || m.IterationsNotPositive? || m.PopulationNotPositive?
  }

  /** The messages printed and, when `main` stops early, its return value. */
  datatype Validation = Validation(messages: seq<Message>, exit: Option<int>)

  /** The checks at the top of `main`, in source order: errors return 1, large values only warn. */
  function ValidateArgs(nodes: int, density: real, maxIter: int, popSize: int): (v: Validation)
    ensures v.exit == None <==> nodes > 0 && density >= 0.0 && maxIter > 0 && popSize > 0
    ensures v.exit.Some? ==> v.exit.value == 1
    ensures v.exit.Some? <==> |v.messages| >= 1 && IsError(v.messages[|v.messages| - 1])
    ensures forall i | 0 <= i < |v.messages| - 1 :: !IsError(v.messages[i])
    ensures ManyNodesWarning in v.messages <==> nodes > 1000
    ensures HighDensityWarning in v.messages <==> nodes > 0 && density > 2.0
  {
    if nodes <= 0 then Validation([NodesNotPositive], Some(1))
    else
      var w1 := if nodes > 1000 then [ManyNodesWarning] else [];
      if density < 0.0 then Validation(w1 + [NegativeDensity], Some(1))
      else
        var w2 := w1 + if density > 2.0 then [HighDensityWarning] else [];
        if maxIter <= 0 then Validation(w2 + [IterationsNotPositive], Some(1))
        else if popSize <= 0 then Validation(w2 + [PopulationNotPositive], Some(1))
        else Validation(w2, None)
  }
}
