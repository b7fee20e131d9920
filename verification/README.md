# Discrete Sparrow Search route optimiser — a Dafny model

This project models the discrete Sparrow Search Algorithm (SSA) at the heart
of the SSA traffic-optimisation repository. A population of routes, each a
permutation of the node indices `0..n-1` of an `n × n` weight matrix, is
improved in three position-based phases per iteration. Producers swap two
nodes. Scroungers copy the best route. A few "danger-aware" sparrows restart
from a fresh random permutation. Meanwhile the best route found so far is
tracked and visit statistics are collected.

There are two independent engines, and both are modelled:

- **The Python engine** (`PyEngine`). It covers `evaluate_route`,
  `ssa_optimize` and the argument checks of `main` in
  ssa_project_map/python/map_generator.py.
  - It counts node visits.
  - It never sorts its population.
  - Its initial `best_route` is the very list stored in one population slot.
    `BestRef` tracks that aliasing: `Slot(i)` or `Detached(route)`.
- **The C engine** (`CEngine`). It covers `randint`, `random_route`,
  `evaluate` and the `run_ssa` loop in ssa_project_map/c_src/ssa.c.
  - It exchange-sorts the population by its fitness field every iteration.
  - It counts directed edges in a visit matrix and folds that matrix into
    per-node totals.

Around the engines sit the result readers:

- `VisitFold` and `Histogram` model `calculate_node_visit_counts`,
  `load_node_visits`, `load_route_stats` and the most/least/top-5 statistics
  of generate_histogram.py.
- `DrawMap` models `load_route`, `load_stats`, the route edges and the route
  summary of draw_map.py.
- `MapLoader` models `load_map` of Separate_Test/Samp_Test/map_visualization.c,
  which decodes a 20×20 grid from the 0/1 characters of a text.

Shared modules:

- `Routes`: permutations, Fisher–Yates shuffles and route weight.
- `Schedule`: phase sizes.
- `Sums`: sums over sequences and matrices.
- `Text`: `str.strip`, `str.split`, `int()`, line splitting.
- `Wrappers`: `Option` and `Result`.

Every random choice (`rand()`, `random.shuffle`, `random.sample`,
`random.randint`) is an explicit argument whose range is stated in a
`requires`. Weights are exact `real`s.

With fewer than two nodes, any iteration of the Python engine raises
`ValueError` from `random.sample(range(n), 2)`. `PyEngine.Iterate`,
`PyEngine.MainLoop` and `PyEngine.SsaOptimize` return
`Err(SampleLargerThanPopulation)` in that case.

## Model

| member | source | states |
|---|---|---|
| Routes.Swap | ssa_project_map/python/map_generator.py:82 | exchanging two positions puts each value at the other's index, leaves every other index unchanged and keeps the multiset of nodes |
| Routes.SwapPermutation | ssa_project_map/c_src/ssa.c:85-89 | a swap of any two positions below n, equal ones included, keeps a permutation of 0..n-1 a permutation |
| Routes.Shuffle | ssa_project_map/python/map_generator.py:67 | a Fisher–Yates pass with every draw j ≤ i rearranges the route without changing its multiset of nodes |
| Routes.RandomPermutation | ssa_project_map/python/map_generator.py:66-67 | shuffling `list(range(n))` with valid draws yields a permutation of 0..n-1 |
| Routes.MultisetPermutation | ssa_project_map/c_src/ssa.c:18-27 | a route whose multiset equals that of 0..n-1 has length n and only entries below n |
| Routes.PermutationDistinct | ssa_project_map/c_src/ssa.c:118-119 | no node occurs twice in a permutation, so consecutive route entries are never equal |
| Routes.Fitness | ssa_project_map/python/map_generator.py:55-56 | route weight is 0 for routes of at most one node and non-negative when every weight is |
| Routes.FitnessIsPathWeight | ssa_project_map/python/map_generator.py:55-56 | the left-to-right sum of the evaluators equals the independent first-edge-plus-rest definition, with no wrap-around edge |
| Routes.FitnessBound | ssa_project_map/c_src/ssa.c:30-37 | with every weight at most c ≥ 0, a route of k nodes weighs at most (k-1)·c |
| Schedule.ProducerCount | ssa_project_map/python/map_generator.py:79 | max(pop // 5, 1): at least one producer, never more than the population |
| Schedule.DangerCount | ssa_project_map/c_src/ssa.c:107-108 | max(pop / 10, 1): at least one restart per iteration |
| Schedule.Iterations | ssa_project_map/python/map_generator.py:77 | `range(max_iter)` runs max_iter times when positive and not at all otherwise |
| VisitFold.CalculateNodeVisitCounts | ssa_project_map/python/generate_histogram.py:78-89 | entry k is the off-diagonal row-k sum plus the off-diagonal column-k sum, and the total is twice the off-diagonal matrix sum |
| VisitFold.RowsPassClosed | ssa_project_map/python/generate_histogram.py:85-89 | after the first i rows of the double loop, each entry holds its whole off-diagonal row if its row is done, plus its off-diagonal column over those rows |
| VisitFold.RowsPassSum | ssa_project_map/python/generate_histogram.py:85-89 | after the first i rows of the double loop, the total is twice the off-diagonal sum of those rows |
| VisitFold.CellSum | ssa_project_map/python/generate_histogram.py:86-89 | one off-diagonal cell raises the total by twice its value; a diagonal cell changes nothing |
| VisitFold.OffDiagonalZeroDiagonal | ssa_project_map/c_src/ssa.c:147 | on a matrix with zero diagonal, skipping `i == j` loses nothing: the off-diagonal sum is the whole matrix sum |
| CEngine.RandInt | ssa_project_map/c_src/ssa.c:13-15 | `min + rand() % (max - min + 1)` lies in [min, max] whenever max ≥ min |
| CEngine.RandIntCovers | ssa_project_map/c_src/ssa.c:13-15 | every value of [min, max] is produced by some `rand()` value |
| CEngine.RouteDraws | ssa_project_map/c_src/ssa.c:21-22 | the k-th `randint(0, i)` of `random_route` is a valid Fisher–Yates draw for i = n-1-k |
| CEngine.IdentityRoute | ssa_project_map/c_src/ssa.c:19-20 | the first loop writes 0..n-1 in order |
| CEngine.ShuffleRoute | ssa_project_map/c_src/ssa.c:21-26 | the in-place loop from i = n-1 down to 1 computes exactly the shared Fisher–Yates shuffle |
| CEngine.SwapDown | ssa_project_map/c_src/ssa.c:21-26 | exchanging position i with its drawn position, for i from n-1 down to 1, yields the Fisher–Yates shuffle of those draws |
| CEngine.RandomRoute | ssa_project_map/c_src/ssa.c:18-27 | `random_route` leaves a permutation of 0..n-1, the same one the Python shuffle gives for the same draws |
| CEngine.Evaluate | ssa_project_map/c_src/ssa.c:30-37 | the loop sums adj[route[i-1]][route[i]] for i in 1..len-1, which is the reference path weight |
| CEngine.SortByFitness | ssa_project_map/c_src/ssa.c:69-77 | the exchange sort leaves fitness non-decreasing and the population a rearrangement of its contents |
| CEngine.RearrangedPopulation | ssa_project_map/c_src/ssa.c:69-77 | a rearranged population keeps every route a permutation and every fitness field equal to its route's weight |
| CEngine.Producers | ssa_project_map/c_src/ssa.c:81-90 | the first slots get one swap of two draws below n, which may coincide; every route stays a permutation, fitness fields are untouched and later slots are unchanged |
| CEngine.Mutate | ssa_project_map/c_src/ssa.c:97-102 | swapping each suffix position with any index keeps the length and the multiset |
| CEngine.MutatePrefix | ssa_project_map/c_src/ssa.c:97-102 | each entry before the mutated suffix either stays in place or has been moved into the suffix |
| CEngine.Scrounge | ssa_project_map/c_src/ssa.c:95-102 | a scrounger's copy of the leader's route, mutated from position n/2 on, is still a permutation of the same nodes |
| CEngine.Scroungers | ssa_project_map/c_src/ssa.c:93-103 | producers and stale fitness fields are untouched, and every slot from num_producers on holds a permutation with the nodes of `pop[0]`'s route |
| CEngine.ScroungerCopiesLeader | ssa_project_map/c_src/ssa.c:95-102 | slot i from num_producers on holds exactly `pop[0]`'s route mutated from position n/2 with that slot's draws |
| CEngine.Restarts | ssa_project_map/c_src/ssa.c:107-113 | a drawn slot holds the `random_route` of the last draw that hit it; undrawn slots are unchanged; all routes stay permutations |
| CEngine.EdgeCountDistinct | ssa_project_map/c_src/ssa.c:118-119 | a route without repeated nodes contributes no self-edge, so the diagonal is never incremented |
| CEngine.AddEdges | ssa_project_map/c_src/ssa.c:118-119 | each cell gains the number of times its directed edge occurs in the route, and the total gains len-1 |
| CEngine.CountRouteEdges | ssa_project_map/c_src/ssa.c:118-119 | counting a permutation's edges adds n-1 to the matrix and keeps its diagonal zero |
| CEngine.EvaluateSparrow | ssa_project_map/c_src/ssa.c:117-125 | one sparrow: its fitness is refreshed and its edges are counted; the best changes only on strict improvement, and then to a copy of this route |
| CEngine.EvaluatePhase | ssa_project_map/c_src/ssa.c:116-126 | the evaluation loop refreshes every fitness field and adds pop·(n-1) visits; the best never rises and is at most every fitness, and when it falls it is a copy of one refreshed sparrow |
| CEngine.Iteration | ssa_project_map/c_src/ssa.c:67-126 | one iteration keeps every route a permutation, adds pop·(n-1) visits with a zero diagonal, and never raises `global_best`; when it falls it is a copy of one new sparrow |
| CEngine.NewSparrow | ssa_project_map/c_src/ssa.c:57-60 | an initial sparrow is a random permutation whose fitness field is its route's weight |
| CEngine.InitialPopulation | ssa_project_map/c_src/ssa.c:55-61 | the population holds pop random permutations, each with an accurate fitness |
| CEngine.NodeVisits | ssa_project_map/c_src/ssa.c:143-152 | the C fold gives the same vector as `calculate_node_visit_counts`, whose total is twice the off-diagonal sum |
| CEngine.MainLoop | ssa_project_map/c_src/ssa.c:63-127 | after the loop, the best is either the empty sentinel, always so when no iteration ran, or a permutation of exactly its recorded weight; the matrix total is iterations·pop·(n-1) |
| CEngine.BestRecorded | ssa_project_map/c_src/ssa.c:120-124 | when every route weighs less than the 1e308 sentinel, the recorded best route has all n nodes |
| CEngine.RunSsa | ssa_project_map/c_src/ssa.c:39-132 | `out_len` is 0 exactly when the best is the sentinel; otherwise the route is a permutation of that weight; the visit totals are exact and `node_visits` sums to twice the matrix |
| PyEngine.EvaluateRoute | ssa_project_map/python/map_generator.py:55-56 | `evaluate_route` is the path weight over consecutive pairs and is non-negative for non-negative weights |
| PyEngine.BestRouteIsPermutation | ssa_project_map/python/map_generator.py:74 | whether `best_route` aliases a slot or is a copy, it is a permutation of 0..n-1 |
| PyEngine.ProducerPhase | ssa_project_map/python/map_generator.py:79-82 | each producer slot is swapped at two distinct positions and stays a permutation; other slots are unchanged |
| PyEngine.ScroungeFrom | ssa_project_map/python/map_generator.py:84-88 | every scrounger slot becomes a fresh copy of `best_route`, since the shuffle acts on a temporary slice; a best that aliased a rebound slot becomes detached with the same route |
| PyEngine.Restart | ssa_project_map/python/map_generator.py:91-94 | one danger draw rebinds its slot to the permutation its draws give and leaves the others and the best route alone |
| PyEngine.DangerFrom | ssa_project_map/python/map_generator.py:90-94 | a slot drawn several times keeps the permutation of its last draw; undrawn slots are unchanged; all routes stay permutations and the best route is unchanged |
| PyEngine.AddVisits | ssa_project_map/python/map_generator.py:97-98 | each node's count rises by the number of times it occurs in the route |
| PyEngine.CountVisitsPermutations | ssa_project_map/python/map_generator.py:96-98 | when every route is a permutation, each node gains exactly `population_size` per iteration |
| PyEngine.KeepBestIsFirstMin | ssa_project_map/python/map_generator.py:99-102 | the best changes only if some fitness is strictly smaller, and then to a copy of the first route attaining the minimum |
| PyEngine.Bookkeep | ssa_project_map/python/map_generator.py:95-102 | the evaluation loop adds pop visits per node; `best_fitness` never rises, is at most every fitness, and changes only with a new copied best |
| PyEngine.Move | ssa_project_map/python/map_generator.py:78-94 | the three phases keep every slot a permutation and leave `best_fitness` and the visits alone |
| PyEngine.Iterate | ssa_project_map/python/map_generator.py:77-102 | one iteration raises exactly when n < 2; otherwise it keeps the invariant, adds pop to every node and never raises `best_fitness` |
| PyEngine.MainLoop | ssa_project_map/python/map_generator.py:77-102 | the loop raises exactly when it runs with n < 2; otherwise after k iterations every node count has grown by k·pop |
| PyEngine.FirstMin | ssa_project_map/python/map_generator.py:73-75 | `fitness.index(min(fitness))` is the lowest index attaining the minimum |
| PyEngine.InitialPopulation | ssa_project_map/python/map_generator.py:64-68 | the initial population holds `population_size` permutations of 0..n-1 |
| PyEngine.Fitnesses | ssa_project_map/python/map_generator.py:70 | the fitness list holds each route's weight in order |
| PyEngine.InitialState | ssa_project_map/python/map_generator.py:59-75 | visits start at 0, individual i is the permutation its own draws give, and the best is a population slot |
| PyEngine.InitialBest | ssa_project_map/python/map_generator.py:70-75 | the best slot is the first individual of least weight, and `best_fitness` is its weight |
| PyEngine.InitialCopy | ssa_project_map/python/map_generator.py:74 | the corrected start: `best_route` is a detached copy that weighs exactly `best_fitness` |
| PyEngine.SsaOptimize | ssa_project_map/python/map_generator.py:58-103 | raises for an empty population, and for n < 2 once an iteration runs; otherwise it returns a permutation, and every node count is iterations·pop, n times that in total |
| PyEngine.SsaOptimizeCopied | ssa_project_map/python/map_generator.py:58-103 | with `best_route` copied at the start, the returned route weighs no more than any initial individual |
| PyEngine.AliasedBestDrifts | ssa_project_map/python/map_generator.py:74-102 | as written, one producer swap on the aliased slot leaves `best_fitness` = 2 while the returned route weighs 20 |
| PyEngine.ValidateArgs | ssa_project_map/python/map_generator.py:155-175 | `main` exits 1 exactly when nodes ≤ 0, density < 0, max_iter ≤ 0 or pop_size ≤ 0, and the error is the last message; nodes > 1000 and density > 2.0 only warn |
| Text.StripOf | ssa_project_map/python/draw_map.py:163 | `str.strip` removes exactly the leading and trailing whitespace around a text that neither starts nor ends with it |
| Text.ParseInt | ssa_project_map/python/generate_histogram.py:39 | `int()` of a digit string is its decimal value, and the empty string is rejected |
| Text.IntTextRoundTrip | ssa_project_map/c_src/ssa.c:157 | `int()` reads back every integer that `%d` prints |
| Text.ConcatLines | ssa_project_map/python/generate_histogram.py:35 | the lines of a text, each keeping its newline, concatenate back to the text |
| Text.LinesConcat | ssa_project_map/python/generate_histogram.py:35 | splitting a concatenation of newline-terminated lines gives back those lines |
| Text.WordsOfPair | ssa_project_map/python/generate_histogram.py:39 | `split()` of two words joined by a space, with trailing whitespace, is exactly those two words |
| Text.Find | ssa_project_map/python/draw_map.py:185 | the separator is found at its first occurrence, or it occurs nowhere |
| Text.JoinSplit | ssa_project_map/python/draw_map.py:185 | joining the parts of `split(sep)` with `sep` restores the text |
| Text.SplitOnPair | ssa_project_map/python/generate_histogram.py:68 | splitting `a + sep + b` when neither side contains the first character of `sep` gives exactly `[a, b]` |
| Histogram.VisitFields | ssa_project_map/python/generate_histogram.py:39 | unpacking into two ints succeeds exactly when the line has two words and both parse |
| Histogram.AllSomeOf | ssa_project_map/python/generate_histogram.py:38-40 | the per-line parse succeeds exactly when every line parses, with the values in file order |
| Histogram.Lookup | ssa_project_map/python/generate_histogram.py:46 | a key has a value exactly when it is in the dictionary |
| Histogram.Put | ssa_project_map/python/generate_histogram.py:40 | assignment adds or overwrites one key and leaves every other key's value alone |
| Histogram.BuildDict | ssa_project_map/python/generate_histogram.py:37-40 | the dictionary's keys are exactly the ids read, each once |
| Histogram.BuildDictLast | ssa_project_map/python/generate_histogram.py:38-40 | a duplicate id keeps the value of its last line |
| Histogram.PyIndex | ssa_project_map/python/generate_histogram.py:47 | list indexing accepts -n ≤ k < n and counts negative k from the end; other k raise `IndexError` |
| Histogram.MaxKey | ssa_project_map/python/generate_histogram.py:43 | `max(node_visits.keys())` is a key and no key is larger |
| Histogram.ZeroList | ssa_project_map/python/generate_histogram.py:45 | `[0] * n` has max(n, 0) zeros |
| Histogram.DensifyNonNegative | ssa_project_map/python/generate_histogram.py:45-47 | with ids in range the fill succeeds; listed ids get their value and the rest stay 0 |
| Histogram.LoadNodeVisits | ssa_project_map/python/generate_histogram.py:31-60 | an empty file yields None, because `max` of no keys raises |
| Histogram.DensePairs | ssa_project_map/python/generate_histogram.py:43-47 | densifying no pairs yields None |
| Histogram.DenseVisits | ssa_project_map/python/generate_histogram.py:43-47 | for non-negative ids the array has length max(id)+1, listed ids hold their last value and unlisted ones hold 0 |
| Histogram.ParseVisitLineOf | ssa_project_map/python/generate_histogram.py:39 | a line `"%d %d\n"` parses back to its two integers |
| Histogram.ReadVisitLines | ssa_project_map/python/generate_histogram.py:37-47 | reading written lines is densifying the written pairs |
| Histogram.VisitsRoundTrip | ssa_project_map/python/generate_histogram.py:31-54 | the `node_visits.txt` text that ssa.c writes for a non-empty vector loads back as that vector |
| Histogram.NegativeIdAliases | ssa_project_map/python/generate_histogram.py:47 | an id of -1 silently writes the last entry: lines `2 5` and `-1 7` load as `[0, 0, 7]` |
| Histogram.NegativeIdOutOfRange | ssa_project_map/python/generate_histogram.py:47 | a file holding only `-1 4` raises `IndexError` and loads as None |
| Histogram.BadVisitLine | ssa_project_map/python/generate_histogram.py:39 | one malformed line makes the whole load None |
| Histogram.LoadRouteStats | ssa_project_map/python/generate_histogram.py:62-76 | an empty stats file yields the empty dictionary |
| Histogram.StatLineParts | ssa_project_map/python/generate_histogram.py:68 | a written `key: value` line splits back into its key and value |
| Histogram.BadStatLine | ssa_project_map/python/generate_histogram.py:68 | one line without exactly one `": "` makes the whole load None |
| Histogram.StatsRoundTrip | ssa_project_map/python/generate_histogram.py:67-69 | written `key: value` lines load as the dictionary with the last value for each key |
| Histogram.TotalVisitsExact | ssa_project_map/python/generate_histogram.py:172 | `sum // 2` of the node totals is exactly the off-diagonal visit sum |
| Histogram.MaxOf | ssa_project_map/python/generate_histogram.py:111 | `max` is an element that no element exceeds |
| Histogram.MinOf | ssa_project_map/python/generate_histogram.py:188 | `min` is an element that no element undercuts |
| Histogram.IndexOf | ssa_project_map/python/generate_histogram.py:112 | `list.index` is the first position holding the value |
| Histogram.MostVisited | ssa_project_map/python/generate_histogram.py:183-185 | the lowest index attaining the maximum, or (0, 0) for no nodes |
| Histogram.LeastVisited | ssa_project_map/python/generate_histogram.py:188-190 | the lowest index attaining the minimum, or (0, 0) for no nodes |
| Histogram.HistogramPeak | ssa_project_map/python/generate_histogram.py:110-112 | the highlighted bar is the lowest index attaining the maximum; an empty vector raises |
| Histogram.InsertByCount | ssa_project_map/python/generate_histogram.py:201 | one insertion step of the stable sort adds exactly the new index |
| Histogram.InsertRanked | ssa_project_map/python/generate_histogram.py:201 | inserting a larger index after all its equals keeps descending count order, with ties ascending |
| Histogram.RankPrefix | ssa_project_map/python/generate_histogram.py:200-201 | the sorted list holds each of the indices 0..k-1 exactly once |
| Histogram.RankPrefixRanked | ssa_project_map/python/generate_histogram.py:200-201 | the stable descending sort orders by count, with ties in ascending index order |
| Histogram.TopIndices | ssa_project_map/python/generate_histogram.py:200-202 | the top list has min(5, n) in-range indices |
| Histogram.TopIndicesRanked | ssa_project_map/python/generate_histogram.py:200-202 | the top list is ranked and distinct, and each listed node outranks every node left out |
| Histogram.TopIsMostVisited | ssa_project_map/python/generate_histogram.py:183-202 | the first of the top 5 is the reported most-visited node |
| DrawMap.LoadRoute | ssa_project_map/python/draw_map.py:158-168 | the route has at most one node per line |
| DrawMap.LoadRouteAppend | ssa_project_map/python/draw_map.py:162-165 | lines are filtered independently and in file order |
| DrawMap.SkippedLine | ssa_project_map/python/draw_map.py:164 | a blank line, or one with a non-digit inside its stripped text, is dropped rather than rejected |
| DrawMap.SkippedLines | ssa_project_map/python/draw_map.py:164 | lines `-3`, `1.5`, `3 4` and a blank line all yield nothing |
| DrawMap.RouteLineRead | ssa_project_map/python/draw_map.py:163-165 | a `"%d\n"` line of a node index is kept as that node |
| DrawMap.RouteRoundTrip | ssa_project_map/python/draw_map.py:161-165 | the written lines of a route read back as the identical route |
| DrawMap.RouteFileRoundTrip | Separate_Test/ssa_project/c_src/main.c:29-30 | the file text the C main writes, split into lines, reads back as the route |
| DrawMap.StatStepOf | ssa_project_map/python/draw_map.py:184-186 | a line is skipped exactly when it has no colon |
| DrawMap.LoadStats | ssa_project_map/python/draw_map.py:177-190 | a missing file yields the empty dictionary |
| DrawMap.LoadStatsStops | ssa_project_map/python/draw_map.py:183-190 | a line with two or more colons ends parsing, and only the entries before it are kept |
| DrawMap.SkippedStatLine | ssa_project_map/python/draw_map.py:184 | a line without a colon changes nothing |
| DrawMap.StatStepOfLine | ssa_project_map/python/draw_map.py:185-186 | a written `key: value` line yields the stripped key and value |
| DrawMap.StatsRead | ssa_project_map/python/draw_map.py:183-187 | written stats lines load completely, the last value winning for each key |
| DrawMap.StatsReadersAgree | ssa_project_map/python/draw_map.py:183-186 | on the stats file ssa.c writes, the two stats readers give the same dictionary |
| DrawMap.RouteEdges | ssa_project_map/python/draw_map.py:116-118 | a route of more than one node has len-1 consecutive pairs, and otherwise none |
| DrawMap.EdgesCounted | ssa_project_map/python/draw_map.py:118 | each drawn edge occurs as often as the C engine counts it for that route |
| DrawMap.TitleCounts | ssa_project_map/python/draw_map.py:143-146 | a route title reports the node count and one edge fewer; an empty route gets the no-route title |
| DrawMap.TitleOfTour | ssa_project_map/python/draw_map.py:144 | the title of an optimiser route reports n nodes and n-1 edges |
| DrawMap.RouteSummary | ssa_project_map/python/draw_map.py:206-211 | more than 6 nodes shows the first 3 and the last 3, which together with the hidden middle are the route; otherwise the whole route |
| DrawMap.SummaryHidesSome | ssa_project_map/python/draw_map.py:206-209 | an abbreviated summary hides at least one node and, for a tour, shows no node twice |
| MapLoader.Cells | Separate_Test/Samp_Test/map_visualization.c:37 | only `'0'` and `'1'` count, each as its value, and each counted cell comes from one character |
| MapLoader.DecodeMap | Separate_Test/Samp_Test/map_visualization.c:27-49 | fewer than 400 cells is an error carrying the count; otherwise cell k of the text is stored at row k/20, column k%20 |
| MapLoader.TrailingIgnored | Separate_Test/Samp_Test/map_visualization.c:36 | once 400 cells are read, later text changes nothing |
| MapLoader.SetAt | Separate_Test/Samp_Test/map_visualization.c:38 | storing cell k changes that cell only |
| MapLoader.RowMajor | Separate_Test/Samp_Test/map_visualization.c:38 | `k / 20` and `k % 20` recover the row and column of row-major index k |
| MapLoader.LoadMap | Separate_Test/Samp_Test/map_visualization.c:34-48 | the character loop computes exactly the decoded grid, or the incomplete-data error |
| MapLoader.JsonRoundTrip | Separate_Test/Samp_Test/map_gen.py:28-33 | the `json.dump` text of a 20×20 0/1 grid decodes back to that grid |
| MapLoader.CellsOfDump | Separate_Test/Samp_Test/map_gen.py:28-33 | the `'0'`/`'1'` characters of the `json.dump` text are the grid's cells row after row; brackets, commas and spaces contribute none |
| MapLoader.DecodeFlat | Separate_Test/Samp_Test/map_visualization.c:34-48 | a text whose counted cells are a 20×20 grid's cells row after row loads as exactly that grid |

## Left out

- File and console I/O is not modelled. Files are passed in as sequences of lines or as text; `print` output and exit codes other than `main`'s return value are left out.
- The result files `run_ssa` writes are left out. Their writers appear only as the inverse of the readers (`VisitLine`, `StatLine`, `RouteLine`).
- Rendering is left out: matplotlib, networkx and OpenGL drawing, `visualize`, and the histogram's bar labels.
- Floating-point numerics are left out: double rounding of route weights, the mean, standard deviation and percentiles, and `%lf` formatting. Weights are exact reals.
- PyEngine.ValidateArgs: `density` is an exact real, but argparse reads it with `float()` (map_generator.py:145), which also accepts `nan`, `inf` and `-inf`. These values are not modelled. A NaN density fails both `density < 0` (line 162) and `density > 2.0` (line 166), so `main` goes on without an error or a warning. `inf` only warns and `-inf` is rejected, just as a large positive or a negative real would be.
- The quality of the random sources is left out (`srand(time)`, modulo bias, uniformity). Draws are explicit bounded arguments.
- Graph generation and `load_graph` are left out: their floating-point distances and `fscanf` parsing are foreign to the model.
- The broken or stub variants under Separate_Test and Code, and TrafficSim, are left out. They are not part of this model.
- The Python scrounger's `random.shuffle(source[n//2:])` is not modelled: it shuffles a temporary slice, so it changes nothing but the random state.
- C `int` overflow of visit counters and `n * sizeof(int)` sizes is not modelled. Counts are unbounded integers.
- The Python engine's `visit_counts` is a numpy integer array (map_generator.py:61, :98), whose entries wrap silently on overflow. The model counts with unbounded integers.
- VisitFold.CalculateNodeVisitCounts: requires every row to have at least as many entries as there are rows. `load_visit_matrix` returns the plain list of rows when `np.array` rejects a ragged file, and a short row then raises `IndexError` at `visit_matrix[i][j]`. That error is not modelled, because the visit matrix `run_ssa` writes always has n rows of n values (ssa.c:135-138).
- Ragged weight matrices are not modelled: every engine member requires a square matrix, as the graph loader produces one.
- Text.ParseInt: accepts an optional sign followed by ASCII digits only. Python `int()` also accepts Unicode digits, surrounding whitespace and `_` separators, but none of these occur in the files the C engine writes.
- Text.Lines: splits on `'\n'` only. Python's universal-newline translation of `\r\n` and `\r` is not modelled.
- DrawMap.RouteEntry: treats only ASCII digits as digits, while `str.isdigit` also accepts other Unicode digits.
- The numpy conversions in generate_histogram.py are left out. They do not change the values.
- MapLoader.LoadMap: the one extra character the C loop reads after the 400th cell, before testing the count, is not modelled. It has no effect on the grid.
- A missing route file (`sys.exit(1)` in `load_route`) is left out, and so is a stats file that cannot be opened in generate_histogram.py. A missing stats file in draw_map.py is modelled as `None`.
- DrawMap.LoadStats: the `except` branch that prints a warning and falls through is modelled by returning the entries read before the failing line, which is the same dictionary object the fall-through returns.
- CEngine.RunSsa: requires n ≥ 1 and a non-empty population when an iteration runs. Otherwise `randint(0, -1)` divides by zero and `pop[0]` is out of bounds, which is undefined behaviour in C.

## Findings

| source | as written | input that shows it | evidently intended | confidence | as-written member | corrected member |
|---|---|---|---|---|---|---|
| ssa_project_map/python/map_generator.py:74 | `best_route = population[best_idx]` binds the very list in the population, so the producer swap at line 82 mutates the best route without updating `best_fitness` | weights 0→1 = 1, 1→2 = 1, every other step 10; one individual `[0, 1, 2]` (fitness 2); one iteration with producer swap of positions 0 and 2 and a restart of slot 0 to `[0, 1, 2]`: `best_fitness` stays 2 internally while the returned route is `[2, 1, 0]`, of weight 20, worse than the only initial individual | `best_route = population[best_idx][:]`, so the returned route weighs `best_fitness` and is never worse than any initial individual | high; not executed | PyEngine.AliasedBestDrifts | PyEngine.SsaOptimizeCopied |
