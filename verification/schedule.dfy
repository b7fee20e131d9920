/**
 * How many slots each phase of an iteration touches, and how many
 * iterations run. Both engines agree: Python writes `max(population_size // 5, 1)`
 * and `max(1, population_size // 10)`, C computes `population_size / 5` and
 * `population_size / 10` and raises each to 1; for a non-negative size
 * these are the same numbers.
 */
module Schedule {

  /** The number of producer slots: a fifth of the population, at least one. */
  function ProducerCount(popSize: nat): (p: nat)
    ensures 1 <= p
    ensures popSize >= 1 ==> p <= popSize
    ensures popSize >= 5 ==> p == popSize / 5
    ensures popSize < 5 ==> p == 1
  {
    if popSize / 5 >= 1 then popSize / 5 else 1
  }

  /** The number of danger-aware restarts: a tenth of the population, at least one. */
  function DangerCount(popSize: nat): (d: nat)
    ensures 1 <= d
    ensures popSize >= 10 ==> d == popSize / 10
    ensures popSize < 10 ==> d == 1
  {
    if popSize / 10 >= 1 then popSize / 10 else 1
  }

  /** The number of times `for iteration in range(max_iter)` / `for (iter = 0; iter < max_iter; iter++)` runs. */
  function Iterations(maxIter: int): (k: nat)
    ensures maxIter <= 0 ==> k == 0
    ensures maxIter > 0 ==> k == maxIter
  {
    if maxIter > 0 then maxIter else 0
  }
}
