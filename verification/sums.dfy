/** Integer sums over sequences and square matrices, as used by the visit statistics. */
module Sums {

  /** Sum of the entries of `s`. */
  function Sum(s: seq<int>): int
  {
    if |s| == 0 then 0 else Sum(s[..|s| - 1]) + s[|s| - 1]
  }

  /** Sum of the entries of every row of `m`. */
  function MatrixSum(m: seq<seq<int>>): int
  {
    if |m| == 0 then 0 else MatrixSum(m[..|m| - 1]) + Sum(m[|m| - 1])
  }

  /** `m` has `n` rows of `n` entries each. */
  predicate IsSquare<T>(m: seq<seq<T>>, n: nat)
  {
    |m| == n && forall i | 0 <= i < n :: |m[i]| == n
  }

  /** The `n × n` matrix of zeros, as `calloc` leaves it. */
  function Zeros(n: nat): (m: seq<seq<int>>)
    ensures IsSquare(m, n)
    ensures forall i, j | 0 <= i < n && 0 <= j < n :: m[i][j] == 0
  {
    seq(n, _ => seq(n, _ => 0))
  }

  /** The vector of `n` zeros. */
  function ZeroVector(n: nat): (v: seq<int>)
    ensures |v| == n && forall i | 0 <= i < n :: v[i] == 0
  {
    seq(n, _ => 0)
  }

  /** One more round of `b`: the step every per-iteration count takes. */
  lemma MulSucc(a: int, b: int)
    ensures (a + 1) * b == a * b + b
  {
  }

  /** A vector whose entries are all `c` sums to `|s| * c`. */
  lemma {:induction false} SumConstant(s: seq<int>, c: int)
    requires forall i | 0 <= i < |s| :: s[i] == c
    ensures Sum(s) == |s| * c
  {
    if |s| > 0 {
      SumConstant(s[..|s| - 1], c);
    }
  }

  /** Overwriting one entry changes the sum by the difference. */
  lemma {:induction false} SumUpdate(s: seq<int>, i: nat, x: int)
    requires i < |s|
    ensures Sum(s[i := x]) == Sum(s) - s[i] + x
  {
    var t := s[i := x];
    if i == |s| - 1 {
      assert t[..|t| - 1] == s[..|s| - 1];
    } else {
      assert t[..|t| - 1] == s[..|s| - 1][i := x];
      SumUpdate(s[..|s| - 1], i, x);
    }
  }

  /** Overwriting one row changes the matrix sum by the difference of the row sums. */
  lemma {:induction false} MatrixSumUpdate(m: seq<seq<int>>, i: nat, row: seq<int>)
    requires i < |m|
    ensures MatrixSum(m[i := row]) == MatrixSum(m) - Sum(m[i]) + Sum(row)
  {
    var t := m[i := row];
    if i == |m| - 1 {
      assert t[..|t| - 1] == m[..|m| - 1];
    } else {
      assert t[..|t| - 1] == m[..|m| - 1][i := row];
      MatrixSumUpdate(m[..|m| - 1], i, row);
    }
  }

  /** Incrementing one cell raises the matrix sum by exactly one. */
  lemma MatrixSumIncrement(m: seq<seq<int>>, u: nat, v: nat)
    requires u < |m| && v < |m[u]|
    ensures MatrixSum(m[u := m[u][v := m[u][v] + 1]]) == MatrixSum(m) + 1
  {
    SumUpdate(m[u], v, m[u][v] + 1);
    MatrixSumUpdate(m, u, m[u][v := m[u][v] + 1]);
  }

  /** Pointwise addition distributes over the sum. */
  lemma {:induction false} SumAdd(a: seq<int>, b: seq<int>, c: seq<int>)
    requires |a| == |b| == |c|
    requires forall i | 0 <= i < |a| :: c[i] == a[i] + b[i]
    ensures Sum(c) == Sum(a) + Sum(b)
  {
    if |a| > 0 {
      SumAdd(a[..|a| - 1], b[..|b| - 1], c[..|c| - 1]);
    }
  }

  /** The all-zero matrix sums to zero. */
  lemma {:induction false} MatrixSumZeros(m: seq<seq<int>>)
    requires forall i, j | 0 <= i < |m| && 0 <= j < |m[i]| :: m[i][j] == 0
    ensures MatrixSum(m) == 0
  {
    if |m| > 0 {
      MatrixSumZeros(m[..|m| - 1]);
      SumConstant(m[|m| - 1], 0);
    }
  }
}
