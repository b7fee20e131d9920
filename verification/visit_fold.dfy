/**
 * Per-node visit totals from a directed visit matrix: node `v` gets its row
 * (outgoing visits) plus its column (incoming visits), the diagonal cell left
 * out. `calculate_node_visit_counts` in generate_histogram.py computes it as
 * a fold over the cells in row-major order; the end of `run_ssa` in ssa.c
 * runs the same loop (`CEngine.NodeVisits`). Each off-diagonal cell is
 * counted twice, once for each end, which is why the report halves the sum.
 */
module VisitFold {
  import opened Sums

  /** Every row reaches column `|m| - 1`, as indexing `m[i][j]` for `i, j < len(m)` needs. */
  predicate Wide(m: seq<seq<int>>)
  {
    forall i | 0 <= i < |m| :: |m[i]| >= |m|
  }

  /** Outgoing visits of node `v` over columns `0..k-1`, the diagonal cell skipped. */
  function RowOff(m: seq<seq<int>>, v: nat, k: nat): int
    requires Wide(m) && v < |m| && k <= |m|
  {
    if k == 0 then 0 else RowOff(m, v, k - 1) + (if k - 1 != v then m[v][k - 1] else 0)
  }

  /** Incoming visits of node `v` over rows `0..k-1`, the diagonal cell skipped. */
  function ColOff(m: seq<seq<int>>, v: nat, k: nat): int
    requires Wide(m) && v < |m| && k <= |m|
  {
    if k == 0 then 0 else ColOff(m, v, k - 1) + (if k - 1 != v then m[k - 1][v] else 0)
  }

  /** The total of the off-diagonal cells of rows `0..k-1`. */
  function OffDiagonal(m: seq<seq<int>>, k: nat): int
    requires Wide(m) && k <= |m|
  {
    if k == 0 then 0 else OffDiagonal(m, k - 1) + RowOff(m, k - 1, |m|)
  }

  /** Closed form of the per-node totals: whole row plus whole column, diagonal excluded. */
  function NodeTotals(m: seq<seq<int>>): (t: seq<int>)
    requires Wide(m)
    ensures |t| == |m|
  {
    seq(|m|, v requires 0 <= v < |m| => RowOff(m, v, |m|) + ColOff(m, v, |m|))
  }

  /** One cell: `if i != j: node_visits[i] += m[i][j]; node_visits[j] += m[i][j]`. */
  function Cell(m: seq<seq<int>>, i: nat, j: nat, acc: seq<int>): (r: seq<int>)
    requires Wide(m) && i < |m| && j < |m| && |acc| == |m|
  {
    if i != j then
      var a := acc[i := acc[i] + m[i][j]];
      a[j := a[j] + m[i][j]]
    else acc
  }

  /** Cells `(i, 0)`, …, `(i, j-1)` of row `i`, in column order. */
  function RowPass(m: seq<seq<int>>, i: nat, j: nat, acc: seq<int>): (r: seq<int>)
    requires Wide(m) && i < |m| && j <= |m| && |acc| == |m|
    ensures |r| == |m|
  {
    if j == 0 then acc else Cell(m, i, j - 1, RowPass(m, i, j - 1, acc))
  }

  /** Rows `0..i-1` in row order, starting from `[0] * n`. */
  function RowsPass(m: seq<seq<int>>, i: nat): (r: seq<int>)
    requires Wide(m) && i <= |m|
    ensures |r| == |m|
  {
    if i == 0 then ZeroVector(|m|) else RowPass(m, i - 1, |m|, RowsPass(m, i - 1))
  }

  /**
   * A partial row pass adds row `i`'s first `j` off-diagonal cells to node
   * `i`, and each such cell to the node of its column.
   */
  lemma {:induction false} RowPassClosed(m: seq<seq<int>>, i: nat, j: nat, acc: seq<int>)
    requires Wide(m) && i < |m| && j <= |m| && |acc| == |m|
    ensures forall v | 0 <= v < |m| ::
      RowPass(m, i, j, acc)[v]
        == acc[v] + (if v == i then RowOff(m, i, j) else 0) + (if v < j && v != i then m[i][v] else 0)
  {
    if j > 0 {
      RowPassClosed(m, i, j - 1, acc);
    }
  }

  /** A partial row pass raises the sum by twice the cells it adds. */
  lemma {:induction false} RowPassSum(m: seq<seq<int>>, i: nat, j: nat, acc: seq<int>)
    requires Wide(m) && i < |m| && j <= |m| && |acc| == |m|
    ensures Sum(RowPass(m, i, j, acc)) == Sum(acc) + 2 * RowOff(m, i, j)
  {
    if j > 0 {
      var prev := RowPass(m, i, j - 1, acc);
      RowPassSum(m, i, j - 1, acc);
      CellSum(m, i, j - 1, prev);
      assert RowOff(m, i, j) == RowOff(m, i, j - 1) + (if i != j - 1 then m[i][j - 1] else 0);
    }
  }

  /** One off-diagonal cell is added at both of its ends. */
  lemma {:induction false} CellSum(m: seq<seq<int>>, i: nat, j: nat, acc: seq<int>)
    requires Wide(m) && i < |m| && j < |m| && |acc| == |m|
    ensures Sum(Cell(m, i, j, acc)) == Sum(acc) + (if i != j then 2 * m[i][j] else 0)
  {
    if i != j {
      var x := m[i][j];
      var a := acc[i := acc[i] + x];
      SumUpdate(acc, i, acc[i] + x);
      SumUpdate(a, j, a[j] + x);
      assert a[j] == acc[j];
      assert Cell(m, i, j, acc) == a[j := a[j] + x];
    }
  }

  /**
   * After rows `0..i-1`, node `v` holds its whole row if `v < i`, plus its
   * column over those rows.
   */
  lemma {:induction false} RowsPassClosed(m: seq<seq<int>>, i: nat)
    requires Wide(m) && i <= |m|
    ensures forall v | 0 <= v < |m| ::
      RowsPass(m, i)[v] == (if v < i then RowOff(m, v, |m|) else 0) + ColOff(m, v, i)
  {
    if i > 0 {
      RowsPassClosed(m, i - 1);
      RowPassClosed(m, i - 1, |m|, RowsPass(m, i - 1));
    }
  }

  /** After rows `0..i-1` the sum is twice the off-diagonal total so far. */
  lemma {:induction false} RowsPassSum(m: seq<seq<int>>, i: nat)
    requires Wide(m) && i <= |m|
    ensures Sum(RowsPass(m, i)) == 2 * OffDiagonal(m, i)
  {
    if i == 0 {
      SumConstant(ZeroVector(|m|), 0);
    } else {
      RowsPassSum(m, i - 1);
      RowPassSum(m, i - 1, |m|, RowsPass(m, i - 1));
    }
  }

  /**
   * `calculate_node_visit_counts`: the closed-form totals, whose sum is twice
   * the off-diagonal total of the matrix.
   */
  function CalculateNodeVisitCounts(m: seq<seq<int>>): (r: seq<int>)
    requires Wide(m)
    ensures r == NodeTotals(m)
    ensures Sum(r) == 2 * OffDiagonal(m, |m|)
  {
    RowsPassClosed(m, |m|);
    RowsPassSum(m, |m|);
    RowsPass(m, |m|)
  }

  /** Off the diagonal every cell of a zero-diagonal matrix counts, so the off-diagonal total is the matrix sum. */
  lemma {:induction false} OffDiagonalZeroDiagonal(m: seq<seq<int>>, k: nat)
    requires IsSquare(m, |m|) && k <= |m|
    requires forall v | 0 <= v < |m| :: m[v][v] == 0
    ensures OffDiagonal(m, k) == MatrixSum(m[..k])
  {
    if k > 0 {
      OffDiagonalZeroDiagonal(m, k - 1);
      RowOffFull(m, k - 1, |m|);
      assert m[..k][..k - 1] == m[..k - 1];
      assert m[k - 1][..|m|] == m[k - 1];
    }
  }

  /** With a zero diagonal cell, the off-diagonal row prefix is the plain prefix sum. */
  lemma {:induction false} RowOffFull(m: seq<seq<int>>, v: nat, k: nat)
    requires IsSquare(m, |m|) && v < |m| && k <= |m| && m[v][v] == 0
    ensures RowOff(m, v, k) == Sum(m[v][..k])
  {
    if k > 0 {
      RowOffFull(m, v, k - 1);
      assert m[v][..k][..k - 1] == m[v][..k - 1];
    }
  }
}
