/** Generic grid machinery: a board is a sequence of rows of integers, and
    every whole-board scan of the engine is a sum over its cells of a
    per-cell contribution f(row, column, value). The lemmas here are the
    algebra of such sums: linearity, monotonicity and the effect of
    overwriting one cell. */
module Grid {

  datatype Option<T> = None | Some(value: T)

  type Board = seq<seq<int>>

  /** A per-cell contribution: row index, column index, cell value. */
  type CellFn = (int, int, int) -> int

  function Abs(x: int): int { if x < 0 then -x else x }
  function Max(a: int, b: int): int { if a >= b then a else b }
  function Min(a: int, b: int): int { if a <= b then a else b }

  /** Every row is as long as the board is high. */
  predicate Square(b: Board) {
    forall i :: 0 <= i < |b| ==> |b[i]| == |b|
  }

  /** The board with cell (x, y) overwritten by v. */
  function Set(b: Board, x: int, y: int, v: int): (r: Board)
    requires 0 <= x < |b| && 0 <= y < |b[x]|
    ensures |r| == |b| && forall i :: 0 <= i < |r| ==> |r[i]| == |b[i]|
    ensures r[x][y] == v
    ensures forall i, j :: 0 <= i < |b| && 0 <= j < |b[i]| && (i != x || j != y) ==> r[i][j] == b[i][j]
  {
    b[x := b[x][y := v]]
  }

  /** Two boards of the same shape with the same cells are equal. */
  lemma SameCells(a: Board, b: Board)
    requires |a| == |b|
    requires forall i :: 0 <= i < |a| ==> |a[i]| == |b[i]|
    requires forall i, j :: 0 <= i < |a| && 0 <= j < |a[i]| ==> a[i][j] == b[i][j]
    ensures a == b
  {
    forall i | 0 <= i < |a|
      ensures a[i] == b[i]
    {
      assert forall j :: 0 <= j < |a[i]| ==> a[i][j] == b[i][j];
    }
  }

  /** Sum of f over the first k cells of row i (whose contents are row). */
  function SumRow(row: seq<int>, i: int, f: CellFn, k: nat): int
    requires k <= |row|
  {
    if k == 0 then 0 else SumRow(row, i, f, k - 1) + f(i, k - 1, row[k - 1])
  }

  /** Sum of f over every cell of the first k rows. */
  function SumRows(b: Board, f: CellFn, k: nat): int
    requires k <= |b|
  {
    if k == 0 then 0 else SumRows(b, f, k - 1) + SumRow(b[k - 1], k - 1, f, |b[k - 1]|)
  }

  /** Sum of f over every cell of the board, in row-major order. */
  function SumCells(b: Board, f: CellFn): int {
    SumRows(b, f, |b|)
  }

  /** The sum of f and g, cell by cell. */
  function Plus(f: CellFn, g: CellFn): CellFn {
    (i, j, v) => f(i, j, v) + g(i, j, v)
  }

  lemma {:induction false} SumRowMono(row: seq<int>, i: int, f: CellFn, g: CellFn, k: nat)
    requires k <= |row|
    requires forall j :: 0 <= j < |row| ==> f(i, j, row[j]) <= g(i, j, row[j])
    ensures SumRow(row, i, f, k) <= SumRow(row, i, g, k)
  {
    if k > 0 {
      SumRowMono(row, i, f, g, k - 1);
    }
  }

  lemma {:induction false} SumRowsMono(b: Board, f: CellFn, g: CellFn, k: nat)
    requires k <= |b|
    requires forall i, j :: 0 <= i < |b| && 0 <= j < |b[i]| ==> f(i, j, b[i][j]) <= g(i, j, b[i][j])
    ensures SumRows(b, f, k) <= SumRows(b, g, k)
  {
    if k > 0 {
      SumRowsMono(b, f, g, k - 1);
      SumRowMono(b[k - 1], k - 1, f, g, |b[k - 1]|);
    }
  }

  /** A cell-wise smaller contribution has a smaller sum. */
  lemma SumCellsMono(b: Board, f: CellFn, g: CellFn)
    requires forall i, j :: 0 <= i < |b| && 0 <= j < |b[i]| ==> f(i, j, b[i][j]) <= g(i, j, b[i][j])
    ensures SumCells(b, f) <= SumCells(b, g)
  {
    SumRowsMono(b, f, g, |b|);
  }

  /** Contributions that agree on every cell have the same sum. */
  lemma SumCellsExt(b: Board, f: CellFn, g: CellFn)
    requires forall i, j :: 0 <= i < |b| && 0 <= j < |b[i]| ==> f(i, j, b[i][j]) == g(i, j, b[i][j])
    ensures SumCells(b, f) == SumCells(b, g)
  {
    SumCellsMono(b, f, g);
    SumCellsMono(b, g, f);
  }

  lemma {:induction false} SumRowAdd(row: seq<int>, i: int, f: CellFn, g: CellFn, k: nat)
    requires k <= |row|
    ensures SumRow(row, i, Plus(f, g), k) == SumRow(row, i, f, k) + SumRow(row, i, g, k)
  {
    if k > 0 {
      SumRowAdd(row, i, f, g, k - 1);
    }
  }

  lemma {:induction false} SumRowsAdd(b: Board, f: CellFn, g: CellFn, k: nat)
    requires k <= |b|
    ensures SumRows(b, Plus(f, g), k) == SumRows(b, f, k) + SumRows(b, g, k)
  {
    if k > 0 {
      SumRowsAdd(b, f, g, k - 1);
      SumRowAdd(b[k - 1], k - 1, f, g, |b[k - 1]|);
    }
  }

  /** Summing is additive: a contribution that is cell-wise f + g sums to
      the sum of f plus the sum of g. */
  lemma SumCellsAdd(b: Board, f: CellFn, g: CellFn, h: CellFn)
    requires forall i, j :: 0 <= i < |b| && 0 <= j < |b[i]| ==> h(i, j, b[i][j]) == f(i, j, b[i][j]) + g(i, j, b[i][j])
    ensures SumCells(b, h) == SumCells(b, f) + SumCells(b, g)
  {
    SumRowsAdd(b, f, g, |b|);
    SumCellsExt(b, h, Plus(f, g));
  }

  lemma {:induction false} SumRowScale(row: seq<int>, i: int, f: CellFn, h: CellFn, c: int, k: nat)
    requires k <= |row|
    requires forall j :: 0 <= j < |row| ==> h(i, j, row[j]) == c * f(i, j, row[j])
    ensures SumRow(row, i, h, k) == c * SumRow(row, i, f, k)
  {
    if k > 0 {
      SumRowScale(row, i, f, h, c, k - 1);
      assert SumRow(row, i, h, k) == c * SumRow(row, i, f, k - 1) + c * f(i, k - 1, row[k - 1]);
    }
  }

  lemma {:induction false} SumRowsScale(b: Board, f: CellFn, h: CellFn, c: int, k: nat)
    requires k <= |b|
    requires forall i, j :: 0 <= i < |b| && 0 <= j < |b[i]| ==> h(i, j, b[i][j]) == c * f(i, j, b[i][j])
    ensures SumRows(b, h, k) == c * SumRows(b, f, k)
  {
    if k > 0 {
      SumRowsScale(b, f, h, c, k - 1);
      SumRowScale(b[k - 1], k - 1, f, h, c, |b[k - 1]|);
      assert SumRows(b, h, k) == c * SumRows(b, f, k - 1) + c * SumRow(b[k - 1], k - 1, f, |b[k - 1]|);
    }
  }

  /** Summing is homogeneous: a contribution that is cell-wise c * f sums to
      c times the sum of f. */
  lemma SumCellsScale(b: Board, f: CellFn, h: CellFn, c: int)
    requires forall i, j :: 0 <= i < |b| && 0 <= j < |b[i]| ==> h(i, j, b[i][j]) == c * f(i, j, b[i][j])
    ensures SumCells(b, h) == c * SumCells(b, f)
  {
    SumRowsScale(b, f, h, c, |b|);
  }

  /** Summing is subtractive: a contribution that is cell-wise f - g sums
      to the sum of f minus the sum of g. */
  lemma SumCellsSub(b: Board, f: CellFn, g: CellFn, h: CellFn)
    requires forall i, j :: 0 <= i < |b| && 0 <= j < |b[i]| ==> h(i, j, b[i][j]) == f(i, j, b[i][j]) - g(i, j, b[i][j])
    ensures SumCells(b, h) == SumCells(b, f) - SumCells(b, g)
  {
    var neg: CellFn := (i, j, v) => -g(i, j, v);
    SumCellsScale(b, g, neg, -1);
    SumCellsAdd(b, f, neg, h);
  }

  lemma {:induction false} SumRowAtLeast(row: seq<int>, i: int, f: CellFn, y: nat, k: nat)
    requires y < k <= |row|
    requires forall j :: 0 <= j < |row| ==> f(i, j, row[j]) >= 0
    ensures SumRow(row, i, f, k) >= f(i, y, row[y])
  {
    if k - 1 > y {
      SumRowAtLeast(row, i, f, y, k - 1);
    } else {
      SumRowMono(row, i, (i', j', v') => 0, f, k - 1);
      SumRowZero(row, i, k - 1);
    }
  }

  lemma {:induction false} SumRowZero(row: seq<int>, i: int, k: nat)
    requires k <= |row|
    ensures SumRow(row, i, (i', j', v') => 0, k) == 0
  {
    if k > 0 {
      SumRowZero(row, i, k - 1);
    }
  }

  lemma {:induction false} SumRowsAtLeast(b: Board, f: CellFn, x: nat, y: nat, k: nat)
    requires x < k <= |b| && y < |b[x]|
    requires forall i, j :: 0 <= i < |b| && 0 <= j < |b[i]| ==> f(i, j, b[i][j]) >= 0
    ensures SumRows(b, f, k) >= f(x, y, b[x][y])
  {
    SumRowMono(b[k - 1], k - 1, (i', j', v') => 0, f, |b[k - 1]|);
    SumRowZero(b[k - 1], k - 1, |b[k - 1]|);
    if k - 1 > x {
      SumRowsAtLeast(b, f, x, y, k - 1);
    } else {
      SumRowAtLeast(b[x], x, f, y, |b[x]|);
      SumRowsNonneg(b, f, k - 1);
    }
  }

  lemma {:induction false} SumRowsNonneg(b: Board, f: CellFn, k: nat)
    requires k <= |b|
    requires forall i, j :: 0 <= i < |b| && 0 <= j < |b[i]| ==> f(i, j, b[i][j]) >= 0
    ensures SumRows(b, f, k) >= 0
  {
    if k > 0 {
      SumRowsNonneg(b, f, k - 1);
      SumRowMono(b[k - 1], k - 1, (i', j', v') => 0, f, |b[k - 1]|);
      SumRowZero(b[k - 1], k - 1, |b[k - 1]|);
    }
  }

  /** A sum of non-negative contributions is at least each of them. */
  lemma SumCellsAtLeast(b: Board, f: CellFn, x: int, y: int)
    requires 0 <= x < |b| && 0 <= y < |b[x]|
    requires forall i, j :: 0 <= i < |b| && 0 <= j < |b[i]| ==> f(i, j, b[i][j]) >= 0
    ensures SumCells(b, f) >= f(x, y, b[x][y])
  {
    SumRowsAtLeast(b, f, x, y, |b|);
  }

  /** A sum of non-negative contributions is non-negative. */
  lemma SumCellsNonneg(b: Board, f: CellFn)
    requires forall i, j :: 0 <= i < |b| && 0 <= j < |b[i]| ==> f(i, j, b[i][j]) >= 0
    ensures SumCells(b, f) >= 0
  {
    SumRowsNonneg(b, f, |b|);
  }

  lemma {:induction false} SumRowSet(row: seq<int>, i: int, f: CellFn, y: nat, v: int, k: nat)
    requires y < |row| && k <= |row|
    ensures SumRow(row[y := v], i, f, k)
         == SumRow(row, i, f, k) + (if y < k then f(i, y, v) - f(i, y, row[y]) else 0)
  {
    if k > 0 {
      SumRowSet(row, i, f, y, v, k - 1);
    }
  }

  lemma {:induction false} SumRowsSet(b: Board, f: CellFn, x: nat, y: nat, v: int, k: nat)
    requires x < |b| && y < |b[x]| && k <= |b|
    ensures SumRows(Set(b, x, y, v), f, k)
         == SumRows(b, f, k) + (if x < k then f(x, y, v) - f(x, y, b[x][y]) else 0)
  {
    if k > 0 {
      SumRowsSet(b, f, x, y, v, k - 1);
      if k - 1 == x {
        SumRowSet(b[x], x, f, y, v, |b[x]|);
      } else {
        assert Set(b, x, y, v)[k - 1] == b[k - 1];
      }
    }
  }

  /** Overwriting one cell changes a sum by exactly the change in that
      cell's contribution. */
  lemma SumCellsSet(b: Board, f: CellFn, x: int, y: int, v: int)
    requires 0 <= x < |b| && 0 <= y < |b[x]|
    ensures SumCells(Set(b, x, y, v), f) == SumCells(b, f) - f(x, y, b[x][y]) + f(x, y, v)
  {
    SumRowsSet(b, f, x, y, v, |b|);
  }
}
