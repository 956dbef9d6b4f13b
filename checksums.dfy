/** The grid arithmetic of `np_cartesian_product`, `domain_checksum1` and
    `domain_checksum2`. The first time step of a velocity grid and its fill
    value are inputs; the checksums only ever add whole numbers, so they are
    computed on integers. */
module Checksums {
  /** A grid of values, row by row. */
  type Grid = seq<seq<int>>

  /** Every row has `cols` entries. */
  predicate Rect(g: Grid, cols: nat) {
    forall i :: 0 <= i < |g| ==> |g[i]| == cols
  }

  /** `[0, 1, ..., n - 1]`. */
  function Range(n: nat): seq<int> {
    seq(n, k => k)
  }

  /** `np.tile(x, (reps, 1))`: `reps` rows, each a copy of `x`. */
  function Tile(x: seq<int>, reps: nat): Grid {
    seq(reps, _ => x)
  }

  /** `np.transpose` of a grid with `cols` columns. */
  function Transpose(g: Grid, cols: nat): Grid
    requires Rect(g, cols)
  {
    seq(cols, j requires 0 <= j < cols => seq(|g|, i requires 0 <= i < |g| => g[i][j]))
  }

  /** Element-wise `a + b`. */
  function Plus(a: Grid, b: Grid): Grid
    requires |a| == |b| && forall i :: 0 <= i < |a| ==> |a[i]| == |b[i]|
  {
    seq(|a|, i requires 0 <= i < |a| => seq(|a[i]|, j requires 0 <= j < |a[i]| => a[i][j] + b[i][j]))
  }

  /** Element-wise `a * b`. */
  function Times(a: Grid, b: Grid): Grid
    requires |a| == |b| && forall i :: 0 <= i < |a| ==> |a[i]| == |b[i]|
  {
    seq(|a|, i requires 0 <= i < |a| => seq(|a[i]|, j requires 0 <= j < |a[i]| => a[i][j] * b[i][j]))
  }

  /** `np_cartesian_product(x, y)`: the transposed tiling of `x` plus the
      tiling of `y`, which puts `x[i] + y[j]` at row `i`, column `j`. */
  function CartesianSum(x: seq<int>, y: seq<int>): (r: Grid)
    ensures |r| == |x| && Rect(r, |y|)
    ensures forall i, j :: 0 <= i < |x| && 0 <= j < |y| ==> r[i][j] == x[i] + y[j]
  {
    var xx := Transpose(Tile(x, |y|), |x|);
    var yy := Tile(y, |x|);
    Plus(xx, yy)
  }

  /** `np.not_equal(g, fill)`, as 1 and 0. */
  function Present(g: Grid, fill: int): Grid {
    seq(|g|, i requires 0 <= i < |g| => seq(|g[i]|, j requires 0 <= j < |g[i]| => if g[i][j] != fill then 1 else 0))
  }

  /** `np.sum` of a row. */
  function SumRow(s: seq<int>): int {
    if s == [] then 0 else SumRow(s[..|s| - 1]) + s[|s| - 1]
  }

  /** `np.sum(np.sum(g))`. */
  function SumGrid(g: Grid): int {
    if g == [] then 0 else SumGrid(g[..|g| - 1]) + SumRow(g[|g| - 1])
  }

  /** `domain_checksum1`: each present pixel weighs its row plus its column. */
  function DomainChecksum1(g: Grid, cols: nat, fill: int): int
    requires Rect(g, cols)
  {
    var weights := CartesianSum(Range(|g|), Range(cols));
    SumGrid(Times(weights, Present(g, fill)))
  }

  // ---------------------------------------------------------------- reference

  /** The weight of the present pixels of row `i`, column by column. */
  function RowWeight(row: seq<int>, i: int, fill: int): int {
    if row == [] then 0
    else RowWeight(row[..|row| - 1], i, fill) + (if row[|row| - 1] != fill then i + |row| - 1 else 0)
  }

  /** The weight of the present pixels, row by row. */
  function Weight(g: Grid, fill: int): int {
    if g == [] then 0 else Weight(g[..|g| - 1], fill) + RowWeight(g[|g| - 1], |g| - 1, fill)
  }

  /** The weighted row of the product, summed, is the row's weight. */
  lemma {:induction false} SumWeightedRow(row: seq<int>, i: int, fill: int, w: seq<int>)
    requires |w| == |row|
    requires forall j :: 0 <= j < |row| ==> w[j] == (i + j) * (if row[j] != fill then 1 else 0)
    ensures SumRow(w) == RowWeight(row, i, fill)
    decreases |row|
  {
    if row != [] {
      var n := |row| - 1;
      SumWeightedRow(row[..n], i, fill, w[..n]);
    }
  }

  /** The weighted grid, summed, is the grid's weight. */
  lemma {:induction false} SumWeightedGrid(g: Grid, fill: int, p: Grid)
    requires |p| == |g|
    requires forall i :: 0 <= i < |g| ==> (|p[i]| == |g[i]|
      && forall j :: 0 <= j < |g[i]| ==> p[i][j] == (i + j) * (if g[i][j] != fill then 1 else 0))
    ensures SumGrid(p) == Weight(g, fill)
    decreases |g|
  {
    if g != [] {
      var n := |g| - 1;
      SumWeightedGrid(g[..n], fill, p[..n]);
      SumWeightedRow(g[n], n, fill, p[n]);
    }
  }

  /** `domain_checksum1` sums row plus column over the pixels that are not
      the fill value, and nothing else. */
  lemma Checksum1IsWeight(g: Grid, cols: nat, fill: int)
    requires Rect(g, cols)
    ensures DomainChecksum1(g, cols, fill) == Weight(g, fill)
  {
    var weights := CartesianSum(Range(|g|), Range(cols));
    var present := Present(g, fill);
    SumWeightedGrid(g, fill, Times(weights, present));
  }

  /** Every pixel of a row present: `i` per pixel plus `0 + 1 + ... + (n - 1)`. */
  lemma {:induction false} FullRowWeight(row: seq<int>, i: int, fill: int)
    requires forall j :: 0 <= j < |row| ==> row[j] != fill
    ensures 2 * RowWeight(row, i, fill) == |row| * (2 * i + |row| - 1)
    decreases |row|
  {
    if row != [] {
      FullRowWeight(row[..|row| - 1], i, fill);
    }
  }

  /** On a grid without fill, the checksum is `rows * cols * (rows + cols - 2) / 2`. */
  lemma {:induction false} FullWeight(g: Grid, cols: nat, fill: int)
    requires Rect(g, cols)
    requires forall i, j :: 0 <= i < |g| && 0 <= j < cols ==> g[i][j] != fill
    ensures 2 * Weight(g, fill) == |g| * cols * (|g| + cols - 2)
    decreases |g|
  {
    if g != [] {
      var n := |g| - 1;
      FullWeight(g[..n], cols, fill);
      FullRowWeight(g[n], n, fill);
      assert 2 * Weight(g, fill) == n * cols * (n + cols - 2) + cols * (2 * n + cols - 1);
    }
  }

  /** A row that is all fill weighs nothing. */
  lemma {:induction false} EmptyRowWeight(row: seq<int>, i: int, fill: int)
    requires forall j :: 0 <= j < |row| ==> row[j] == fill
    ensures RowWeight(row, i, fill) == 0
    decreases |row|
  {
    if row != [] {
      EmptyRowWeight(row[..|row| - 1], i, fill);
    }
  }

  /** A grid that is all fill has checksum 0. */
  lemma {:induction false} EmptyWeight(g: Grid, fill: int)
    requires forall i, j :: 0 <= i < |g| && 0 <= j < |g[i]| ==> g[i][j] == fill
    ensures Weight(g, fill) == 0
    decreases |g|
  {
    if g != [] {
      EmptyWeight(g[..|g| - 1], fill);
      EmptyRowWeight(g[|g| - 1], |g| - 1, fill);
    }
  }

  // ---------------------------------------------------------------- domain_checksum2

  /** The window near the glacier terminus: rows 373 to 412, columns 387 to 438. */
  const RowLo: int := 373
  const RowHi: int := 413
  const ColLo: int := 387
  const ColHi: int := 439

  predicate InWindow(i: int, j: int) {
    RowLo <= i < RowHi && ColLo <= j < ColHi
  }

  /** The present pixels of a row that lie in the window's columns. */
  function RowCount(row: seq<int>, fill: int): int {
    if row == [] then 0
    else RowCount(row[..|row| - 1], fill) + (if ColLo <= |row| - 1 < ColHi && row[|row| - 1] != fill then 1 else 0)
  }

  /** The present pixels of the grid that lie in the window, clipped to the grid. */
  function WindowCount(g: Grid, fill: int): int {
    if g == [] then 0
    else WindowCount(g[..|g| - 1], fill) + (if RowLo <= |g| - 1 < RowHi then RowCount(g[|g| - 1], fill) else 0)
  }

  /** `domain_checksum2`: zero a mask of the grid's shape, set the window to
      1 (clipped to the grid), and sum the mask over the present pixels. */
  method DomainChecksum2(g: Grid, cols: nat, fill: int) returns (r: int)
    requires Rect(g, cols)
    ensures r == WindowCount(g, fill)
  {
    var rows := |g|;
    var mask := new int[rows, cols]((_, _) => 0);
    var i := RowLo;
    while i < RowHi && i < rows
      invariant RowLo <= i <= RowHi
      invariant forall a, b :: 0 <= a < rows && 0 <= b < cols ==> mask[a, b] == if InWindow(a, b) && a < i then 1 else 0
    {
      var j := ColLo;
      while j < ColHi && j < cols
        invariant ColLo <= j <= ColHi
        invariant forall a, b :: 0 <= a < rows && 0 <= b < cols ==>
          mask[a, b] == if InWindow(a, b) && (a < i || (a == i && b < j)) then 1 else 0
      {
        mask[i, j] := 1;
        j := j + 1;
      }
      i := i + 1;
    }
    r := 0;
    for a := 0 to rows
      invariant r == WindowCount(g[..a], fill)
    {
      var s := 0;
      for b := 0 to cols
        invariant s == RowCount(g[a][..b], fill) * (if RowLo <= a < RowHi then 1 else 0)
      {
        var exist := if g[a][b] != fill then 1 else 0;
        assert g[a][..b + 1][..b] == g[a][..b];
        s := s + exist * mask[a, b];
      }
      assert g[a][..cols] == g[a];
      assert g[..a + 1][..a] == g[..a];
      r := r + s;
    }
    assert g[..rows] == g;
  }

  /** A row has at most the 52 window columns present. */
  lemma {:induction false} RowCountBound(row: seq<int>, fill: int)
    ensures 0 <= RowCount(row, fill) <= ColHi - ColLo
    ensures |row| <= ColLo ==> RowCount(row, fill) == 0
    ensures ColLo < |row| <= ColHi ==> RowCount(row, fill) <= |row| - ColLo
    decreases |row|
  {
    if row != [] {
      RowCountBound(row[..|row| - 1], fill);
    }
  }

  /** The checksum counts at most the 40 by 52 pixels of the window. */
  lemma {:induction false} WindowCountBound(g: Grid, fill: int)
    ensures 0 <= WindowCount(g, fill) <= (RowHi - RowLo) * (ColHi - ColLo)
    ensures |g| <= RowLo ==> WindowCount(g, fill) == 0
    ensures RowLo < |g| <= RowHi ==> WindowCount(g, fill) <= (|g| - RowLo) * (ColHi - ColLo)
    decreases |g|
  {
    if g != [] {
      WindowCountBound(g[..|g| - 1], fill);
      RowCountBound(g[|g| - 1], fill);
    }
  }

  /** A row counts nothing exactly when its window columns are all fill. */
  lemma {:induction false} RowCountZero(row: seq<int>, fill: int)
    ensures RowCount(row, fill) == 0 <==> forall j :: 0 <= j < |row| && ColLo <= j < ColHi ==> row[j] == fill
    decreases |row|
  {
    if row != [] {
      var n := |row| - 1;
      RowCountZero(row[..n], fill);
      RowCountBound(row[..n], fill);
      if RowCount(row, fill) == 0 {
        forall j | 0 <= j < |row| && ColLo <= j < ColHi ensures row[j] == fill {
          if j < n {
            assert row[..n][j] == row[j];
          }
        }
      }
    }
  }

  /** The checksum is 0 exactly when every pixel of the window that lies in
      the grid is the fill value. */
  lemma {:induction false} WindowCountZero(g: Grid, fill: int)
    ensures WindowCount(g, fill) == 0 <==>
      forall i, j :: 0 <= i < |g| && 0 <= j < |g[i]| && InWindow(i, j) ==> g[i][j] == fill
    decreases |g|
  {
    if g != [] {
      var n := |g| - 1;
      WindowCountZero(g[..n], fill);
      WindowCountBound(g[..n], fill);
      RowCountZero(g[n], fill);
      RowCountBound(g[n], fill);
      if WindowCount(g, fill) == 0 {
        forall i, j | 0 <= i < |g| && 0 <= j < |g[i]| && InWindow(i, j) ensures g[i][j] == fill {
          if i < n {
            assert g[..n][i] == g[i];
          }
        }
      }
    }
  }
}
