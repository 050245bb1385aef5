/**
 * The linear-space strategy: instead of the whole matrix it keeps one
 * column of it, overwritten column by column from right to left, and
 * records the top cell of every column, i.e. row 0 of the matrix.
 */
module OptimizedEDistance {
  import opened AbstractEDistance
  import opened Alignments
  import opened Wrappers

  /** `s` is the matrix column for the Y suffix `ys`: entry r is the cost of aligning X[r..] with `ys`. */
  ghost predicate IsColumn(s: seq<int>, x: seq<char>, ys: seq<char>)
  {
    |s| == |x| + 1 && forall r :: 0 <= r <= |x| ==> s[r] == Cost(x[r..], ys)
  }

  /** Entries `from` to |Y| of `s` are row 0 of the matrix: entry c is the cost of aligning X with Y[c..]. */
  ghost predicate IsRowFrom(s: seq<int>, x: seq<char>, y: seq<char>, from: nat)
  {
    |s| == |y| + 1 && forall c :: from <= c <= |y| ==> s[c] == Cost(x, y[c..])
  }

  /**
   * A column part-way through its bottom-up update for Y position i: the
   * rows below j hold the new costs against Y[i..], rows 0..j still hold the
   * old ones against Y[i + 1..].
   */
  ghost predicate UpdatedBelow(s: seq<int>, x: seq<char>, y: seq<char>, i: nat, j: int)
    requires i < |y|
  {
    |s| == |x| + 1 &&
    (forall r :: j < r <= |x| && 0 <= r ==> s[r] == Cost(x[r..], y[i..])) &&
    (forall r :: 0 <= r <= j && r <= |x| ==> s[r] == Cost(x[r..], y[i + 1..]))
  }

  /** Overwriting row j with the minimum of its three neighbours moves the boundary up by one row. */
  lemma {:induction false} UpdatedBelowStep(s: seq<int>, x: seq<char>, y: seq<char>, i: nat, j: nat, diagonal: int)
    requires i < |y| && j < |x| && UpdatedBelow(s, x, y, i, j)
    requires diagonal == Cost(x[j + 1..], y[i + 1..])
    ensures UpdatedBelow(s[j := Min3(s[j] + GapCost, s[j + 1] + GapCost, diagonal + Penalty(y[i], x[j]))], x, y, i, j - 1)
  {
    CellFromNeighbours(x, y, j, i, s[j], s[j + 1], diagonal);
  }

  /**
   * One outer iteration of the linear-space fill: turns the column for Y
   * position i + 1 into the column for Y position i, from the bottom up,
   * carrying the overwritten cell below as the diagonal neighbour of the
   * next cell.
   */
  method NextColumn(column: array<int>, x: seq<char>, y: seq<char>, i: int)
    requires 0 <= i < |y| && IsColumn(column[..], x, y[i + 1..])
    modifies column
    ensures IsColumn(column[..], x, y[i..])
  {
    var rowCount := |x| + 1;
    var xChar := y[i];
    var reservedDiagonal := column[rowCount - 1];
    CostWithEmpty(y[i..]);
    CostWithEmpty(y[i + 1..]);
    assert x[|x|..] == [];
    column[rowCount - 1] := column[rowCount - 1] + 2;
    var j := rowCount - 2;
    while j >= 0
      invariant -1 <= j <= rowCount - 2
      invariant UpdatedBelow(column[..], x, y, i, j)
      invariant reservedDiagonal == Cost(x[j + 1..], y[i + 1..])
    {
      var yChar := x[j];
      var fromRight := column[j] + 2;
      var fromDown := column[j + 1] + 2;
      var fromDiagonal := reservedDiagonal + Penalty(xChar, yChar);
      UpdatedBelowStep(column[..], x, y, i, j, reservedDiagonal);
      reservedDiagonal := column[j];
      column[j] := Min3(fromRight, fromDown, fromDiagonal);
      j := j - 1;
    }
    assert UpdatedBelow(column[..], x, y, i, -1);
  }

  /** Fills the column with the last matrix column: the cost of aligning each suffix of X with nothing. */
  method LastColumn(column: array<int>, x: seq<char>, y: seq<char>)
    requires column.Length == |x| + 1
    modifies column
    ensures IsColumn(column[..], x, y[|y|..])
  {
    var rowCount := |x| + 1;
    var lastRow := rowCount - 1;
    var i := rowCount - 1;
    while i >= 0
      invariant -1 <= i <= rowCount - 1
      invariant forall r :: i < r < rowCount ==> column[r] == 2 * (lastRow - r)
    {
      column[i] := (rowCount - 1 - i) * 2;
      i := i - 1;
    }
    forall r | 0 <= r < rowCount
      ensures Cost(x[r..], y[|y|..]) == 2 * (lastRow - r)
    {
      CostWithEmpty(x[r..]);
    }
  }

  /**
   * Moves the column from the last matrix column to column 0, right to left,
   * copying the top cell of every column it passes into `row`.
   */
  method SweepColumns(column: array<int>, row: array<int>, x: seq<char>, y: seq<char>)
    requires column.Length == |x| + 1 && row.Length == |y| + 1 && column != row
    requires IsColumn(column[..], x, y[|y|..])
    modifies column, row
    ensures IsColumn(column[..], x, y)
    ensures IsRowFrom(row[..], x, y, 0)
  {
    var colCount := |y| + 1;
    row[colCount - 1] := column[0];
    assert x[0..] == x;
    var i := colCount - 2;
    while i >= 0
      invariant -1 <= i <= colCount - 2
      invariant IsColumn(column[..], x, y[i + 1..])
      invariant IsRowFrom(row[..], x, y, i + 1)
    {
      NextColumn(column, x, y, i);
      row[i] := column[0];
      i := i - 1;
    }
    assert y[0..] == y;
  }

  class OptimizedEDistance {
    const geneX: string
    const geneY: string
    /** The matrix column currently being computed, one cell per row 0..|X|. */
    const column: array<int>
    /** Row 0 of the matrix, one cell per column 0..|Y|. */
    const row: array<int>

    ghost predicate Valid()
      reads this
    {
      column.Length == |geneX| + 1 && row.Length == |geneY| + 1 && column != row
    }

    /** Stores the two strings and zero-fills the column and the row. */
    constructor(x: string, y: string)
      ensures geneX == x && geneY == y && Valid()
      ensures fresh(column) && fresh(row)
      ensures forall r :: 0 <= r < column.Length ==> column[r] == 0
      ensures forall c :: 0 <= c < row.Length ==> row[c] == 0
    {
      geneX := x;
      geneY := y;
      column := new int[|x| + 1](_ => 0);
      row := new int[|y| + 1](_ => 0);
    }

    /**
     * Computes the matrix column by column, keeping only the current one,
     * and copies each column's top cell into `row`. Afterwards the column
     * is column 0 of the Needleman-Wunsch matrix, `row` is its row 0, and
     * the result is the edit distance.
     */
    method OptDistance() returns (d: int)
      requires Valid()
      modifies column, row
      ensures forall r :: 0 <= r <= |geneX| ==> column[r] == Cost(geneX[r..], geneY)
      ensures forall c :: 0 <= c <= |geneY| ==> row[c] == Cost(geneX, geneY[c..])
      ensures d == Cost(geneX, geneY)
    {
      LastColumn(column, geneX, geneY);
      SweepColumns(column, row, geneX, geneY);
      d := column[0];
      assert geneX[0..] == geneX && geneY[0..] == geneY;
    }

    /** A copy of the recorded row 0: entry c is the cost of aligning X with Y[c..]. */
    function Row(): (r: seq<int>)
      requires Valid()
      reads this, row
      ensures |r| == |geneY| + 1
      ensures forall c :: 0 <= c < |r| ==> r[c] == row[c]
    {
      row[..]
    }

    /** This strategy keeps no matrix to trace back through, so it always throws. */
    function Alignment(): (r: Result<string>)
      ensures r.Failure?
    {
      Failure("exception")
    }
  }
}
