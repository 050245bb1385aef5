/**
 * The Needleman-Wunsch strategy: fill the whole (|X|+1) x (|Y|+1) cost
 * matrix from the bottom-right corner, then read one optimal alignment back
 * out of it starting at (0, 0).
 */
module NeedlemanWunschEDistance {
  import opened AbstractEDistance
  import opened Alignments
  import opened AlignmentText

  /** Cell (i, j) of `m` holds the optimal cost of aligning x[i..] with y[j..]. */
  ghost predicate IsCostMatrix(m: array2<int>, x: seq<char>, y: seq<char>)
    reads m
  {
    m.Length0 == |x| + 1 && m.Length1 == |y| + 1 &&
    forall i, j :: 0 <= i <= |x| && 0 <= j <= |y| ==> m[i, j] == Cost(x[i..], y[j..])
  }

  /** Every cell of the columns from `col` rightwards holds its cost. */
  ghost predicate CostsFrom(m: array2<int>, x: seq<char>, y: seq<char>, col: int)
    reads m
  {
    m.Length0 == |x| + 1 && m.Length1 == |y| + 1 &&
    forall r, c :: 0 <= r <= |x| && 0 <= c <= |y| && col <= c ==> m[r, c] == Cost(x[r..], y[c..])
  }

  /** Every cell of the last row holds its cost. */
  ghost predicate LastRowCosts(m: array2<int>, x: seq<char>, y: seq<char>)
    reads m
  {
    m.Length0 == |x| + 1 && m.Length1 == |y| + 1 &&
    forall c :: 0 <= c <= |y| ==> m[|x|, c] == Cost(x[|x|..], y[c..])
  }

  /** The cells of column i from row `from` downwards hold their costs. */
  ghost predicate ColumnFrom(m: array2<int>, x: seq<char>, y: seq<char>, i: nat, from: int)
    reads m
  {
    m.Length0 == |x| + 1 && m.Length1 == |y| + 1 && i <= |y| &&
    forall r :: 0 <= r <= |x| && from <= r ==> m[r, i] == Cost(x[r..], y[i..])
  }

  /**
   * Allocates and fills the cost matrix: the last row and the last column
   * first, then the columns from right to left, each from bottom to top, so
   * that the three neighbours of a cell are set before it is computed.
   */
  method FillCostMatrix(x: seq<char>, y: seq<char>) returns (m: array2<int>)
    ensures fresh(m)
    ensures IsCostMatrix(m, x, y)
  {
    var rowCount := |x| + 1;
    var colCount := |y| + 1;
    m := new int[rowCount, colCount]((_, _) => 0);
    var lastRow, lastCol := rowCount - 1, colCount - 1;

    var i := colCount - 1;
    while i >= 0
      invariant -1 <= i <= colCount - 1
      invariant forall c :: i < c < colCount ==> m[lastRow, c] == 2 * (colCount - 1 - c)
    {
      m[rowCount - 1, i] := (colCount - 1 - i) * 2;
      i := i - 1;
    }
    i := rowCount - 1;
    while i >= 0
      invariant -1 <= i <= rowCount - 1
      invariant forall c :: 0 <= c < colCount ==> m[lastRow, c] == 2 * (colCount - 1 - c)
      invariant forall r :: i < r < rowCount ==> m[r, lastCol] == 2 * (rowCount - 1 - r)
    {
      m[i, colCount - 1] := (rowCount - 1 - i) * 2;
      i := i - 1;
    }
    forall c | 0 <= c < colCount
      ensures Cost(x[|x|..], y[c..]) == 2 * (colCount - 1 - c)
    {
      CostWithEmpty(y[c..]);
    }
    forall r | 0 <= r < rowCount
      ensures Cost(x[r..], y[|y|..]) == 2 * (rowCount - 1 - r)
    {
      CostWithEmpty(x[r..]);
    }
    assert LastRowCosts(m, x, y);
    assert CostsFrom(m, x, y, |y|);

    i := colCount - 2;
    while i >= 0
      invariant -1 <= i <= colCount - 2
      invariant LastRowCosts(m, x, y) && CostsFrom(m, x, y, i + 1)
    {
      FillColumn(m, x, y, i);
      i := i - 1;
    }
    assert CostsFrom(m, x, y, 0);
  }

  /**
   * Fills column i (all rows above the last) from bottom to top, once the
   * columns to its right and the last row hold their costs.
   */
  method FillColumn(m: array2<int>, x: seq<char>, y: seq<char>, i: int)
    modifies m
    requires 0 <= i < |y| && LastRowCosts(m, x, y) && CostsFrom(m, x, y, i + 1)
    ensures LastRowCosts(m, x, y) && CostsFrom(m, x, y, i)
  {
    var rowCount := |x| + 1;
    var xChar := y[i];
    var j := rowCount - 2;
    while j >= 0
      invariant -1 <= j <= rowCount - 2
      invariant LastRowCosts(m, x, y) && CostsFrom(m, x, y, i + 1)
      invariant ColumnFrom(m, x, y, i, j + 1)
    {
      var yChar := x[j];
      var fromRight := m[j, i + 1] + 2;
      var fromDown := m[j + 1, i] + 2;
      var fromDiagonal := m[j + 1, i + 1] + Penalty(xChar, yChar);
      CellFromNeighbours(x, y, j, i, m[j, i + 1], m[j + 1, i], m[j + 1, i + 1]);
      m[j, i] := Min3(fromRight, fromDown, fromDiagonal);
      j := j - 1;
    }
  }

  /**
   * One move of the traceback loop at cell (i, j): the column it prints, as
   * the line the loop writes, and the cell it moves to.
   */
  lemma {:induction false} TracebackMove(x: seq<char>, y: seq<char>, i: nat, j: nat, isFromBottom: bool, isFromRight: bool)
    returns (col: Column)
    requires i <= |x| && j <= |y| && i + j < |x| + |y|
    requires isFromBottom == DownStep(x, y, i, j) && isFromRight == RightStep(x, y, i, j)
    ensures !isFromBottom && !isFromRight ==> i < |x| && j < |y|
    ensures isFromBottom ==> col == TopOnly(x[i]) && Traceback(x[i..], y[j..]) == [col] + Traceback(x[i + 1..], y[j..])
    ensures !isFromBottom && isFromRight ==>
              col == BottomOnly(y[j]) && Traceback(x[i..], y[j..]) == [col] + Traceback(x[i..], y[j + 1..])
    ensures !isFromBottom && !isFromRight ==>
              col == Pair(x[i], y[j]) && Traceback(x[i..], y[j..]) == [col] + Traceback(x[i + 1..], y[j + 1..])
    ensures RenderColumn(col) == Line(
              if isFromRight && !isFromBottom then '-' else x[i],
              if isFromBottom then '-' else y[j],
              if isFromBottom || isFromRight then 2 else Penalty(x[i], y[j]))
  {
    TracebackAt(x, y, i, j);
    if isFromBottom {
      col := TopOnly(x[i]);
    } else if isFromRight {
      col := BottomOnly(y[j]);
    } else {
      col := Pair(x[i], y[j]);
    }
  }

  /**
   * The traceback walk has reached cell (i, j): the columns printed so far,
   * followed by the traceback from (i, j), make up the whole traceback, and
   * `s` is the text of the columns printed so far.
   */
  ghost predicate WalkedTo(x: seq<char>, y: seq<char>, i: nat, j: nat, done: seq<Column>, s: string)
  {
    i <= |x| && j <= |y| && done + Traceback(x[i..], y[j..]) == Traceback(x, y) && s == Render(done)
  }

  /** Printing the line of one traceback move keeps the walk on the traceback. */
  lemma {:induction false} WalkStep(x: seq<char>, y: seq<char>, i: nat, j: nat, i2: nat, j2: nat,
                                    done: seq<Column>, s: string, col: Column, line: string)
    requires WalkedTo(x, y, i, j, done, s) && i2 <= |x| && j2 <= |y|
    requires Traceback(x[i..], y[j..]) == [col] + Traceback(x[i2..], y[j2..]) && line == RenderColumn(col)
    ensures WalkedTo(x, y, i2, j2, done + [col], s + line)
  {
    RenderAppend(done, col);
    ConcatAssoc(done, [col], Traceback(x[i2..], y[j2..]));
  }

  /** A walk that has reached the bottom-right corner has printed the whole traceback. */
  lemma {:induction false} WalkDone(x: seq<char>, y: seq<char>, done: seq<Column>, s: string)
    requires WalkedTo(x, y, |x|, |y|, done, s)
    ensures s == Render(Traceback(x, y))
  {
    assert x[|x|..] == [] && y[|y|..] == [];
    assert Traceback(x[|x|..], y[|y|..]) == [];
    assert done + [] == done;
  }

  class NeedlemanWunschEDistance {
    const geneX: string
    const geneY: string
    var matrix: array2?<int>

    ghost predicate Valid()
      reads this, matrix
    {
      matrix != null ==> IsCostMatrix(matrix, geneX, geneY)
    }

    /** Stores the two strings; there is no matrix until `OptDistance` runs. */
    constructor(x: string, y: string)
      ensures geneX == x && geneY == y
      ensures matrix == null && Valid()
    {
      geneX := x;
      geneY := y;
      matrix := null;
    }

    /** Fills a fresh matrix and returns its corner cell, the edit distance of the two strings. */
    method OptDistance() returns (d: int)
      modifies this
      ensures matrix != null && fresh(matrix) && Valid()
      ensures d == Cost(geneX, geneY)
    {
      matrix := FillCostMatrix(geneX, geneY);
      d := matrix[0, 0];
      assert geneX[0..] == geneX && geneY[0..] == geneY;
    }

    /** The filled matrix, or null before `OptDistance` has run. */
    function Matrix(): (r: array2?<int>)
      reads this, matrix
      requires Valid()
      ensures r != null ==> IsCostMatrix(r, geneX, geneY)
    {
      matrix
    }

    /**
     * One move of the traceback from cell (i, j): down when the cell below is
     * two cheaper, else right when the cell to the right is two cheaper, else
     * diagonally; returns the cell reached and the line printed for the move.
     */
    method TracebackStep(i: nat, j: nat) returns (i2: nat, j2: nat, line: string, ghost col: Column)
      requires Valid() && matrix != null
      requires i <= |geneX| && j <= |geneY| && i + j < |geneX| + |geneY|
      ensures i <= i2 <= |geneX| && j <= j2 <= |geneY| && i + j < i2 + j2
      ensures Traceback(geneX[i..], geneY[j..]) == [col] + Traceback(geneX[i2..], geneY[j2..])
      ensures line == RenderColumn(col)
    {
      var maxRowIndex := |geneX|;
      var maxColIndex := |geneY|;
      var val := matrix[i, j];
      var isFromBottom := i < maxRowIndex && matrix[i + 1, j] == val - 2;
      var isFromRight := j < maxColIndex && matrix[i, j + 1] == val - 2;
      var xChar := if i < maxRowIndex then geneX[i] else '-';
      var yChar := if j < maxColIndex then geneY[j] else '-';
      var cost := if isFromBottom || isFromRight then 2 else Penalty(xChar, yChar);
      assert isFromBottom == DownStep(geneX, geneY, i, j);
      assert isFromRight == RightStep(geneX, geneY, i, j);
      col := TracebackMove(geneX, geneY, i, j, isFromBottom, isFromRight);
      i2, j2 := i, j;
      if isFromBottom {
        i2 := i2 + 1;
        yChar := '-';
      } else if isFromRight {
        j2 := j2 + 1;
        xChar := '-';
      } else {
        i2 := i2 + 1;
        j2 := j2 + 1;
      }
      line := Line(xChar, yChar, cost);
    }

    /** Walks from (0, 0) to (|X|, |Y|) and prints one line per move. */
    method Alignment() returns (s: string)
      requires Valid() && matrix != null
      ensures s == Render(Traceback(geneX, geneY))
    {
      var maxIndexSum := |geneX| + |geneY|;
      var i, j := 0, 0;
      s := "";
      ghost var done: seq<Column> := [];
      assert geneX[0..] == geneX && geneY[0..] == geneY;
      while i + j < maxIndexSum
        invariant WalkedTo(geneX, geneY, i, j, done, s)
        decreases maxIndexSum - i - j
      {
        var i2, j2, line, col := TracebackStep(i, j);
        WalkStep(geneX, geneY, i, j, i2, j2, done, s, col, line);
        s := s + line;
        done := done + [col];
        i, j := i2, j2;
      }
      WalkDone(geneX, geneY, done, s);
    }
  }
}
