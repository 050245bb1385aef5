/**
 * The older single-class edit-distance solution: the same Needleman-Wunsch
 * matrix fill, a traceback that stops as soon as either string is used up,
 * and a Hirschberg entry point that was never written.
 */
module EDistanceClass {
  import opened AbstractEDistance
  import opened Alignments
  import opened AlignmentText
  import NW = NeedlemanWunschEDistance

  /**
   * The columns this class's traceback prints for x and y: the same moves as
   * `Traceback` (down, then right, then diagonal), but only while both
   * strings still have symbols left.
   */
  function EdgeWalk(x: seq<char>, y: seq<char>): seq<Column>
    decreases |x| + |y|
  {
    if |x| == 0 || |y| == 0 then []
    else if Cost(x[1..], y) == Cost(x, y) - GapCost then [TopOnly(x[0])] + EdgeWalk(x[1..], y)
    else if Cost(x, y[1..]) == Cost(x, y) - GapCost then [BottomOnly(y[0])] + EdgeWalk(x, y[1..])
    else [Pair(x[0], y[0])] + EdgeWalk(x[1..], y[1..])
  }

  /**
   * The walk is the traceback cut short: it aligns a prefix of x with a
   * prefix of y, at least one of them the whole string, the traceback goes
   * on from the cell where it stops, and its costs sum to the matrix's
   * corner cell minus the cell where it stops.
   */
  lemma {:induction false} EdgeWalkIsTracebackPrefix(x: seq<char>, y: seq<char>) returns (i: nat, j: nat)
    ensures i <= |x| && j <= |y| && (i == |x| || j == |y|)
    ensures Aligns(EdgeWalk(x, y), x[..i], y[..j])
    ensures Traceback(x, y) == EdgeWalk(x, y) + Traceback(x[i..], y[j..])
    ensures TotalCost(EdgeWalk(x, y)) + Cost(x[i..], y[j..]) == Cost(x, y)
    decreases |x| + |y|
  {
    if |x| == 0 || |y| == 0 {
      i, j := 0, 0;
      assert x[0..] == x && y[0..] == y;
      assert x[..0] == [] && y[..0] == [];
    } else {
      var c, di, dj := FirstMove(x, y);
      var i1, j1 := EdgeWalkIsTracebackPrefix(x[di..], y[dj..]);
      i, j := di + i1, dj + j1;
      StepPrefix(c, EdgeWalk(x[di..], y[dj..]), Traceback(x[di..], y[dj..]), x, y, di, dj, i1, j1);
    }
  }

  /**
   * With both strings non-empty, the walk and the traceback make the same
   * first move, taking di symbols of x and dj of y, and that move's column
   * cost is what separates the two cells.
   */
  lemma {:induction false} FirstMove(x: seq<char>, y: seq<char>) returns (c: Column, di: nat, dj: nat)
    requires |x| > 0 && |y| > 0
    ensures di <= 1 && dj <= 1 && 1 <= di + dj
    ensures TopOf(c) == x[..di] && BottomOf(c) == y[..dj]
    ensures EdgeWalk(x, y) == [c] + EdgeWalk(x[di..], y[dj..])
    ensures Traceback(x, y) == [c] + Traceback(x[di..], y[dj..])
    ensures Cost(x, y) == ColumnCost(c) + Cost(x[di..], y[dj..])
  {
    if Cost(x[1..], y) == Cost(x, y) - GapCost {
      c, di, dj := TopOnly(x[0]), 1, 0;
      assert y[0..] == y;
    } else if Cost(x, y[1..]) == Cost(x, y) - GapCost {
      c, di, dj := BottomOnly(y[0]), 0, 1;
      assert x[0..] == x;
    } else {
      DiagonalMove(x, y);
      c, di, dj := Pair(x[0], y[0]), 1, 1;
    }
  }

  /**
   * The inductive step of `EdgeWalkIsTracebackPrefix`: a first column that
   * takes di symbols of x and dj of y, put in front of a walk over the rest.
   */
  lemma {:induction false} StepPrefix(c: Column, w: seq<Column>, t: seq<Column>, x: seq<char>, y: seq<char>,
                                      di: nat, dj: nat, i1: nat, j1: nat)
    requires di <= |x| && dj <= |y| && TopOf(c) == x[..di] && BottomOf(c) == y[..dj]
    requires i1 <= |x| - di && j1 <= |y| - dj
    requires Aligns(w, x[di..][..i1], y[dj..][..j1])
    requires t == w + Traceback(x[di..][i1..], y[dj..][j1..])
    ensures Aligns([c] + w, x[..di + i1], y[..dj + j1])
    ensures [c] + t == ([c] + w) + Traceback(x[di + i1..], y[dj + j1..])
    ensures TotalCost([c] + w) == ColumnCost(c) + TotalCost(w)
    ensures x[di..][i1..] == x[di + i1..] && y[dj..][j1..] == y[dj + j1..]
  {
    ConsColumn(c, w);
    assert x[..di] + x[di..][..i1] == x[..di + i1];
    assert y[..dj] + y[dj..][..j1] == y[..dj + j1];
    assert x[di..][i1..] == x[di + i1..];
    assert y[dj..][j1..] == y[dj + j1..];
    ConcatAssoc([c], w, Traceback(x[di + i1..], y[dj + j1..]));
  }

  /** In a cost matrix, the cells below and to the right of (i, j) say which traceback move applies. */
  lemma CellMoves(m: array2<int>, x: seq<char>, y: seq<char>, i: nat, j: nat)
    requires NW.IsCostMatrix(m, x, y) && i < |x| && j < |y|
    ensures m[i, j] - 2 == m[i + 1, j] <==> DownStep(x, y, i, j)
    ensures m[i, j] - 2 == m[i, j + 1] <==> RightStep(x, y, i, j)
  {
    assert m[i, j] == Cost(x[i..], y[j..]);
    assert m[i + 1, j] == Cost(x[i + 1..], y[j..]);
    assert m[i, j + 1] == Cost(x[i..], y[j + 1..]);
  }

  /** One step of the walk, read at cell (i, j) with both strings not yet used up. */
  lemma {:induction false} EdgeWalkAt(x: seq<char>, y: seq<char>, i: nat, j: nat)
    requires i < |x| && j < |y|
    ensures DownStep(x, y, i, j) ==> EdgeWalk(x[i..], y[j..]) == [TopOnly(x[i])] + EdgeWalk(x[i + 1..], y[j..])
    ensures !DownStep(x, y, i, j) && RightStep(x, y, i, j) ==>
              EdgeWalk(x[i..], y[j..]) == [BottomOnly(y[j])] + EdgeWalk(x[i..], y[j + 1..])
    ensures !DownStep(x, y, i, j) && !RightStep(x, y, i, j) ==>
              EdgeWalk(x[i..], y[j..]) == [Pair(x[i], y[j])] + EdgeWalk(x[i + 1..], y[j + 1..])
  {
    assert x[i..][1..] == x[i + 1..];
    assert y[j..][1..] == y[j + 1..];
  }

  /** The traceback loop has reached cell (i, j), having printed `done` as `s`. */
  ghost predicate EdgeWalkedTo(x: seq<char>, y: seq<char>, i: nat, j: nat, done: seq<Column>, s: string)
  {
    i <= |x| && j <= |y| && done + EdgeWalk(x[i..], y[j..]) == EdgeWalk(x, y) && s == Render(done)
  }

  lemma {:induction false} EdgeWalkStep(x: seq<char>, y: seq<char>, i: nat, j: nat, i2: nat, j2: nat,
                                        done: seq<Column>, s: string, col: Column, line: string)
    requires EdgeWalkedTo(x, y, i, j, done, s) && i2 <= |x| && j2 <= |y|
    requires EdgeWalk(x[i..], y[j..]) == [col] + EdgeWalk(x[i2..], y[j2..]) && line == RenderColumn(col)
    ensures EdgeWalkedTo(x, y, i2, j2, done + [col], s + line)
  {
    RenderAppend(done, col);
    ConcatAssoc(done, [col], EdgeWalk(x[i2..], y[j2..]));
  }

  /** Once either string is used up the walk has printed all of itself. */
  lemma {:induction false} EdgeWalkDone(x: seq<char>, y: seq<char>, i: nat, j: nat, done: seq<Column>, s: string)
    requires EdgeWalkedTo(x, y, i, j, done, s) && (i == |x| || j == |y|)
    ensures s == Render(EdgeWalk(x, y))
  {
    assert |x[i..]| == 0 || |y[j..]| == 0;
    assert EdgeWalk(x[i..], y[j..]) == [];
    assert done + [] == done;
  }

  /**
   * On X = "ab", Y = "a" the walk prints only the matched pair and its cost
   * 0, while the optimal alignment goes on with "b" against a gap, cost 2.
   */
  lemma {:induction false} TrailingGapDropped()
    ensures Render(EdgeWalk("ab", "a")) == "a a 0\n"
    ensures Render(Traceback("ab", "a")) == "a a 0\nb - 2\n"
    ensures TotalCost(EdgeWalk("ab", "a")) == 0 && Cost("ab", "a") == 2
  {
    var x, y := "ab", "a";
    assert x[1..] == "b" && y[1..] == "";
    assert "b"[1..] == "";
    CostWithEmpty("b");
    CostWithEmpty("ab");
    assert Cost("", "") == 0;
    assert Cost("", "a") == 2;
    assert Cost("b", "a") == 1;
    assert Cost(x, y) == 2;
    assert EdgeWalk(x, y) == [Pair('a', 'a')] + EdgeWalk("b", "");
    assert Traceback("b", "") == [TopOnly('b')] + Traceback("", "");
    assert Traceback(x, y) == [Pair('a', 'a')] + Traceback("b", "");
    assert [Pair('a', 'a')][1..] == [];
    assert [Pair('a', 'a'), TopOnly('b')][1..] == [TopOnly('b')];
    assert [TopOnly('b')][1..] == [];
  }

  class EDistance {
    const geneX: string
    const geneY: string
    var matrix: array2?<int>
    /** The array the unfinished Hirschberg entry point allocates. */
    var opt: array?<int>

    ghost predicate Valid()
      reads this, matrix
    {
      matrix != null ==> NW.IsCostMatrix(matrix, geneX, geneY)
    }

    /** Stores the two strings; there is no matrix and no Hirschberg array yet. */
    constructor(x: string, y: string)
      ensures geneX == x && geneY == y
      ensures matrix == null && opt == null && Valid()
    {
      geneX := x;
      geneY := y;
      matrix := null;
      opt := null;
    }

    /** Fills a fresh Needleman-Wunsch matrix and returns its corner cell, the edit distance. */
    method OptDistance() returns (d: int)
      modifies this
      ensures matrix != null && fresh(matrix) && Valid() && opt == old(opt)
      ensures d == Cost(geneX, geneY)
    {
      matrix := NW.FillCostMatrix(geneX, geneY);
      d := matrix[0, 0];
      assert geneX[0..] == geneX && geneY[0..] == geneY;
    }

    /** The unfinished Hirschberg fill: allocates an array of |X| + 1 cells and returns 0. */
    method PopulateMatrixHirschberg() returns (r: int)
      modifies this
      ensures opt != null && fresh(opt) && opt.Length == |geneX| + 1
      ensures matrix == old(matrix) && r == 0
    {
      opt := new int[|geneX| + 1];
      r := 0;
    }

    /**
     * One move of the traceback loop at cell (i, j), with both strings not
     * yet used up: down when the cell below is two cheaper, else right when
     * the cell to the right is, else diagonally.
     */
    method EdgeStep(i: nat, j: nat) returns (i2: nat, j2: nat, line: string, ghost col: Column)
      requires Valid() && matrix != null
      requires i < |geneX| && j < |geneY|
      ensures i2 <= |geneX| && j2 <= |geneY| && i + j < i2 + j2
      ensures EdgeWalk(geneX[i..], geneY[j..]) == [col] + EdgeWalk(geneX[i2..], geneY[j2..])
      ensures line == RenderColumn(col)
    {
      var val := matrix[i, j];
      var xChar := geneX[i];
      var yChar := geneY[j];
      EdgeWalkAt(geneX, geneY, i, j);
      CellMoves(matrix, geneX, geneY, i, j);
      if val - 2 == matrix[i + 1, j] {
        line := Line(xChar, Gap, 2);
        col := TopOnly(xChar);
        i2, j2 := i + 1, j;
      } else if val - 2 == matrix[i, j + 1] {
        line := Line(Gap, yChar, 2);
        col := BottomOnly(yChar);
        i2, j2 := i, j + 1;
      } else {
        line := Line(xChar, yChar, Penalty(xChar, yChar));
        col := Pair(xChar, yChar);
        i2, j2 := i + 1, j + 1;
      }
    }

    /** Prints the walk from (0, 0) until either string is used up, one line per move. */
    method Alignment() returns (s: string)
      requires Valid() && matrix != null
      ensures s == Render(EdgeWalk(geneX, geneY))
    {
      var rowCount := |geneX| + 1;
      var colCount := |geneY| + 1;
      var i: nat, j: nat := 0, 0;
      s := "";
      ghost var done: seq<Column> := [];
      assert geneX[0..] == geneX && geneY[0..] == geneY;
      while i < rowCount - 1 && j < colCount - 1
        invariant EdgeWalkedTo(geneX, geneY, i, j, done, s)
        decreases |geneX| + |geneY| - i - j
      {
        var i2, j2, line, col := EdgeStep(i, j);
        EdgeWalkStep(geneX, geneY, i, j, i2, j2, done, s, col, line);
        s := s + line;
        done := done + [col];
        i, j := i2, j2;
      }
      EdgeWalkDone(geneX, geneY, i, j, done, s);
    }
  }
}
