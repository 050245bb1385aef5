/**
 * Reference theory of the edit distance that every ps5 strategy computes.
 *
 * `Cost(x, y)` is the recurrence the Needleman-Wunsch matrix is filled with:
 * cell (i, j) of the matrix for X and Y holds `Cost(X[i..], Y[j..])`.
 * An alignment is a sequence of columns; its two projections give back the
 * aligned strings, and `Cost` is the least total cost over all alignments.
 */
module Alignments {
  import opened AbstractEDistance

  /** Optimal cost of aligning `x` with `y`, by recursion on the suffixes. */
  function Cost(x: seq<char>, y: seq<char>): nat
    decreases |x| + |y|
  {
    if |x| == 0 then GapCost * |y|
    else if |y| == 0 then GapCost * |x|
    else Min3(Cost(x, y[1..]) + GapCost, Cost(x[1..], y) + GapCost, Cost(x[1..], y[1..]) + Penalty(x[0], y[0]))
  }

  /** One column of an alignment. */
  datatype Column =
    | Pair(top: char, bottom: char)  // a symbol of x aligned with a symbol of y
    | TopOnly(top: char)             // a symbol of x aligned with a gap
    | BottomOnly(bottom: char)       // a gap aligned with a symbol of y

  function ColumnCost(c: Column): nat {
    if c.Pair? then Penalty(c.top, c.bottom) else GapCost
  }

  function TotalCost(al: seq<Column>): nat {
    if al == [] then 0 else ColumnCost(al[0]) + TotalCost(al[1..])
  }

  function TopOf(c: Column): seq<char> {
    if c.BottomOnly? then [] else [c.top]
  }

  function BottomOf(c: Column): seq<char> {
    if c.TopOnly? then [] else [c.bottom]
  }

  /** The first string of an alignment, gaps dropped. */
  function Top(al: seq<Column>): seq<char> {
    if al == [] then [] else TopOf(al[0]) + Top(al[1..])
  }

  /** The second string of an alignment, gaps dropped. */
  function Bottom(al: seq<Column>): seq<char> {
    if al == [] then [] else BottomOf(al[0]) + Bottom(al[1..])
  }

  ghost predicate Aligns(al: seq<Column>, x: seq<char>, y: seq<char>) {
    Top(al) == x && Bottom(al) == y
  }

  function Dist(a: nat, b: nat): nat {
    if a >= b then a - b else b - a
  }

  function Min(a: nat, b: nat): nat {
    if a <= b then a else b
  }

  function Max(a: nat, b: nat): nat {
    if a >= b then a else b
  }

  /** Projections and cost distribute over concatenation of alignments. */
  lemma {:induction false} ConcatColumns(a: seq<Column>, b: seq<Column>)
    ensures Top(a + b) == Top(a) + Top(b)
    ensures Bottom(a + b) == Bottom(a) + Bottom(b)
    ensures TotalCost(a + b) == TotalCost(a) + TotalCost(b)
  {
    ConcatTop(a, b);
    ConcatBottom(a, b);
    ConcatCost(a, b);
  }

  lemma {:induction false} ConcatTop(a: seq<Column>, b: seq<Column>)
    ensures Top(a + b) == Top(a) + Top(b)
  {
    if a == [] {
      assert a + b == b;
    } else {
      assert (a + b)[0] == a[0] && (a + b)[1..] == a[1..] + b;
      ConcatTop(a[1..], b);
      calc {
        Top(a + b);
        TopOf(a[0]) + Top(a[1..] + b);
        TopOf(a[0]) + (Top(a[1..]) + Top(b));
        { ConcatAssoc(TopOf(a[0]), Top(a[1..]), Top(b)); }
        Top(a) + Top(b);
      }
    }
  }

  lemma {:induction false} ConcatBottom(a: seq<Column>, b: seq<Column>)
    ensures Bottom(a + b) == Bottom(a) + Bottom(b)
  {
    if a == [] {
      assert a + b == b;
    } else {
      assert (a + b)[0] == a[0] && (a + b)[1..] == a[1..] + b;
      ConcatBottom(a[1..], b);
      calc {
        Bottom(a + b);
        BottomOf(a[0]) + Bottom(a[1..] + b);
        BottomOf(a[0]) + (Bottom(a[1..]) + Bottom(b));
        { ConcatAssoc(BottomOf(a[0]), Bottom(a[1..]), Bottom(b)); }
        Bottom(a) + Bottom(b);
      }
    }
  }

  lemma {:induction false} ConcatCost(a: seq<Column>, b: seq<Column>)
    ensures TotalCost(a + b) == TotalCost(a) + TotalCost(b)
  {
    if a == [] {
      assert a + b == b;
    } else {
      assert (a + b)[0] == a[0] && (a + b)[1..] == a[1..] + b;
      ConcatCost(a[1..], b);
    }
  }

  lemma {:induction false} ConcatAssoc<T>(a: seq<T>, b: seq<T>, c: seq<T>)
    ensures a + b + c == a + (b + c)
  {
  }

  lemma {:induction false} ConcatAligns(a1: seq<Column>, a2: seq<Column>, x1: seq<char>, x2: seq<char>, y1: seq<char>, y2: seq<char>)
    requires Aligns(a1, x1, y1) && Aligns(a2, x2, y2)
    ensures Aligns(a1 + a2, x1 + x2, y1 + y2)
    ensures TotalCost(a1 + a2) == TotalCost(a1) + TotalCost(a2)
  {
    ConcatColumns(a1, a2);
  }

  lemma {:induction false} SingleColumn(c: Column)
    ensures Top([c]) == TopOf(c) && Bottom([c]) == BottomOf(c) && TotalCost([c]) == ColumnCost(c)
  {
    assert [c][1..] == [];
  }

  /** Prepending a column adds its projections and its cost. */
  lemma {:induction false} ConsColumn(c: Column, al: seq<Column>)
    ensures Top([c] + al) == TopOf(c) + Top(al)
    ensures Bottom([c] + al) == BottomOf(c) + Bottom(al)
    ensures TotalCost([c] + al) == ColumnCost(c) + TotalCost(al)
  {
    assert ([c] + al)[1..] == al;
  }

  /** Each of the three moves of the recurrence bounds the optimal cost from above. */
  lemma {:induction false} CostStepBounds(x: seq<char>, y: seq<char>)
    ensures |x| > 0 ==> Cost(x, y) <= Cost(x[1..], y) + GapCost
    ensures |y| > 0 ==> Cost(x, y) <= Cost(x, y[1..]) + GapCost
    ensures |x| > 0 && |y| > 0 ==> Cost(x, y) <= Cost(x[1..], y[1..]) + Penalty(x[0], y[0])
  {
  }

  /** The recurrence read at cell (i, j) of the matrix for x and y. */
  lemma {:induction false} CostCell(x: seq<char>, y: seq<char>, i: nat, j: nat)
    requires i < |x| && j < |y|
    ensures Cost(x[i..], y[j..]) == Min3(Cost(x[i..], y[j + 1..]) + GapCost, Cost(x[i + 1..], y[j..]) + GapCost,
                                        Cost(x[i + 1..], y[j + 1..]) + Penalty(x[i], y[j]))
  {
    assert x[i..][1..] == x[i + 1..];
    assert y[j..][1..] == y[j + 1..];
  }

  /**
   * A cell computed the way the fill loops compute it, from the costs to its
   * right, below it and diagonally below-right, with the symbol of y first in
   * the penalty, is the optimal cost of its two suffixes.
   */
  lemma {:induction false} CellFromNeighbours(x: seq<char>, y: seq<char>, r: nat, c: nat, right: int, down: int, diagonal: int)
    requires r < |x| && c < |y|
    requires right == Cost(x[r..], y[c + 1..]) && down == Cost(x[r + 1..], y[c..]) && diagonal == Cost(x[r + 1..], y[c + 1..])
    ensures Min3(right + GapCost, down + GapCost, diagonal + Penalty(y[c], x[r])) == Cost(x[r..], y[c..])
  {
    CostCell(x, y, r, c);
    PenaltySymmetric(y[c], x[r]);
  }

  /** No alignment of x with y costs less than `Cost(x, y)`. */
  lemma {:induction false} CostIsMinimal(al: seq<Column>, x: seq<char>, y: seq<char>)
    requires Aligns(al, x, y)
    ensures Cost(x, y) <= TotalCost(al)
    decreases |al|
  {
    if al != [] {
      var c, rest := al[0], al[1..];
      assert al == [c] + rest;
      ConsColumn(c, rest);
      CostStepBounds(x, y);
      match c
      case Pair(a, b) =>
        assert x[1..] == Top(rest) && y[1..] == Bottom(rest);
        CostIsMinimal(rest, x[1..], y[1..]);
      case TopOnly(a) =>
        assert x[1..] == Top(rest) && y == Bottom(rest);
        CostIsMinimal(rest, x[1..], y);
      case BottomOnly(b) =>
        assert x == Top(rest) && y[1..] == Bottom(rest);
        CostIsMinimal(rest, x, y[1..]);
    }
  }

  /**
   * The alignment read back out of the cost matrix from (0, 0): prefer the
   * cell below (x symbol against a gap), then the cell to the right (gap
   * against a y symbol), then the diagonal.
   */
  function Traceback(x: seq<char>, y: seq<char>): seq<Column>
    decreases |x| + |y|
  {
    if |x| == 0 && |y| == 0 then []
    else if |x| > 0 && Cost(x[1..], y) == Cost(x, y) - GapCost then [TopOnly(x[0])] + Traceback(x[1..], y)
    else if |y| > 0 && Cost(x, y[1..]) == Cost(x, y) - GapCost then [BottomOnly(y[0])] + Traceback(x, y[1..])
    else [Pair(x[0], y[0])] + Traceback(x[1..], y[1..])
  }

  /** When neither gap move is two cheaper, both strings are non-empty and the diagonal move attains the cost. */
  lemma {:induction false} DiagonalMove(x: seq<char>, y: seq<char>)
    requires |x| > 0 || |y| > 0
    requires !(|x| > 0 && Cost(x[1..], y) == Cost(x, y) - GapCost)
    requires !(|y| > 0 && Cost(x, y[1..]) == Cost(x, y) - GapCost)
    ensures |x| > 0 && |y| > 0 && Cost(x, y) == Cost(x[1..], y[1..]) + Penalty(x[0], y[0])
  {
  }

  lemma {:induction false} HeadTail(s: seq<char>)
    requires |s| > 0
    ensures [s[0]] + s[1..] == s
  {
  }

  /** The traceback aligns x with y and attains the optimal cost. */
  lemma {:induction false} TracebackIsOptimal(x: seq<char>, y: seq<char>)
    ensures Aligns(Traceback(x, y), x, y)
    ensures TotalCost(Traceback(x, y)) == Cost(x, y)
    decreases |x| + |y|
  {
    if |x| == 0 && |y| == 0 {
    } else if |x| > 0 && Cost(x[1..], y) == Cost(x, y) - GapCost {
      TracebackIsOptimal(x[1..], y);
      ConsColumn(TopOnly(x[0]), Traceback(x[1..], y));
      HeadTail(x);
    } else if |y| > 0 && Cost(x, y[1..]) == Cost(x, y) - GapCost {
      TracebackIsOptimal(x, y[1..]);
      ConsColumn(BottomOnly(y[0]), Traceback(x, y[1..]));
      HeadTail(y);
    } else {
      DiagonalMove(x, y);
      TracebackIsOptimal(x[1..], y[1..]);
      ConsColumn(Pair(x[0], y[0]), Traceback(x[1..], y[1..]));
      HeadTail(x);
      HeadTail(y);
    }
  }

  /** Cell (i + 1, j) is exactly two cheaper than cell (i, j): the traceback's downward move. */
  predicate DownStep(x: seq<char>, y: seq<char>, i: nat, j: nat)
    requires i <= |x| && j <= |y|
  {
    i < |x| && Cost(x[i + 1..], y[j..]) == Cost(x[i..], y[j..]) - GapCost
  }

  /** Cell (i, j + 1) is exactly two cheaper than cell (i, j): the traceback's rightward move. */
  predicate RightStep(x: seq<char>, y: seq<char>, i: nat, j: nat)
    requires i <= |x| && j <= |y|
  {
    j < |y| && Cost(x[i..], y[j + 1..]) == Cost(x[i..], y[j..]) - GapCost
  }

  /** One step of the traceback, read at cell (i, j) short of the far corner. */
  lemma {:induction false} TracebackAt(x: seq<char>, y: seq<char>, i: nat, j: nat)
    requires i <= |x| && j <= |y| && i + j < |x| + |y|
    ensures DownStep(x, y, i, j) ==> Traceback(x[i..], y[j..]) == [TopOnly(x[i])] + Traceback(x[i + 1..], y[j..])
    ensures !DownStep(x, y, i, j) && RightStep(x, y, i, j) ==>
              Traceback(x[i..], y[j..]) == [BottomOnly(y[j])] + Traceback(x[i..], y[j + 1..])
    ensures !DownStep(x, y, i, j) && !RightStep(x, y, i, j) ==>
              i < |x| && j < |y| && Traceback(x[i..], y[j..]) == [Pair(x[i], y[j])] + Traceback(x[i + 1..], y[j + 1..])
  {
    if i < |x| {
      assert x[i..][1..] == x[i + 1..];
    }
    if j < |y| {
      assert y[j..][1..] == y[j + 1..];
    }
  }

  /** Some alignment attains the optimal cost (the traceback, kept out of sight of callers). */
  lemma {:induction false} OptimalAlignment(x: seq<char>, y: seq<char>) returns (al: seq<Column>)
    ensures Aligns(al, x, y) && TotalCost(al) == Cost(x, y)
  {
    al := Traceback(x, y);
    TracebackIsOptimal(x, y);
  }

  /** Every alignment has between max(|x|, |y|) and |x| + |y| columns. */
  lemma {:induction false} AlignmentLength(al: seq<Column>)
    ensures Max(|Top(al)|, |Bottom(al)|) <= |al| <= |Top(al)| + |Bottom(al)|
  {
    if al != [] {
      AlignmentLength(al[1..]);
    }
  }

  // ----- Reversal -----

  function Reverse<T>(s: seq<T>): (r: seq<T>)
    ensures |r| == |s|
    ensures forall i :: 0 <= i < |s| ==> r[i] == s[|s| - 1 - i]
  {
    seq(|s|, i requires 0 <= i < |s| => s[|s| - 1 - i])
  }

  lemma {:induction false} ReverseConcat<T>(a: seq<T>, b: seq<T>)
    ensures Reverse(a + b) == Reverse(b) + Reverse(a)
  {
  }

  lemma {:induction false} ReverseReverse<T>(s: seq<T>)
    ensures Reverse(Reverse(s)) == s
  {
  }

  lemma {:induction false} ReverseShort<T>(s: seq<T>)
    requires |s| <= 1
    ensures Reverse(s) == s
  {
  }

  /** Reversing an alignment reverses both projections and keeps the cost. */
  lemma {:induction false} ReverseColumns(al: seq<Column>)
    ensures Top(Reverse(al)) == Reverse(Top(al))
    ensures Bottom(Reverse(al)) == Reverse(Bottom(al))
    ensures TotalCost(Reverse(al)) == TotalCost(al)
    decreases |al|
  {
    if al != [] {
      var c, rest := al[0], al[1..];
      assert al == [c] + rest;
      ReverseColumns(rest);
      ReverseConcat([c], rest);
      ReverseShort([c]);
      ConcatColumns(Reverse(rest), [c]);
      SingleColumn(c);
      ConsColumn(c, rest);
      ReverseConcat(TopOf(c), Top(rest));
      ReverseShort(TopOf(c));
      ReverseConcat(BottomOf(c), Bottom(rest));
      ReverseShort(BottomOf(c));
    }
  }

  /** The edit distance does not change when both strings are reversed. */
  lemma {:induction false} CostReverse(x: seq<char>, y: seq<char>)
    ensures Cost(Reverse(x), Reverse(y)) == Cost(x, y)
  {
    var al := OptimalAlignment(x, y);
    ReverseColumns(al);
    CostIsMinimal(Reverse(al), Reverse(x), Reverse(y));
    var rl := OptimalAlignment(Reverse(x), Reverse(y));
    ReverseColumns(rl);
    ReverseReverse(x);
    ReverseReverse(y);
    CostIsMinimal(Reverse(rl), x, y);
  }

  // ----- Splitting -----

  lemma {:induction false} TakeDrop<T>(s: seq<T>, k: nat)
    requires k <= |s|
    ensures s[..k] + s[k..] == s
  {
  }

  lemma {:induction false} CutConcat<T>(a: seq<T>, b: seq<T>, s: seq<T>)
    requires a + b == s
    ensures a == s[..|a|] && b == s[|a|..]
  {
  }

  /** Aligning a prefix pair and a suffix pair separately never beats the optimum. */
  lemma {:induction false} SplitUpperBound(x: seq<char>, y: seq<char>, h: nat, q: nat)
    requires h <= |x| && q <= |y|
    ensures Cost(x, y) <= Cost(x[..h], y[..q]) + Cost(x[h..], y[q..])
  {
    var x1, x2, y1, y2 := x[..h], x[h..], y[..q], y[q..];
    var a1 := OptimalAlignment(x1, y1);
    var a2 := OptimalAlignment(x2, y2);
    ConcatAligns(a1, a2, x1, x2, y1, y2);
    TakeDrop(x, h);
    TakeDrop(y, q);
    CostIsMinimal(a1 + a2, x, y);
  }

  /** An alignment whose top has at least h symbols has a prefix whose top has exactly h. */
  lemma {:induction false} CutAtTop(al: seq<Column>, h: nat) returns (k: nat)
    requires h <= |Top(al)|
    ensures k <= |al| && |Top(al[..k])| == h
  {
    assert al[..|al|] == al;
    k := 0;
    while |Top(al[..k])| < h
      invariant k <= |al| && |Top(al[..k])| <= h
      decreases |al| - k
    {
      assert al[..k + 1] == al[..k] + [al[k]];
      ConcatColumns(al[..k], [al[k]]);
      SingleColumn(al[k]);
      k := k + 1;
    }
  }

  /** For every cut h of x some cut q of y splits an optimal alignment. */
  lemma {:induction false} SplitIsTight(x: seq<char>, y: seq<char>, h: nat)
    requires h <= |x|
    ensures exists q :: 0 <= q <= |y| && Cost(x[..h], y[..q]) + Cost(x[h..], y[q..]) == Cost(x, y)
  {
    var al := OptimalAlignment(x, y);
    var k := CutAtTop(al, h);
    var a1, a2 := al[..k], al[k..];
    TakeDrop(al, k);
    ConcatColumns(a1, a2);
    CutConcat(Top(a1), Top(a2), x);
    CutConcat(Bottom(a1), Bottom(a2), y);
    var q := |Bottom(a1)|;
    CostIsMinimal(a1, x[..h], y[..q]);
    CostIsMinimal(a2, x[h..], y[q..]);
    SplitUpperBound(x, y, h, q);
  }

  // ----- Bounds -----

  /** Every length difference has to be paid for with gaps. */
  lemma {:induction false} CostLowerBound(x: seq<char>, y: seq<char>)
    ensures Cost(x, y) >= GapCost * Dist(|x|, |y|)
    decreases |x| + |y|
  {
    if |x| > 0 && |y| > 0 {
      CostLowerBound(x, y[1..]);
      CostLowerBound(x[1..], y);
      CostLowerBound(x[1..], y[1..]);
    }
  }

  /** Pair up the shorter string and gap the rest. */
  lemma {:induction false} CostUpperBound(x: seq<char>, y: seq<char>)
    ensures Cost(x, y) <= Min(|x|, |y|) + GapCost * Dist(|x|, |y|)
    decreases |x| + |y|
  {
    if |x| > 0 && |y| > 0 {
      CostUpperBound(x[1..], y[1..]);
    }
  }

  /**
   * When one of the strings has at most three symbols, the cells below and to
   * the right of a cell cannot both be two cheaper than it; a traceback that
   * moves down when only the lower cell matches and right when only the right
   * cell matches therefore never stalls.
   */
  lemma {:induction false} NoDoubleTie(x: seq<char>, y: seq<char>)
    requires |x| > 0 && |y| > 0 && (|x| <= 3 || |y| <= 3)
    ensures !(Cost(x[1..], y) == Cost(x, y) - GapCost && Cost(x, y[1..]) == Cost(x, y) - GapCost)
  {
    CostUpperBound(x, y);
    CostLowerBound(x[1..], y);
    CostLowerBound(x, y[1..]);
  }

  /** When no symbol of x occurs in y, pairing up the shorter string and gapping the rest is optimal. */
  lemma {:induction false} CostOfDisjoint(x: seq<char>, y: seq<char>)
    requires forall i, j :: 0 <= i < |x| && 0 <= j < |y| ==> x[i] != y[j]
    ensures Cost(x, y) == Min(|x|, |y|) + GapCost * Dist(|x|, |y|)
    decreases |x| + |y|
  {
    CostUpperBound(x, y);
    if |x| > 0 && |y| > 0 {
      CostOfDisjoint(x, y[1..]);
      CostOfDisjoint(x[1..], y);
      CostOfDisjoint(x[1..], y[1..]);
    }
  }

  // ----- Consequences for particular inputs -----

  /** Aligning a string with the empty string costs a gap per symbol. */
  lemma {:induction false} CostWithEmpty(y: seq<char>)
    ensures Cost([], y) == GapCost * |y| && Cost(y, []) == GapCost * |y|
  {
  }

  /** A string is at distance 0 from itself. */
  lemma {:induction false} CostOfSelf(s: seq<char>)
    ensures Cost(s, s) == 0
    decreases |s|
  {
    if |s| > 0 {
      CostOfSelf(s[1..]);
      CostStepBounds(s, s);
    }
  }

  /** Swapping the two strings does not change the distance. */
  lemma {:induction false} CostSymmetric(x: seq<char>, y: seq<char>)
    ensures Cost(x, y) == Cost(y, x)
    decreases |x| + |y|
  {
    if |x| > 0 && |y| > 0 {
      CostSymmetric(x, y[1..]);
      CostSymmetric(x[1..], y);
      CostSymmetric(x[1..], y[1..]);
    }
  }
}
