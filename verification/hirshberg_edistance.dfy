/**
 * Hirschberg's divide-and-conquer strategy: cut X in half, pick the column
 * q < |Y| with the smallest sum of a forward and a reversed cost profile,
 * record the crossing point in `arrowPath` (one slot per anti-diagonal
 * i + j), and recurse on the two quarters until one of the strings has at
 * most two symbols, where a small Needleman-Wunsch matrix is traced instead.
 * The class follows the scan as written, which never tries q = |Y|; the
 * corrected scan, which does, is the one `HirschbergIsOptimal` is about.
 */
module HirshbergEDistance {
  import opened AbstractEDistance
  import opened Alignments
  import opened AlignmentText
  import opened Wrappers
  import opened ArrowPath
  import NW = NeedlemanWunschEDistance
  import Opt = OptimizedEDistance

  // ----- Choosing the split column -----

  /** The cost of the best path through (h, q): prefix pieces plus suffix pieces. */
  function SplitSums(x: seq<char>, y: seq<char>, h: nat, count: nat): (r: seq<int>)
    requires h <= |x| && count <= |y| + 1
    ensures |r| == count
    ensures forall q :: 0 <= q < count ==> r[q] == Cost(x[..h], y[..q]) + Cost(x[h..], y[q..])
  {
    seq(count, q requires 0 <= q < count => Cost(x[..h], y[..q]) + Cost(x[h..], y[q..]))
  }

  /**
   * The scan over the candidate sums from position q on, with the best sum
   * and its position found so far; a later sum replaces the best only when
   * it is strictly smaller.
   */
  function ScanBest(sums: seq<int>, q: nat, bestCost: int, bestQ: nat): (r: nat)
    requires q <= |sums|
    ensures r == bestQ || q <= r < |sums|
    decreases |sums| - q
  {
    if q == |sums| then bestQ
    else if sums[q] < bestCost then ScanBest(sums, q + 1, sums[q], q)
    else ScanBest(sums, q + 1, bestCost, bestQ)
  }

  /**
   * Started with a best sum no smaller than the first candidate, the scan
   * ends at the first position of a smallest candidate.
   */
  lemma {:induction false} ScanBestIsFirstMinimum(sums: seq<int>, q: nat, bestCost: int, bestQ: nat)
    requires q <= |sums| && bestQ < |sums|
    requires sums[bestQ] <= bestCost
    requires forall k :: 0 <= k < q ==> bestCost <= sums[k]
    requires forall k :: 0 <= k < bestQ ==> sums[bestQ] < sums[k]
    ensures ScanBest(sums, q, bestCost, bestQ) < |sums|
    ensures forall k :: 0 <= k < |sums| ==> sums[ScanBest(sums, q, bestCost, bestQ)] <= sums[k]
    ensures forall k :: 0 <= k < ScanBest(sums, q, bestCost, bestQ) ==> sums[ScanBest(sums, q, bestCost, bestQ)] < sums[k]
    decreases |sums| - q
  {
    if q < |sums| {
      if sums[q] < bestCost {
        ScanBestIsFirstMinimum(sums, q + 1, sums[q], q);
      } else {
        ScanBestIsFirstMinimum(sums, q + 1, bestCost, bestQ);
      }
    }
  }

  /**
   * The split column chosen for x and y: the first q minimising the split
   * sum at h = |x| / 2, starting from the bound 2 (|x| + |y|). As written the
   * candidates are q < |y|; `corrected` also admits q = |y|.
   */
  function BestSplit(x: seq<char>, y: seq<char>, corrected: bool): (r: nat)
    ensures r <= |y|
    ensures !corrected && |y| > 0 ==> r < |y|
  {
    var count := if corrected then |y| + 1 else |y|;
    ScanBest(SplitSums(x, y, |x| / 2, count), 0, 2 * (|x| + |y|), 0)
  }

  /**
   * The alignment Hirschberg's recursion assembles: the traceback of the
   * whole piece when one string has at most two symbols, otherwise the
   * alignments of the two quarters around the chosen split.
   */
  function HirschbergAlignment(x: seq<char>, y: seq<char>, corrected: bool): seq<Column>
    decreases |x|
  {
    if |x| <= 2 || |y| <= 2 then Traceback(x, y)
    else
      var h, q := |x| / 2, BestSplit(x, y, corrected);
      HirschbergAlignment(x[..h], y[..q], corrected) + HirschbergAlignment(x[h..], y[q..], corrected)
  }

  /** Whatever split it picks, the recursion aligns x with y. */
  lemma {:induction false} HirschbergAligns(x: seq<char>, y: seq<char>, corrected: bool)
    ensures Aligns(HirschbergAlignment(x, y, corrected), x, y)
    decreases |x|
  {
    if |x| <= 2 || |y| <= 2 {
      TracebackIsOptimal(x, y);
    } else {
      var h, q := |x| / 2, BestSplit(x, y, corrected);
      HirschbergAligns(x[..h], y[..q], corrected);
      HirschbergAligns(x[h..], y[q..], corrected);
      ConcatAligns(HirschbergAlignment(x[..h], y[..q], corrected), HirschbergAlignment(x[h..], y[q..], corrected),
                   x[..h], x[h..], y[..q], y[q..]);
      TakeDrop(x, h);
      TakeDrop(y, q);
    }
  }

  /** Every candidate sum is at most the scan's starting bound. */
  lemma {:induction false} SplitSumBound(x: seq<char>, y: seq<char>, h: nat, q: nat)
    requires h <= |x| && q <= |y|
    ensures Cost(x[..h], y[..q]) + Cost(x[h..], y[q..]) <= 2 * (|x| + |y|)
  {
    CostUpperBound(x[..h], y[..q]);
    CostUpperBound(x[h..], y[q..]);
  }

  /** The chosen split column is the first one with the smallest split sum among the candidates. */
  lemma {:induction false} BestSplitIsFirstMinimum(x: seq<char>, y: seq<char>, corrected: bool)
    requires |x| > 0
    ensures var h, q := |x| / 2, BestSplit(x, y, corrected);
            forall k :: 0 <= k <= |y| && (corrected || k < |y|) ==>
              Cost(x[..h], y[..q]) + Cost(x[h..], y[q..]) <= Cost(x[..h], y[..k]) + Cost(x[h..], y[k..])
    ensures var h, q := |x| / 2, BestSplit(x, y, corrected);
            forall k :: 0 <= k < q ==>
              Cost(x[..h], y[..q]) + Cost(x[h..], y[q..]) < Cost(x[..h], y[..k]) + Cost(x[h..], y[k..])
  {
    var h := |x| / 2;
    var count := if corrected then |y| + 1 else |y|;
    var sums := SplitSums(x, y, h, count);
    if count > 0 {
      SplitSumBound(x, y, h, 0);
      ScanBestIsFirstMinimum(sums, 0, 2 * (|x| + |y|), 0);
    }
  }

  /** With q = |Y| among the candidates, the recursion attains the edit distance. */
  lemma {:induction false} HirschbergIsOptimal(x: seq<char>, y: seq<char>)
    ensures TotalCost(HirschbergAlignment(x, y, true)) == Cost(x, y)
    decreases |x|
  {
    if |x| <= 2 || |y| <= 2 {
      TracebackIsOptimal(x, y);
    } else {
      var h, q := |x| / 2, BestSplit(x, y, true);
      HirschbergIsOptimal(x[..h], y[..q]);
      HirschbergIsOptimal(x[h..], y[q..]);
      ConcatColumns(HirschbergAlignment(x[..h], y[..q], true), HirschbergAlignment(x[h..], y[q..], true));
      BestSplitIsFirstMinimum(x, y, true);
      SplitIsTight(x, y, h);
      SplitUpperBound(x, y, h, q);
    }
  }

  /** As written the recursion still aligns X with Y, so it never undercuts the edit distance. */
  lemma {:induction false} AsWrittenNeverBelowCost(x: seq<char>, y: seq<char>)
    ensures TotalCost(HirschbergAlignment(x, y, false)) >= Cost(x, y)
  {
    HirschbergAligns(x, y, false);
    CostIsMinimal(HirschbergAlignment(x, y, false), x, y);
  }

  /** Edit distances of three copies of b against up to three copies of a different symbol a. */
  lemma {:induction false} MismatchFixtures(a: char, b: char)
    requires a != b
    ensures Cost([b, b, b], [a, a, a]) == 3 && Cost([b, b, b], [a, a]) == 4 && Cost([b, b, b], [a]) == 5
  {
    CostOfDisjoint([b, b, b], [a, a, a]);
    CostOfDisjoint([b, b, b], [a, a]);
    CostOfDisjoint([b, b, b], [a]);
  }

  /** Edit distances of three copies of a against fewer copies of it. */
  lemma {:induction false} MatchFixtures(a: char)
    ensures Cost([a, a, a], []) == 6 && Cost([a, a, a], [a]) == 4 && Cost([a, a, a], [a, a]) == 2
  {
    var x := [a, a, a];
    CostWithEmpty(x);
    CostLowerBound(x, [a]);
    CostLowerBound(x, [a, a]);
    assert Cost(x, [a]) <= 4 by {
      SplitUpperBound(x, [a], 2, 0);
      assert x[..2] == [a, a] && x[2..] == [a];
      assert [a][..0] == [] && [a][0..] == [a];
      CostWithEmpty([a, a]);
      CostOfSelf([a]);
    }
    assert Cost(x, [a, a]) <= 2 by {
      SplitUpperBound(x, [a, a], 1, 0);
      assert x[..1] == [a] && x[1..] == [a, a];
      assert [a, a][..0] == [] && [a, a][0..] == [a, a];
      CostWithEmpty([a]);
      CostOfSelf([a, a]);
    }
  }

  /** For X = aaabbb and Y = aaa (a, b distinct), the split sums at h = 3 are 9, 8, 7 and, for q = 3, 6. */
  lemma {:induction false} SplitFixtures(a: char, b: char)
    requires a != b
    ensures SplitSums([a, a, a, b, b, b], [a, a, a], 3, 4) == [9, 8, 7, 6]
  {
    var x, y := [a, a, a, b, b, b], [a, a, a];
    var sums := SplitSums(x, y, 3, 4);
    assert x[..3] == [a, a, a] && x[3..] == [b, b, b];
    assert sums[0] == 9 by {
      assert y[..0] == [] && y[0..] == y;
      MatchFixtures(a);
      MismatchFixtures(a, b);
      CostWithEmpty([a, a, a]);
    }
    assert sums[1] == 8 by {
      assert y[..1] == [a] && y[1..] == [a, a];
      MatchFixtures(a);
      MismatchFixtures(a, b);
      CostSymmetric([a], [a, a, a]);
    }
    assert sums[2] == 7 by {
      assert y[..2] == [a, a] && y[2..] == [a];
      MatchFixtures(a);
      MismatchFixtures(a, b);
      CostSymmetric([a, a], [a, a, a]);
    }
    assert sums[3] == 6 by {
      assert y[..3] == y && y[3..] == [];
      CostOfSelf(y);
      CostWithEmpty([b, b, b]);
    }
  }

  /** The scan over 9, 8, 7 from the bound 18 ends at 2, and over 9, 8, 7, 6 at 3. */
  lemma {:induction false} ScanFixtures(s: seq<int>)
    requires s == [9, 8, 7, 6]
    ensures ScanBest(s[..3], 0, 18, 0) == 2
    ensures ScanBest(s, 0, 18, 0) == 3
  {
    var t := s[..3];
    assert ScanBest(t, 3, 7, 2) == 2;
    assert ScanBest(t, 2, 8, 1) == 2;
    assert ScanBest(t, 1, 9, 0) == 2;
    assert ScanBest(s, 4, 6, 3) == 3;
    assert ScanBest(s, 3, 7, 2) == 3;
    assert ScanBest(s, 2, 8, 1) == 3;
    assert ScanBest(s, 1, 9, 0) == 3;
  }

  /** For X = aaabbb and Y = aaa the scan as written stops at q = 2; admitting q = |Y| it reaches 3. */
  lemma {:induction false} SplitChoices(a: char, b: char)
    requires a != b
    ensures BestSplit([a, a, a, b, b, b], [a, a, a], false) == 2
    ensures BestSplit([a, a, a, b, b, b], [a, a, a], true) == 3
  {
    var x, y := [a, a, a, b, b, b], [a, a, a];
    SplitFixtures(a, b);
    var all := SplitSums(x, y, 3, 4);
    assert SplitSums(x, y, 3, 3) == all[..3];
    ScanFixtures(all);
  }

  /** The edit distance of aaabbb and aaa: match aaa, then three gaps. */
  lemma {:induction false} DistanceFixture(a: char, b: char)
    ensures Cost([a, a, a, b, b, b], [a, a, a]) == 6
  {
    var x, y := [a, a, a, b, b, b], [a, a, a];
    CostLowerBound(x, y);
    SplitUpperBound(x, y, 3, 3);
    assert x[..3] == y && x[3..] == [b, b, b] && y[..3] == y && y[3..] == [];
    CostOfSelf(y);
    CostWithEmpty([b, b, b]);
  }

  /** As written, aaabbb and aaa are split at q = 2 into pieces costing 2 and 5. */
  lemma {:induction false} AsWrittenFixture(a: char, b: char)
    requires a != b
    ensures TotalCost(HirschbergAlignment([a, a, a, b, b, b], [a, a, a], false)) == 7
  {
    var x, y := [a, a, a, b, b, b], [a, a, a];
    SplitChoices(a, b);
    assert x[..3] == [a, a, a] && x[3..] == [b, b, b] && y[..2] == [a, a] && y[2..] == [a];
    var left, right := Traceback([a, a, a], [a, a]), Traceback([b, b, b], [a]);
    assert HirschbergAlignment(x, y, false) == left + right;
    TracebackIsOptimal([a, a, a], [a, a]);
    TracebackIsOptimal([b, b, b], [a]);
    MismatchFixtures(a, b);
    MatchFixtures(a);
    ConcatColumns(left, right);
  }

  /**
   * X = aaabbb, Y = aaa (a, b distinct): the sums for q = 0, 1, 2 are 9, 8
   * and 7, so the scan as written splits at q = 2 and assembles an alignment
   * of cost 7, while cutting at q = 3 (aaa with aaa, then bbb against gaps)
   * costs 6, the edit distance, which the corrected scan attains.
   */
  lemma {:induction false} AsWrittenMissesLastColumn(a: char, b: char)
    requires a != b
    ensures var x, y := [a, a, a, b, b, b], [a, a, a];
            TotalCost(HirschbergAlignment(x, y, false)) == 7 && Cost(x, y) == 6 &&
            TotalCost(HirschbergAlignment(x, y, true)) == 6
  {
    AsWrittenFixture(a, b);
    DistanceFixture(a, b);
    HirschbergIsOptimal([a, a, a, b, b, b], [a, a, a]);
  }

  // ----- The cost profiles -----

  /** Reversing y and cutting off its first n symbols reverses the first |y| - n symbols of y. */
  lemma {:induction false} ReverseTail(y: seq<char>, n: nat)
    requires n <= |y|
    ensures Reverse(y)[n..] == Reverse(y[..|y| - n])
  {
  }

  /**
   * The edit distances of x against every prefix of y, read from the last
   * row of an optimized run on the reversed strings.
   */
  method AllYPrefixCosts(x: seq<char>, y: seq<char>) returns (r: seq<int>)
    ensures |r| == |y| + 1
    ensures forall q :: 0 <= q <= |y| ==> r[q] == Cost(x, y[..q])
  {
    var reversedX := Reverse(x);
    var reversedY := Reverse(y);
    var optimized := new Opt.OptimizedEDistance(reversedX, reversedY);
    var _ := optimized.OptDistance();
    var row := optimized.Row();
    r := Reverse(row);
    forall q | 0 <= q <= |y|
      ensures r[q] == Cost(x, y[..q])
    {
      ReverseTail(y, |y| - q);
      assert |y| - (|y| - q) == q;
      CostReverse(x, y[..q]);
    }
  }

  /** The edit distances of x against every suffix of y, read from the last row of an optimized run. */
  method AllYSuffixCosts(x: seq<char>, y: seq<char>) returns (r: seq<int>)
    ensures |r| == |y| + 1
    ensures forall q :: 0 <= q <= |y| ==> r[q] == Cost(x, y[q..])
  {
    var optimized := new Opt.OptimizedEDistance(x, y);
    var _ := optimized.OptDistance();
    r := optimized.Row();
  }

  // ----- The recursion, writing into the arrow path -----

  /**
   * One move of the base-case walk at cell (i, j) of a piece where one
   * string has at most two symbols: no cell is two cheaper both below and to
   * the right, so advancing i unless the move is rightward and j unless it
   * is downward follows the traceback by one column.
   */
  lemma {:induction false} BaseStep(x: seq<char>, y: seq<char>, i: nat, j: nat, isFromBottom: bool, isFromRight: bool, done: seq<Column>)
    returns (col: Column)
    requires (|x| <= 2 || |y| <= 2) && i <= |x| && j <= |y| && i + j < |x| + |y|
    requires isFromBottom == DownStep(x, y, i, j) && isFromRight == RightStep(x, y, i, j)
    requires done + Traceback(x[i..], y[j..]) == Traceback(x, y)
    ensures var i2, j2 := i + (if isFromRight then 0 else 1), j + (if isFromBottom then 0 else 1);
            i2 <= |x| && j2 <= |y| && (done + [col]) + Traceback(x[i2..], y[j2..]) == Traceback(x, y) &&
            Down(col) == i2 - i && Right(col) == j2 - j
  {
    if i < |x| && j < |y| {
      NoDoubleTie(x[i..], y[j..]);
      assert x[i..][1..] == x[i + 1..] && y[j..][1..] == y[j + 1..];
    }
    col := NW.TracebackMove(x, y, i, j, isFromBottom, isFromRight);
    var i2, j2 := i + (if isFromRight then 0 else 1), j + (if isFromBottom then 0 else 1);
    ConcatAssoc(done, [col], Traceback(x[i2..], y[j2..]));
  }

  /**
   * One move of the base-case walk over the filled matrix of a piece where
   * one string has at most two symbols: i advances unless the cell to the
   * right is two cheaper, j unless the cell below is; the move follows the
   * traceback by one column.
   */
  method BaseMove(matrix: array2<int>, x: seq<char>, y: seq<char>, i: nat, j: nat, ghost done: seq<Column>)
    returns (nextI: nat, nextJ: nat, ghost col: Column)
    requires NW.IsCostMatrix(matrix, x, y)
    requires (|x| <= 2 || |y| <= 2) && i <= |x| && j <= |y| && i + j < |x| + |y|
    requires done + Traceback(x[i..], y[j..]) == Traceback(x, y)
    ensures nextI <= |x| && nextJ <= |y| && (done + [col]) + Traceback(x[nextI..], y[nextJ..]) == Traceback(x, y)
    ensures Down(col) == nextI - i && Right(col) == nextJ - j
  {
    var val := matrix[i, j];
    var isFromBottom := i < |x| && val - 2 == matrix[i + 1, j];
    var isFromRight := j < |y| && val - 2 == matrix[i, j + 1];
    nextI := i + (if isFromRight then 0 else 1);
    nextJ := j + (if isFromBottom then 0 else 1);
    col := BaseStep(x, y, i, j, isFromBottom, isFromRight, done);
  }

  /**
   * The base-case walk stores the cell it leaves, which is where the columns
   * walked so far lead, and moves to the cell the new column leads to.
   */
  lemma {:induction false} BaseRecord(ap0: seq<Coord>, offset: Coord, al: seq<Column>, col: Column, i: nat, j: nat, i2: nat, j2: nat)
    requires End(offset, al) == Coord(offset.i + i, offset.j + j)
    requires Down(col) == i2 - i && Right(col) == j2 - j
    ensures End(offset, al + [col]) == Coord(offset.i + i2, offset.j + j2)
    ensures Record(ap0, offset, al + [col]) == Write(Record(ap0, offset, al), Coord(i + offset.i, j + offset.j))
  {
    RecordAppend(ap0, offset, al, col);
  }

  /** Past the base case, the recursion's alignment is those of the two quarters around the chosen split. */
  lemma {:induction false} HirschbergJoin(x: seq<char>, y: seq<char>, q: nat, al1: seq<Column>, al2: seq<Column>)
    requires !(|x| <= 2 || |y| <= 2) && q == BestSplit(x, y, false)
    requires al1 == HirschbergAlignment(x[..|x| / 2], y[..q], false)
    requires al2 == HirschbergAlignment(x[|x| / 2..], y[q..], false)
    ensures al1 + al2 == HirschbergAlignment(x, y, false)
    ensures Aligns(al1, x[..|x| / 2], y[..q]) && Aligns(al2, x[|x| / 2..], y[q..])
  {
    HirschbergAligns(x[..|x| / 2], y[..q], false);
    HirschbergAligns(x[|x| / 2..], y[q..], false);
  }

  /** The scan of `align` over the sums for q < |y|, started from the bound 2 (|x| + |y|), is the chosen split. */
  lemma {:induction false} ScanIsBestSplit(x: seq<char>, y: seq<char>, sums: seq<int>)
    requires sums == SplitSums(x, y, |x| / 2, |y|)
    ensures ScanBest(sums, 0, 2 * (|x| + |y|), 0) == BestSplit(x, y, false)
  {
  }

  /** The candidate sums of two cost profiles, position by position. */
  function PairSums(prefix: seq<int>, suffix: seq<int>): (r: seq<int>)
    requires |prefix| == |suffix|
    ensures |r| == |prefix| && forall q :: 0 <= q < |r| ==> r[q] == prefix[q] + suffix[q]
  {
    seq(|prefix|, q requires 0 <= q < |prefix| => prefix[q] + suffix[q])
  }

  /**
   * Scanning the first |y| positions of the prefix and suffix cost profiles
   * of the two halves of x, from the bound 2 (|x| + |y|), picks the
   * recursion's split column.
   */
  lemma {:induction false} ProfilesChooseBestSplit(x: seq<char>, y: seq<char>, yPrefix: seq<int>, ySuffix: seq<int>)
    requires |yPrefix| == |y| + 1 && |ySuffix| == |y| + 1
    requires forall q :: 0 <= q <= |y| ==> yPrefix[q] == Cost(x[..|x| / 2], y[..q])
    requires forall q :: 0 <= q <= |y| ==> ySuffix[q] == Cost(x[|x| / 2..], y[q..])
    ensures ScanBest(PairSums(yPrefix[..|y|], ySuffix[..|y|]), 0, 2 * (|x| + |y|), 0) == BestSplit(x, y, false)
  {
    ProfilesAddUp(x, y, yPrefix, ySuffix);
    ScanIsBestSplit(x, y, PairSums(yPrefix[..|y|], ySuffix[..|y|]));
  }

  /** The first |y| positions of the cost profiles of the two halves of x add up to the split sums for q < |y|. */
  lemma {:induction false} ProfilesAddUp(x: seq<char>, y: seq<char>, yPrefix: seq<int>, ySuffix: seq<int>)
    requires |yPrefix| == |y| + 1 && |ySuffix| == |y| + 1
    requires forall q :: 0 <= q <= |y| ==> yPrefix[q] == Cost(x[..|x| / 2], y[..q])
    requires forall q :: 0 <= q <= |y| ==> ySuffix[q] == Cost(x[|x| / 2..], y[q..])
    ensures PairSums(yPrefix[..|y|], ySuffix[..|y|]) == SplitSums(x, y, |x| / 2, |y|)
  {
  }

  /**
   * The scan of `align` over the candidate columns: keeps the first q whose
   * prefix and suffix costs add up to less than every earlier sum and than
   * `bound`; q runs over the first `count` positions of the profiles.
   */
  method ScanSums(yPrefix: seq<int>, ySuffix: seq<int>, count: nat, bound: int) returns (bestQ: nat)
    requires count <= |yPrefix| == |ySuffix|
    ensures bestQ == ScanBest(PairSums(yPrefix[..count], ySuffix[..count]), 0, bound, 0)
  {
    ghost var sums := PairSums(yPrefix[..count], ySuffix[..count]);
    var bestCost := bound;
    bestQ := 0;
    var q := 0;
    while q < count
      invariant q <= count
      invariant ScanBest(sums, q, bestCost, bestQ) == ScanBest(sums, 0, bound, 0)
    {
      var costSum := yPrefix[q] + ySuffix[q];
      if costSum < bestCost {
        bestCost := costSum;
        bestQ := q;
      }
      q := q + 1;
    }
  }

  /**
   * The split column `align` picks for x and y: the cost profiles of the two
   * halves of x against y, scanned for q < |y| from the bound 2 (|x| + |y|).
   */
  method ChooseSplit(x: string, y: string) returns (bestQ: nat)
    ensures bestQ == BestSplit(x, y, false)
  {
    var xHalfLength := |x| / 2;
    var yPrefix := AllYPrefixCosts(x[..xHalfLength], y);
    var ySuffix := AllYSuffixCosts(x[xHalfLength..], y);
    bestQ := ScanSums(yPrefix, ySuffix, |y|, 2 * (|x| + |y|));
    ProfilesChooseBestSplit(x, y, yPrefix, ySuffix);
  }

  /** The alignment the recursion builds aligns X with Y, costs no less than their edit distance and ends at (|X|, |Y|). */
  lemma {:induction false} RecursionResult(x: seq<char>, y: seq<char>, al: seq<Column>)
    requires al == HirschbergAlignment(x, y, false)
    ensures Aligns(al, x, y) && TotalCost(al) >= Cost(x, y)
    ensures End(Zero, al) == Coord(|x|, |y|)
  {
    HirschbergAligns(x, y, false);
    AsWrittenNeverBelowCost(x, y);
    EndOfAlignment(Zero, al, x, y);
  }

  /**
   * After the recursion has recorded its alignment over a freshly appended
   * initial path, the front slots hold that alignment, which aligns X with
   * Y at no less than the edit distance.
   */
  lemma {:induction false} RerunRecursion(ap0: seq<Coord>, ap: seq<Coord>, x: seq<char>, y: seq<char>, al: seq<Column>)
    requires al == HirschbergAlignment(x, y, false)
    requires ap0 != [] ==> |x| + |y| < |ap0| && ap0[..|x| + |y| + 1] == Record(InitPath(|x|, |y|), Zero, al)
    requires ap == Record(ap0 + InitPath(|x|, |y|), Zero, al)
    ensures |x| + |y| < |ap| && ap[..|x| + |y| + 1] == Record(InitPath(|x|, |y|), Zero, al)
    ensures Aligns(al, x, y) && TotalCost(al) >= Cost(x, y)
  {
    RecursionResult(x, y, al);
    RerunInitPath(ap0, ap, x, y, al);
  }

  class HirshbergEDistance {
    const geneX: string
    const geneY: string
    /** One slot per anti-diagonal i + j of the matrix; empty until `OptDistance` runs. */
    var arrowPath: seq<Coord>
    /** The alignment the recursion assembles for the two strings. */
    ghost const alignment: seq<Column>

    /**
     * Once `OptDistance` has run, the first |X| + |Y| + 1 slots hold the
     * initial path with the recursion's alignment recorded over it.
     */
    ghost predicate Valid()
      reads this
    {
      alignment == HirschbergAlignment(geneX, geneY, false) &&
      (arrowPath != [] ==>
         |geneX| + |geneY| < |arrowPath| &&
         arrowPath[..|geneX| + |geneY| + 1] == Record(InitPath(|geneX|, |geneY|), Zero, alignment))
    }

    /** Stores the two strings; the arrow path starts empty. */
    constructor(x: string, y: string)
      ensures geneX == x && geneY == y && arrowPath == []
      ensures Valid()
    {
      geneX, geneY := x, y;
      arrowPath := [];
      alignment := HirschbergAlignment(x, y, false);
    }

    /** Stores cell c in the slot of its anti-diagonal. */
    method InsertArrowPathCoordinate(c: Coord)
      modifies this
      requires c.i + c.j < |arrowPath|
      ensures arrowPath == Write(old(arrowPath), c)
    {
      arrowPath := arrowPath[c.i + c.j := c];
    }

    /**
     * The base case of `align`: fills a Needleman-Wunsch matrix for the
     * piece and walks it from (0, 0), storing every cell it leaves (shifted
     * by `offset`); returns the alignment the walk follows.
     */
    method AlignBase(x: string, y: string, offset: Coord) returns (ghost al: seq<Column>)
      modifies this
      requires |x| <= 2 || |y| <= 2
      requires offset.i + offset.j + |x| + |y| < |arrowPath|
      ensures al == Traceback(x, y)
      ensures arrowPath == Record(old(arrowPath), offset, al)
    {
      var xLength, yLength := |x|, |y|;
      var eDistance := new NW.NeedlemanWunschEDistance(x, y);
      var _ := eDistance.OptDistance();
      var matrix := eDistance.Matrix();
      ghost var ap0 := arrowPath;
      var i, j := 0, 0;
      al := [];
      assert x[0..] == x && y[0..] == y;
      while i + j < xLength + yLength
        invariant 0 <= i <= xLength && 0 <= j <= yLength
        invariant matrix != null && NW.IsCostMatrix(matrix, x, y)
        invariant al + Traceback(x[i..], y[j..]) == Traceback(x, y)
        invariant End(offset, al) == Coord(offset.i + i, offset.j + j)
        invariant arrowPath == Record(ap0, offset, al)
        decreases xLength + yLength - i - j
      {
        InsertArrowPathCoordinate(Coord(i + offset.i, j + offset.j));
        var nextI, nextJ, col := BaseMove(matrix, x, y, i, j, al);
        BaseRecord(ap0, offset, al, col, i, j, nextI, nextJ);
        al := al + [col];
        i, j := nextI, nextJ;
      }
      assert x[i..] == [] && y[j..] == [];
      assert al + [] == al;
    }

    /**
     * Records the alignment of x with y into the slots from `offset` on:
     * the base case traces a small matrix; otherwise it cuts x at h = |x| / 2,
     * picks the split column from the two cost profiles, stores the split
     * cell and recurses on the two quarters.
     */
    method Align(x: string, y: string, offset: Coord) returns (ghost al: seq<Column>)
      modifies this
      requires offset.i + offset.j + |x| + |y| < |arrowPath|
      ensures al == HirschbergAlignment(x, y, false)
      ensures arrowPath == Record(old(arrowPath), offset, al)
      decreases |x|
    {
      var xLength, yLength := |x|, |y|;
      var xHalfLength := xLength / 2;
      if xLength <= 2 || yLength <= 2 {
        al := AlignBase(x, y, offset);
        return;
      }
      var xHalf1, xHalf2 := x[..xHalfLength], x[xHalfLength..];
      var bestQ := ChooseSplit(x, y);

      var coordinate := Coord(xHalfLength + offset.i, bestQ + offset.j);
      ghost var ap0 := arrowPath;
      InsertArrowPathCoordinate(coordinate);
      var al1 := Align(xHalf1, y[..bestQ], offset);
      var al2 := Align(xHalf2, y[bestQ..], coordinate);
      al := al1 + al2;
      HirschbergJoin(x, y, bestQ, al1, al2);
      EndOfAlignment(offset, al1, xHalf1, y[..bestQ]);
      RecordSplit(ap0, offset, coordinate, al1, al2);
    }

    /**
     * Appends a fresh initial path, records the recursion's alignment over
     * its first slots and totals the path: the total is the cost of that
     * alignment, never below the edit distance.
     */
    method OptDistance() returns (d: int)
      modifies this
      requires Valid()
      ensures Valid() && arrowPath != []
      ensures d == TotalCost(alignment) && d >= Cost(geneX, geneY)
    {
      RecordAlignment();
      RecursionResult(geneX, geneY, alignment);
      d := PathCost(alignment);
    }

    /** The cost loop of `optDistance` over the arrow path. */
    method PathCost(ghost al: seq<Column>) returns (totalCost: int)
      requires Aligns(al, geneX, geneY)
      requires |geneX| + |geneY| < |arrowPath|
      requires arrowPath[..|geneX| + |geneY| + 1] == Record(InitPath(|geneX|, |geneY|), Zero, al)
      ensures totalCost == TotalCost(al)
    {
      totalCost := RecordedPathCost(arrowPath, geneX, geneY, al);
    }

    /**
     * The first two steps of `optDistance`: appends a fresh initial path and
     * runs the recursion from (0, 0) over it.
     */
    method RecordAlignment()
      modifies this
      requires Valid()
      ensures Valid() && arrowPath != []
    {
      ghost var ap0 := arrowPath;
      AppendAndAlign();
      RerunRecursion(ap0, arrowPath, geneX, geneY, alignment);
    }

    /** Appends a fresh initial path and records the recursion's alignment from (0, 0). */
    method AppendAndAlign()
      modifies this
      requires alignment == HirschbergAlignment(geneX, geneY, false)
      ensures arrowPath == Record(old(arrowPath) + InitPath(|geneX|, |geneY|), Zero, alignment)
    {
      AppendInitPath();
      ghost var al := Align(geneX, geneY, Zero);
    }

    /** Appends |X| + |Y| unused slots and then the far corner (|X|, |Y|). */
    method AppendInitPath()
      modifies this
      ensures arrowPath == old(arrowPath) + InitPath(|geneX|, |geneY|)
    {
      var xLength, yLength := |geneX|, |geneY|;
      ghost var ap0 := arrowPath;
      var i := 0;
      while i < xLength + yLength
        invariant i <= xLength + yLength
        invariant arrowPath == ap0 + Unused(i)
      {
        ConcatAssoc(ap0, Unused(i), [Zero]);
        arrowPath := arrowPath + [Zero];
        i := i + 1;
      }
      arrowPath := arrowPath + [Coord(xLength, yLength)];
    }

    /** Prints the recursion's alignment from the arrow path. */
    method Alignment() returns (s: string)
      requires Valid() && (arrowPath != [] || |geneX| + |geneY| == 0)
      ensures s == Render(alignment)
    {
      if arrowPath == [] {
        assert geneX == [] && geneY == [];
        s := "";
        return;
      }
      RecursionResult(geneX, geneY, alignment);
      s := PathText(alignment);
    }

    /**
     * The printing loop of `alignment`: one line per used slot; a gap step
     * in the same row of X is a gap in X, any other gap step a gap in Y, and
     * a diagonal step pairs the symbols of its cell.
     */
    method PathText(ghost al: seq<Column>) returns (s: string)
      requires Aligns(al, geneX, geneY)
      requires |geneX| + |geneY| < |arrowPath|
      requires arrowPath[..|geneX| + |geneY| + 1] == Record(InitPath(|geneX|, |geneY|), Zero, al)
      ensures s == Render(al)
    {
      var xLength, yLength := |geneX|, |geneY|;
      var length := xLength + yLength;
      s := "";
      var i := 0;
      ghost var text := ArrowText(arrowPath, geneX, geneY, i, s);
      while i < length
        invariant i <= length
        invariant ArrowText(arrowPath, geneX, geneY, i, s) == text
      {
        if !(arrowPath[i] == Zero && i != 0) {
          var xIndex, yIndex := arrowPath[i].i, arrowPath[i].j;
          var charX := if xIndex < xLength then geneX[xIndex] else Gap;
          var charY := if yIndex < yLength then geneY[yIndex] else Gap;
          var line;
          if arrowPath[i + 1] != Zero {
            if arrowPath[i].i == arrowPath[i + 1].i {
              line := Line(Gap, charY, GapCost);
            } else {
              line := Line(charX, Gap, GapCost);
            }
          } else {
            line := Line(charX, charY, Penalty(charX, charY));
          }
          s := s + line;
        }
        i := i + 1;
      }
      FrontText(arrowPath, geneX, geneY, al, "", s);
    }
  }
}
