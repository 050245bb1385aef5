/**
 * The arrow path of the Hirschberg strategy: one slot per anti-diagonal
 * i + j of the cost matrix, each holding the cell the alignment path
 * leaves on that anti-diagonal, or (0, 0) while unused; and the two loops
 * that read it back, one totalling the cost and one printing the lines.
 */
module ArrowPath {
  import opened AbstractEDistance
  import opened Alignments
  import opened AlignmentText
  import opened Wrappers

  /** A matrix cell (row index into X, column index into Y). */
  datatype Coord = Coord(i: nat, j: nat)

  /** The value every unused `arrowPath` slot holds. */
  const Zero: Coord := Coord(0, 0)

  // ----- Recording pieces -----

  /** The rows a column moves down: one, unless it is a gap in X. */
  function Down(c: Column): nat {
    if c.BottomOnly? then 0 else 1
  }

  /** The columns a column moves right: one, unless it is a gap in Y. */
  function Right(c: Column): nat {
    if c.TopOnly? then 0 else 1
  }

  /** The cell a path enters after one column. */
  function Advance(at: Coord, c: Column): (r: Coord)
    ensures r.i + r.j == at.i + at.j + Down(c) + Right(c)
    ensures Down(c) + Right(c) >= 1
  {
    Coord(at.i + Down(c), at.j + Right(c))
  }

  /** The rows a piece moves down in all. */
  function Rows(al: seq<Column>): nat {
    if al == [] then 0 else Down(al[0]) + Rows(al[1..])
  }

  /** The columns a piece moves right in all. */
  function Cols(al: seq<Column>): nat {
    if al == [] then 0 else Right(al[0]) + Cols(al[1..])
  }

  /** A piece moves down by the length of the part of X it aligns, and right by that of Y. */
  lemma {:induction false} RowsCols(al: seq<Column>)
    ensures Rows(al) == |Top(al)| && Cols(al) == |Bottom(al)|
  {
    if al != [] {
      RowsCols(al[1..]);
    }
  }

  /** The moves of two consecutive pieces add up. */
  lemma {:induction false} RowsColsConcat(p: seq<Column>, q: seq<Column>)
    ensures Rows(p + q) == Rows(p) + Rows(q) && Cols(p + q) == Cols(p) + Cols(q)
  {
    if p == [] {
      assert p + q == q;
    } else {
      assert (p + q)[0] == p[0] && (p + q)[1..] == p[1..] + q;
      RowsColsConcat(p[1..], q);
    }
  }

  /** The cell a path starting at `at` reaches after the columns of `al`. */
  function End(at: Coord, al: seq<Column>): (r: Coord)
    ensures al == [] ==> r == at
  {
    Coord(at.i + Rows(al), at.j + Cols(al))
  }

  /** Walking the first column and then the rest reaches the same far corner. */
  lemma {:induction false} EndStep(at: Coord, al: seq<Column>)
    requires al != []
    ensures End(Advance(at, al[0]), al[1..]) == End(at, al)
  {
  }

  /** A piece aligning x with y leads from cell `at` to `at` shifted by |x| rows and |y| columns. */
  lemma {:induction false} EndOfAlignment(at: Coord, al: seq<Column>, x: seq<char>, y: seq<char>)
    requires Aligns(al, x, y)
    ensures End(at, al) == Coord(at.i + |x|, at.j + |y|)
  {
    RowsCols(al);
  }

  /** k unused slots. */
  function Unused(k: nat): (r: seq<Coord>)
    ensures |r| == k
  {
    if k == 0 then [] else Unused(k - 1) + [Zero]
  }

  /** The path before any split is recorded: |X| + |Y| unused slots, then the far corner. */
  function InitPath(n: nat, m: nat): (r: seq<Coord>)
    ensures |r| == n + m + 1 && r[n + m] == Coord(n, m)
  {
    Unused(n + m) + [Coord(n, m)]
  }

  /** The write `insertArrowPathCoordinate` performs, when the slot exists. */
  function Write(ap: seq<Coord>, c: Coord): (r: seq<Coord>)
    ensures |r| == |ap|
  {
    if c.i + c.j < |ap| then ap[c.i + c.j := c] else ap
  }

  /**
   * The slots a piece traced from cell `at` along `al` writes: the cell it
   * starts from and every cell the path enters, except the piece's far
   * corner, each at the slot of its anti-diagonal.
   */
  function Record(ap: seq<Coord>, at: Coord, al: seq<Column>): (r: seq<Coord>)
    ensures |r| == |ap|
    decreases |al|
  {
    if al == [] then ap else Record(Write(ap, at), Advance(at, al[0]), al[1..])
  }

  /** Slots outside the piece's anti-diagonals keep their values. */
  lemma {:induction false} RecordFrame(ap: seq<Coord>, at: Coord, al: seq<Column>)
    ensures at.i + at.j <= End(at, al).i + End(at, al).j
    ensures al != [] ==> at.i + at.j < End(at, al).i + End(at, al).j
    ensures forall s :: 0 <= s < |ap| && (s < at.i + at.j || End(at, al).i + End(at, al).j <= s) ==> Record(ap, at, al)[s] == ap[s]
    decreases |al|
  {
    if al != [] {
      RecordFrame(Write(ap, at), Advance(at, al[0]), al[1..]);
    }
  }

  /** A non-empty piece leaves its starting cell in its starting slot. */
  lemma {:induction false} RecordHead(ap: seq<Coord>, at: Coord, al: seq<Column>)
    requires at.i + at.j < |ap| && al != []
    ensures Record(ap, at, al)[at.i + at.j] == at
  {
    RecordFrame(Write(ap, at), Advance(at, al[0]), al[1..]);
  }

  /** Recording two consecutive pieces is recording their concatenation. */
  lemma {:induction false} RecordConcat(ap: seq<Coord>, at: Coord, p: seq<Column>, q: seq<Column>)
    ensures End(at, p + q) == End(End(at, p), q)
    ensures Record(ap, at, p + q) == Record(Record(ap, at, p), End(at, p), q)
    decreases |p|
  {
    RowsColsConcat(p, q);
    if p == [] {
      assert p + q == q;
    } else {
      assert (p + q)[0] == p[0] && (p + q)[1..] == p[1..] + q;
      EndStep(at, p);
      RecordConcat(Write(ap, at), Advance(at, p[0]), p[1..], q);
    }
  }

  /** A write above the piece's anti-diagonals commutes with recording the piece. */
  lemma {:induction false} RecordWriteAbove(ap: seq<Coord>, c: Coord, at: Coord, al: seq<Column>)
    requires End(at, al).i + End(at, al).j <= c.i + c.j < |ap|
    ensures Record(Write(ap, c), at, al) == Write(Record(ap, at, al), c)
    decreases |al|
  {
    if al != [] {
      RecordFrame(Write(ap, at), Advance(at, al[0]), al[1..]);
      assert Write(Write(ap, c), at) == Write(Write(ap, at), c);
      RecordWriteAbove(Write(ap, at), c, Advance(at, al[0]), al[1..]);
    }
  }

  /** Writing a piece's starting cell just before recording the piece changes nothing. */
  lemma {:induction false} RecordWriteFirst(ap: seq<Coord>, at: Coord, al: seq<Column>)
    requires al != []
    ensures Record(Write(ap, at), at, al) == Record(ap, at, al)
  {
    assert Write(Write(ap, at), at) == Write(ap, at);
  }

  /** Recording a piece twice writes the same values again. */
  lemma {:induction false} RecordIdempotent(ap: seq<Coord>, at: Coord, al: seq<Column>)
    ensures Record(Record(ap, at, al), at, al) == Record(ap, at, al)
    decreases |al|
  {
    if al != [] {
      var ap1, at1 := Write(ap, at), Advance(at, al[0]);
      var r := Record(ap1, at1, al[1..]);
      RecordFrame(ap1, at1, al[1..]);
      assert Write(r, at) == r;
      RecordIdempotent(ap1, at1, al[1..]);
    }
  }

  /** Recording a piece only changes slots before its far corner. */
  lemma {:induction false} RecordPrefix(ap: seq<Coord>, k: nat, at: Coord, al: seq<Column>)
    requires End(at, al).i + End(at, al).j < k <= |ap|
    ensures Record(ap, at, al)[..k] == Record(ap[..k], at, al)
    decreases |al|
  {
    if al != [] {
      RecordFrame(Write(ap, at), Advance(at, al[0]), al[1..]);
      assert Write(ap, at)[..k] == Write(ap[..k], at);
      RecordPrefix(Write(ap, at), k, Advance(at, al[0]), al[1..]);
    }
  }

  /** Every used slot holds a cell of its own anti-diagonal. */
  ghost predicate OnDiagonals(ap: seq<Coord>) {
    forall s :: 0 <= s < |ap| ==> ap[s] == Zero || ap[s].i + ap[s].j == s
  }

  lemma {:induction false} RecordOnDiagonals(ap: seq<Coord>, at: Coord, al: seq<Column>)
    requires OnDiagonals(ap)
    ensures OnDiagonals(Record(ap, at, al))
    decreases |al|
  {
    if al != [] {
      RecordOnDiagonals(Write(ap, at), Advance(at, al[0]), al[1..]);
    }
  }

  /** The initial path with any piece recorded over it keeps every used slot on its own anti-diagonal. */
  lemma {:induction false} RecordedOnDiagonals(n: nat, m: nat, at: Coord, al: seq<Column>)
    ensures OnDiagonals(Record(InitPath(n, m), at, al))
  {
    InitPathUnused(n, m);
    RecordOnDiagonals(InitPath(n, m), at, al);
  }

  // ----- Reading the arrow path back -----

  /**
   * The loop of `optDistance` from slot i on, with running total acc: an
   * unused slot (other than slot 0) is skipped; a used slot followed by a
   * used slot is a gap step costing 2; otherwise it is a diagonal step
   * costing the penalty of the two symbols at the cell. None stands for the
   * exception `at` throws when the cell is outside the strings.
   */
  function ArrowTotal(ap: seq<Coord>, x: seq<char>, y: seq<char>, i: nat, acc: int): Option<int>
    requires i <= |x| + |y| < |ap|
    decreases |x| + |y| - i
  {
    if i == |x| + |y| then Some(acc)
    else if ap[i] == Zero && i != 0 then ArrowTotal(ap, x, y, i + 1, acc)
    else if ap[i + 1] != Zero then ArrowTotal(ap, x, y, i + 1, acc + GapCost)
    else if ap[i].i < |x| && ap[i].j < |y| then ArrowTotal(ap, x, y, i + 1, acc + Penalty(x[ap[i].i], y[ap[i].j]))
    else None
  }

  /**
   * The line `alignment` prints for the used slot i: a gap step whose next
   * cell is in the same row of X is a gap in X, any other gap step a gap in
   * Y, and a diagonal step pairs the two symbols (a cell past the end of a
   * string shows '-').
   */
  function ArrowLine(ap: seq<Coord>, x: seq<char>, y: seq<char>, i: nat): string
    requires i < |x| + |y| < |ap|
  {
    var charX := if ap[i].i < |x| then x[ap[i].i] else Gap;
    var charY := if ap[i].j < |y| then y[ap[i].j] else Gap;
    if ap[i + 1] != Zero then
      if ap[i].i == ap[i + 1].i then Line(Gap, charY, GapCost) else Line(charX, Gap, GapCost)
    else Line(charX, charY, Penalty(charX, charY))
  }

  /** The loop of `alignment` from slot i on, with the text printed so far. */
  function ArrowText(ap: seq<Coord>, x: seq<char>, y: seq<char>, i: nat, acc: string): string
    requires i <= |x| + |y| < |ap|
    decreases |x| + |y| - i
  {
    if i == |x| + |y| then acc
    else if ap[i] == Zero && i != 0 then ArrowText(ap, x, y, i + 1, acc)
    else ArrowText(ap, x, y, i + 1, acc + ArrowLine(ap, x, y, i))
  }

  /** Each column of a piece traced from cell `at` shows the symbols of x and y at the cell it leaves. */
  predicate Follows(x: seq<char>, y: seq<char>, at: Coord, al: seq<Column>)
    decreases |al|
  {
    al == [] ||
    ((!al[0].BottomOnly? ==> at.i < |x| && x[at.i] == al[0].top) &&
     (!al[0].TopOnly? ==> at.j < |y| && y[at.j] == al[0].bottom) &&
     Follows(x, y, Advance(at, al[0]), al[1..]))
  }

  /** An alignment of the suffixes of x and y from cell `at` follows them from there. */
  lemma {:induction false} SuffixFollows(x: seq<char>, y: seq<char>, at: Coord, al: seq<Column>)
    requires at.i <= |x| && at.j <= |y| && Top(al) == x[at.i..] && Bottom(al) == y[at.j..]
    ensures Follows(x, y, at, al)
    decreases |al|
  {
    if al != [] {
      var c, rest, next := al[0], al[1..], Advance(at, al[0]);
      assert Top(al) == TopOf(c) + Top(rest) && Bottom(al) == BottomOf(c) + Bottom(rest);
      assert x[next.i..] == x[at.i..][|TopOf(c)|..];
      assert y[next.j..] == y[at.j..][|BottomOf(c)|..];
      SuffixFollows(x, y, next, rest);
    }
  }

  /** The anti-diagonals of a piece are still unused and the slot of its far corner holds that corner. */
  ghost predicate PlacedSlots(ap: seq<Coord>, at: Coord, al: seq<Column>) {
    End(at, al).i + End(at, al).j < |ap| &&
    (forall s :: at.i + at.j <= s < End(at, al).i + End(at, al).j ==> ap[s] == Zero) &&
    ap[End(at, al).i + End(at, al).j] == End(at, al)
  }

  lemma {:induction false} PlacedSlotsRest(ap: seq<Coord>, at: Coord, al: seq<Column>)
    requires PlacedSlots(ap, at, al) && al != []
    ensures PlacedSlots(Write(ap, at), Advance(at, al[0]), al[1..])
  {
    RecordFrame(ap, Advance(at, al[0]), al[1..]);
  }

  /**
   * After a piece is recorded, its first slot holds its starting cell, and
   * the slot after it holds the next cell for a gap column and stays unused
   * for a diagonal column.
   */
  lemma {:induction false} PlacedReads(ap: seq<Coord>, at: Coord, al: seq<Column>)
    requires PlacedSlots(ap, at, al) && al != []
    ensures var next, r := Advance(at, al[0]), Record(ap, at, al);
            at.i + at.j < next.i + next.j <= End(at, al).i + End(at, al).j && r[at.i + at.j] == at &&
            (al[0].Pair? ==> r[at.i + at.j + 1] == Zero) &&
            (!al[0].Pair? ==> r[at.i + at.j + 1] == next)
  {
    var c, rest, next := al[0], al[1..], Advance(at, al[0]);
    var ap1 := Write(ap, at);
    RecordFrame(ap1, next, rest);
    if rest != [] {
      RecordHead(ap1, next, rest);
    }
  }

  /** The slots a single column occupies once it is recorded at cell `at`, ending at cell `next`. */
  ghost predicate StepSlots(r: seq<Coord>, x: seq<char>, y: seq<char>, at: Coord, c: Column, next: Coord) {
    next == Advance(at, c) && next.i + next.j <= |x| + |y| < |r| && r[at.i + at.j] == at &&
    (c.Pair? ==> r[at.i + at.j + 1] == Zero) &&
    (!c.Pair? ==> r[at.i + at.j + 1] == next) &&
    (!c.BottomOnly? ==> at.i < |x| && x[at.i] == c.top) &&
    (!c.TopOnly? ==> at.j < |y| && y[at.j] == c.bottom)
  }

  /** The used slot of a recorded column adds the column's cost and moves on to the next slot. */
  lemma {:induction false} ArrowTotalHead(r: seq<Coord>, x: seq<char>, y: seq<char>, at: Coord, c: Column, next: Coord, acc: int)
    requires StepSlots(r, x, y, at, c, next)
    ensures ArrowTotal(r, x, y, at.i + at.j, acc) == ArrowTotal(r, x, y, at.i + at.j + 1, acc + ColumnCost(c))
  {
  }

  /** An unused slot adds nothing. */
  lemma {:induction false} ArrowTotalSkip(r: seq<Coord>, x: seq<char>, y: seq<char>, i: nat, acc: int)
    requires 0 < i < |x| + |y| < |r| && r[i] == Zero
    ensures ArrowTotal(r, x, y, i, acc) == ArrowTotal(r, x, y, i + 1, acc)
  {
  }

  /** One recorded column adds its cost to the running total. */
  lemma {:induction false} ArrowTotalStep(r: seq<Coord>, x: seq<char>, y: seq<char>, at: Coord, c: Column, next: Coord, acc: int)
    requires StepSlots(r, x, y, at, c, next)
    ensures ArrowTotal(r, x, y, at.i + at.j, acc) == ArrowTotal(r, x, y, next.i + next.j, acc + ColumnCost(c))
  {
    ArrowTotalHead(r, x, y, at, c, next, acc);
    if c.Pair? {
      ArrowTotalSkip(r, x, y, at.i + at.j + 1, acc + ColumnCost(c));
    }
  }

  /** One recorded column prints its line. */
  lemma {:induction false} ArrowTextStep(r: seq<Coord>, x: seq<char>, y: seq<char>, at: Coord, c: Column, next: Coord, acc: string)
    requires StepSlots(r, x, y, at, c, next)
    ensures ArrowText(r, x, y, at.i + at.j, acc) == ArrowText(r, x, y, next.i + next.j, acc + RenderColumn(c))
  {
    var i := at.i + at.j;
    assert ArrowLine(r, x, y, i) == RenderColumn(c);
    if c.Pair? {
      assert ArrowText(r, x, y, i, acc) == ArrowText(r, x, y, i + 1, acc + RenderColumn(c));
    }
  }

  /** Recording a piece leaves its first column in the slots `StepSlots` describes. */
  lemma {:induction false} RecordStep(ap: seq<Coord>, x: seq<char>, y: seq<char>, at: Coord, al: seq<Column>)
    requires |x| + |y| < |ap| && End(at, al).i + End(at, al).j <= |x| + |y|
    requires Follows(x, y, at, al) && PlacedSlots(ap, at, al) && al != []
    ensures StepSlots(Record(ap, at, al), x, y, at, al[0], Advance(at, al[0]))
    ensures Record(ap, at, al) == Record(Write(ap, at), Advance(at, al[0]), al[1..])
    ensures Follows(x, y, Advance(at, al[0]), al[1..]) && PlacedSlots(Write(ap, at), Advance(at, al[0]), al[1..])
    ensures End(Advance(at, al[0]), al[1..]) == End(at, al)
  {
    PlacedSlotsRest(ap, at, al);
    PlacedReads(ap, at, al);
  }

  /** Every column of a piece traced from cell `at` sits in the slots `StepSlots` describes. */
  ghost predicate Traced(r: seq<Coord>, x: seq<char>, y: seq<char>, at: Coord, al: seq<Column>)
    decreases |al|
  {
    al == [] || (StepSlots(r, x, y, at, al[0], Advance(at, al[0])) && Traced(r, x, y, Advance(at, al[0]), al[1..]))
  }

  /** A piece recorded over unused slots is traced in the result. */
  lemma {:induction false} RecordTraced(ap: seq<Coord>, x: seq<char>, y: seq<char>, at: Coord, al: seq<Column>)
    requires |x| + |y| < |ap| && End(at, al).i + End(at, al).j <= |x| + |y|
    requires Follows(x, y, at, al) && PlacedSlots(ap, at, al)
    ensures Traced(Record(ap, at, al), x, y, at, al)
    decreases |al|
  {
    if al != [] {
      var next := Advance(at, al[0]);
      RecordStep(ap, x, y, at, al);
      RecordTraced(Write(ap, at), x, y, next, al[1..]);
    }
  }

  /** Reading a traced piece adds its total cost. */
  lemma {:induction false} ArrowTotalTraced(r: seq<Coord>, x: seq<char>, y: seq<char>, at: Coord, al: seq<Column>, acc: int)
    requires at.i + at.j <= End(at, al).i + End(at, al).j <= |x| + |y| < |r|
    requires Traced(r, x, y, at, al)
    ensures ArrowTotal(r, x, y, at.i + at.j, acc) == ArrowTotal(r, x, y, End(at, al).i + End(at, al).j, acc + TotalCost(al))
    decreases |al|
  {
    if al != [] {
      var c, next := al[0], Advance(at, al[0]);
      ArrowTotalStep(r, x, y, at, c, next, acc);
      ArrowTotalTraced(r, x, y, next, al[1..], acc + ColumnCost(c));
      assert acc + ColumnCost(c) + TotalCost(al[1..]) == acc + TotalCost(al);
    } else {
      assert End(at, al) == at && TotalCost(al) == 0;
    }
  }

  /** Reading a traced piece prints its rendering. */
  lemma {:induction false} ArrowTextTraced(r: seq<Coord>, x: seq<char>, y: seq<char>, at: Coord, al: seq<Column>, acc: string)
    requires at.i + at.j <= End(at, al).i + End(at, al).j <= |x| + |y| < |r|
    requires Traced(r, x, y, at, al)
    ensures ArrowText(r, x, y, at.i + at.j, acc) == ArrowText(r, x, y, End(at, al).i + End(at, al).j, acc + Render(al))
    decreases |al|
  {
    if al != [] {
      var c, next := al[0], Advance(at, al[0]);
      ArrowTextStep(r, x, y, at, c, next, acc);
      ArrowTextTraced(r, x, y, next, al[1..], acc + RenderColumn(c));
      ConcatAssoc(acc, RenderColumn(c), Render(al[1..]));
      assert Render(al) == RenderColumn(c) + Render(al[1..]);
    } else {
      assert End(at, al) == at && acc + Render(al) == acc;
    }
  }

  /** Every one of k unused slots holds (0, 0). */
  lemma {:induction false} UnusedIsZero(k: nat)
    ensures forall s :: 0 <= s < k ==> Unused(k)[s] == Zero
  {
    if k > 0 {
      UnusedIsZero(k - 1);
      assert forall s :: 0 <= s < k - 1 ==> Unused(k)[s] == Unused(k - 1)[s];
    }
  }

  /** Every slot of the initial path before the last is unused. */
  lemma {:induction false} InitPathUnused(n: nat, m: nat)
    ensures forall s :: 0 <= s < n + m ==> InitPath(n, m)[s] == Zero
  {
    UnusedIsZero(n + m);
    assert forall s :: 0 <= s < n + m ==> InitPath(n, m)[s] == Unused(n + m)[s];
  }

  /** The initial path leaves room for any piece from (0, 0) to the far corner (n, m). */
  lemma {:induction false} InitPathPlaced(n: nat, m: nat, al: seq<Column>)
    requires End(Zero, al) == Coord(n, m)
    ensures PlacedSlots(InitPath(n, m), Zero, al)
  {
    InitPathUnused(n, m);
  }

  /** Any alignment of X with Y, recorded over the initial path from (0, 0), is traced in the result. */
  lemma {:induction false} InitPathTraced(x: seq<char>, y: seq<char>, al: seq<Column>)
    requires Aligns(al, x, y)
    ensures End(Zero, al) == Coord(|x|, |y|)
    ensures Traced(Record(InitPath(|x|, |y|), Zero, al), x, y, Zero, al)
  {
    EndOfAlignment(Zero, al, x, y);
    StartFollows(x, y, al);
    InitPathPlaced(|x|, |y|, al);
    RecordTraced(InitPath(|x|, |y|), x, y, Zero, al);
  }

  /** An alignment of X with Y follows them from (0, 0). */
  lemma {:induction false} StartFollows(x: seq<char>, y: seq<char>, al: seq<Column>)
    requires Aligns(al, x, y)
    ensures Follows(x, y, Zero, al)
  {
    assert x[0..] == x && y[0..] == y;
    SuffixFollows(x, y, Zero, al);
  }

  /** The loop of `optDistance` at the last slot returns its running total. */
  lemma {:induction false} ArrowTotalDone(r: seq<Coord>, x: seq<char>, y: seq<char>, acc: int)
    requires |x| + |y| < |r|
    ensures ArrowTotal(r, x, y, |x| + |y|, acc) == Some(acc)
  {
  }

  /** The loop of `alignment` at the last slot returns the text printed so far. */
  lemma {:induction false} ArrowTextDone(r: seq<Coord>, x: seq<char>, y: seq<char>, acc: string)
    requires |x| + |y| < |r|
    ensures ArrowText(r, x, y, |x| + |y|, acc) == acc
  {
  }

  /** Reading a traced piece that ends in the last slot totals the cost of its columns. */
  lemma {:induction false} PathTotal(r: seq<Coord>, x: seq<char>, y: seq<char>, at: Coord, al: seq<Column>, acc: int)
    requires at.i + at.j <= |x| + |y| < |r| && End(at, al).i + End(at, al).j == |x| + |y| && Traced(r, x, y, at, al)
    ensures ArrowTotal(r, x, y, at.i + at.j, acc) == Some(acc + TotalCost(al))
  {
    ArrowTotalTraced(r, x, y, at, al, acc);
    ArrowTotalDone(r, x, y, acc + TotalCost(al));
  }

  /** Printing a traced piece that ends in the last slot prints its columns. */
  lemma {:induction false} PathText(r: seq<Coord>, x: seq<char>, y: seq<char>, at: Coord, al: seq<Column>, acc: string)
    requires at.i + at.j <= |x| + |y| < |r| && End(at, al).i + End(at, al).j == |x| + |y| && Traced(r, x, y, at, al)
    ensures ArrowText(r, x, y, at.i + at.j, acc) == acc + Render(al)
  {
    ArrowTextTraced(r, x, y, at, al, acc);
    ArrowTextDone(r, x, y, acc + Render(al));
  }

  /** A path traced from (0, 0) to (|X|, |Y|) reads back as its alignment's total cost. */
  lemma {:induction false} TracedTotal(r: seq<Coord>, x: seq<char>, y: seq<char>, al: seq<Column>, acc: int)
    requires |x| + |y| < |r| && End(Zero, al) == Coord(|x|, |y|) && Traced(r, x, y, Zero, al)
    ensures ArrowTotal(r, x, y, 0, acc) == Some(acc + TotalCost(al))
  {
    PathTotal(r, x, y, Zero, al, acc);
  }

  /** A path traced from (0, 0) to (|X|, |Y|) prints as its alignment's rendering. */
  lemma {:induction false} TracedText(r: seq<Coord>, x: seq<char>, y: seq<char>, al: seq<Column>, acc: string)
    requires |x| + |y| < |r| && End(Zero, al) == Coord(|x|, |y|) && Traced(r, x, y, Zero, al)
    ensures ArrowText(r, x, y, 0, acc) == acc + Render(al)
  {
    PathText(r, x, y, Zero, al, acc);
  }

  /** Any alignment of X with Y recorded over the initial path reads back as its total cost. */
  lemma {:induction false} RecordedTotal(x: seq<char>, y: seq<char>, al: seq<Column>, acc: int)
    requires Aligns(al, x, y)
    ensures ArrowTotal(Record(InitPath(|x|, |y|), Zero, al), x, y, 0, acc) == Some(acc + TotalCost(al))
  {
    var r := Record(InitPath(|x|, |y|), Zero, al);
    InitPathTraced(x, y, al);
    TracedTotal(r, x, y, al, acc);
  }

  /** Any alignment of X with Y recorded over the initial path prints as its rendering. */
  lemma {:induction false} RecordedText(x: seq<char>, y: seq<char>, al: seq<Column>, acc: string)
    requires Aligns(al, x, y)
    ensures ArrowText(Record(InitPath(|x|, |y|), Zero, al), x, y, 0, acc) == acc + Render(al)
  {
    var r := Record(InitPath(|x|, |y|), Zero, al);
    InitPathTraced(x, y, al);
    TracedText(r, x, y, al, acc);
  }

  /** The loops read nothing past slot |X| + |Y|. */
  lemma {:induction false} ArrowTotalPrefix(r: seq<Coord>, x: seq<char>, y: seq<char>, i: nat, acc: int)
    requires i <= |x| + |y| < |r|
    ensures ArrowTotal(r, x, y, i, acc) == ArrowTotal(r[..|x| + |y| + 1], x, y, i, acc)
    decreases |x| + |y| - i
  {
    var p := r[..|x| + |y| + 1];
    if i < |x| + |y| {
      assert p[i] == r[i] && p[i + 1] == r[i + 1];
      ArrowTotalPrefix(r, x, y, i + 1, acc);
      ArrowTotalPrefix(r, x, y, i + 1, acc + GapCost);
      if r[i].i < |x| && r[i].j < |y| {
        ArrowTotalPrefix(r, x, y, i + 1, acc + Penalty(x[r[i].i], y[r[i].j]));
      }
    }
  }

  lemma {:induction false} ArrowTextPrefix(r: seq<Coord>, x: seq<char>, y: seq<char>, i: nat, acc: string)
    requires i <= |x| + |y| < |r|
    ensures ArrowText(r, x, y, i, acc) == ArrowText(r[..|x| + |y| + 1], x, y, i, acc)
    decreases |x| + |y| - i
  {
    var p := r[..|x| + |y| + 1];
    if i < |x| + |y| {
      assert p[i] == r[i] && p[i + 1] == r[i + 1];
      assert ArrowLine(p, x, y, i) == ArrowLine(r, x, y, i);
      ArrowTextPrefix(r, x, y, i + 1, acc);
      ArrowTextPrefix(r, x, y, i + 1, acc + ArrowLine(r, x, y, i));
    }
  }


  /** Recording one more column writes the cell the piece had reached. */
  lemma {:induction false} RecordAppend(ap: seq<Coord>, at: Coord, al: seq<Column>, c: Column)
    ensures End(at, al + [c]) == Advance(End(at, al), c)
    ensures Record(ap, at, al + [c]) == Write(Record(ap, at, al), End(at, al))
  {
    RecordConcat(ap, at, al, [c]);
    assert [c][1..] == [];
    assert Rows([c]) == Down(c) && Cols([c]) == Right(c);
  }

  /**
   * Writing the split cell, then recording the piece before it from `at` and
   * the piece after it from the split cell, records the two pieces together.
   */
  lemma {:induction false} RecordSplit(ap: seq<Coord>, at: Coord, split: Coord, p: seq<Column>, q: seq<Column>)
    requires End(at, p) == split && q != [] && split.i + split.j < |ap|
    ensures Record(Record(Write(ap, split), at, p), split, q) == Record(ap, at, p + q)
  {
    RecordFrame(ap, at, p);
    RecordWriteAbove(ap, split, at, p);
    RecordWriteFirst(Record(ap, at, p), split, q);
    RecordConcat(ap, at, p, q);
  }

  /**
   * Recording a piece over a path whose first k slots are some base path,
   * or already hold the piece recorded over that base, leaves the piece
   * recorded over the base in those slots.
   */
  lemma {:induction false} RecordOverPath(ap: seq<Coord>, k: nat, at: Coord, al: seq<Column>, base: seq<Coord>)
    requires End(at, al).i + End(at, al).j < k <= |ap|
    requires ap[..k] == base || ap[..k] == Record(base, at, al)
    ensures Record(ap, at, al)[..k] == Record(base, at, al)
  {
    RecordPrefix(ap, k, at, al);
    if ap[..k] != base {
      RecordIdempotent(base, at, al);
    }
  }

  /**
   * Appending a fresh copy of `base` and recording a piece over the front
   * slots leaves the recorded base in the first |base| slots, whether the
   * path was empty or already held the same piece recorded over `base`.
   */
  lemma {:induction false} RerunPath(ap0: seq<Coord>, base: seq<Coord>, at: Coord, al: seq<Column>)
    requires End(at, al).i + End(at, al).j < |base|
    requires ap0 != [] ==> |base| <= |ap0| && ap0[..|base|] == Record(base, at, al)
    ensures var ap := Record(ap0 + base, at, al);
            |base| <= |ap| && ap[..|base|] == Record(base, at, al)
  {
    var ap1 := ap0 + base;
    if ap0 == [] {
      assert ap1[..|base|] == base;
    } else {
      assert ap1[..|base|] == ap0[..|base|];
    }
    RecordOverPath(ap1, |base|, at, al, base);
  }

  /**
   * Recording a piece from (0, 0) to (|x|, |y|) over a freshly appended
   * initial path leaves it recorded over the initial path in the front
   * slots, when the path was empty or already held the same piece there.
   */
  lemma {:induction false} RerunInitPath(ap0: seq<Coord>, ap: seq<Coord>, x: seq<char>, y: seq<char>, al: seq<Column>)
    requires End(Zero, al) == Coord(|x|, |y|)
    requires ap0 != [] ==> |x| + |y| < |ap0| && ap0[..|x| + |y| + 1] == Record(InitPath(|x|, |y|), Zero, al)
    requires ap == Record(ap0 + InitPath(|x|, |y|), Zero, al)
    ensures |x| + |y| < |ap| && ap[..|x| + |y| + 1] == Record(InitPath(|x|, |y|), Zero, al)
  {
    RerunPath(ap0, InitPath(|x|, |y|), Zero, al);
  }

  /** Reading such a path never leaves the strings: every diagonal step is at a cell inside both. */
  lemma {:induction false} FrontReads(ap: seq<Coord>, x: seq<char>, y: seq<char>, al: seq<Column>, acc: int)
    requires Aligns(al, x, y)
    requires |x| + |y| < |ap| && ap[..|x| + |y| + 1] == Record(InitPath(|x|, |y|), Zero, al)
    ensures ArrowTotal(ap, x, y, 0, acc).Some?
  {
    ArrowTotalPrefix(ap, x, y, 0, acc);
    RecordedTotal(x, y, al, acc);
  }

  /**
   * A path whose first |X| + |Y| + 1 slots hold an alignment recorded over
   * the initial path totals, from slot 0, that alignment's cost.
   */
  lemma {:induction false} FrontTotal(ap: seq<Coord>, x: seq<char>, y: seq<char>, al: seq<Column>, acc: int, total: int)
    requires Aligns(al, x, y)
    requires |x| + |y| < |ap| && ap[..|x| + |y| + 1] == Record(InitPath(|x|, |y|), Zero, al)
    requires ArrowTotal(ap, x, y, 0, acc) == Some(total)
    ensures total == acc + TotalCost(al)
  {
    ArrowTotalPrefix(ap, x, y, 0, acc);
    RecordedTotal(x, y, al, acc);
  }

  /** A path whose first |X| + |Y| + 1 slots hold an alignment recorded over the initial path prints, from slot 0, that alignment. */
  lemma {:induction false} FrontText(ap: seq<Coord>, x: seq<char>, y: seq<char>, al: seq<Column>, acc: string, text: string)
    requires Aligns(al, x, y)
    requires |x| + |y| < |ap| && ap[..|x| + |y| + 1] == Record(InitPath(|x|, |y|), Zero, al)
    requires ArrowText(ap, x, y, 0, acc) == text
    ensures text == acc + Render(al)
  {
    ArrowTextPrefix(ap, x, y, 0, acc);
    RecordedText(x, y, al, acc);
  }

  /**
   * The cost loop of `optDistance`: an unused slot adds nothing, a slot
   * followed by a used one is a gap step costing 2, and any other used
   * slot a diagonal step costing the penalty of the two symbols at its
   * cell; when no such cell lies outside the strings, the sum is the
   * total `ArrowTotal` defines.
   */
  method SumArrowPath(ap: seq<Coord>, x: seq<char>, y: seq<char>) returns (totalCost: int)
    requires |x| + |y| < |ap|
    requires ArrowTotal(ap, x, y, 0, 0).Some?
    ensures ArrowTotal(ap, x, y, 0, 0) == Some(totalCost)
  {
    var length := |x| + |y|;
    totalCost := 0;
    var i := 0;
    while i < length
      invariant i <= length
      invariant ArrowTotal(ap, x, y, i, totalCost) == ArrowTotal(ap, x, y, 0, 0)
    {
      if ap[i] == Zero && i != 0 {
      } else if ap[i + 1] != Zero {
        totalCost := totalCost + GapCost;
      } else {
        var charX := x[ap[i].i];
        var charY := y[ap[i].j];
        totalCost := totalCost + Penalty(charX, charY);
      }
      i := i + 1;
    }
  }

  /**
   * Totals, with the cost loop, a path whose first |X| + |Y| + 1 slots hold an
   * alignment recorded over the initial path: every diagonal step is at a
   * cell inside both strings and the total is the alignment's cost.
   */
  method RecordedPathCost(ap: seq<Coord>, x: seq<char>, y: seq<char>, ghost al: seq<Column>) returns (totalCost: int)
    requires Aligns(al, x, y)
    requires |x| + |y| < |ap| && ap[..|x| + |y| + 1] == Record(InitPath(|x|, |y|), Zero, al)
    ensures totalCost == TotalCost(al)
  {
    FrontReads(ap, x, y, al, 0);
    totalCost := SumArrowPath(ap, x, y);
    FrontTotal(ap, x, y, al, 0, totalCost);
  }
}
