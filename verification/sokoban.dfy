/**
 * The Sokoban game: a row-major grid of tile characters, the player's
 * location and orientation, the score (boxes on storages), the score that
 * wins, the move counter and the clock. A move turns the player, then
 * steps onto the next tile or pushes the box there one tile further.
 */
module Sokobans {
  import opened Wrappers
  import opened TileChars
  import opened TileGrids
  import ElapsedTimes

  /** The orientation a reset or a win leaves the player in. */
  const DefaultOrientation := Down

  /** The part of the game state that moves read and change. */
  datatype Board = Board(width: int, height: int, grid: seq<TileChar>, player: Coord,
                         orientation: Direction, score: int, maxScore: int, numMove: int)

  /** One tile character per cell of the width-by-height board. */
  ghost predicate Shaped(b: Board)
  {
    0 <= b.width && 0 <= b.height && |b.grid| == b.height * b.width
  }

  /** The score is the number of boxes on storages, as the score's documentation says. */
  ghost predicate Scored(b: Board)
  {
    b.score == Count(b.grid, BoxStorage)
  }

  /** The tile under the player, when it is on the board, is neither a wall nor a box. */
  ghost predicate Standing(b: Board)
  {
    OnBoard(b, b.player) ==>
      0 <= Index(b.player, b.width) < |b.grid| && b.grid[Index(b.player, b.width)] !in {Wall, Box, BoxStorage}
  }

  predicate Won(b: Board)
  {
    b.score == b.maxScore
  }

  predicate OnBoard(b: Board, c: Coord)
  {
    0 <= c.x < b.width && 0 <= c.y < b.height
  }

  /** The tile one step from c in direction d. */
  function NextLoc(c: Coord, d: Direction): Coord
  {
    match d
    case Up => Coord(c.x, c.y - 1)
    case Down => Coord(c.x, c.y + 1)
    case Left => Coord(c.x - 1, c.y)
    case Right => Coord(c.x + 1, c.y)
  }

  /** A step changes exactly one coordinate, by exactly one. */
  lemma NextLocIsNeighbour(c: Coord, d: Direction)
    ensures var n := NextLoc(c, d);
      (n.x == c.x && (n.y == c.y - 1 || n.y == c.y + 1)) || (n.y == c.y && (n.x == c.x - 1 || n.x == c.x + 1))
    ensures var n := NextLoc(c, d);
      (d == Up ==> n.y < c.y) && (d == Down ==> n.y > c.y) && (d == Left ==> n.x < c.x) && (d == Right ==> n.x > c.x)
  {
  }

  /** A step moves the linear index by one, or by a row. */
  lemma NextIndex(c: Coord, d: Direction, width: int)
    requires 0 < width
    ensures Index(NextLoc(c, d), width) == Index(c, width) + match d
      case Up => -width case Down => width case Left => -1 case Right => 1
  {
    NextRow(c.y - 1, width);
    NextRow(c.y, width);
  }

  /** A coordinate on the board has its linear index inside the grid. */
  lemma OnBoardIndex(b: Board, c: Coord)
    requires Shaped(b) && OnBoard(b, c)
    ensures 0 <= Index(c, b.width) < |b.grid|
  {
    RowMajorCell(c.y, c.x, b.width, b.height);
  }

  /** The tile character at c, throwing when c's linear index is outside the grid. */
  function TileCharAt(b: Board, c: Coord): (r: Result<TileChar>)
    ensures r.Failure? <==> !(0 <= Index(c, b.width) < |b.grid|)
    ensures r.Failure? ==> r.error == InvalidCoordinate
    ensures r.Success? ==> r.value == b.grid[Index(c, b.width)]
  {
    var index := Index(c, b.width);
    if index < 0 || index >= |b.grid| then Failure(InvalidCoordinate) else Success(b.grid[index])
  }

  /**
   * Pushing the box at `from` one tile in direction d: into an empty tile
   * it stays a box; into a storage it becomes a box on storage and the
   * score goes up by one; anything else refuses the push and changes
   * nothing. Reading a destination outside the grid throws.
   */
  function PushBox(b: Board, from: Coord, d: Direction): (r: Result<(bool, Board)>)
    requires 0 < b.width && 0 <= Index(from, b.width) < |b.grid|
    ensures r.Failure? <==> TileCharAt(b, NextLoc(from, d)).Failure?
    ensures r.Failure? ==> r.error == InvalidCoordinate
    ensures r.Success? ==> (r.value.0 <==> TileCharAt(b, NextLoc(from, d)).value in {Empty, Storage})
    ensures r.Success? && !r.value.0 ==> r.value.1 == b
    ensures r.Success? && r.value.0 ==>
      var to := NextLoc(from, d);
      var b' := r.value.1;
      b'.width == b.width && b'.height == b.height && b'.player == b.player && b'.orientation == b.orientation &&
      b'.maxScore == b.maxScore && b'.numMove == b.numMove &&
      Index(to, b.width) != Index(from, b.width) &&
      b'.grid == b.grid[Index(from, b.width) := Empty][Index(to, b.width) := if b.grid[Index(to, b.width)] == Empty then Box else BoxStorage] &&
      b'.score == b.score + (if b.grid[Index(to, b.width)] == Storage then 1 else 0)
  {
    var to := NextLoc(from, d);
    NextIndex(from, d, b.width);
    match TileCharAt(b, to)
    case Failure(e) => Failure(e)
    case Success(t) =>
      var cleared := b.grid[Index(from, b.width) := Empty];
      if t == Empty then
        Success((true, b.(grid := cleared[Index(to, b.width) := Box])))
      else if t == Storage then
        Success((true, b.(grid := cleared[Index(to, b.width) := BoxStorage], score := b.score + 1)))
      else
        Success((false, b))
  }

  /**
   * A move in direction d. A won game does not move. Otherwise the player
   * turns to d; a target off the board, a wall, a box on storage or a box
   * that cannot be pushed leaves the player where it is; otherwise the
   * player steps onto the target and the move count goes up by one.
   * Failure is the exception of a push whose destination lies outside the grid.
   */
  function Move(b: Board, d: Direction): (r: Result<Board>)
    requires Shaped(b)
    ensures Won(b) ==> r == Success(b)
    ensures r.Failure? ==> r.error == InvalidCoordinate && !Won(b)
    ensures r.Success? && !Won(b) ==> r.value.orientation == d
    ensures r.Success? ==>
      r.value.width == b.width && r.value.height == b.height && r.value.maxScore == b.maxScore &&
      b.score <= r.value.score <= b.score + 1
    ensures r.Success? ==>
      (r.value.player == b.player && r.value.numMove == b.numMove && r.value.grid == b.grid && r.value.score == b.score) ||
      (r.value.player == NextLoc(b.player, d) && OnBoard(b, r.value.player) && r.value.numMove == b.numMove + 1)
  {
    if Won(b) then Success(b)
    else
      var turned := b.(orientation := d);
      var nextLoc := NextLoc(b.player, d);
      if !OnBoard(b, nextLoc) then Success(turned)
      else
        OnBoardIndex(b, nextLoc);
        var nextBlock := b.grid[Index(nextLoc, b.width)];
        if nextBlock == Wall || nextBlock == BoxStorage then Success(turned)
        else if nextBlock == Box then
          match PushBox(turned, nextLoc, d)
          case Failure(e) => Failure(e)
          case Success((moved, pushed)) =>
            if moved then Success(pushed.(player := nextLoc, numMove := b.numMove + 1)) else Success(turned)
        else
          Success(turned.(player := nextLoc, numMove := b.numMove + 1))
  }

  /**
   * When the game is not won, the player steps onto the target exactly
   * when the target is on the board and is neither a wall nor a box on
   * storage, and, when it holds a box, the tile beyond is empty or a
   * storage.
   */
  lemma MoveSucceedsWhen(b: Board, d: Direction)
    requires Shaped(b) && !Won(b)
    ensures var next := NextLoc(b.player, d);
      var r := Move(b, d);
      (r.Success? && r.value.player == next) <==>
        (OnBoard(b, next) && TileCharAt(b, next).Success? && TileCharAt(b, next).value !in {Wall, BoxStorage} &&
         (TileCharAt(b, next).value == Box ==>
            TileCharAt(b, NextLoc(next, d)).Success? && TileCharAt(b, NextLoc(next, d)).value in {Empty, Storage}))
  {
    var next := NextLoc(b.player, d);
    NextLocIsNeighbour(b.player, d);
    if OnBoard(b, next) {
      OnBoardIndex(b, next);
      var t := b.grid[Index(next, b.width)];
      if t == Box {
        var turned := b.(orientation := d);
        assert TileCharAt(turned, NextLoc(next, d)) == TileCharAt(b, NextLoc(next, d));
      }
    }
  }

  /** A push changes the counts of the two tiles it rewrites and no others. */
  lemma PushCounts(grid: seq<TileChar>, i: nat, j: nat, t: TileChar)
    requires i < |grid| && j < |grid| && i != j && grid[i] == Box && grid[j] in {Empty, Storage}
    requires t == if grid[j] == Empty then Box else BoxStorage
    ensures var g := grid[i := Empty][j := t];
      Count(g, Box) + Count(g, BoxStorage) == Count(grid, Box) + Count(grid, BoxStorage) &&
      Count(g, BoxStorage) == Count(grid, BoxStorage) + (if grid[j] == Storage then 1 else 0)
  {
    var g1 := grid[i := Empty];
    UpdateCount(grid, i, Empty, Box);
    UpdateCount(grid, i, Empty, BoxStorage);
    UpdateCount(g1, j, t, Box);
    UpdateCount(g1, j, t, BoxStorage);
  }

  /**
   * A move keeps the board's shape, the score equal to the number of boxes
   * on storages, and the number of boxes.
   */
  lemma MoveKeeps(b: Board, d: Direction)
    requires Shaped(b) && Scored(b)
    ensures var r := Move(b, d);
      r.Success? ==>
        Shaped(r.value) && Scored(r.value) &&
        Count(r.value.grid, Box) + Count(r.value.grid, BoxStorage) == Count(b.grid, Box) + Count(b.grid, BoxStorage)
  {
    var r := Move(b, d);
    if r.Success? && !Won(b) {
      var next := NextLoc(b.player, d);
      if OnBoard(b, next) {
        OnBoardIndex(b, next);
        var i := Index(next, b.width);
        if b.grid[i] == Box {
          var p := PushBox(b.(orientation := d), next, d);
          if p.value.0 {
            var j := Index(NextLoc(next, d), b.width);
            PushCounts(b.grid, i, j, if b.grid[j] == Empty then Box else BoxStorage);
          }
        }
      }
    }
  }

  /** A player standing off walls and boxes still does so after a move. */
  lemma MoveStands(b: Board, d: Direction)
    requires Shaped(b) && Standing(b)
    ensures Move(b, d).Success? ==> Standing(Move(b, d).value)
  {
    var next := NextLoc(b.player, d);
    if OnBoard(b, next) {
      OnBoardIndex(b, next);
    }
    if OnBoard(b, b.player) {
      OnBoardIndex(b, b.player);
    }
  }

  /** Where a reset leaves the player: on the last player tile, or at `current` when there is none. */
  function PlayerCell(s: seq<TileChar>, width: int, current: Coord): Coord
    requires s != [] ==> 0 < width
  {
    match LastPlayer(s) case None => current case Some(p) => CellOf(p, width)
  }

  function Min(a: int, b: int): int
  {
    if a < b then a else b
  }

  /**
   * The board after a reset: the initial level with the player tile
   * cleared, the player on the last player tile (or left where it was when
   * there is none), facing down, no moves, the boxes already on storages
   * as the score, and as the winning score the boxes that can still be
   * stored plus those already stored.
   */
  function ResetBoard(b: Board, initial: seq<TileChar>): (r: Board)
    requires initial != [] ==> 0 < b.width
  {
    Board(b.width, b.height, Cleared(initial), PlayerCell(initial, b.width, b.player),
          DefaultOrientation, Count(initial, BoxStorage),
          Min(Count(initial, Storage), Count(initial, Box)) + Count(initial, BoxStorage), 0)
  }

  /**
   * A reset board is scored, the player (when the level has one) stands
   * on an empty tile, and resetting again changes nothing.
   */
  lemma ResetSettles(b: Board, initial: seq<TileChar>)
    requires 0 <= b.width && 0 <= b.height && |initial| == b.height * b.width
    ensures var r := ResetBoard(b, initial);
      Shaped(r) && Scored(r) && (Player in initial ==> Standing(r) && OnBoard(r, r.player)) &&
      ResetBoard(r, initial) == r
  {
    ClearedCounts(initial, BoxStorage);
    var r := ResetBoard(b, initial);
    if Player in initial {
      var p := LastPlayer(initial).value;
      var c := CellOf(p, b.width);
      assert p < b.height * b.width;
      if c.y >= b.height {
        MulLe(b.height, c.y, b.width);
        assert false;
      }
      assert Index(c, b.width) == p;
    }
  }

  class Sokoban {
    var width: int
    var height: int
    var initialTileCharGrid: seq<TileChar>
    var tileCharGrid: seq<TileChar>
    var playerLoc: Coord
    var playerOrientation: Direction
    var score: int
    var maxScore: int
    var numMove: int
    var hasWon: bool
    const clock: ElapsedTimes.ElapsedTime

    function Snapshot(): Board
      reads this
    {
      Board(width, height, tileCharGrid, playerLoc, playerOrientation, score, maxScore, numMove)
    }

    predicate IsWon()
      reads this
    {
      Won(Snapshot())
    }

    /**
     * Both grids fit the board, the score counts the boxes on storages, the
     * clock is a 64-bit count, and the win latch is set only in a won game.
     */
    ghost predicate Valid()
      reads this, clock
    {
      Shaped(Snapshot()) && Scored(Snapshot()) && |initialTileCharGrid| == |tileCharGrid| &&
      clock.Valid() && (hasWon ==> IsWon())
    }

    /** The game before a level is loaded: an empty board, score 0 of 1. */
    constructor()
      ensures Valid() && width == 0 && height == 0 && tileCharGrid == [] && initialTileCharGrid == []
      ensures playerLoc == Coord(0, 0) && playerOrientation == DefaultOrientation
      ensures score == 0 && maxScore == 1 && numMove == 0 && !hasWon && clock.elapsedTimeInMicroseconds == 0
      ensures fresh(clock)
    {
      width, height := 0, 0;
      initialTileCharGrid, tileCharGrid := [], [];
      playerLoc, playerOrientation := Coord(0, 0), DefaultOrientation;
      score, maxScore, numMove, hasWon := 0, 1, 0, false;
      clock := new ElapsedTimes.ElapsedTime();
    }

    /** Loads a level of height rows of width tile characters, then resets the game. */
    method Load(height: int, width: int, level: seq<TileChar>)
      requires 0 <= height && 0 <= width && |level| == height * width && clock.Valid()
      modifies this, clock
      ensures Valid() && this.height == height && this.width == width && initialTileCharGrid == level
      ensures Snapshot() == ResetBoard(old(Snapshot()).(width := width, height := height), level)
      ensures !hasWon && clock.elapsedTimeInMicroseconds == 0
    {
      initialTileCharGrid := level;
      this.height := height;
      this.width := width;
      Reset();
    }

    /**
     * Restores the initial level and recounts it: see ResetBoard. The win
     * latch, the move count and the clock go back to zero.
     */
    method Reset()
      requires 0 <= width && 0 <= height && |initialTileCharGrid| == height * width && clock.Valid()
      modifies this, clock
      ensures initialTileCharGrid == old(initialTileCharGrid) && width == old(width) && height == old(height)
      ensures Snapshot() == ResetBoard(old(Snapshot()), initialTileCharGrid)
      ensures !hasWon && clock.elapsedTimeInMicroseconds == 0 && Valid()
    {
      ghost var start := old(Snapshot());
      NoColumnsNoTiles(height, width);
      hasWon := false;
      numMove := 0;
      tileCharGrid := initialTileCharGrid;
      var boxCount, storageCount, boxStorageCount := TraverseLevel();
      score := boxStorageCount;
      maxScore := Min(storageCount, boxCount) + boxStorageCount;
      playerOrientation := DefaultOrientation;
      clock.elapsedTimeInMicroseconds := 0;
      ResetSettles(start, initialTileCharGrid);
      assert Snapshot() == ResetBoard(start, initialTileCharGrid);
    }

    /**
     * The traversal inside a reset: visits the fresh copy of the level tile
     * by tile, moving the player onto each player tile and clearing it, and
     * counts the boxes, the storages and the boxes on storages.
     */
    method TraverseLevel() returns (boxCount: nat, storageCount: nat, boxStorageCount: nat)
      requires 0 <= width && 0 <= height && |initialTileCharGrid| == height * width
      requires tileCharGrid == initialTileCharGrid
      modifies this`tileCharGrid, this`playerLoc
      ensures tileCharGrid == Cleared(initialTileCharGrid)
      ensures playerLoc == PlayerCell(initialTileCharGrid, width, old(playerLoc))
      ensures boxCount == Count(initialTileCharGrid, Box) && storageCount == Count(initialTileCharGrid, Storage)
      ensures boxStorageCount == Count(initialTileCharGrid, BoxStorage)
    {
      ghost var initial := initialTileCharGrid;
      ghost var current := playerLoc;
      NoColumnsNoTiles(height, width);
      boxCount, storageCount, boxStorageCount := 0, 0, 0;
      var p, n := 0, |tileCharGrid|;
      while p < n
        invariant 0 <= p <= n == |initial| == |tileCharGrid|
        invariant n == 0 || 0 < width
        invariant Tally(tileCharGrid, playerLoc, boxCount, storageCount, boxStorageCount) ==
                  TraversedUpTo(initial, p, width, current)
      {
        boxCount, storageCount, boxStorageCount := VisitTile(p, boxCount, storageCount, boxStorageCount);
        p := p + 1;
      }
      TraversedPrefix(initial, p, width, current);
      assert initial[..p] == initial;
    }

    /**
     * The traversal's callback at the tile with linear index p, as VisitStep
     * says: a player tile moves the player there and becomes empty, and the
     * box, storage and box-on-storage counts go up by one for their own tiles.
     */
    method VisitTile(p: nat, boxCount: nat, storageCount: nat, boxStorageCount: nat)
      returns (boxCount': nat, storageCount': nat, boxStorageCount': nat)
      requires p < |tileCharGrid| && 0 < width
      modifies this`tileCharGrid, this`playerLoc
      ensures Tally(tileCharGrid, playerLoc, boxCount', storageCount', boxStorageCount') ==
              VisitStep(Tally(old(tileCharGrid), old(playerLoc), boxCount, storageCount, boxStorageCount), p, width)
    {
      boxCount', storageCount', boxStorageCount' := boxCount, storageCount, boxStorageCount;
      var tileChar := tileCharGrid[p];
      if tileChar == Player {
        playerLoc := CellOf(p, width);
        tileCharGrid := tileCharGrid[p := Empty];
      } else if tileChar == Box {
        boxCount' := boxCount + 1;
      } else if tileChar == Storage {
        storageCount' := storageCount + 1;
      } else if tileChar == BoxStorage {
        boxStorageCount' := boxStorageCount + 1;
      }
    }

    /**
     * Moves the player one tile in direction d, as Move says; when a push
     * throws, the player has turned and nothing else has changed.
     */
    method MovePlayer(d: Direction) returns (r: Result<()>)
      requires Valid()
      modifies this
      ensures Valid() && hasWon == old(hasWon) && initialTileCharGrid == old(initialTileCharGrid)
      ensures r.Success? <==> Move(old(Snapshot()), d).Success?
      ensures r.Success? ==> Snapshot() == Move(old(Snapshot()), d).value
      ensures r.Failure? ==> r.error == InvalidCoordinate && Snapshot() == old(Snapshot()).(orientation := d)
    {
      ghost var b := Snapshot();
      MoveKeeps(b, d);
      if IsWon() {
        return Success(());
      }
      playerOrientation := d;
      var nextLoc := NextLoc(playerLoc, d);
      if nextLoc.x < 0 || nextLoc.x >= width || nextLoc.y < 0 || nextLoc.y >= height {
        return Success(());
      }
      OnBoardIndex(b, nextLoc);
      var nextBlock := TileCharAt(Snapshot(), nextLoc).value;
      if nextBlock == Wall || nextBlock == BoxStorage {
        return Success(());
      }
      if nextBlock == Box {
        var canMoveBox := MoveBox(nextLoc, d);
        if canMoveBox.Failure? {
          return Failure(canMoveBox.error);
        }
        if !canMoveBox.value {
          return Success(());
        }
      }
      playerLoc := nextLoc;
      numMove := numMove + 1;
      r := Success(());
    }

    /** Pushes the box at `from` one tile in direction d, as PushBox says. */
    method MoveBox(from: Coord, d: Direction) returns (r: Result<bool>)
      requires 0 < width && 0 <= Index(from, width) < |tileCharGrid|
      modifies this
      ensures r.Failure? <==> PushBox(old(Snapshot()), from, d).Failure?
      ensures r.Failure? ==> r.error == InvalidCoordinate && Snapshot() == old(Snapshot())
      ensures r.Success? ==> r.value == PushBox(old(Snapshot()), from, d).value.0 &&
                             Snapshot() == PushBox(old(Snapshot()), from, d).value.1
      ensures unchanged(this`initialTileCharGrid) && unchanged(this`hasWon)
    {
      var toCoordinate := NextLoc(from, d);
      var nextBlock := TileCharAt(Snapshot(), toCoordinate);
      if nextBlock.Failure? {
        return Failure(nextBlock.error);
      }
      if nextBlock.value == Empty {
        tileCharGrid := tileCharGrid[Index(from, width) := Empty];
        tileCharGrid := tileCharGrid[Index(toCoordinate, width) := Box];
        return Success(true);
      }
      if nextBlock.value == Storage {
        tileCharGrid := tileCharGrid[Index(from, width) := Empty];
        tileCharGrid := tileCharGrid[Index(toCoordinate, width) := BoxStorage];
        score := score + 1;
        return Success(true);
      }
      r := Success(false);
    }

    /**
     * One frame: the clock advances by dt only while the game is not won,
     * and the first frame of a won game latches the win and turns the
     * player to the default orientation.
     */
    method Update(dt: int)
      requires Valid() && (IsWon() || ElapsedTimes.IsInt64(clock.elapsedTimeInMicroseconds + dt))
      modifies this, clock
      ensures Valid() && hasWon == IsWon()
      ensures clock.elapsedTimeInMicroseconds ==
              old(clock.elapsedTimeInMicroseconds) + (if old(IsWon()) then 0 else dt)
      ensures Snapshot() == if !old(hasWon) && old(IsWon()) then old(Snapshot()).(orientation := DefaultOrientation)
                            else old(Snapshot())
      ensures initialTileCharGrid == old(initialTileCharGrid)
    {
      if !IsWon() {
        clock.Update(dt);
      }
      if !hasWon && IsWon() {
        hasWon := true;
        playerOrientation := DefaultOrientation;
      }
    }
  }

  /** A board without columns has no tiles. */
  lemma NoColumnsNoTiles(height: int, width: int)
    ensures width == 0 ==> height * width == 0
  {
  }

  /** What the reset traversal has built so far: the grid, the player cell and the three counts. */
  datatype Tally = Tally(grid: seq<TileChar>, loc: Coord, boxes: nat, storages: nat, stored: nat)

  /**
   * One callback of the reset traversal at tile p: a player tile moves the
   * player onto it and is cleared; a box, a storage or a box on storage is
   * counted; the grid keeps its length.
   */
  function VisitStep(t: Tally, p: nat, width: int): (r: Tally)
    requires p < |t.grid| && 0 < width
    ensures |r.grid| == |t.grid|
  {
    var c := t.grid[p];
    if c == Player then t.(grid := t.grid[p := Empty], loc := CellOf(p, width))
    else if c == Box then t.(boxes := t.boxes + 1)
    else if c == Storage then t.(storages := t.storages + 1)
    else if c == BoxStorage then t.(stored := t.stored + 1)
    else t
  }

  /** The traversal's state after the callbacks on tiles 0 to p - 1. */
  ghost function TraversedUpTo(initial: seq<TileChar>, p: nat, width: int, current: Coord): (r: Tally)
    requires p <= |initial| && (p > 0 ==> 0 < width)
    ensures |r.grid| == |initial|
    decreases p
  {
    if p == 0 then Tally(initial, current, 0, 0, 0)
    else VisitStep(TraversedUpTo(initial, p - 1, width, current), p - 1, width)
  }

  /**
   * The traversal's state described by its prefix: the first p tiles
   * cleared and the rest untouched, the player on the last player tile
   * among them, and the counts of the first p tiles.
   */
  ghost function PrefixTally(initial: seq<TileChar>, p: nat, width: int, current: Coord): Tally
    requires p <= |initial| && (p > 0 ==> 0 < width)
  {
    Tally(Cleared(initial[..p]) + initial[p..], PlayerCell(initial[..p], width, current),
          Count(initial[..p], Box), Count(initial[..p], Storage), Count(initial[..p], BoxStorage))
  }

  /** After p callbacks the traversal's state is the one its prefix describes. */
  lemma {:induction false} TraversedPrefix(initial: seq<TileChar>, p: nat, width: int, current: Coord)
    requires p <= |initial| && (p > 0 ==> 0 < width)
    ensures TraversedUpTo(initial, p, width, current) == PrefixTally(initial, p, width, current)
  {
    if p == 0 {
      assert initial[..0] == [] && initial[0..] == initial;
    } else {
      TraversedPrefix(initial, p - 1, width, current);
      VisitPrefix(initial, p - 1, width, current);
    }
  }

  /** One callback moves the prefix description on by one tile. */
  lemma VisitPrefix(initial: seq<TileChar>, p: nat, width: int, current: Coord)
    requires p < |initial| && 0 < width
    ensures VisitStep(PrefixTally(initial, p, width, current), p, width) == PrefixTally(initial, p + 1, width, current)
  {
    var grid := Cleared(initial[..p]) + initial[p..];
    ResetStep(initial, p, grid, width, current);
    var c := initial[p];
    assert Count(initial[..p + 1], Box) == Count(initial[..p], Box) + if c == Box then 1 else 0;
    assert Count(initial[..p + 1], Storage) == Count(initial[..p], Storage) + if c == Storage then 1 else 0;
    assert Count(initial[..p + 1], BoxStorage) == Count(initial[..p], BoxStorage) + if c == BoxStorage then 1 else 0;
  }

  /** One step of the reset loop: the prefix grows by the tile at p, still unchanged in the grid. */
  lemma ResetStep(initial: seq<TileChar>, p: nat, grid: seq<TileChar>, width: int, current: Coord)
    requires p < |initial| && grid == Cleared(initial[..p]) + initial[p..] && 0 < width
    ensures grid[p] == initial[p]
    ensures grid[p := if initial[p] == Player then Empty else initial[p]] == Cleared(initial[..p + 1]) + initial[p + 1..]
    ensures PlayerCell(initial[..p + 1], width, current) ==
            if initial[p] == Player then CellOf(p, width) else PlayerCell(initial[..p], width, current)
    ensures forall t :: Count(initial[..p + 1], t) == Count(initial[..p], t) + if initial[p] == t then 1 else 0
  {
    var s := initial[..p + 1];
    assert s == initial[..p] + [initial[p]];
    assert s[..|s| - 1] == initial[..p];
    forall t
      ensures Count(initial[..p + 1], t) == Count(initial[..p], t) + if initial[p] == t then 1 else 0
    {
      CountSnoc(initial[..p], initial[p], t);
    }
  }
}
