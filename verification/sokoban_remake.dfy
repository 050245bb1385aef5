/**
 * The remade Sokoban game. The map is a list of columns of tile
 * characters, the player stands on a cell of it, and the game keeps the
 * number of boxes, of storages and of boxes on storage. Coordinates are
 * unsigned 32-bit numbers, so a step up from row 0 or left from column 0
 * wraps around to 2^32 - 1.
 */
module SokobanRemakes {
  import opened TileChars
  import opened TileGrids
  import opened RemakeLevels

  /** Unsigned 32-bit wrap-around: one below 0 is 2^32 - 1 and 2^32 is 0. */
  function Wrap(n: int): (r: nat)
    ensures r < Unsigned32 && (n - r) % Unsigned32 == 0
    ensures n == -1 ==> r == Unsigned32 - 1
    ensures n == Unsigned32 ==> r == 0
  {
    if 0 <= n < Unsigned32 then n else n % Unsigned32
  }

  /** The cell lies on a board of w columns and h rows. */
  predicate InBoard(c: UCoord, w: nat, h: nat)
  {
    c.x < w && c.y < h
  }

  /** The coordinate one step from c in direction d, in unsigned arithmetic. */
  function NextCoord(c: UCoord, d: Direction): UCoord
  {
    match d
    case Up => UCoord(c.x, Wrap(c.y - 1))
    case Down => UCoord(c.x, Wrap(c.y + 1))
    case Left => UCoord(Wrap(c.x - 1), c.y)
    case Right => UCoord(Wrap(c.x + 1), c.y)
  }

  /** The opposite direction. */
  function Reverse(d: Direction): (r: Direction)
    ensures r != d
  {
    match d
    case Up => Down
    case Down => Up
    case Left => Right
    case Right => Left
  }

  /** A step and a step back return to the start, even across the wrap-around. */
  lemma NextCoordBack(c: UCoord, d: Direction)
    requires IsU32(c)
    ensures IsU32(NextCoord(c, d)) && NextCoord(NextCoord(c, d), Reverse(d)) == c
  {
  }

  /** A step always leaves the cell. */
  lemma NextCoordMoves(c: UCoord, d: Direction)
    requires IsU32(c)
    ensures NextCoord(c, d) != c
  {
  }

  /**
   * From a cell of a board narrower and lower than 2^32, a step stays on
   * the board exactly when the cell is not on the edge the step faces.
   */
  lemma NextCoordLeaves(c: UCoord, d: Direction, w: nat, h: nat)
    requires InBoard(c, w, h) && w < Unsigned32 && h < Unsigned32
    ensures InBoard(NextCoord(c, d), w, h) <==>
      match d
      case Up => 0 < c.y
      case Down => c.y + 1 < h
      case Left => 0 < c.x
      case Right => c.x + 1 < w
  {
  }

  /** The tile at a cell of the map. */
  function TileAt(m: Map, c: UCoord): TileChar
    requires c.x < |m| && c.y < |m[c.x]|
  {
    m[c.x][c.y]
  }

  /** The map with cell c rewritten to v; every other cell keeps its tile. */
  function Set(m: Map, w: nat, h: nat, c: UCoord, v: TileChar): (r: Map)
    requires Shaped(m, w, h) && InBoard(c, w, h)
    ensures Shaped(r, w, h)
    ensures forall x, y :: 0 <= x < w && 0 <= y < h ==> r[x][y] == if x == c.x && y == c.y then v else m[x][y]
  {
    m[c.x := m[c.x][c.y := v]]
  }

  /** The tiles of the first k columns of the map. */
  function Held(m: Map, k: nat): multiset<TileChar>
    requires k <= |m|
  {
    if k == 0 then multiset{} else Held(m, k - 1) + multiset(m[k - 1])
  }

  /** How many tiles of kind t the map holds. */
  function Total(m: Map, w: nat, h: nat, t: TileChar): nat
    requires Shaped(m, w, h)
  {
    Held(m, w)[t]
  }

  /** A map of w columns of h tiles, and a stored-box counter equal to its number of boxes on storage. */
  ghost predicate Counted(m: Map, w: nat, h: nat, stored: int)
  {
    Shaped(m, w, h) && stored == Total(m, w, h, BoxStorage)
  }

  /** The boxes of the map, stored or not. */
  function Boxes(m: Map, w: nat, h: nat): nat
    requires Shaped(m, w, h)
  {
    Total(m, w, h, Box) + Total(m, w, h, BoxStorage)
  }

  /** Rewriting a cell of column x < k takes one from the old tile's count in the first k columns and adds one to the new tile's. */
  lemma {:induction false} HeldSet(m: Map, w: nat, h: nat, c: UCoord, v: TileChar, t: TileChar, k: nat)
    requires Shaped(m, w, h) && InBoard(c, w, h) && k <= w
    ensures Held(Set(m, w, h, c, v), k)[t] ==
      Held(m, k)[t] as int - (if c.x < k && m[c.x][c.y] == t then 1 else 0) + (if c.x < k && v == t then 1 else 0)
  {
    if k > 0 {
      var s := Set(m, w, h, c, v);
      HeldSet(m, w, h, c, v, t, k - 1);
      if k - 1 == c.x {
        assert s[c.x] == m[c.x][c.y := v];
        UpdateCount(m[c.x], c.y, v, t);
      } else {
        assert s[k - 1] == m[k - 1];
      }
    }
  }

  /** Rewriting a cell takes one from the old tile's total and adds one to the new tile's. */
  lemma TotalSet(m: Map, w: nat, h: nat, c: UCoord, v: TileChar, t: TileChar)
    requires Shaped(m, w, h) && InBoard(c, w, h)
    ensures Total(Set(m, w, h, c, v), w, h, t) ==
      Total(m, w, h, t) - (if m[c.x][c.y] == t then 1 else 0) + (if v == t then 1 else 0)
  {
    HeldSet(m, w, h, c, v, t, w);
  }

  /** How many of the first k cells of row y hold a tile of kind t. */
  ghost function RowCount(m: Map, w: nat, h: nat, y: nat, k: nat, t: TileChar): nat
    requires Shaped(m, w, h) && y < h && k <= w
  {
    if k == 0 then 0 else RowCount(m, w, h, y, k - 1, t) + if m[k - 1][y] == t then 1 else 0
  }

  /** How many cells in the first k columns and the first n rows hold a tile of kind t, counted row by row. */
  ghost function BlockCount(m: Map, w: nat, h: nat, k: nat, n: nat, t: TileChar): nat
    requires Shaped(m, w, h) && k <= w && n <= h
  {
    if n == 0 then 0 else BlockCount(m, w, h, k, n - 1, t) + RowCount(m, w, h, n - 1, k, t)
  }

  /** Row y over its first k columns holds RowCount tiles of kind t. */
  lemma {:induction false} RowOfCount(m: Map, w: nat, h: nat, y: nat, k: nat, t: TileChar)
    requires Shaped(m, w, h) && y < h && k <= w
    ensures Count(RowOf(m, y, k), t) == RowCount(m, w, h, y, k, t)
  {
    if k > 0 {
      RowOfCount(m, w, h, y, k - 1, t);
      CountSnoc(RowOf(m, y, k - 1), m[k - 1][y], t);
    }
  }

  /** The row-major listing of the first n rows holds BlockCount tiles of kind t. */
  lemma {:induction false} RowsCount(m: Map, w: nat, h: nat, n: nat, t: TileChar)
    requires Shaped(m, w, h) && n <= h
    ensures Count(Rows(m, w, h, n), t) == BlockCount(m, w, h, w, n, t)
  {
    if n > 0 {
      var k: nat := n - 1;
      RowsCount(m, w, h, k, t);
      RowsCountStep(m, w, h, k, t);
    }
  }

  /** One more row adds its count to both sides. */
  lemma RowsCountStep(m: Map, w: nat, h: nat, k: nat, t: TileChar)
    requires Shaped(m, w, h) && k < h
    requires Count(Rows(m, w, h, k), t) == BlockCount(m, w, h, w, k, t)
    ensures Count(Rows(m, w, h, k + 1), t) == BlockCount(m, w, h, w, k + 1, t)
  {
    RowOfCount(m, w, h, k, w, t);
    CountAppend(Rows(m, w, h, k), RowOf(m, k, w), t);
  }

  /** A column's first n tiles hold one tile of kind t more than its first n - 1 when its n-th tile is one. */
  lemma PrefixCount(s: seq<TileChar>, n: nat, t: TileChar)
    requires 0 < n <= |s|
    ensures Count(s[..n], t) == Count(s[..n - 1], t) + if s[n - 1] == t then 1 else 0
  {
    assert s[..n] == s[..n - 1] + [s[n - 1]];
    CountSnoc(s[..n - 1], s[n - 1], t);
  }

  /** Counted row by row, a block grows by one column as that column's count over its first n tiles. */
  lemma {:induction false} BlockCountColumn(m: Map, w: nat, h: nat, k: nat, n: nat, t: TileChar)
    requires Shaped(m, w, h) && 0 < k <= w && n <= h
    ensures BlockCount(m, w, h, k, n, t) == BlockCount(m, w, h, k - 1, n, t) + Count(m[k - 1][..n], t)
  {
    if n > 0 {
      BlockCountColumn(m, w, h, k, n - 1, t);
      PrefixCount(m[k - 1], n, t);
    }
  }

  /** No columns, no tiles. */
  lemma {:induction false} BlockCountNone(m: Map, w: nat, h: nat, n: nat, t: TileChar)
    requires Shaped(m, w, h) && n <= h
    ensures BlockCount(m, w, h, 0, n, t) == 0
  {
    if n > 0 {
      BlockCountNone(m, w, h, n - 1, t);
    }
  }

  /** Counted column by column or row by row, the first k columns hold as many tiles of kind t. */
  lemma {:induction false} HeldCount(m: Map, w: nat, h: nat, k: nat, t: TileChar)
    requires Shaped(m, w, h) && k <= w
    ensures Held(m, k)[t] == BlockCount(m, w, h, k, h, t)
  {
    if k == 0 {
      BlockCountNone(m, w, h, h, t);
    } else {
      HeldCount(m, w, h, k - 1, t);
      BlockCountColumn(m, w, h, k, h, t);
      assert m[k - 1][..h] == m[k - 1];
    }
  }

  /** The map's total of a tile kind is its count in the row-major listing a level text gives. */
  lemma TotalRows(m: Map, w: nat, h: nat, t: TileChar)
    requires Shaped(m, w, h)
    ensures Total(m, w, h, t) == Count(Rows(m, w, h, h), t)
  {
    RowsCount(m, w, h, h, t);
    HeldCount(m, w, h, w, t);
  }

  /**
   * Whether a box may be pushed onto a tile. As written, anything but a box
   * or a wall lets it through; the corrected rule lets it onto an empty
   * tile or a storage only.
   */
  predicate Free(t: TileChar, corrected: bool)
  {
    if corrected then t == Empty || t == Storage else t != Box && t != Wall
  }

  /**
   * Whether the box at `box` can be pushed in direction d, and where it
   * goes: the next cell when it lies on the board and is free, otherwise
   * the box's own cell.
   */
  function TestBoxNextCoord(m: Map, w: nat, h: nat, box: UCoord, d: Direction, corrected: bool): (r: (bool, UCoord))
    requires Shaped(m, w, h)
    ensures r.0 <==> InBoard(NextCoord(box, d), w, h) && Free(TileAt(m, NextCoord(box, d)), corrected)
    ensures r.1 == if r.0 then NextCoord(box, d) else box
  {
    var next := NextCoord(box, d);
    if next.x >= w || next.y >= h then (false, box)
    else if !corrected && (TileAt(m, next) == Box || TileAt(m, next) == Wall) then (false, box)
    else if corrected && !(TileAt(m, next) == Empty || TileAt(m, next) == Storage) then (false, box)
    else (true, next)
  }

  /** The box leaves cell c: a box leaves an empty tile, a box on storage leaves a storage and one stored box less. */
  function Vacate(m: Map, w: nat, h: nat, stored: int, c: UCoord): (r: (Map, int))
    requires Shaped(m, w, h) && InBoard(c, w, h)
    ensures Shaped(r.0, w, h)
  {
    match TileAt(m, c)
    case Box => (Set(m, w, h, c, Empty), stored)
    case BoxStorage => (Set(m, w, h, c, Storage), stored - 1)
    case _ => (m, stored)
  }

  /** The box arrives on cell c: an empty tile becomes a box, a storage a box on storage and one stored box more; any other tile stays. */
  function Occupy(m: Map, w: nat, h: nat, stored: int, c: UCoord): (r: (Map, int))
    requires Shaped(m, w, h) && InBoard(c, w, h)
    ensures Shaped(r.0, w, h)
  {
    match TileAt(m, c)
    case Empty => (Set(m, w, h, c, Box), stored)
    case Storage => (Set(m, w, h, c, BoxStorage), stored + 1)
    case _ => (m, stored)
  }

  /** The map and the stored-box counter after the box at `box` is moved to `next`. */
  function MovedBox(m: Map, w: nat, h: nat, stored: int, box: UCoord, next: UCoord): (r: (Map, int))
    requires Shaped(m, w, h) && InBoard(box, w, h) && InBoard(next, w, h)
    ensures Shaped(r.0, w, h)
  {
    var v := Vacate(m, w, h, stored, box);
    Occupy(v.0, w, h, v.1, next)
  }

  /** Moving a box from one cell to another changes those two cells only: the first loses the box, the second gains it when it is empty or a storage. */
  lemma MovedBoxCells(m: Map, w: nat, h: nat, stored: int, box: UCoord, next: UCoord)
    requires Shaped(m, w, h) && InBoard(box, w, h) && InBoard(next, w, h) && box != next
    ensures var r := MovedBox(m, w, h, stored, box, next).0;
      (forall x, y :: 0 <= x < w && 0 <= y < h && (x != box.x || y != box.y) && (x != next.x || y != next.y) ==>
        r[x][y] == m[x][y]) &&
      r[box.x][box.y] == (match TileAt(m, box) case Box => Empty case BoxStorage => Storage case t => t) &&
      r[next.x][next.y] == (match TileAt(m, next) case Empty => Box case Storage => BoxStorage case t => t)
  {
  }

  /** Vacating a cell keeps the counter equal to the number of boxes on storage. */
  lemma VacateCounted(m: Map, w: nat, h: nat, stored: int, c: UCoord)
    requires InBoard(c, w, h) && Counted(m, w, h, stored)
    ensures var r := Vacate(m, w, h, stored, c); Counted(r.0, w, h, r.1)
  {
    var t := TileAt(m, c);
    if t == Box || t == BoxStorage {
      TotalSet(m, w, h, c, if t == Box then Empty else Storage, BoxStorage);
    }
  }

  /** Occupying a cell keeps the counter equal to the number of boxes on storage. */
  lemma OccupyCounted(m: Map, w: nat, h: nat, stored: int, c: UCoord)
    requires InBoard(c, w, h) && Counted(m, w, h, stored)
    ensures var r := Occupy(m, w, h, stored, c); Counted(r.0, w, h, r.1)
  {
    var t := TileAt(m, c);
    if t == Empty || t == Storage {
      TotalSet(m, w, h, c, if t == Empty then Box else BoxStorage, BoxStorage);
    }
  }

  /** Moving a box keeps the counter equal to the number of boxes on storage. */
  lemma MovedBoxKeepsStored(m: Map, w: nat, h: nat, stored: int, box: UCoord, next: UCoord)
    requires InBoard(box, w, h) && InBoard(next, w, h) && Counted(m, w, h, stored)
    ensures var r := MovedBox(m, w, h, stored, box, next); Counted(r.0, w, h, r.1)
  {
    VacateCounted(m, w, h, stored, box);
    var v := Vacate(m, w, h, stored, box);
    OccupyCounted(v.0, w, h, v.1, next);
  }

  /** Vacating a box tile takes one box from the map. */
  lemma VacateBoxes(m: Map, w: nat, h: nat, stored: int, c: UCoord)
    requires Shaped(m, w, h) && InBoard(c, w, h) && (TileAt(m, c) == Box || TileAt(m, c) == BoxStorage)
    ensures Boxes(Vacate(m, w, h, stored, c).0, w, h) == Boxes(m, w, h) - 1
  {
    var v := if TileAt(m, c) == Box then Empty else Storage;
    TotalSet(m, w, h, c, v, Box);
    TotalSet(m, w, h, c, v, BoxStorage);
  }

  /** Occupying an empty tile or a storage adds one box to the map. */
  lemma OccupyBoxes(m: Map, w: nat, h: nat, stored: int, c: UCoord)
    requires Shaped(m, w, h) && InBoard(c, w, h) && (TileAt(m, c) == Empty || TileAt(m, c) == Storage)
    ensures Boxes(Occupy(m, w, h, stored, c).0, w, h) == Boxes(m, w, h) + 1
  {
    var v := if TileAt(m, c) == Empty then Box else BoxStorage;
    TotalSet(m, w, h, c, v, Box);
    TotalSet(m, w, h, c, v, BoxStorage);
  }

  /** Moving a box from a box tile onto another cell that is empty or a storage keeps the number of boxes. */
  lemma MovedBoxKeepsBoxes(m: Map, w: nat, h: nat, stored: int, box: UCoord, next: UCoord)
    requires Shaped(m, w, h) && InBoard(box, w, h) && InBoard(next, w, h) && box != next
    requires (TileAt(m, box) == Box || TileAt(m, box) == BoxStorage) && (TileAt(m, next) == Empty || TileAt(m, next) == Storage)
    ensures Boxes(MovedBox(m, w, h, stored, box, next).0, w, h) == Boxes(m, w, h)
  {
    VacateBoxes(m, w, h, stored, box);
    var v := Vacate(m, w, h, stored, box);
    assert TileAt(v.0, next) == TileAt(m, next);
    OccupyBoxes(v.0, w, h, v.1, next);
  }

  /** What a move can change: the map, the player's cell and direction, and the stored-box counter. */
  datatype Play = Play(tiles: Map, player: UCoord, dir: Direction, stored: int)

  /** The game is won when every box, or every storage, holds a box on storage. */
  predicate Won(p: Play, numBoxes: int, numStorages: int)
  {
    p.stored == numBoxes || p.stored == numStorages
  }

  /**
   * One move of the player in direction d. A won game does not change.
   * Otherwise the player turns to d, steps onto an empty next cell, or
   * pushes a box (stored or not) on the next cell when it can move, and
   * stays put in front of anything else.
   */
  function MovePlay(p: Play, w: nat, h: nat, numBoxes: int, numStorages: int, d: Direction, corrected: bool): (r: Play)
    requires Shaped(p.tiles, w, h) && w < Unsigned32 && h < Unsigned32
    requires Won(p, numBoxes, numStorages) || InBoard(NextCoord(p.player, d), w, h)
    ensures Shaped(r.tiles, w, h)
    ensures Won(p, numBoxes, numStorages) ==> r == p
    ensures !Won(p, numBoxes, numStorages) ==> r.dir == d && (r.player == p.player || r.player == NextCoord(p.player, d))
  {
    if Won(p, numBoxes, numStorages) then p
    else
      var next := NextCoord(p.player, d);
      var turned := p.(dir := d);
      var t := TileAt(p.tiles, next);
      if t == Empty then turned.(player := next)
      else if t == Box || t == BoxStorage then
        var (movable, boxNext) := TestBoxNextCoord(p.tiles, w, h, next, d, corrected);
        if !movable then turned
        else
          var (m, s) := MovedBox(p.tiles, w, h, p.stored, next, boxNext);
          turned.(player := next, tiles := m, stored := s)
      else turned
  }

  /** The move pushes a box: the game is not won, and the next cell holds a box whose own next cell is on the board and free. */
  predicate Pushes(p: Play, w: nat, h: nat, numBoxes: int, numStorages: int, d: Direction, corrected: bool)
    requires Shaped(p.tiles, w, h)
  {
    var next := NextCoord(p.player, d);
    !Won(p, numBoxes, numStorages) && InBoard(next, w, h) &&
    (TileAt(p.tiles, next) == Box || TileAt(p.tiles, next) == BoxStorage) &&
    InBoard(NextCoord(next, d), w, h) && Free(TileAt(p.tiles, NextCoord(next, d)), corrected)
  }

  /** A move either leaves the map and the counter alone or pushes a box one cell on, the player following it. */
  lemma MoveCases(p: Play, w: nat, h: nat, numBoxes: int, numStorages: int, d: Direction, corrected: bool)
    requires Shaped(p.tiles, w, h) && w < Unsigned32 && h < Unsigned32
    requires Won(p, numBoxes, numStorages) || InBoard(NextCoord(p.player, d), w, h)
    ensures var r := MovePlay(p, w, h, numBoxes, numStorages, d, corrected);
      var next := NextCoord(p.player, d);
      if Pushes(p, w, h, numBoxes, numStorages, d, corrected) then
        r.player == next && (r.tiles, r.stored) == MovedBox(p.tiles, w, h, p.stored, next, NextCoord(next, d))
      else
        r.tiles == p.tiles && r.stored == p.stored &&
        (r.player == p.player || (r.player == next && TileAt(p.tiles, next) == Empty))
    ensures var r := MovePlay(p, w, h, numBoxes, numStorages, d, corrected);
      var next := NextCoord(p.player, d);
      r == if Won(p, numBoxes, numStorages) then p
        else if Pushes(p, w, h, numBoxes, numStorages, d, corrected) then
          var moved := MovedBox(p.tiles, w, h, p.stored, next, NextCoord(next, d));
          p.(dir := d, player := next, tiles := moved.0, stored := moved.1)
        else if TileAt(p.tiles, next) == Empty then p.(dir := d, player := next)
        else p.(dir := d)
  {
  }

  /**
   * Unless the game is won, the player steps forward exactly when the
   * next cell is empty, or holds a box whose own next cell is on the
   * board and free; the map changes only when a box is pushed.
   */
  lemma MoveSteps(p: Play, w: nat, h: nat, numBoxes: int, numStorages: int, d: Direction, corrected: bool)
    requires Shaped(p.tiles, w, h) && w < Unsigned32 && h < Unsigned32 && IsU32(p.player)
    requires !Won(p, numBoxes, numStorages) && InBoard(NextCoord(p.player, d), w, h)
    ensures var next := NextCoord(p.player, d);
      var t := TileAt(p.tiles, next);
      var pushed := (t == Box || t == BoxStorage) && InBoard(NextCoord(next, d), w, h) &&
        Free(TileAt(p.tiles, NextCoord(next, d)), corrected);
      var r := MovePlay(p, w, h, numBoxes, numStorages, d, corrected);
      (r.player == next <==> t == Empty || pushed) &&
      (!pushed ==> r.tiles == p.tiles && r.stored == p.stored)
  {
    NextCoordMoves(p.player, d);
  }

  /** A move keeps the stored-box counter equal to the number of boxes on storage, as written and corrected. */
  lemma MoveKeepsStored(p: Play, w: nat, h: nat, numBoxes: int, numStorages: int, d: Direction, corrected: bool)
    requires Shaped(p.tiles, w, h) && w < Unsigned32 && h < Unsigned32
    requires Won(p, numBoxes, numStorages) || InBoard(NextCoord(p.player, d), w, h)
    requires Counted(p.tiles, w, h, p.stored)
    ensures var r := MovePlay(p, w, h, numBoxes, numStorages, d, corrected); Counted(r.tiles, w, h, r.stored)
  {
    MoveCases(p, w, h, numBoxes, numStorages, d, corrected);
    if Pushes(p, w, h, numBoxes, numStorages, d, corrected) {
      var next := NextCoord(p.player, d);
      MovedBoxKeepsStored(p.tiles, w, h, p.stored, next, NextCoord(next, d));
    }
  }

  /** With the corrected push rule a move never changes the number of boxes. */
  lemma MoveKeepsBoxes(p: Play, w: nat, h: nat, numBoxes: int, numStorages: int, d: Direction)
    requires Shaped(p.tiles, w, h) && w < Unsigned32 && h < Unsigned32
    requires Won(p, numBoxes, numStorages) || InBoard(NextCoord(p.player, d), w, h)
    ensures Boxes(MovePlay(p, w, h, numBoxes, numStorages, d, true).tiles, w, h) == Boxes(p.tiles, w, h)
  {
    MoveCases(p, w, h, numBoxes, numStorages, d, true);
    if Pushes(p, w, h, numBoxes, numStorages, d, true) {
      var next := NextCoord(p.player, d);
      NextCoordMoves(next, d);
      MovedBoxKeepsBoxes(p.tiles, w, h, p.stored, next, NextCoord(next, d));
    }
  }

  /**
   * As written, a box pushed onto a box on storage disappears: the pushed
   * box's cell is vacated, while the box on storage it lands on stays as it
   * was, so the map holds one box less (on the row "empty, box, box on
   * storage, storage" with the player on the left, a push to the right
   * leaves one box for two storages, and the level can no longer be won).
   * The corrected rule, which only lets a box onto an empty tile or a
   * storage, refuses that push; MoveKeepsBoxes shows it never loses a box.
   */
  lemma PushLosesBox(p: Play, w: nat, h: nat, numBoxes: int, numStorages: int, d: Direction)
    requires Shaped(p.tiles, w, h) && w < Unsigned32 && h < Unsigned32 && !Won(p, numBoxes, numStorages)
    requires var next := NextCoord(p.player, d);
      InBoard(next, w, h) && (TileAt(p.tiles, next) == Box || TileAt(p.tiles, next) == BoxStorage) &&
      InBoard(NextCoord(next, d), w, h) && TileAt(p.tiles, NextCoord(next, d)) == BoxStorage
    ensures Boxes(MovePlay(p, w, h, numBoxes, numStorages, d, false).tiles, w, h) == Boxes(p.tiles, w, h) - 1
    ensures MovePlay(p, w, h, numBoxes, numStorages, d, true).tiles == p.tiles
  {
    var next := NextCoord(p.player, d);
    var target := NextCoord(next, d);
    MoveCases(p, w, h, numBoxes, numStorages, d, false);
    assert Pushes(p, w, h, numBoxes, numStorages, d, false);
    NextCoordMoves(next, d);
    VacateBoxes(p.tiles, w, h, p.stored, next);
    var v := Vacate(p.tiles, w, h, p.stored, next);
    assert TileAt(v.0, target) == BoxStorage;
    MoveCases(p, w, h, numBoxes, numStorages, d, true);
  }

  /**
   * A level closed in by walls: the player is on the board, on an empty
   * tile or a storage, and every cell of the outer frame is a wall.
   */
  ghost predicate Enclosed(p: Play, w: nat, h: nat)
    requires Shaped(p.tiles, w, h)
  {
    InBoard(p.player, w, h) && (TileAt(p.tiles, p.player) == Empty || TileAt(p.tiles, p.player) == Storage) &&
    forall x, y :: 0 <= x < w && 0 <= y < h && (x == 0 || y == 0 || x + 1 == w || y + 1 == h) ==> p.tiles[x][y] == Wall
  }

  /**
   * In an enclosed level every step stays on the board, so the player can
   * always move, and the level stays enclosed after the move, with either
   * push rule.
   */
  lemma MoveStaysEnclosed(p: Play, w: nat, h: nat, numBoxes: int, numStorages: int, d: Direction, corrected: bool)
    requires Shaped(p.tiles, w, h) && w < Unsigned32 && h < Unsigned32 && Enclosed(p, w, h)
    ensures InBoard(NextCoord(p.player, d), w, h)
    ensures Enclosed(MovePlay(p, w, h, numBoxes, numStorages, d, corrected), w, h)
  {
    var c := p.player;
    assert p.tiles[c.x][c.y] != Wall;
    assert 0 < c.x && 0 < c.y && c.x + 1 < w && c.y + 1 < h;
    NextCoordLeaves(c, d, w, h);
    MoveCases(p, w, h, numBoxes, numStorages, d, corrected);
    if Pushes(p, w, h, numBoxes, numStorages, d, corrected) {
      var next := NextCoord(c, d);
      var boxNext := NextCoord(next, d);
      NextCoordMoves(next, d);
      MovedBoxCells(p.tiles, w, h, p.stored, next, boxNext);
      var m := MovedBox(p.tiles, w, h, p.stored, next, boxNext).0;
      forall x, y | 0 <= x < w && 0 <= y < h && (x == 0 || y == 0 || x + 1 == w || y + 1 == h)
        ensures m[x][y] == Wall
      {
        assert p.tiles[x][y] == Wall;
      }
    }
  }

  /** Reads one level char into the cell (col, row), as ReadInto says. */
  method ReadTile(m: Map, start: UCoord, tally: Tally, c: char, row: nat, col: nat)
    returns (m': Map, start': UCoord, tally': Tally)
    requires col < |m| && row < |m[col]|
    ensures Reading(m', start', tally') == ReadInto(Reading(m, start, tally), FromChar(c), row, col)
  {
    var t := FromChar(c);
    m' := m[col := m[col][row := t]];
    start' := start;
    if t == Player {
      start' := UCoord(col, row);
      m' := m'[col := m'[col][row := Empty]];
      assert m'[col] == m[col][row := Empty];
    }
    var boxes, storages, stored := tally.boxes, tally.storages, tally.stored;
    if t == Box {
      boxes := boxes + 1;
    }
    if t == Storage {
      storages := storages + 1;
    }
    if t == BoxStorage {
      boxes := boxes + 1;
      storages := storages + 1;
      stored := stored + 1;
    }
    tally' := Tally(boxes, storages, stored);
  }

  /** Reads the w tile chars of row `row`, the rows above it already read. */
  method ReadRow(m: Map, start: UCoord, tally: Tally, cs: string, row: nat, w: nat, h: nat, ghost ts: seq<TileChar>)
    returns (m': Map, start': UCoord, tally': Tally)
    requires row < h && RowStart(row, w) + w <= |ts| <= |cs| && forall i :: 0 <= i < |ts| ==> ts[i] == FromChar(cs[i])
    requires Reading(m, start, tally) == ReadUpTo(ts, w, h, row, 0)
    ensures Reading(m', start', tally') == ReadUpTo(ts, w, h, row, w)
  {
    m', start', tally' := m, start, tally;
    for col := 0 to w
      invariant Reading(m', start', tally') == ReadUpTo(ts, w, h, row, col)
    {
      m', start', tally' := ReadTile(m', start', tally', cs[RowStart(row, w) + col], row, col);
    }
  }

  /**
   * Reads the h * w tile chars of a level in row-major order into a map of
   * w columns of h cells: the player's tile becomes an empty tile and its
   * cell is where the player starts, and the boxes, storages and stored
   * boxes are counted.
   */
  method ReadLevel(h: nat, w: nat, cs: string) returns (m: Map, start: UCoord, tally: Tally)
    requires h < Unsigned32 && w < Unsigned32 && h * w <= |cs|
    ensures m == LevelMap(cs, w, h) && Counted(m, w, h, tally.stored)
    ensures start == StartOf(Tiles(cs[..h * w]), w) && IsU32(start)
    ensures tally == TallyOf(Tiles(cs[..h * w]))
  {
    ghost var ts := Tiles(cs[..h * w]);
    RowStartIsProduct(h, w);
    m := NewColumns(w, h);
    assert forall i :: 0 <= i < |ts| ==> ts[i] == FromChar(cs[i]);
    start := UCoord(0, 0);
    tally := Tally(0, 0, 0);
    for row := 0 to h
      invariant RowStart(row, w) <= |ts|
      invariant Reading(m, start, tally) == ReadUpTo(ts, w, h, row, 0)
    {
      RowStartMono(row, h, w);
      m, start, tally := ReadRow(m, start, tally, cs, row, w, h, ts);
    }
    ReadAllMap(ts, w, h);
    ReadAllStart(ts, w, h);
    ReadAllTally(ts, w, h);
    LoadedStored(ts, w, h);
  }

  /** The remade game, loaded from a level and played move by move. */
  class Sokoban {
    var sizeX: nat
    var sizeY: nat
    var initialMap: Map
    var initialPlayerLoc: UCoord
    var initialNumBoxesStorage: int
    var tileMap: Map
    var playerLoc: UCoord
    var playerDir: Direction
    var numStorages: int
    var numBoxes: int
    var numBoxesStorage: int

    /** The loaded level: the sizes fit in 32 bits, the map has their shape, and the stored count is right. */
    ghost predicate InitialValid()
      reads this`sizeX, this`sizeY, this`initialMap, this`initialPlayerLoc, this`initialNumBoxesStorage
    {
      sizeX < Unsigned32 && sizeY < Unsigned32 && IsU32(initialPlayerLoc) &&
      Counted(initialMap, sizeX, sizeY, initialNumBoxesStorage)
    }

    /** The current map has the level's shape, and the current stored count is right. */
    ghost predicate Valid()
      reads this`sizeX, this`sizeY, this`initialMap, this`initialPlayerLoc, this`initialNumBoxesStorage
      reads this`tileMap, this`playerLoc, this`numBoxesStorage
    {
      InitialValid() && IsU32(playerLoc) && Counted(tileMap, sizeX, sizeY, numBoxesStorage)
    }

    /** The state a move changes. */
    function Snapshot(): Play
      reads this`tileMap, this`playerLoc, this`playerDir, this`numBoxesStorage
    {
      Play(tileMap, playerLoc, playerDir, numBoxesStorage)
    }

    predicate IsWon()
      reads this`tileMap, this`playerLoc, this`playerDir, this`numBoxesStorage, this`numBoxes, this`numStorages
    {
      Won(Snapshot(), numBoxes, numStorages)
    }

    /** The printed level: its height and width, then its rows. */
    function Text(): string
      reads this
      requires Valid()
    {
      Show(tileMap, sizeX, sizeY)
    }

    /**
     * Reads a level into a fresh game: the sizes, then h * w tile chars in
     * row-major order (the whitespace between them already skipped). The
     * player's tile becomes an empty tile and the player starts on it, and
     * the boxes, storages and stored boxes are counted.
     */
    constructor Load(h: nat, w: nat, cs: string)
      requires h < Unsigned32 && w < Unsigned32 && h * w <= |cs|
      ensures sizeY == h && sizeX == w
      ensures initialMap == LevelMap(cs, w, h)
      ensures initialPlayerLoc == StartOf(Tiles(cs[..h * w]), w)
      ensures var tally := TallyOf(Tiles(cs[..h * w]));
        numBoxes == tally.boxes && numStorages == tally.storages && initialNumBoxesStorage == tally.stored
      ensures Valid() && tileMap == initialMap && playerLoc == initialPlayerLoc && playerDir == Down
      ensures numBoxesStorage == initialNumBoxesStorage
    {
      var m, start, tally := ReadLevel(h, w, cs);
      sizeX, sizeY := w, h;
      initialMap, initialPlayerLoc := m, start;
      numBoxes, numStorages, initialNumBoxesStorage := tally.boxes, tally.storages, tally.stored;
      // what reset does, before the object is handed out
      tileMap, playerLoc, playerDir, numBoxesStorage := m, start, Down, tally.stored;
    }

    /** Puts the map, the player and the stored-box counter back as loaded, the player facing down. */
    method Reset()
      requires InitialValid()
      modifies this`tileMap, this`playerLoc, this`playerDir, this`numBoxesStorage
      ensures Valid()
      ensures tileMap == initialMap && playerLoc == initialPlayerLoc && playerDir == Down
      ensures numBoxesStorage == initialNumBoxesStorage
    {
      numBoxesStorage := initialNumBoxesStorage;
      playerLoc := initialPlayerLoc;
      playerDir := Down;
      tileMap := initialMap;
    }

    /**
     * Moves the player one step in direction d, as written. The next cell
     * must be on the board unless the game is won: the map is indexed
     * there without a check.
     */
    method MovePlayer(d: Direction)
      requires Valid() && (IsWon() || InBoard(NextCoord(playerLoc, d), sizeX, sizeY))
      modifies this`tileMap, this`playerLoc, this`playerDir, this`numBoxesStorage
      ensures Valid()
      ensures Snapshot() == MovePlay(old(Snapshot()), sizeX, sizeY, numBoxes, numStorages, d, false)
    {
      ghost var start := Snapshot();
      MoveKeepsStored(start, sizeX, sizeY, numBoxes, numStorages, d, false);
      MoveCases(start, sizeX, sizeY, numBoxes, numStorages, d, false);
      ghost var pushes := Pushes(start, sizeX, sizeY, numBoxes, numStorages, d, false);
      if IsWon() {
        return;
      }
      playerDir := d;
      var next := NextCoord(playerLoc, d);
      var t := tileMap[next.x][next.y];
      if t == Empty {
        assert !pushes;
        playerLoc := next;
      } else if t == Box || t == BoxStorage {
        var (movable, boxNext) := TestBoxNextCoord(tileMap, sizeX, sizeY, next, d, false);
        assert movable == pushes;
        if movable {
          playerLoc := next;
          MoveBox(next, boxNext);
        }
      } else {
        assert !pushes;
      }
    }

    /** Moves the box at `box` to `next`, updating the stored-box counter. */
    method MoveBox(box: UCoord, next: UCoord)
      requires Shaped(tileMap, sizeX, sizeY) && InBoard(box, sizeX, sizeY) && InBoard(next, sizeX, sizeY)
      modifies this`tileMap, this`numBoxesStorage
      ensures (tileMap, numBoxesStorage) == MovedBox(old(tileMap), sizeX, sizeY, old(numBoxesStorage), box, next)
    {
      if tileMap[box.x][box.y] == Box {
        tileMap := Set(tileMap, sizeX, sizeY, box, Empty);
      } else if tileMap[box.x][box.y] == BoxStorage {
        tileMap := Set(tileMap, sizeX, sizeY, box, Storage);
        numBoxesStorage := numBoxesStorage - 1;
      }
      if tileMap[next.x][next.y] == Empty {
        tileMap := Set(tileMap, sizeX, sizeY, next, Box);
      } else if tileMap[next.x][next.y] == Storage {
        tileMap := Set(tileMap, sizeX, sizeY, next, BoxStorage);
        numBoxesStorage := numBoxesStorage + 1;
      }
    }
  }

  /** Appends w new columns of h tiles each, as the level's width is read. */
  method NewColumns(w: nat, h: nat) returns (m: Map)
    ensures m == Blank(w, h)
  {
    m := [];
    for col := 0 to w
      invariant m == Blank(col, h)
    {
      m := m + [Unset(h)];
    }
  }

  /** The stored boxes counted while reading are the boxes on storage of the loaded map. */
  lemma LoadedStored(ts: seq<TileChar>, w: nat, h: nat)
    requires |ts| == RowStart(h, w)
    ensures Total(Grid(Cleared(ts), w, h), w, h, BoxStorage) == TallyOf(ts).stored
  {
    RowsOfGrid(Cleared(ts), w, h);
    TotalRows(Grid(Cleared(ts), w, h), w, h, BoxStorage);
    ClearedCounts(ts, BoxStorage);
  }
}
