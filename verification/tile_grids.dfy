/**
 * The Sokoban tile grid: a row-major vector of optional tiles (null for
 * an unsupported tile character), addressed by tile coordinates, and a
 * row-by-row traversal that hands each tile to a callback until the
 * callback asks to stop.
 */
module TileGrids {
  import opened Wrappers

  /** What `getTile`/`setTile` throw for a coordinate outside the grid. */
  const InvalidCoordinate := "InvalidCoordinateException"

  /** A tile coordinate: column x, row y. */
  datatype Coord = Coord(x: int, y: int)

  /** The linear index of a coordinate in a row-major grid of the given width. */
  function Index(c: Coord, width: int): int
  {
    c.x + c.y * width
  }

  /** The coordinate of the linear index p in a row-major grid of the given width. */
  function CellOf(p: nat, width: nat): (c: Coord)
    requires width > 0
    ensures 0 <= c.x < width && 0 <= c.y && Index(c, width) == p
  {
    Coord(p % width, p / width)
  }

  /** The tile at a coordinate; only the linear index is checked against the grid's size. */
  function TileAt<T>(tiles: seq<Option<T>>, width: int, c: Coord): (r: Result<Option<T>>)
    ensures r.Failure? <==> !(0 <= Index(c, width) < |tiles|)
    ensures r.Failure? ==> r.error == InvalidCoordinate
    ensures r.Success? ==> r.value == tiles[Index(c, width)]
  {
    var index := Index(c, width);
    if index < 0 || index >= |tiles| then Failure(InvalidCoordinate) else Success(tiles[index])
  }

  /**
   * After a tile is stored at c, reading c gives it back, and reading any
   * coordinate with another linear index gives what it gave before.
   */
  lemma SetThenGet<T>(tiles: seq<Option<T>>, width: int, c: Coord, d: Coord, tile: Option<T>)
    requires 0 <= Index(c, width) < |tiles|
    ensures TileAt(tiles[Index(c, width) := tile], width, c) == Success(tile)
    ensures Index(d, width) != Index(c, width) ==>
      TileAt(tiles[Index(c, width) := tile], width, d) == TileAt(tiles, width, d)
  {
  }

  /**
   * Only the linear index is checked: a column one past the right edge
   * reads the first tile of the next row instead of throwing.
   */
  lemma {:induction false} ColumnPastEdge<T>(tiles: seq<Option<T>>, width: int, y: int)
    ensures TileAt(tiles, width, Coord(width, y)) == TileAt(tiles, width, Coord(0, y + 1))
  {
    NextRow(y, width);
  }

  /**
   * The callback's calls, in order, when the traversal is at linear index p
   * of a grid with `cells` cells: null tiles are skipped, and the first call
   * that returns true is the last.
   */
  function VisitFrom<T>(tiles: seq<Option<T>>, width: nat, cells: nat, stop: (Coord, T) -> bool, p: nat): seq<(Coord, T)>
    requires width > 0 && cells <= |tiles|
    decreases cells - p
  {
    if p >= cells then []
    else match tiles[p]
      case None => VisitFrom(tiles, width, cells, stop, p + 1)
      case Some(t) =>
        var c := CellOf(p, width);
        [(c, t)] + (if stop(c, t) then [] else VisitFrom(tiles, width, cells, stop, p + 1))
  }

  /** The non-null tiles from linear index p on, with their coordinates, in row-major order. */
  function TilesFrom<T>(tiles: seq<Option<T>>, width: nat, cells: nat, p: nat): seq<(Coord, T)>
    requires width > 0 && cells <= |tiles|
    decreases cells - p
  {
    if p >= cells then []
    else match tiles[p]
      case None => TilesFrom(tiles, width, cells, p + 1)
      case Some(t) => [(CellOf(p, width), t)] + TilesFrom(tiles, width, cells, p + 1)
  }

  /** A callback that never stops, such as the one `draw` passes, is called on every non-null tile. */
  lemma {:induction false} VisitAll<T>(tiles: seq<Option<T>>, width: nat, cells: nat, stop: (Coord, T) -> bool, p: nat)
    requires width > 0 && cells <= |tiles|
    requires forall c, t :: !stop(c, t)
    ensures VisitFrom(tiles, width, cells, stop, p) == TilesFrom(tiles, width, cells, p)
    decreases cells - p
  {
    if p < cells {
      VisitAll(tiles, width, cells, stop, p + 1);
    }
  }

  /**
   * The calls are a prefix of the row-major list of non-null tiles, every
   * call before the last returned false, and the traversal ends early only
   * after a call that returned true.
   */
  lemma {:induction false} VisitStopsAtFirst<T>(tiles: seq<Option<T>>, width: nat, cells: nat, stop: (Coord, T) -> bool, p: nat)
    requires width > 0 && cells <= |tiles|
    ensures var calls := VisitFrom(tiles, width, cells, stop, p);
      var all := TilesFrom(tiles, width, cells, p);
      calls <= all &&
      (forall j :: 0 <= j < |calls| - 1 ==> !stop(calls[j].0, calls[j].1)) &&
      (|calls| < |all| ==> calls != [] && stop(calls[|calls| - 1].0, calls[|calls| - 1].1))
    decreases cells - p
  {
    if p < cells {
      VisitStopsAtFirst(tiles, width, cells, stop, p + 1);
      var rest := VisitFrom(tiles, width, cells, stop, p + 1);
      if tiles[p].Some? {
        var c, t := CellOf(p, width), tiles[p].value;
        var calls := VisitFrom(tiles, width, cells, stop, p);
        if !stop(c, t) {
          assert calls == [(c, t)] + rest;
          forall j | 0 <= j < |calls| - 1
            ensures !stop(calls[j].0, calls[j].1)
          {
            if j > 0 {
              assert calls[j] == rest[j - 1];
            }
          }
        }
      }
    }
  }

  /** The entries name non-null tiles at indexes from p below cells, in strictly increasing order. */
  ghost predicate Ordered<T>(tiles: seq<Option<T>>, width: nat, cells: nat, p: nat, all: seq<(Coord, T)>)
    requires cells <= |tiles|
  {
    (forall j :: 0 <= j < |all| ==> p <= Index(all[j].0, width) < cells && tiles[Index(all[j].0, width)] == Some(all[j].1)) &&
    (forall i, j :: 0 <= i < j < |all| ==> Index(all[i].0, width) < Index(all[j].0, width))
  }

  /** The traversal visits coordinates in strictly increasing row-major order, from index p on. */
  lemma {:induction false} TilesFromOrdered<T>(tiles: seq<Option<T>>, width: nat, cells: nat, p: nat)
    requires width > 0 && cells <= |tiles|
    ensures Ordered(tiles, width, cells, p, TilesFrom(tiles, width, cells, p))
    decreases cells - p
  {
    if p < cells {
      TilesFromOrdered(tiles, width, cells, p + 1);
      var rest := TilesFrom(tiles, width, cells, p + 1);
      var all := TilesFrom(tiles, width, cells, p);
      if tiles[p].Some? {
        assert all == [(CellOf(p, width), tiles[p].value)] + rest;
        forall j | 0 <= j < |all|
          ensures p <= Index(all[j].0, width) < cells && tiles[Index(all[j].0, width)] == Some(all[j].1)
          ensures j > 0 ==> p < Index(all[j].0, width)
        {
          if j > 0 {
            assert all[j] == rest[j - 1];
            assert p + 1 <= Index(rest[j - 1].0, width) < cells;
            assert tiles[Index(rest[j - 1].0, width)] == Some(rest[j - 1].1);
          } else {
            assert all[0] == (CellOf(p, width), tiles[p].value);
          }
        }
        forall i, j | 0 <= i < j < |all|
          ensures Index(all[i].0, width) < Index(all[j].0, width)
        {
          assert all[j] == rest[j - 1];
          if i > 0 {
            assert all[i] == rest[i - 1];
          }
        }
      }
    }
  }

  class TileGrid<T> {
    var width: int
    var height: int
    var tileGrid: seq<Option<T>>

    /** The grid holds at least one slot for each of the height * width cells. */
    ghost predicate Valid()
      reads this
    {
      0 <= width && 0 <= height && height * width <= |tileGrid|
    }

    /** A grid as the level loader leaves it. */
    constructor(width: int, height: int, tiles: seq<Option<T>>)
      requires 0 <= width && 0 <= height && height * width <= |tiles|
      ensures Valid() && this.width == width && this.height == height && tileGrid == tiles
    {
      this.width := width;
      this.height := height;
      tileGrid := tiles;
    }

    function GetTile(c: Coord): (r: Result<Option<T>>)
      reads this
      ensures r == TileAt(tileGrid, width, c)
    {
      TileAt(tileGrid, width, c)
    }

    /** Replaces the one slot at the coordinate's index, or throws for an index outside the grid. */
    method SetTile(c: Coord, tile: Option<T>) returns (r: Result<()>)
      requires Valid()
      modifies this
      ensures Valid() && width == old(width) && height == old(height)
      ensures r.Failure? <==> !(0 <= Index(c, width) < |old(tileGrid)|)
      ensures r.Failure? ==> r.error == InvalidCoordinate && tileGrid == old(tileGrid)
      ensures r.Success? ==> tileGrid == old(tileGrid)[Index(c, width) := tile]
    {
      var index := Index(c, width);
      if index < 0 || index >= |tileGrid| {
        return Failure(InvalidCoordinate);
      }
      tileGrid := tileGrid[index := None];
      tileGrid := tileGrid[index := tile];
      r := Success(());
    }

    /**
     * Calls stop on each non-null tile, row by row from the top and column by
     * column from the left, and returns right after the first call that
     * returns true; the result lists the calls made.
     */
    method TraverseTileGrid(stop: (Coord, T) -> bool) returns (calls: seq<(Coord, T)>)
      requires Valid()
      ensures width > 0 ==> calls == VisitFrom(tileGrid, width, height * width, stop, 0)
      ensures width == 0 ==> calls == []
    {
      calls := [];
      if width == 0 {
        return;
      }
      ghost var cells, p := height * width, 0;
      var stopIteration := false;
      var row := 0;
      while !stopIteration && row < height
        invariant 0 <= row <= height && (!stopIteration ==> p == RowStart(row, width))
        invariant Walked(tileGrid, width, cells, stop, calls, stopIteration, p)
      {
        var col := 0;
        while !stopIteration && col < width
          invariant 0 <= col <= width && p == RowStart(row, width) + col
          invariant Walked(tileGrid, width, cells, stop, calls, stopIteration, p)
        {
          var tile := GetTile(Coord(col, row));
          WalkCell(tileGrid, width, height, stop, calls, row, col, p);
          if tile.Success? && tile.value.Some? {
            calls := calls + [(Coord(col, row), tile.value.value)];
            stopIteration := stop(Coord(col, row), tile.value.value);
          }
          col := col + 1;
          p := p + 1;
        }
        row := row + 1;
      }
      if !stopIteration {
        RowStartIsProduct(row, width);
      }
    }
  }

  /** A nonzero multiple of a positive w is at least w away from zero. */
  lemma {:induction false} MultipleSign(d: int, w: int)
    requires w > 0
    ensures d >= 1 ==> d * w >= w
    ensures d <= -1 ==> d * w <= -w
    decreases if d < 0 then -d else d
  {
    if d > 1 {
      MultipleSign(d - 1, w);
      assert d * w == (d - 1) * w + w;
    } else if d < -1 {
      MultipleSign(d + 1, w);
      assert d * w == (d + 1) * w - w;
    }
  }

  /** Quotient and remainder are the only ones with a remainder below the divisor. */
  lemma DivUnique(p: int, w: int, q: int, r: int)
    requires w > 0 && 0 <= r < w && p == q * w + r
    ensures p / w == q && p % w == r
  {
    var q', r' := p / w, p % w;
    assert (q - q') * w == q * w - q' * w == r' - r;
    MultipleSign(q - q', w);
  }

  /** The row after row starts width cells later. */
  lemma NextRow(row: int, width: int)
    ensures (row + 1) * width == row * width + width
  {
  }

  /** The linear index of the first cell of a row, counted one row at a time. */
  function RowStart(row: nat, width: int): (r: int)
    ensures 0 <= width ==> 0 <= r
  {
    if row == 0 then 0 else RowStart(row - 1, width) + width
  }

  lemma {:induction false} RowStartIsProduct(row: nat, width: int)
    ensures RowStart(row, width) == row * width
  {
    if row > 0 {
      RowStartIsProduct(row - 1, width);
      NextRow(row - 1, width);
    }
  }

  /** Multiplying by a non-negative w keeps the order. */
  lemma {:induction false} MulLe(a: int, b: int, w: int)
    requires a <= b && 0 <= w
    ensures a * w <= b * w
    decreases b - a
  {
    if a < b {
      MulLe(a + 1, b, w);
      NextRow(a, w);
    }
  }

  /** Cell (col, row) of a width-by-height grid is linear index row * width + col, inside the grid. */
  lemma RowMajorCell(row: int, col: int, width: int, height: int)
    requires 0 <= row < height && 0 <= col < width
    ensures 0 <= row * width + col < height * width
    ensures CellOf(row * width + col, width) == Coord(col, row) && Index(Coord(col, row), width) == row * width + col
  {
    MulLe(0, row, width);
    MulLe(row + 1, height, width);
    NextRow(row, width);
    DivUnique(row * width + col, width, row, col);
  }

  /** The traversal's progress: the calls made, and what the rest of the walk from index p will add. */
  ghost predicate Walked<T>(tiles: seq<Option<T>>, width: nat, cells: nat, stop: (Coord, T) -> bool,
                            calls: seq<(Coord, T)>, stopped: bool, p: nat)
    requires width > 0 && cells <= |tiles|
  {
    if stopped then calls == VisitFrom(tiles, width, cells, stop, 0)
    else calls + VisitFrom(tiles, width, cells, stop, p) == VisitFrom(tiles, width, cells, stop, 0)
  }

  /**
   * Cell (col, row) of a width-by-height grid is its linear index p, its
   * tile can be read, and visiting it extends the calls by that tile
   * unless it is null.
   */
  lemma WalkCell<T>(tiles: seq<Option<T>>, width: int, height: int, stop: (Coord, T) -> bool,
                    calls: seq<(Coord, T)>, row: int, col: int, p: nat)
    requires 0 <= row < height && 0 <= col < width && height * width <= |tiles| && p == RowStart(row, width) + col
    requires Walked(tiles, width, height * width, stop, calls, false, p)
    ensures 0 <= p < |tiles| && TileAt(tiles, width, Coord(col, row)) == Success(tiles[p])
    ensures tiles[p].None? ==> Walked(tiles, width, height * width, stop, calls, false, p + 1)
    ensures tiles[p].Some? ==>
      Walked(tiles, width, height * width, stop, calls + [(Coord(col, row), tiles[p].value)],
             stop(Coord(col, row), tiles[p].value), p + 1)
  {
    RowStartIsProduct(row, width);
    RowMajorCell(row, col, width, height);
    WalkStep(tiles, width, height * width, stop, calls, p, Coord(col, row));
  }

  /** Visiting the cell at index p extends the calls by its tile, unless it is null. */
  lemma WalkStep<T>(tiles: seq<Option<T>>, width: nat, cells: nat, stop: (Coord, T) -> bool,
                    calls: seq<(Coord, T)>, p: nat, c: Coord)
    requires width > 0 && cells <= |tiles| && p < cells && c == CellOf(p, width)
    requires Walked(tiles, width, cells, stop, calls, false, p)
    ensures tiles[p].None? ==> Walked(tiles, width, cells, stop, calls, false, p + 1)
    ensures tiles[p].Some? ==>
      Walked(tiles, width, cells, stop, calls + [(c, tiles[p].value)], stop(c, tiles[p].value), p + 1)
  {
    if tiles[p].Some? {
      var t := tiles[p].value;
      assert calls + [(c, t)] + VisitFrom(tiles, width, cells, stop, p + 1) ==
             calls + ([(c, t)] + VisitFrom(tiles, width, cells, stop, p + 1));
      if stop(c, t) {
        assert calls + [(c, t)] == calls + VisitFrom(tiles, width, cells, stop, p);
      }
    }
  }
}
