/**
 * The level of the remade Sokoban. The map is column-major (map[x][y] is
 * the tile in column x, row y); a level text lists the tiles row after
 * row, and printing a map writes "h w" and then one line per row.
 */
module RemakeLevels {
  import opened Wrappers
  import opened TileChars
  import opened Decimals
  import opened TileGrids

  /** A column-major map: m[x][y] is the tile in column x, row y. */
  type Map = seq<seq<TileChar>>

  /** A coordinate of two unsigned numbers. */
  datatype UCoord = UCoord(x: nat, y: nat)

  const Unsigned32: nat := 0x1_0000_0000

  /** Both coordinates fit in 32 unsigned bits. */
  predicate IsU32(c: UCoord)
  {
    c.x < Unsigned32 && c.y < Unsigned32
  }

  /** w columns of h tiles each. */
  ghost predicate Shaped(m: Map, w: nat, h: nat)
  {
    |m| == w && forall x :: 0 <= x < w ==> |m[x]| == h
  }

  /** Row y of the map over its first k columns, left to right. */
  function RowOf(m: Map, y: nat, k: nat): (r: seq<TileChar>)
    requires k <= |m| && forall x :: 0 <= x < k ==> y < |m[x]|
    ensures |r| == k && forall x :: 0 <= x < k ==> r[x] == m[x][y]
  {
    if k == 0 then [] else RowOf(m, y, k - 1) + [m[k - 1][y]]
  }

  /** The first n rows of the map, row after row: the order a level text lists its tiles in. */
  function Rows(m: Map, w: nat, h: nat, n: nat): (r: seq<TileChar>)
    requires Shaped(m, w, h) && n <= h
    ensures |r| == RowStart(n, w)
  {
    if n == 0 then [] else Rows(m, w, h, n - 1) + RowOf(m, n - 1, w)
  }

  /** Column x of a width-w grid given row after row in ts, over its first n rows. */
  function Column(ts: seq<TileChar>, w: nat, x: nat, n: nat): (r: seq<TileChar>)
    requires x < w && RowStart(n, w) <= |ts|
    ensures |r| == n
  {
    if n == 0 then [] else Column(ts, w, x, n - 1) + [ts[RowStart(n - 1, w) + x]]
  }

  /** The first k columns of a width-w, height-h grid given row after row in ts. */
  function Columns(ts: seq<TileChar>, w: nat, h: nat, k: nat): (r: Map)
    requires k <= w && RowStart(h, w) <= |ts|
    ensures |r| == k && forall x :: 0 <= x < k ==> r[x] == Column(ts, w, x, h)
  {
    if k == 0 then [] else Columns(ts, w, h, k - 1) + [Column(ts, w, k - 1, h)]
  }

  /** The column-major map of a width-w, height-h grid given row after row in ts. */
  function Grid(ts: seq<TileChar>, w: nat, h: nat): (r: Map)
    requires RowStart(h, w) <= |ts|
    ensures Shaped(r, w, h)
  {
    Columns(ts, w, h, w)
  }

  /** A row starts no earlier than a full row after any row above it. */
  lemma {:induction false} RowStartMono(y: nat, n: nat, w: nat)
    requires y < n
    ensures RowStart(y, w) + w <= RowStart(n, w)
  {
    if y < n - 1 {
      RowStartMono(y, n - 1, w);
    }
  }

  /** The cell in column x, row y of a grid given row after row. */
  lemma {:induction false} ColumnCell(ts: seq<TileChar>, w: nat, x: nat, n: nat, y: nat)
    requires x < w && RowStart(n, w) <= |ts| && y < n
    ensures RowStart(y, w) + x < |ts| && Column(ts, w, x, n)[y] == ts[RowStart(y, w) + x]
  {
    RowStartMono(y, n, w);
    if y < n - 1 {
      ColumnCell(ts, w, x, n - 1, y);
    }
  }

  /** The grid's cell (x, y) is the tile at linear index y * w + x of the row-major listing. */
  lemma GridCell(ts: seq<TileChar>, w: nat, h: nat, x: nat, y: nat)
    requires RowStart(h, w) <= |ts| && x < w && y < h
    ensures RowStart(y, w) + x < |ts| && Grid(ts, w, h)[x][y] == ts[RowStart(y, w) + x]
  {
    ColumnCell(ts, w, x, h, y);
  }

  /** Cell (x, y) of the map sits at linear index y * w + x of its rows. */
  lemma {:induction false} RowsCell(m: Map, w: nat, h: nat, n: nat, x: nat, y: nat)
    requires Shaped(m, w, h) && n <= h && x < w && y < n
    ensures RowStart(y, w) + x < RowStart(n, w) && Rows(m, w, h, n)[RowStart(y, w) + x] == m[x][y]
  {
    RowStartMono(y, n, w);
    if y < n - 1 {
      RowsCell(m, w, h, n - 1, x, y);
    }
  }

  /** Every index below n rows is the linear index of one cell of those rows. */
  lemma {:induction false} Decompose(i: nat, w: nat, n: nat) returns (x: nat, y: nat)
    requires i < RowStart(n, w)
    ensures x < w && y < n && i == RowStart(y, w) + x
  {
    if i < RowStart(n - 1, w) {
      x, y := Decompose(i, w, n - 1);
    } else {
      x, y := i - RowStart(n - 1, w), n - 1;
    }
  }

  /** Listing a map row by row and regrouping the listing into columns gives the map back. */
  lemma GridOfRows(m: Map, w: nat, h: nat)
    requires Shaped(m, w, h)
    ensures Grid(Rows(m, w, h, h), w, h) == m
  {
    var g := Grid(Rows(m, w, h, h), w, h);
    forall x | 0 <= x < w
      ensures g[x] == m[x]
    {
      forall y | 0 <= y < h
        ensures g[x][y] == m[x][y]
      {
        GridCell(Rows(m, w, h, h), w, h, x, y);
        RowsCell(m, w, h, h, x, y);
      }
    }
  }

  /** Regrouping a row-major listing into columns and listing it row by row gives the listing back. */
  lemma RowsOfGrid(ts: seq<TileChar>, w: nat, h: nat)
    requires |ts| == RowStart(h, w)
    ensures Rows(Grid(ts, w, h), w, h, h) == ts
  {
    forall i | 0 <= i < |ts|
      ensures Rows(Grid(ts, w, h), w, h, h)[i] == ts[i]
    {
      RowsOfGridAt(ts, w, h, i);
    }
  }

  /** Tile i of the rows of the grid is tile i of the listing. */
  lemma RowsOfGridAt(ts: seq<TileChar>, w: nat, h: nat, i: nat)
    requires |ts| == RowStart(h, w) && i < |ts|
    ensures Rows(Grid(ts, w, h), w, h, h)[i] == ts[i]
  {
    var x, y := Decompose(i, w, h);
    GridCell(ts, w, h, x, y);
    RowsCell(Grid(ts, w, h), w, h, h, x, y);
  }

  /** The chars of a tile sequence. */
  function Chars(ts: seq<TileChar>): (r: string)
    ensures |r| == |ts| && forall i :: 0 <= i < |ts| ==> r[i] == ToChar(ts[i])
  {
    if ts == [] then [] else Chars(ts[..|ts| - 1]) + [ToChar(ts[|ts| - 1])]
  }

  /** The tile characters a text casts to, char by char. */
  function Tiles(cs: string): (r: seq<TileChar>)
    ensures |r| == |cs| && forall i :: 0 <= i < |cs| ==> r[i] == FromChar(cs[i])
  {
    if cs == [] then [] else Tiles(cs[..|cs| - 1]) + [FromChar(cs[|cs| - 1])]
  }

  /** The whitespace that reading a single char from a stream skips. */
  predicate IsBlank(c: char)
  {
    c == ' ' || c == '\t' || c == '\n' || c == '\r' || c == '\U{000B}' || c == '\U{000C}'
  }

  /** The chars a stream hands out one by one: the text without its whitespace. */
  function NonBlank(s: string): (r: string)
    ensures forall i :: 0 <= i < |r| ==> !IsBlank(r[i])
  {
    if s == [] then [] else NonBlank(s[..|s| - 1]) + if IsBlank(s[|s| - 1]) then [] else [s[|s| - 1]]
  }

  lemma {:induction false} NonBlankAppend(a: string, b: string)
    ensures NonBlank(a + b) == NonBlank(a) + NonBlank(b)
  {
    if b != [] {
      var init, last := b[..|b| - 1], b[|b| - 1];
      var tail := if IsBlank(last) then [] else [last];
      assert (a + b)[..|a + b| - 1] == a + init;
      assert (a + b)[|a + b| - 1] == last;
      assert NonBlank(a + b) == NonBlank(a + init) + tail;
      NonBlankAppend(a, init);
      assert NonBlank(b) == NonBlank(init) + tail;
    } else {
      assert a + b == a;
    }
  }

  lemma {:induction false} NonBlankKeeps(s: string)
    requires forall i :: 0 <= i < |s| ==> !IsBlank(s[i])
    ensures NonBlank(s) == s
  {
    if s != [] {
      NonBlankKeeps(s[..|s| - 1]);
    }
  }

  /** The first n printed rows of the map: each row's chars, then a newline. */
  function Body(m: Map, w: nat, h: nat, n: nat): string
    requires Shaped(m, w, h) && n <= h
  {
    if n == 0 then "" else Body(m, w, h, n - 1) + Chars(RowOf(m, n - 1, w)) + "\n"
  }

  /** The printed map: the height and the width, then the rows, each line ending in a newline. */
  function Show(m: Map, w: nat, h: nat): string
    requires Shaped(m, w, h)
  {
    Decimal(h) + " " + Decimal(w) + "\n" + Body(m, w, h, h)
  }

  /** Every tile is one a cast yields, is not the player, and prints as a char that is not whitespace. */
  ghost predicate Printable(m: Map, w: nat, h: nat)
    requires Shaped(m, w, h)
  {
    forall x, y :: 0 <= x < w && 0 <= y < h ==> IsCast(m[x][y]) && m[x][y] != Player && !IsBlank(ToChar(m[x][y]))
  }

  /** The map that a level text of at least h * w tiles loads: its tiles cast and cleared of the player, regrouped into columns. */
  function LevelMap(cs: string, w: nat, h: nat): (r: Map)
    requires h * w <= |cs|
    ensures Shaped(r, w, h)
  {
    RowStartIsProduct(h, w);
    Grid(Cleared(Tiles(cs[..h * w])), w, h)
  }

  lemma {:induction false} CharsAppend(a: seq<TileChar>, b: seq<TileChar>)
    ensures Chars(a + b) == Chars(a) + Chars(b)
  {
    assert forall i :: 0 <= i < |a + b| ==> Chars(a + b)[i] == (Chars(a) + Chars(b))[i];
  }

  /** A printed row of a printable map holds no whitespace. */
  lemma RowPrintable(m: Map, w: nat, h: nat, y: nat)
    requires Shaped(m, w, h) && y < h && Printable(m, w, h)
    ensures forall i :: 0 <= i < w ==> !IsBlank(Chars(RowOf(m, y, w))[i])
  {
    forall i | 0 <= i < w
      ensures !IsBlank(Chars(RowOf(m, y, w))[i])
    {
      assert Chars(RowOf(m, y, w))[i] == ToChar(m[i][y]);
    }
  }

  /** The printed rows up to row n, without whitespace, are those up to row n - 1 and then row n - 1's chars. */
  lemma BodyStep(m: Map, w: nat, h: nat, n: nat)
    requires Shaped(m, w, h) && 0 < n <= h && Printable(m, w, h)
    ensures NonBlank(Body(m, w, h, n)) == NonBlank(Body(m, w, h, n - 1)) + Chars(RowOf(m, n - 1, w))
  {
    var before := Body(m, w, h, n - 1);
    var row := Chars(RowOf(m, n - 1, w));
    NonBlankAppend(before + row, "\n");
    NonBlankAppend(before, row);
    assert NonBlank("\n") == [];
    RowPrintable(m, w, h, n - 1);
    NonBlankKeeps(row);
  }

  /** The chars of the first n rows are those of the first n - 1 rows and then row n - 1's. */
  lemma RowsStep(m: Map, w: nat, h: nat, n: nat)
    requires Shaped(m, w, h) && 0 < n <= h
    ensures Chars(Rows(m, w, h, n)) == Chars(Rows(m, w, h, n - 1)) + Chars(RowOf(m, n - 1, w))
  {
    CharsAppend(Rows(m, w, h, n - 1), RowOf(m, n - 1, w));
  }

  /** Reading the first n printed rows back without their whitespace gives the chars of the first n rows of the listing. */
  ghost predicate ReadsBack(m: Map, w: nat, h: nat, n: nat)
    requires Shaped(m, w, h) && n <= h
  {
    NonBlank(Body(m, w, h, n)) == Chars(Rows(m, w, h, n))
  }

  /** When the rows up to n - 1 read back, so do the rows up to n. */
  lemma ReadsBackStep(m: Map, w: nat, h: nat, n: nat)
    requires Shaped(m, w, h) && 0 < n <= h && Printable(m, w, h) && ReadsBack(m, w, h, n - 1)
    ensures ReadsBack(m, w, h, n)
  {
    BodyStep(m, w, h, n);
    RowsStep(m, w, h, n);
  }

  /** Reading the printed rows back without their whitespace gives the printed row-major listing. */
  lemma {:induction false} BodyReadsBack(m: Map, w: nat, h: nat, n: nat)
    requires Shaped(m, w, h) && n <= h && Printable(m, w, h)
    ensures ReadsBack(m, w, h, n)
  {
    if n > 0 {
      var k: nat := n - 1;
      BodyReadsBack(m, w, h, k);
      ReadsBackStep(m, w, h, k + 1);
    }
  }

  /** Tiles that a cast yields, none of them the player. */
  predicate Plain(ts: seq<TileChar>)
  {
    forall i :: 0 <= i < |ts| ==> IsCast(ts[i]) && ts[i] != Player
  }

  /** Casting the chars of cast tiles, none of them the player, and clearing the player gives the tiles back. */
  lemma CastBack(ts: seq<TileChar>)
    requires Plain(ts)
    ensures Cleared(Tiles(Chars(ts))) == ts
  {
    forall i | 0 <= i < |ts|
      ensures Cleared(Tiles(Chars(ts)))[i] == ts[i]
    {
      CharRoundTrip(ts[i]);
      assert Tiles(Chars(ts))[i] == FromChar(ToChar(ts[i]));
    }
  }

  /** The row-major listing of a printable map holds cast tiles and no player. */
  lemma RowsPrintable(m: Map, w: nat, h: nat)
    requires Shaped(m, w, h) && Printable(m, w, h)
    ensures Plain(Rows(m, w, h, h))
  {
    var ts := Rows(m, w, h, h);
    forall i | 0 <= i < |ts|
      ensures IsCast(ts[i]) && ts[i] != Player
    {
      var x, y := Decompose(i, w, h);
      RowsCell(m, w, h, h, x, y);
    }
  }

  /**
   * Printing a map and loading the printed text gives the map back: the
   * header reads back as the height and the width, and the rows, read
   * char by char without whitespace, load as the same map.
   */
  lemma ShowReadsBack(m: Map, w: nat, h: nat)
    requires Shaped(m, w, h) && Printable(m, w, h)
    ensures Value(Decimal(h)) == h && Value(Decimal(w)) == w
    ensures var cs := NonBlank(Body(m, w, h, h)); h * w <= |cs| && LevelMap(cs, w, h) == m
  {
    RowStartIsProduct(h, w);
    DecimalValue(h);
    DecimalValue(w);
    BodyReadsBack(m, w, h, h);
    var ts := Rows(m, w, h, h);
    var cs := NonBlank(Body(m, w, h, h));
    assert cs == Chars(ts);
    assert cs[..h * w] == cs;
    RowsPrintable(m, w, h);
    CastBack(ts);
    GridOfRows(m, w, h);
  }

  /** The counters a level keeps while it is read: boxes, storages, and boxes already stored. */
  datatype Tally = Tally(boxes: int, storages: int, stored: int)

  /** A box on storage counts as a box, as a storage and as stored. */
  function TallyOf(ts: seq<TileChar>): Tally
  {
    Tally(Count(ts, Box) + Count(ts, BoxStorage), Count(ts, Storage) + Count(ts, BoxStorage), Count(ts, BoxStorage))
  }

  /** Reading one more tile raises the counters its kind belongs to. */
  lemma TallySnoc(ts: seq<TileChar>, t: TileChar)
    ensures var a, b := TallyOf(ts), TallyOf(ts + [t]);
      b.boxes == a.boxes + (if t == Box || t == BoxStorage then 1 else 0) &&
      b.storages == a.storages + (if t == Storage || t == BoxStorage then 1 else 0) &&
      b.stored == a.stored + (if t == BoxStorage then 1 else 0)
  {
    CountSnoc(ts, t, Box);
    CountSnoc(ts, t, Storage);
    CountSnoc(ts, t, BoxStorage);
  }

  /** Where the player starts: the cell of the last player tile read, or (0, 0) when there is none. */
  function StartOf(ts: seq<TileChar>, w: nat): (r: UCoord)
    ensures Player !in ts ==> r == UCoord(0, 0)
    ensures Player in ts && 0 < w ==>
      r.x < w && RowStart(r.y, w) + r.x < |ts| && ts[RowStart(r.y, w) + r.x] == Player &&
      forall j :: RowStart(r.y, w) + r.x < j < |ts| ==> ts[j] != Player
  {
    match LastPlayer(ts)
    case None => UCoord(0, 0)
    case Some(q) =>
      if w == 0 then UCoord(0, 0) else
      var c := CellOf(q, w);
      RowStartIsProduct(c.y, w);
      UCoord(c.x, c.y)
  }

  /** Reading one more tile at linear index p = row * w + col: the player start moves there when it is the player. */
  lemma StartStep(ts: seq<TileChar>, w: nat, p: nat, row: nat, col: nat)
    requires p < |ts| && col < w && p == RowStart(row, w) + col
    ensures ts[..p + 1] == ts[..p] + [ts[p]]
    ensures StartOf(ts[..p + 1], w) == if ts[p] == Player then UCoord(col, row) else StartOf(ts[..p], w)
  {
    var s := ts[..p + 1];
    assert s[..|s| - 1] == ts[..p];
    RowStartIsProduct(row, w);
    DivUnique(p, w, row, col);
  }

  /** The first n tiles of ts, in row-major order, have been written into their cells. */
  ghost predicate Filled(m: Map, ts: seq<TileChar>, w: nat, h: nat, n: nat)
  {
    Shaped(m, w, h) && n <= |ts| &&
    forall x, y {:trigger m[x][y]} :: 0 <= x < w && 0 <= y < h && RowStart(y, w) + x < n ==>
      m[x][y] == ts[RowStart(y, w) + x]
  }

  /** Two cells of a row-major listing with w columns have different positions. */
  lemma {:induction false} CellsApart(x: int, y: nat, col: int, row: nat, w: nat)
    requires 0 <= x < w && 0 <= col < w && (x != col || y != row)
    ensures RowStart(y, w) + x != RowStart(row, w) + col
  {
    RowStartIsProduct(y, w);
    RowStartIsProduct(row, w);
    if RowStart(y, w) + x == RowStart(row, w) + col {
      DivUnique(y * w + x, w, y, x);
      DivUnique(y * w + x, w, row, col);
    }
  }

  /** Writing tile p = RowStart(row, w) + col into cell (col, row) fills the first p + 1 tiles. */
  lemma FillStep(m: Map, ts: seq<TileChar>, w: nat, h: nat, row: nat, col: nat, v: TileChar)
    requires row < h && col < w && Filled(m, ts, w, h, RowStart(row, w) + col) && RowStart(row, w) + col < |ts|
    requires v == ts[RowStart(row, w) + col]
    ensures Filled(m[col := m[col][row := v]], ts, w, h, RowStart(row, w) + col + 1)
  {
    var p := RowStart(row, w) + col;
    var m' := m[col := m[col][row := v]];
    assert Shaped(m', w, h);
    forall x, y {:trigger m'[x][y]} | 0 <= x < w && 0 <= y < h && RowStart(y, w) + x < p + 1
      ensures m'[x][y] == ts[RowStart(y, w) + x]
    {
      if x != col || y != row {
        CellsApart(x, y, col, row, w);
        assert m'[x][y] == m[x][y];
      }
    }
  }

  /** A map with all h rows filled is the grid of the listing. */
  lemma FilledGrid(m: Map, ts: seq<TileChar>, w: nat, h: nat)
    requires Filled(m, ts, w, h, RowStart(h, w))
    ensures m == Grid(ts, w, h)
  {
    var g := Grid(ts, w, h);
    forall x | 0 <= x < w
      ensures m[x] == g[x]
    {
      forall y | 0 <= y < h
        ensures m[x][y] == g[x][y]
      {
        RowStartMono(y, h, w);
        GridCell(ts, w, h, x, y);
      }
    }
  }

  /** What reading a level has built so far: the map, the player start and the counters. */
  datatype Reading = Reading(m: Map, start: UCoord, tally: Tally)

  /**
   * Reading tile t into the cell (col, row): a player tile is noted as the
   * start and leaves an empty tile behind, and the box and storage counters
   * go up by the kinds the tile belongs to.
   */
  function ReadInto(r: Reading, t: TileChar, row: nat, col: nat): (r': Reading)
    requires col < |r.m| && row < |r.m[col]|
    ensures |r'.m| == |r.m| && forall x :: 0 <= x < |r.m| ==> |r'.m[x]| == |r.m[x]|
  {
    Reading(r.m[col := r.m[col][row := if t == Player then Empty else t]],
            if t == Player then UCoord(col, row) else r.start,
            Tally(r.tally.boxes + (if t == Box || t == BoxStorage then 1 else 0),
                  r.tally.storages + (if t == Storage || t == BoxStorage then 1 else 0),
                  r.tally.stored + (if t == BoxStorage then 1 else 0)))
  }

  /** A new column of h tiles, each holding the zero char until the level is read into it. */
  function Unset(h: nat): (r: seq<TileChar>)
    ensures |r| == h
  {
    seq(h, _ => Other('\0'))
  }

  /** w new columns of h unset tiles each. */
  function Blank(w: nat, h: nat): (r: Map)
    ensures Shaped(r, w, h) && forall x :: 0 <= x < w ==> r[x] == Unset(h)
  {
    if w == 0 then [] else Blank(w - 1, h) + [Unset(h)]
  }

  /**
   * The reading after rows 0 to row - 1 of ts and the first col tiles of
   * row `row`, in the order the level lists them.
   */
  ghost function ReadUpTo(ts: seq<TileChar>, w: nat, h: nat, row: nat, col: nat): (r: Reading)
    requires row <= h && col <= w && (col > 0 ==> row < h) && RowStart(row, w) + col <= |ts|
    ensures Shaped(r.m, w, h)
    decreases row, col
  {
    if col > 0 then
      ReadInto(ReadUpTo(ts, w, h, row, col - 1), ts[RowStart(row, w) + (col - 1)], row, col - 1)
    else if row > 0 then
      ReadUpTo(ts, w, h, row - 1, w)
    else
      Reading(Blank(w, h), UCoord(0, 0), Tally(0, 0, 0))
  }

  /** Reading the tiles in the level's order fills the cells of the tiles read so far with the cleared tiles. */
  lemma {:induction false} ReadUpToFilled(ts: seq<TileChar>, w: nat, h: nat, row: nat, col: nat)
    requires row <= h && col <= w && (col > 0 ==> row < h) && RowStart(row, w) + col <= |ts|
    ensures Filled(ReadUpTo(ts, w, h, row, col).m, Cleared(ts), w, h, RowStart(row, w) + col)
    decreases row, col
  {
    if col > 0 {
      ReadUpToFilled(ts, w, h, row, col - 1);
      var m := ReadUpTo(ts, w, h, row, col - 1).m;
      var t := ts[RowStart(row, w) + (col - 1)];
      var v := if t == Player then Empty else t;
      assert Cleared(ts)[RowStart(row, w) + (col - 1)] == v;
      FillStep(m, Cleared(ts), w, h, row, col - 1, v);
      assert ReadUpTo(ts, w, h, row, col).m == m[col - 1 := m[col - 1][row := v]];
    } else if row > 0 {
      ReadUpToFilled(ts, w, h, row - 1, w);
    }
  }

  /** Reading tile n = row * w + col moves the start there exactly when it is the player. */
  lemma StartOfStep(r: Reading, ts: seq<TileChar>, w: nat, n: nat, row: nat, col: nat)
    requires n < |ts| && col < w && n == RowStart(row, w) + col
    requires col < |r.m| && row < |r.m[col]| && r.start == StartOf(ts[..n], w)
    ensures ReadInto(r, ts[n], row, col).start == StartOf(ts[..n + 1], w)
  {
    StartStep(ts, w, n, row, col);
  }

  /** Reading the tiles in the level's order keeps the start at the last player tile read, in 32-bit range. */
  lemma {:induction false} ReadUpToStart(ts: seq<TileChar>, w: nat, h: nat, row: nat, col: nat)
    requires w < Unsigned32 && h < Unsigned32
    requires row <= h && col <= w && (col > 0 ==> row < h) && RowStart(row, w) + col <= |ts|
    ensures var r := ReadUpTo(ts, w, h, row, col);
      IsU32(r.start) && r.start == StartOf(ts[..RowStart(row, w) + col], w)
    decreases row, col
  {
    if col > 0 {
      ReadUpToStart(ts, w, h, row, col - 1);
      StartOfStep(ReadUpTo(ts, w, h, row, col - 1), ts, w, RowStart(row, w) + (col - 1), row, col - 1);
    } else if row > 0 {
      ReadUpToStart(ts, w, h, row - 1, w);
    } else {
      assert ts[..0] == [];
    }
  }

  /** Reading tile n raises the counters as the tally of the tiles up to n. */
  lemma TallyStep(r: Reading, ts: seq<TileChar>, n: nat, row: nat, col: nat)
    requires n < |ts| && col < |r.m| && row < |r.m[col]| && r.tally == TallyOf(ts[..n])
    ensures ReadInto(r, ts[n], row, col).tally == TallyOf(ts[..n + 1])
  {
    assert ts[..n + 1] == ts[..n] + [ts[n]];
    TallySnoc(ts[..n], ts[n]);
  }

  /** Reading the tiles in the level's order keeps the counters equal to the tally of the tiles read. */
  lemma {:induction false} ReadUpToTally(ts: seq<TileChar>, w: nat, h: nat, row: nat, col: nat)
    requires row <= h && col <= w && (col > 0 ==> row < h) && RowStart(row, w) + col <= |ts|
    ensures ReadUpTo(ts, w, h, row, col).tally == TallyOf(ts[..RowStart(row, w) + col])
    decreases row, col
  {
    if col > 0 {
      ReadUpToTally(ts, w, h, row, col - 1);
      TallyStep(ReadUpTo(ts, w, h, row, col - 1), ts, RowStart(row, w) + (col - 1), row, col - 1);
    } else if row > 0 {
      ReadUpToTally(ts, w, h, row - 1, w);
    } else {
      assert ts[..0] == [];
    }
  }

  /** Once every tile is read, the map holds the cleared level. */
  lemma ReadAllMap(ts: seq<TileChar>, w: nat, h: nat)
    requires |ts| == RowStart(h, w)
    ensures ReadUpTo(ts, w, h, h, 0).m == Grid(Cleared(ts), w, h)
  {
    ReadUpToFilled(ts, w, h, h, 0);
    FilledGrid(ReadUpTo(ts, w, h, h, 0).m, Cleared(ts), w, h);
  }

  /** Once every tile is read, the start is the level's, in 32-bit range. */
  lemma ReadAllStart(ts: seq<TileChar>, w: nat, h: nat)
    requires w < Unsigned32 && h < Unsigned32 && |ts| == RowStart(h, w)
    ensures var r := ReadUpTo(ts, w, h, h, 0);
      IsU32(r.start) && r.start == StartOf(ts, w)
  {
    ReadUpToStart(ts, w, h, h, 0);
    assert ts[..|ts|] == ts;
  }

  /** Once every tile is read, the counters are the level's tally. */
  lemma ReadAllTally(ts: seq<TileChar>, w: nat, h: nat)
    requires |ts| == RowStart(h, w)
    ensures ReadUpTo(ts, w, h, h, 0).tally == TallyOf(ts)
  {
    ReadUpToTally(ts, w, h, h, 0);
    assert ts[..|ts|] == ts;
  }
}
