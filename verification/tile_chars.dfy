/**
 * The characters of a Sokoban level file and the four directions a player
 * can face. A tile character is cast straight from the level's char, so
 * any other char is kept as it is.
 */
module TileChars {
  import opened Wrappers

  datatype Direction = Up | Down | Left | Right

  datatype TileChar = Player | Empty | Wall | Box | Storage | BoxStorage | Other(c: char)

  function ToChar(t: TileChar): char
  {
    match t
    case Player => '@'
    case Empty => '.'
    case Wall => '#'
    case Box => 'A'
    case Storage => 'a'
    case BoxStorage => '1'
    case Other(c) => c
  }

  /** The tile character a level char stands for; casting it back gives the same char. */
  function FromChar(c: char): (t: TileChar)
    ensures ToChar(t) == c
    ensures t.Other? <==> c !in {'@', '.', '#', 'A', 'a', '1'}
  {
    match c
    case '@' => Player
    case '.' => Empty
    case '#' => Wall
    case 'A' => Box
    case 'a' => Storage
    case '1' => BoxStorage
    case _ => Other(c)
  }

  /** A tile character that the cast can produce. */
  predicate IsCast(t: TileChar)
  {
    t.Other? ==> t.c !in {'@', '.', '#', 'A', 'a', '1'}
  }

  /** Every tile character the cast can produce comes back from its char. */
  lemma CharRoundTrip(t: TileChar)
    requires IsCast(t)
    ensures FromChar(ToChar(t)) == t
  {
  }

  /** How many tiles of a kind the grid holds. */
  function Count(grid: seq<TileChar>, t: TileChar): nat
  {
    multiset(grid)[t]
  }

  /** Rewriting one tile takes one away from the old kind's count and adds one to the new kind's. */
  lemma UpdateCount(s: seq<TileChar>, i: nat, v: TileChar, t: TileChar)
    requires i < |s|
    ensures Count(s[i := v], t) == Count(s, t) - (if s[i] == t then 1 else 0) + (if v == t then 1 else 0)
  {
    assert s == s[..i] + [s[i]] + s[i + 1..];
    assert s[i := v] == s[..i] + [v] + s[i + 1..];
  }

  /** Appending one tile adds one to its own kind's count and nothing to the others. */
  lemma CountSnoc(s: seq<TileChar>, x: TileChar, t: TileChar)
    ensures Count(s + [x], t) == Count(s, t) + if x == t then 1 else 0
  {
  }

  /** Two grids one after the other hold the tiles of both. */
  lemma CountAppend(s: seq<TileChar>, u: seq<TileChar>, t: TileChar)
    ensures Count(s + u, t) == Count(s, t) + Count(u, t)
  {
    assert multiset(s + u) == multiset(s) + multiset(u);
  }

  /** The level with every player tile turned into an empty tile. */
  function Cleared(s: seq<TileChar>): (r: seq<TileChar>)
    ensures |r| == |s|
    ensures forall i :: 0 <= i < |s| ==> r[i] == if s[i] == Player then Empty else s[i]
  {
    if s == [] then [] else Cleared(s[..|s| - 1]) + [if s[|s| - 1] == Player then Empty else s[|s| - 1]]
  }

  /** The index of the last player tile of the level, in row-major order. */
  function LastPlayer(s: seq<TileChar>): (r: Option<nat>)
    ensures r.None? <==> Player !in s
    ensures r.Some? ==> r.value < |s| && s[r.value] == Player && forall j :: r.value < j < |s| ==> s[j] != Player
  {
    if s == [] then None
    else if s[|s| - 1] == Player then Some(|s| - 1)
    else
      var r := LastPlayer(s[..|s| - 1]);
      assert Player in s ==> Player in s[..|s| - 1] by {
        if Player in s {
          var k :| 0 <= k < |s| && s[k] == Player;
          assert s[..|s| - 1][k] == Player;
        }
      }
      r
  }

  /** Clearing the player tiles leaves no player tile and the other counts as they were. */
  lemma {:induction false} ClearedCounts(s: seq<TileChar>, t: TileChar)
    ensures Count(Cleared(s), Player) == 0
    ensures t != Player && t != Empty ==> Count(Cleared(s), t) == Count(s, t)
  {
    if s != [] {
      var init := s[..|s| - 1];
      ClearedCounts(init, t);
      assert s == init + [s[|s| - 1]];
    }
  }
}
