/**
 * The text form every ps5 `alignment` produces: one line per column,
 * "<x> <y> <cost>\n", with '-' standing for a gap.
 */
module AlignmentText {
  import opened AbstractEDistance
  import opened Alignments

  const Gap: char := '-'

  /** The decimal digit of a column cost (a cost is 0, 1 or 2). */
  function Digit(n: nat): char
    requires n <= 9
  {
    (n + '0' as int) as char
  }

  function Line(a: char, b: char, cost: nat): string
    requires cost <= 9
  {
    [a, ' ', b, ' ', Digit(cost), '\n']
  }

  function TopChar(c: Column): char {
    if c.BottomOnly? then Gap else c.top
  }

  function BottomChar(c: Column): char {
    if c.TopOnly? then Gap else c.bottom
  }

  function RenderColumn(c: Column): string {
    Line(TopChar(c), BottomChar(c), ColumnCost(c))
  }

  /** The whole printed alignment. */
  function Render(al: seq<Column>): string {
    if al == [] then "" else RenderColumn(al[0]) + Render(al[1..])
  }

  lemma {:induction false} RenderAppend(al: seq<Column>, c: Column)
    ensures Render(al + [c]) == Render(al) + RenderColumn(c)
    decreases |al|
  {
    if al == [] {
      assert [c][1..] == [];
    } else {
      assert (al + [c])[1..] == al[1..] + [c];
      RenderAppend(al[1..], c);
    }
  }

  /** The first printed column, gaps included. */
  function TopChars(al: seq<Column>): seq<char> {
    if al == [] then [] else [TopChar(al[0])] + TopChars(al[1..])
  }

  /** The second printed column, gaps included. */
  function BottomChars(al: seq<Column>): seq<char> {
    if al == [] then [] else [BottomChar(al[0])] + BottomChars(al[1..])
  }

  function DropGaps(s: seq<char>): seq<char> {
    if s == [] then [] else (if s[0] == Gap then [] else [s[0]]) + DropGaps(s[1..])
  }

  /**
   * The printed text has six characters per column, and line k shows
   * column k: its two symbols (or gaps) and its cost.
   */
  lemma {:induction false} RenderLines(al: seq<Column>)
    ensures |Render(al)| == 6 * |al|
    ensures forall k :: 0 <= k < |al| ==> Render(al)[6 * k..6 * k + 6] == RenderColumn(al[k])
    decreases |al|
  {
    if al != [] {
      RenderLines(al[1..]);
      var head, tail := RenderColumn(al[0]), Render(al[1..]);
      forall k | 0 <= k < |al|
        ensures Render(al)[6 * k..6 * k + 6] == RenderColumn(al[k])
      {
        if k > 0 {
          assert Render(al)[6 * k..6 * k + 6] == tail[6 * (k - 1)..6 * (k - 1) + 6];
        }
      }
    }
  }

  /**
   * When the strings contain no '-' themselves, dropping the gaps from the
   * first printed column gives back the first string, and from the second
   * printed column the second string.
   */
  lemma {:induction false} GapsDropToStrings(al: seq<Column>)
    requires Gap !in Top(al) && Gap !in Bottom(al)
    ensures DropGaps(TopChars(al)) == Top(al)
    ensures DropGaps(BottomChars(al)) == Bottom(al)
    decreases |al|
  {
    if al != [] {
      assert Top(al) == TopOf(al[0]) + Top(al[1..]);
      assert Bottom(al) == BottomOf(al[0]) + Bottom(al[1..]);
      GapsDropToStrings(al[1..]);
      assert TopChars(al)[1..] == TopChars(al[1..]);
      assert BottomChars(al)[1..] == BottomChars(al[1..]);
    }
  }
}
