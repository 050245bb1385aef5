/**
 * The scoring shared by every edit-distance strategy of the course project:
 * a gap costs 2, a matched pair costs 0 and a mismatched pair costs 1.
 */
module AbstractEDistance {

  /** Cost of aligning one symbol against a gap. */
  const GapCost: nat := 2

  /** Cost of aligning two symbols with each other: 0 when equal, 1 otherwise. */
  function Penalty(a: char, b: char): (r: nat)
    ensures r <= 1
    ensures r == 0 <==> a == b
  {
    if a == b then 0 else 1
  }

  lemma {:induction false} PenaltySymmetric(a: char, b: char)
    ensures Penalty(a, b) == Penalty(b, a)
  {
  }

  /** The smallest of three values, picked the way the project's `min3` picks it. */
  function Min3(a: int, b: int, c: int): (r: int)
    ensures r <= a && r <= b && r <= c
    ensures r == a || r == b || r == c
  {
    if a > b then (if c < b then c else b) else (if c < a then c else a)
  }

  /** The fixed values the project's unit tests pin down for `penalty` and `min3`. */
  lemma {:induction false} ScoringFixtures()
    ensures Penalty('a', 'a') == 0 && Penalty('a', 'B') == 1
    ensures Min3(5, 4, 3) == 3 && Min3(9, 12, 9) == 9
    ensures Min3(-3, 6, 0) == -3 && Min3(7, 7, 7) == 7
  {
  }
}
