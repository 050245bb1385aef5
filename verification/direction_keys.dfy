/**
 * The key-state machine of the controllable sprite: four directions, each
 * with a key flag (the key is held) and a movement flag (the sprite moves
 * that way). Pressing a key makes its direction move unless the opposite
 * key is held; releasing it stops that direction and hands the movement to
 * the opposite direction when its key is still held.
 */
module DirectionKeys {

  /** The four orientations, in the order of their integer codes. */
  datatype Orientation = Up | Down | Left | Right

  /** The number of orientations, ORIENTAION_COUNT. */
  const OrientationCount: nat := 4

  /** The integer code of an orientation: its position in the enumeration. */
  function ToInt(d: Orientation): (r: nat)
    ensures r < OrientationCount
  {
    match d
    case Up => 0
    case Down => 1
    case Left => 2
    case Right => 3
  }

  /** The orientation with code i. */
  function FromInt(i: nat): (d: Orientation)
    requires i < OrientationCount
    ensures ToInt(d) == i
  {
    if i == 0 then Up else if i == 1 then Down else if i == 2 then Left else Right
  }

  /** Codes name orientations one to one. */
  lemma FromToInt(d: Orientation)
    ensures FromInt(ToInt(d)) == d
  {
  }

  /** The opposite direction: the orientation whose code differs in the lowest bit. */
  function Opposite(d: Orientation): Orientation
  {
    FromInt(((ToInt(d) as bv2) ^ 1) as nat)
  }

  /** Up and down are opposite, and so are left and right. */
  lemma OppositePairs()
    ensures Opposite(Up) == Down && Opposite(Down) == Up
    ensures Opposite(Left) == Right && Opposite(Right) == Left
  {
    assert (0 as bv2) ^ 1 == 1 && (1 as bv2) ^ 1 == 0;
    assert (2 as bv2) ^ 1 == 3 && (3 as bv2) ^ 1 == 2;
  }

  /** Taking the opposite twice gives the direction back, and no direction is its own opposite. */
  lemma OppositeInvolutive(d: Orientation)
    ensures Opposite(Opposite(d)) == d
    ensures Opposite(d) != d
  {
    OppositePairs();
  }

  /** The key and movement flags, one per orientation code. */
  datatype Keys = Keys(held: seq<bool>, moving: seq<bool>)

  /** Both flag rows have a slot per orientation. */
  predicate Sized(s: Keys)
  {
    |s.held| == OrientationCount && |s.moving| == OrientationCount
  }

  /** No key held and nothing moving: the state the sprite starts in. */
  function Released(): (s: Keys)
    ensures Sized(s)
  {
    Keys([false, false, false, false], [false, false, false, false])
  }

  /** `enableDirection`: holds key d, and moves towards d unless the opposite key is held. */
  function Press(s: Keys, d: Orientation): (r: Keys)
    requires Sized(s)
    ensures Sized(r)
  {
    var held := s.held[ToInt(d) := true];
    if !held[ToInt(Opposite(d))] then Keys(held, s.moving[ToInt(d) := true]) else Keys(held, s.moving)
  }

  /** `disableDirection`: releases key d and stops d, then moves the opposite way if that key is held. */
  function Release(s: Keys, d: Orientation): (r: Keys)
    requires Sized(s)
    ensures Sized(r)
  {
    var held, moving := s.held[ToInt(d) := false], s.moving[ToInt(d) := false];
    if held[ToInt(Opposite(d))] then Keys(held, moving[ToInt(Opposite(d)) := true]) else Keys(held, moving)
  }

  /**
   * The invariant the key handlers keep: a direction moves only while its
   * key is held, a direction and its opposite never move together, and
   * while either key of an axis is held one direction of that axis moves.
   */
  predicate Steady(s: Keys)
  {
    Sized(s) &&
    (forall d :: s.moving[ToInt(d)] ==> s.held[ToInt(d)]) &&
    (forall d :: !(s.moving[ToInt(d)] && s.moving[ToInt(Opposite(d))])) &&
    (forall d :: s.held[ToInt(d)] ==> s.moving[ToInt(d)] || s.moving[ToInt(Opposite(d))])
  }

  /** The start is steady. */
  lemma ReleasedSteady()
    ensures Steady(Released())
  {
  }

  /** Pressing any key keeps the invariant. */
  lemma PressKeepsSteady(s: Keys, d: Orientation)
    requires Steady(s)
    ensures Steady(Press(s, d))
  {
    var r := Press(s, d);
    forall e
      ensures r.moving[ToInt(e)] ==> r.held[ToInt(e)]
      ensures !(r.moving[ToInt(e)] && r.moving[ToInt(Opposite(e))])
      ensures r.held[ToInt(e)] ==> r.moving[ToInt(e)] || r.moving[ToInt(Opposite(e))]
    {
      OppositeInvolutive(e);
      OppositeInvolutive(d);
      PressedSlots(s, d, e);
    }
  }

  /** The flags of e after pressing d: only d's slots change. */
  lemma PressedSlots(s: Keys, d: Orientation, e: Orientation)
    requires Sized(s)
    ensures var r := Press(s, d);
      r.held[ToInt(e)] == (e == d || s.held[ToInt(e)]) &&
      r.moving[ToInt(e)] == ((e == d && !s.held[ToInt(Opposite(d))]) || s.moving[ToInt(e)])
  {
    FromToInt(e);
    FromToInt(d);
    OppositeInvolutive(d);
  }

  /** Releasing any key keeps the invariant. */
  lemma ReleaseKeepsSteady(s: Keys, d: Orientation)
    requires Steady(s)
    ensures Steady(Release(s, d))
  {
    var r := Release(s, d);
    forall e
      ensures r.moving[ToInt(e)] ==> r.held[ToInt(e)]
      ensures !(r.moving[ToInt(e)] && r.moving[ToInt(Opposite(e))])
      ensures r.held[ToInt(e)] ==> r.moving[ToInt(e)] || r.moving[ToInt(Opposite(e))]
    {
      OppositeInvolutive(e);
      OppositeInvolutive(d);
      ReleasedSlots(s, d, e);
      ReleasedSlots(s, d, Opposite(e));
    }
  }

  /** The flags of e after releasing d: d stops, and its opposite moves if its key is held. */
  lemma ReleasedSlots(s: Keys, d: Orientation, e: Orientation)
    requires Sized(s)
    ensures var r := Release(s, d);
      r.held[ToInt(e)] == (e != d && s.held[ToInt(e)]) &&
      r.moving[ToInt(e)] == (e != d && ((e == Opposite(d) && s.held[ToInt(e)]) || s.moving[ToInt(e)]))
  {
    FromToInt(e);
    FromToInt(d);
    OppositeInvolutive(d);
  }

  /**
   * Holding d and then pressing the opposite key keeps moving towards d;
   * releasing d afterwards turns the sprite round.
   */
  lemma HandOver(s: Keys, d: Orientation)
    requires Steady(s) && s.held[ToInt(d)] && !s.held[ToInt(Opposite(d))]
    ensures var pressed := Press(s, Opposite(d));
      pressed.moving[ToInt(d)] && !pressed.moving[ToInt(Opposite(d))] &&
      Release(pressed, d).moving[ToInt(Opposite(d))] && !Release(pressed, d).moving[ToInt(d)]
  {
    OppositeInvolutive(d);
    PressedSlots(s, Opposite(d), d);
    PressedSlots(s, Opposite(d), Opposite(d));
    var pressed := Press(s, Opposite(d));
    ReleasedSlots(pressed, d, d);
    ReleasedSlots(pressed, d, Opposite(d));
  }

  /**
   * The axis step `update` takes from the movement flags: the later of the
   * two flags of an axis wins, so down overrides up and right overrides left.
   */
  function AxisStep(negative: bool, positive: bool): (r: int)
    ensures -1 <= r <= 1
    ensures r == 1 <==> positive
    ensures r == -1 <==> negative && !positive
  {
    if positive then 1 else if negative then -1 else 0
  }

  /** In a steady state each axis step is exactly the direction moving along that axis. */
  lemma SteadySteps(s: Keys)
    requires Steady(s)
    ensures AxisStep(s.moving[ToInt(Up)], s.moving[ToInt(Down)]) ==
      (if s.moving[ToInt(Up)] then -1 else if s.moving[ToInt(Down)] then 1 else 0)
    ensures AxisStep(s.moving[ToInt(Left)], s.moving[ToInt(Right)]) ==
      (if s.moving[ToInt(Left)] then -1 else if s.moving[ToInt(Right)] then 1 else 0)
  {
    assert !(s.moving[ToInt(Up)] && s.moving[ToInt(Opposite(Up))]);
    assert !(s.moving[ToInt(Left)] && s.moving[ToInt(Opposite(Left))]);
    OppositePairs();
  }

  /** The sprite's key handling: the key and movement flags, one array slot per orientation. */
  class ControllableSprite {
    const keyState: array<bool>
    const movementState: array<bool>

    /** The flags as a value. */
    function State(): Keys
      reads this, keyState, movementState
    {
      Keys(keyState[..], movementState[..])
    }

    ghost predicate Valid()
      reads this, keyState, movementState
    {
      keyState != movementState && Steady(State())
    }

    /** Every flag starts false. */
    constructor()
      ensures Valid() && State() == Released()
    {
      keyState := new bool[OrientationCount](_ => false);
      movementState := new bool[OrientationCount](_ => false);
      new;
      assert keyState[..] == [false, false, false, false];
      assert movementState[..] == [false, false, false, false];
    }

    /** Handles a key press for direction d. */
    method EnableDirection(d: Orientation)
      modifies keyState, movementState
      requires Valid()
      ensures Valid() && State() == Press(old(State()), d)
    {
      keyState[ToInt(d)] := true;
      var opposite := Opposite(d);
      if !keyState[ToInt(opposite)] {
        movementState[ToInt(d)] := true;
      }
      PressKeepsSteady(old(State()), d);
    }

    /** Handles a key release for direction d. */
    method DisableDirection(d: Orientation)
      modifies keyState, movementState
      requires Valid()
      ensures Valid() && State() == Release(old(State()), d)
    {
      keyState[ToInt(d)] := false;
      movementState[ToInt(d)] := false;
      var opposite := Opposite(d);
      if keyState[ToInt(opposite)] {
        movementState[ToInt(opposite)] := true;
      }
      ReleaseKeepsSteady(old(State()), d);
    }

    /**
     * The direction choice of `update`: y is -1 for up and 1 for down, x is
     * -1 for left and 1 for right, a later flag overriding an earlier one;
     * `moves` is false when both are 0, where the position is left alone.
     */
    method Heading() returns (x: int, y: int, moves: bool)
      requires Valid()
      ensures y == AxisStep(movementState[ToInt(Up)], movementState[ToInt(Down)])
      ensures x == AxisStep(movementState[ToInt(Left)], movementState[ToInt(Right)])
      ensures moves <==> exists d :: movementState[ToInt(d)]
    {
      x, y := 0, 0;
      if movementState[ToInt(Up)] {
        y := -1;
      }
      if movementState[ToInt(Down)] {
        y := 1;
      }
      if movementState[ToInt(Left)] {
        x := -1;
      }
      if movementState[ToInt(Right)] {
        x := 1;
      }
      moves := !(x == 0 && y == 0);
      assert moves <==> movementState[ToInt(Up)] || movementState[ToInt(Down)] ||
                        movementState[ToInt(Left)] || movementState[ToInt(Right)];
    }
  }
}
