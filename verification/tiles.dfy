/** The tile-id vocabulary of the `icons` enumeration and the button codes of the
    `actions` enumeration, together with the agent's action values. */
module Tiles {

  // Tile ids. ARCHER is declared with the same value as PIPE, so it is an alias of it.
  const EMPTY: int := 0
  const MARIO: int := 1
  const POWERUP: int := 6
  const GROUND: int := 10
  const END_PLATFORM: int := 11
  const BLOCK: int := 12
  const ITEMBLOCK: int := 13
  const PIPE: int := 14
  const ARCHER: int := PIPE
  const GOOMBA: int := 15
  const KOOPA: int := 16
  const FLY: int := 18

  // Button codes: the index of the button in the controller's press/release tables.
  const DOWN_ARROW: int := 0
  const LEFT_ARROW: int := 1
  const RIGHT_ARROW: int := 2
  const UP_ARROW: int := 3
  const BUTTON_A: int := 4
  const BUTTON_B: int := 5

  /** What the decision code returns: a bare int (one button) or a tuple
      (several buttons pressed together for the same hold period). */
  datatype Action = Single(code: int) | Combo(codes: seq<int>)

  /** The button codes an action presses, in press order; a bare int becomes
      a one-element list. */
  function Buttons(a: Action): seq<int> {
    match a
    case Single(c) => [c]
    case Combo(cs) => cs
  }

  /** Every code is an index the six-entry button tables accept. */
  predicate ValidCodes(bs: seq<int>) {
    forall k :: 0 <= k < |bs| ==> -6 <= bs[k] < 6
  }

  predicate ValidAction(a: Action) {
    ValidCodes(Buttons(a))
  }
}
