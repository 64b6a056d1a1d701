/** The two axes of the screen and the four directions along them. */
module Directions {

  datatype Axis = Horizontal | Vertical

  datatype Direction = Left | Right | Up | Down

  function Across(a: Axis): Axis {
    if a == Horizontal then Vertical else Horizontal
  }

  function AxisOf(d: Direction): Axis {
    if d == Left || d == Right then Horizontal else Vertical
  }

  predicate Forward(d: Direction) {
    d == Right || d == Down
  }
}
