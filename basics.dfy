/** Enumerations shared by the whole simulation, and Java's integer division. */
module Basics {

  /** The fixed travel direction of a car. */
  datatype Direction = UP | DOWN | LEFT | RIGHT

  /** The three aspects of a traffic light. */
  datatype TrafficLightState = RED | YELLOW | GREEN

  /** The order in which `Direction.values()` enumerates the directions. */
  const Directions: seq<Direction> := [UP, DOWN, LEFT, RIGHT]

  /** Java's `/` on `int`: the quotient is truncated toward zero. */
  function JavaDiv(a: int, b: int): int
    requires b > 0
  {
    if a >= 0 then a / b else -((-a) / b)
  }
}
