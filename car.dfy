/**
 * A car: a position, a fixed direction and speed, and a stopped flag; each tick it
 * either advances one speed-increment along its direction or freezes before a
 * stop line it has been told to respect.
 *
 * Positions are integers: they start at integer spawn points and only ever move by
 * the speed (2) or are snapped to 40 from another car.
 */
module Cars {
  import opened Basics

  const Speed := 2
  const Radius := 14
  /** How far outside the board a car may be before it is culled. */
  const BoundsMargin := 50

  datatype CarState = CarState(x: int, y: int, dir: Direction, stopped: bool)

  /** Progress along the travel axis: it grows as the car moves forward. */
  function Along(c: CarState): int {
    match c.dir
    case UP => -c.y
    case DOWN => c.y
    case LEFT => -c.x
    case RIGHT => c.x
  }

  /** The coordinate across the travel axis. */
  function Across(c: CarState): int {
    match c.dir
    case UP => c.x
    case DOWN => c.x
    case LEFT => c.y
    case RIGHT => c.y
  }

  /** A stop-line coordinate on the scale of `Along` for cars travelling `dir`. */
  function LineAlong(dir: Direction, stopLine: int): int {
    match dir
    case UP => -stopLine
    case DOWN => stopLine
    case LEFT => -stopLine
    case RIGHT => stopLine
  }

  /** The next step would reach or cross the stop line. */
  predicate ReachesLine(c: CarState, stopLine: int) {
    match c.dir
    case UP => c.y - Speed <= stopLine
    case DOWN => c.y + Speed >= stopLine
    case LEFT => c.x - Speed <= stopLine
    case RIGHT => c.x + Speed >= stopLine
  }

  /** The car one speed-increment further along its direction. */
  function Advance(c: CarState): CarState {
    match c.dir
    case UP => c.(y := c.y - Speed)
    case DOWN => c.(y := c.y + Speed)
    case LEFT => c.(x := c.x - Speed)
    case RIGHT => c.(x := c.x + Speed)
  }

  /**
   * `update(shouldStop, stopLine)`: a car told to stop whose next step would reach
   * or cross the line freezes in place and is stopped; any other car is not stopped
   * and moves exactly one speed-increment forward, keeping its lane.
   */
  function Step(c: CarState, shouldStop: bool, stopLine: int): (r: CarState)
    ensures r.dir == c.dir && Across(r) == Across(c)
    ensures shouldStop && ReachesLine(c, stopLine) ==> r.stopped && r.x == c.x && r.y == c.y
    ensures !(shouldStop && ReachesLine(c, stopLine)) ==> !r.stopped && Along(r) == Along(c) + Speed
  {
    if shouldStop && ReachesLine(c, stopLine) then c.(stopped := true)
    else Advance(c.(stopped := false))
  }

  /** `ReachesLine` is the literal test "progress after one step is at or past the line". */
  lemma ReachesLineAlong(c: CarState, stopLine: int)
    ensures ReachesLine(c, stopLine) <==> Along(c) + Speed >= LineAlong(c.dir, stopLine)
  {
  }

  /**
   * A car told to stop that starts on the approach side of its stop line is still
   * on that side after the tick: the line is never passed.
   */
  lemma StopLineHeld(c: CarState, stopLine: int)
    ensures c.dir == UP && c.y >= stopLine ==> Step(c, true, stopLine).y >= stopLine
    ensures c.dir == DOWN && c.y <= stopLine ==> Step(c, true, stopLine).y <= stopLine
    ensures c.dir == LEFT && c.x >= stopLine ==> Step(c, true, stopLine).x >= stopLine
    ensures c.dir == RIGHT && c.x <= stopLine ==> Step(c, true, stopLine).x <= stopLine
  {
  }

  /** `isOutOfBounds`: more than the margin beyond any edge of the board. A car on the board is never out. */
  predicate OutOfBounds(c: CarState, boardW: int, boardH: int)
    ensures 0 <= c.x <= boardW && 0 <= c.y <= boardH ==> !OutOfBounds(c, boardW, boardH)
  {
    c.x < -BoundsMargin || c.x > boardW + BoundsMargin || c.y < -BoundsMargin || c.y > boardH + BoundsMargin
  }

  /**
   * Only a moving car leaves the board, and only across the edge it is heading
   * for: a car in bounds that is out of bounds after its update has moved past
   * the margin ahead of it.
   */
  lemma CulledOnlyAhead(c: CarState, shouldStop: bool, stopLine: int, boardW: int, boardH: int)
    requires !OutOfBounds(c, boardW, boardH)
    requires OutOfBounds(Step(c, shouldStop, stopLine), boardW, boardH)
    ensures var s := Step(c, shouldStop, stopLine);
      && !s.stopped
      && match c.dir
         case UP => s.y < -BoundsMargin
         case DOWN => s.y > boardH + BoundsMargin
         case LEFT => s.x < -BoundsMargin
         case RIGHT => s.x > boardW + BoundsMargin
  {
  }

  lemma SquareSign(d: int)
    ensures d * d >= 0
    ensures d != 0 ==> d * d > 0
  {
    if d > 0 {
      assert d * d >= d;
    } else if d < 0 {
      assert d * d == (-d) * (-d) >= -d;
    }
  }

  /** Squared distance between the two centres: never negative, and zero exactly for one spot. */
  function DistSq(a: CarState, b: CarState): (d: int)
    ensures d >= 0
    ensures d == 0 <==> a.x == b.x && a.y == b.y
  {
    SquareSign(a.x - b.x);
    SquareSign(a.y - b.y);
    (a.x - b.x) * (a.x - b.x) + (a.y - b.y) * (a.y - b.y)
  }

  /** `collidesWith`: the centres are closer than the two radii together. Two cars on one spot collide. */
  predicate Collides(a: CarState, b: CarState)
    ensures a.x == b.x && a.y == b.y ==> Collides(a, b)
  {
    DistSq(a, b) < (Radius + Radius) * (Radius + Radius)
  }

  lemma CollidesSymmetric(a: CarState, b: CarState)
    ensures Collides(a, b) == Collides(b, a)
  {
    assert (a.x - b.x) * (a.x - b.x) == (b.x - a.x) * (b.x - a.x);
    assert (a.y - b.y) * (a.y - b.y) == (b.y - a.y) * (b.y - a.y);
  }

  lemma SquareAtLeast(d: int, k: int)
    requires k >= 0
    requires d >= k || d <= -k
    ensures d * d >= k * k
  {
    if d >= k {
      assert d * d >= k * d >= k * k;
    } else {
      assert d * d == (-d) * (-d) >= k * (-d) >= k * k;
    }
  }

  /** Colliding cars are less than two radii apart on each axis. */
  lemma CollisionIsClose(a: CarState, b: CarState)
    requires Collides(a, b)
    ensures -(Radius + Radius) < a.x - b.x < Radius + Radius
    ensures -(Radius + Radius) < a.y - b.y < Radius + Radius
  {
    var dx, dy := a.x - b.x, a.y - b.y;
    assert dx * dx >= 0 && dy * dy >= 0;
    if dx >= Radius + Radius || dx <= -(Radius + Radius) {
      SquareAtLeast(dx, Radius + Radius);
    }
    if dy >= Radius + Radius || dy <= -(Radius + Radius) {
      SquareAtLeast(dy, Radius + Radius);
    }
  }

  /** `isBeforeIntersection`, with the argument each direction reads, as written. */
  predicate BeforeIntersection(c: CarState, stopX1: int, stopY1: int, stopX2: int, stopY2: int) {
    match c.dir
    case UP => c.y > stopX2
    case DOWN => c.y < stopY1
    case LEFT => c.x > stopY2
    case RIGHT => c.x < stopX1
  }

  /**
   * `isBeforeIntersection` reads one bound per direction (UP the third argument,
   * DOWN the second, LEFT the fourth, RIGHT the first) and holds exactly when the
   * car's progress has not yet reached that bound.
   */
  lemma BeforeIntersectionReadsOneBound(c: CarState, stopX1: int, stopY1: int, stopX2: int, stopY2: int)
    ensures BeforeIntersection(c, stopX1, stopY1, stopX2, stopY2) <==>
              Along(c) < LineAlong(c.dir, match c.dir
                                          case UP => stopX2
                                          case DOWN => stopY1
                                          case LEFT => stopY2
                                          case RIGHT => stopX1)
  {
  }

  /** The car object of src/Car.java; `View` is the value of its fields. */
  class Car {
    var x: int
    var y: int
    const dir: Direction
    var stopped: bool

    function View(): CarState
      reads this
    {
      CarState(x, y, dir, stopped)
    }

    constructor (x: int, y: int, dir: Direction)
      ensures View() == CarState(x, y, dir, false)
    {
      this.x := x;
      this.y := y;
      this.dir := dir;
      stopped := false;
    }

    method Update(shouldStop: bool, stopLine: int)
      modifies this
      ensures View() == Step(old(View()), shouldStop, stopLine)
    {
      if shouldStop {
        match dir
        case UP =>
          if y - Speed <= stopLine {
            stopped := true;
            return;
          }
        case DOWN =>
          if y + Speed >= stopLine {
            stopped := true;
            return;
          }
        case LEFT =>
          if x - Speed <= stopLine {
            stopped := true;
            return;
          }
        case RIGHT =>
          if x + Speed >= stopLine {
            stopped := true;
            return;
          }
      }
      stopped := false;
      match dir
      case UP => y := y - Speed;
      case DOWN => y := y + Speed;
      case LEFT => x := x - Speed;
      case RIGHT => x := x + Speed;
    }

    function IsOutOfBounds(boardW: int, boardH: int): (out: bool)
      reads this
      ensures 0 <= x <= boardW && 0 <= y <= boardH ==> !out
    {
      OutOfBounds(View(), boardW, boardH)
    }

    /** Symmetric: the answer is the same with the two cars swapped. */
    function CollidesWith(other: Car): (hit: bool)
      reads this, other
      ensures hit == Collides(other.View(), View())
    {
      CollidesSymmetric(View(), other.View());
      Collides(View(), other.View())
    }

    function IsBeforeIntersection(stopX1: int, stopY1: int, stopX2: int, stopY2: int): (before: bool)
      reads this
      ensures before <==> Along(View()) < LineAlong(dir, match dir
                                                       case UP => stopX2
                                                       case DOWN => stopY1
                                                       case LEFT => stopY2
                                                       case RIGHT => stopX1)
    {
      BeforeIntersectionReadsOneBound(View(), stopX1, stopY1, stopX2, stopY2);
      BeforeIntersection(View(), stopX1, stopY1, stopX2, stopY2)
    }

    function IsStopped(): (s: bool)
      reads this
      ensures s == View().stopped
    {
      stopped
    }

    method SetX(x: int)
      modifies this`x
      ensures View() == old(View()).(x := x)
    {
      this.x := x;
    }

    method SetY(y: int)
      modifies this`y
      ensures View() == old(View()).(y := y)
    {
      this.y := y;
    }

    method SetStopped(s: bool)
      modifies this`stopped
      ensures View() == old(View()).(stopped := s)
    {
      stopped := s;
    }
  }
}
