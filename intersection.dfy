/**
 * An intersection: a square box, four stop lines fixed 12 units outside its
 * edges, and one light per incoming direction (`Game.Intersection`).
 */
module Crossings {
  import opened Basics
  import opened Lights
  import opened Cars

  /** Distance of each stop line from the box edge it guards. */
  const StopMargin := 12

  datatype Intersection = Intersection(
    cx: int, cy: int, size: int,
    stopUp: int, stopDown: int, stopLeft: int, stopRight: int,
    north: Light, east: Light, south: Light, west: Light)

  /**
   * The constructor: stop lines and light housings derived from the box. The box
   * is the one given, the stop lines sit where `StopLinesFixed` says, the housings
   * where `HousingsPlaced` says, and all four lights are RED and steady.
   */
  function NewIntersection(cx: int, cy: int, size: int): (r: Intersection)
    ensures r.cx == cx && r.cy == cy && r.size == size
    ensures StopLinesFixed(r) && HousingsPlaced(r) && LightsInv(r)
    ensures forall d :: LightFor(r, d).state == RED && !LightFor(r, d).transitioning
  {
    Intersection(
      cx, cy, size,
      cy + size + StopMargin, cy - StopMargin, cx + size + StopMargin, cx - StopMargin,
      NewLight(cx + JavaDiv(size, 2) - 15, cy - 80),
      NewLight(cx + size + 60, cy + JavaDiv(size, 2) - 15),
      NewLight(cx + JavaDiv(size, 2) - 15, cy + size + 45),
      NewLight(cx - 80, cy + JavaDiv(size, 2) - 15))
  }

  /** The stop lines sit where the constructor put them. */
  predicate StopLinesFixed(it: Intersection) {
    && it.stopUp == it.cy + it.size + StopMargin && it.stopDown == it.cy - StopMargin
    && it.stopLeft == it.cx + it.size + StopMargin && it.stopRight == it.cx - StopMargin
  }

  /** The four housings stand where the constructor put them, around the box. */
  predicate HousingsPlaced(it: Intersection) {
    && it.north.x == it.cx + JavaDiv(it.size, 2) - 15 && it.north.y == it.cy - 80
    && it.east.x == it.cx + it.size + 60 && it.east.y == it.cy + JavaDiv(it.size, 2) - 15
    && it.south.x == it.cx + JavaDiv(it.size, 2) - 15 && it.south.y == it.cy + it.size + 45
    && it.west.x == it.cx - 80 && it.west.y == it.cy + JavaDiv(it.size, 2) - 15
  }

  /**
   * The progress coordinate (on the scale of `Along`) of the box edge that traffic
   * travelling `dir` meets first.
   */
  function EntryEdge(it: Intersection, dir: Direction): int {
    match dir
    case UP => -(it.cy + it.size)
    case DOWN => it.cy
    case LEFT => -(it.cx + it.size)
    case RIGHT => it.cx
  }

  /** The housing `l` lies wholly outside the box, on the side that traffic travelling `dir` comes from. */
  predicate OnEntrySide(it: Intersection, dir: Direction, l: Light) {
    match dir
    case DOWN => l.y + Height <= it.cy
    case UP => l.y >= it.cy + it.size
    case RIGHT => l.x + Width <= it.cx
    case LEFT => l.x >= it.cx + it.size
  }

  /** The four lights keep the light invariant. */
  predicate LightsInv(it: Intersection) {
    Inv(it.north) && Inv(it.east) && Inv(it.south) && Inv(it.west)
  }

  /** `lightFor`: a car is governed by the light standing on the side it enters from. */
  function LightFor(it: Intersection, dir: Direction): (l: Light)
    ensures HousingsPlaced(it) && it.size >= 0 ==> OnEntrySide(it, dir, l)
  {
    match dir
    case DOWN => it.north
    case UP => it.south
    case RIGHT => it.west
    case LEFT => it.east
  }

  /** The stop line a car travelling `dir` must respect: 12 units before the edge it meets first. */
  function StopLineFor(it: Intersection, dir: Direction): (line: int)
    ensures StopLinesFixed(it) ==> LineAlong(dir, line) == EntryEdge(it, dir) - StopMargin
  {
    match dir
    case UP => it.stopUp
    case DOWN => it.stopDown
    case LEFT => it.stopLeft
    case RIGHT => it.stopRight
  }

  /** `updateLights`: all four lights advance by the same elapsed time. */
  function UpdateLights(it: Intersection, delta: int): (r: Intersection)
    ensures LightsInv(it) ==> LightsInv(r)
    ensures StopLinesFixed(it) ==> StopLinesFixed(r)
    ensures HousingsPlaced(it) ==> HousingsPlaced(r)
  {
    it.(north := Advanced(it.north, delta), east := Advanced(it.east, delta),
        south := Advanced(it.south, delta), west := Advanced(it.west, delta))
  }

  /** The four lights in the order the click handler tries them: north, east, south, west. */
  function Housings(it: Intersection): seq<Light> {
    [it.north, it.east, it.south, it.west]
  }

  /** Two intersections with the same box and the same stop lines; the lights may differ. */
  predicate SameFrame(a: Intersection, b: Intersection) {
    && a.cx == b.cx && a.cy == b.cy && a.size == b.size
    && a.stopUp == b.stopUp && a.stopDown == b.stopDown
    && a.stopLeft == b.stopLeft && a.stopRight == b.stopRight
  }

  /** The intersection with light number `k` of `Housings` replaced by `l`; nothing else changes. */
  function WithHousing(it: Intersection, k: nat, l: Light): (r: Intersection)
    requires k < 4
    ensures Housings(r) == Housings(it)[k := l]
    ensures SameFrame(r, it)
    ensures StopLinesFixed(it) ==> StopLinesFixed(r)
    ensures LightsInv(it) && Inv(l) ==> LightsInv(r)
  {
    if k == 0 then it.(north := l)
    else if k == 1 then it.(east := l)
    else if k == 2 then it.(south := l)
    else it.(west := l)
  }

  /** `carInside`: strictly inside the box. A car inside has passed the edge its traffic enters by. */
  predicate CarInside(it: Intersection, c: CarState)
    ensures CarInside(it, c) ==> Along(c) > EntryEdge(it, c.dir)
  {
    c.x > it.cx && c.x < it.cx + it.size && c.y > it.cy && c.y < it.cy + it.size
  }

  /**
   * A new intersection puts every stop line 12 units beyond the box edge that the
   * traffic it governs meets first, and starts with four RED lights.
   */
  lemma NewIntersectionGeometry(cx: int, cy: int, size: int)
    ensures var it := NewIntersection(cx, cy, size);
      && it.cx == cx && it.cy == cy && it.size == size && StopLinesFixed(it)
      && LineAlong(UP, StopLineFor(it, UP)) == -(cy + size) - StopMargin
      && LineAlong(DOWN, StopLineFor(it, DOWN)) == cy - StopMargin
      && LineAlong(LEFT, StopLineFor(it, LEFT)) == -(cx + size) - StopMargin
      && LineAlong(RIGHT, StopLineFor(it, RIGHT)) == cx - StopMargin
      && LightsInv(it)
      && forall d :: LightFor(it, d).state == RED && !LightFor(it, d).transitioning
  {
  }

  /**
   * Each direction's governing light is the one `updateLights` advanced: looking a
   * light up after the update is the same as advancing the light looked up before.
   * Geometry and stop lines are untouched.
   */
  lemma UpdateLightsPerDirection(it: Intersection, delta: int, dir: Direction)
    ensures LightFor(UpdateLights(it, delta), dir) == Advanced(LightFor(it, dir), delta)
    ensures StopLineFor(UpdateLights(it, delta), dir) == StopLineFor(it, dir)
    ensures var r := UpdateLights(it, delta); r.cx == it.cx && r.cy == it.cy && r.size == it.size
  {
  }

  /**
   * A car on the approach side of its stop line (not yet at or past it) is outside
   * the box, so the box only ever holds cars that have crossed their line.
   */
  lemma ApproachSideIsOutside(it: Intersection, c: CarState)
    requires StopLinesFixed(it)
    requires Along(c) <= LineAlong(c.dir, StopLineFor(it, c.dir))
    ensures !CarInside(it, c)
  {
  }
}
