/**
 * Levels and spawning: the intersections a level is built with, and the car that
 * `spawnCar` adds, given the two random draws in [0, 1) it makes.
 *
 * Board sizes are scaled by integer percentages: `(int)(w * 0.28)` is `w * 28 / 100`
 * for the non-negative board widths used.
 */
module Spawning {
  import opened Basics
  import opened Cars
  import opened Crossings
  import opened Motion
  import opened Lanes

  /** Distance between the two boxes of level 2. */
  const BoxSpacing := 250
  /** Cars appear this far outside the board edge they enter from. */
  const SpawnMargin := 20

  /** The intersections `buildLevel` creates; levels other than 1 and 2 get none. */
  function LevelIntersections(lvl: int, width: nat, height: nat): (r: seq<Intersection>)
    ensures |r| == (if lvl == 1 || lvl == 2 then lvl else 0)
  {
    if lvl == 1 then
      var size := width * 28 / 100;
      [NewIntersection(width / 2 - size / 2, height / 2 - size / 2, size)]
    else if lvl == 2 then
      var size := width * 24 / 100;
      var cx1 := width / 2 - size - BoxSpacing / 2;
      var cx2 := width / 2 + BoxSpacing / 2;
      var cy := height / 2 - size / 2;
      [NewIntersection(cx1, cy, size), NewIntersection(cx2, cy, size)]
    else []
  }

  /** Every intersection has fixed stop lines and lights that keep the light invariant. */
  predicate WellFormed(its: seq<Intersection>) {
    forall k :: 0 <= k < |its| ==> StopLinesFixed(its[k]) && LightsInv(its[k])
  }

  /**
   * Level 1 has one intersection centred on the board; level 2 has two of equal
   * size on one row, the first left of the second with 250 units between them.
   * Every built intersection is well formed with all lights RED.
   */
  lemma LevelShape(lvl: int, width: nat, height: nat)
    ensures var its := LevelIntersections(lvl, width, height);
      && |its| == (if lvl == 1 || lvl == 2 then lvl else 0)
      && WellFormed(its)
      && (forall k, d :: 0 <= k < |its| ==> LightFor(its[k], d).state == RED)
      && (lvl == 2 ==> its[0].cx + its[0].size + BoxSpacing == its[1].cx
                       && its[0].cy == its[1].cy && its[0].size == its[1].size)
  {
    var its := LevelIntersections(lvl, width, height);
    if lvl == 1 {
      var size := width * 28 / 100;
      FreshIntersectionReady(width / 2 - size / 2, height / 2 - size / 2, size);
    } else if lvl == 2 {
      var size := width * 24 / 100;
      FreshIntersectionReady(width / 2 - size - BoxSpacing / 2, height / 2 - size / 2, size);
      FreshIntersectionReady(width / 2 + BoxSpacing / 2, height / 2 - size / 2, size);
      forall k | 0 <= k < 2 ensures StopLinesFixed(its[k]) && LightsInv(its[k]) {
        if k == 1 {
        }
      }
    }
  }

  /** A freshly built intersection is well formed and all its lights are RED. */
  lemma FreshIntersectionReady(cx: int, cy: int, size: int)
    ensures var it := NewIntersection(cx, cy, size);
      && StopLinesFixed(it) && LightsInv(it) && it.cx == cx && it.cy == cy && it.size == size
      && forall d :: LightFor(it, d).state == RED
  {
    NewIntersectionGeometry(cx, cy, size);
  }

  /**
   * The thresholds of the direction draw. The literals 0.45, 0.85 and 0.93 are
   * compared as IEEE 754 binary64 values, so each constant is the exact value of
   * the nearest double: 0.45 and 0.93 round up, 0.85 rounds down.
   */
  const UpBelow: real := 0.450000000000000011102230246251565404236316680908203125
  const DownBelow: real := 0.84999999999999997779553950749686919152736663818359375
  const LeftBelow: real := 0.93000000000000004884981308350688777863979339599609375

  /** The direction drawn from `r`: below 0.45 UP, below 0.85 DOWN, below 0.93 LEFT, else RIGHT. */
  function SpawnDirection(r: real): Direction {
    if r < UpBelow then UP
    else if r < DownBelow then DOWN
    else if r < LeftBelow then LEFT
    else RIGHT
  }

  /**
   * The direction bands follow the order of `Directions`: a larger draw never gives
   * an earlier direction, and each band is a half-open interval of draws.
   */
  lemma SpawnDirectionBands(r: real, r': real)
    ensures r <= r' ==> DirIndex(SpawnDirection(r)) <= DirIndex(SpawnDirection(r'))
    ensures SpawnDirection(r) == UP <==> r < UpBelow
    ensures SpawnDirection(r) == DOWN <==> UpBelow <= r < DownBelow
    ensures SpawnDirection(r) == LEFT <==> DownBelow <= r < LeftBelow
    ensures SpawnDirection(r) == RIGHT <==> LeftBelow <= r
    ensures r < 0.45 ==> SpawnDirection(r) == UP
    ensures SpawnDirection(0.85) == LEFT
  {
  }

  /**
   * `stream().max(comparingInt(cx))` over the first `n` intersections: the index of
   * the largest `cx`, the first one among equals (the reduction keeps its left
   * operand on ties).
   */
  function MaxCxIndex(its: seq<Intersection>, n: nat): (r: nat)
    requires 1 <= n <= |its|
    ensures r < n
    ensures forall k :: 0 <= k < n ==> its[k].cx <= its[r].cx
    ensures forall k :: 0 <= k < r ==> its[k].cx < its[r].cx
  {
    if n == 1 then 0
    else
      var best := MaxCxIndex(its, n - 1);
      if its[best].cx >= its[n - 1].cx then best else n - 1
  }

  /** `stream().min(comparingInt(cx))`: the first index of the smallest `cx`. */
  function MinCxIndex(its: seq<Intersection>, n: nat): (r: nat)
    requires 1 <= n <= |its|
    ensures r < n
    ensures forall k :: 0 <= k < n ==> its[r].cx <= its[k].cx
    ensures forall k :: 0 <= k < r ==> its[r].cx < its[k].cx
  {
    if n == 1 then 0
    else
      var best := MinCxIndex(its, n - 1);
      if its[best].cx <= its[n - 1].cx then best else n - 1
  }

  /**
   * The owner of a new car: UP and DOWN cars go to intersection `(int)(r2 * n)`,
   * LEFT cars (arriving from the right edge) to the right-most intersection and
   * RIGHT cars to the left-most one.
   */
  function SpawnOwner(its: seq<Intersection>, dir: Direction, r2: real): (ix: nat)
    requires |its| >= 1 && 0.0 <= r2 < 1.0
    ensures ix < |its|
  {
    match dir
    case UP => DrawIndex(r2, |its|)
    case DOWN => DrawIndex(r2, |its|)
    case LEFT => MaxCxIndex(its, |its|)
    case RIGHT => MinCxIndex(its, |its|)
  }

  /** `(int)(r * n)` for a draw `r` in [0, 1): a uniform pick among `n` indices. */
  function DrawIndex(r: real, n: nat): (k: nat)
    requires 0.0 <= r < 1.0 && n >= 1
    ensures k < n
  {
    var p := r * (n as real);
    assert 0.0 <= p < n as real by {
      assert r * (n as real) < 1.0 * (n as real);
    }
    p.Floor
  }

  /** Half the lane width: how far a lane's centre line is from the road's centre. */
  function LaneOffset(width: nat): int {
    width * 32 / 100 / 4
  }

  /**
   * Where a new car of direction `dir` owned by `it` appears: moving, travelling
   * `dir`, 20 units outside the edge it enters from.
   */
  function SpawnedCar(width: nat, height: nat, it: Intersection, dir: Direction): (c: CarState)
    ensures c.dir == dir && !c.stopped
    ensures Along(c) == (match dir
                         case UP => -(height + SpawnMargin)
                         case DOWN => -SpawnMargin
                         case LEFT => -(width + SpawnMargin)
                         case RIGHT => -SpawnMargin)
  {
    var off := LaneOffset(width);
    match dir
    case UP => CarState(it.cx + JavaDiv(it.size, 2) - off, height + SpawnMargin, UP, false)
    case DOWN => CarState(it.cx + JavaDiv(it.size, 2) + off, -SpawnMargin, DOWN, false)
    case LEFT => CarState(width + SpawnMargin, it.cy + JavaDiv(it.size, 2) - off, LEFT, false)
    case RIGHT => CarState(-SpawnMargin, it.cy + JavaDiv(it.size, 2) + off, RIGHT, false)
  }

  /** `spawnCar`: append one entry, direction from `r1`, owner from `r2`. */
  function Spawned(cars: seq<CarEntry>, its: seq<Intersection>, width: nat, height: nat, r1: real, r2: real)
    : (r: seq<CarEntry>)
    requires |its| >= 1 && 0.0 <= r2 < 1.0
    ensures OwnersValid(cars, |its|) ==> OwnersValid(r, |its|)
  {
    var dir := SpawnDirection(r1);
    var ix := SpawnOwner(its, dir, r2);
    cars + [CarEntry(SpawnedCar(width, height, its[ix], dir), ix)]
  }

  /**
   * Spawning appends exactly one entry and keeps the others: the new car travels
   * the drawn direction, is not stopped, starts 20 units outside the edge it enters
   * from, and is owned by a valid intersection, the right-most for LEFT and the
   * left-most for RIGHT.
   */
  lemma SpawnAppendsOne(cars: seq<CarEntry>, its: seq<Intersection>, width: nat, height: nat, r1: real, r2: real)
    requires |its| >= 1 && 0.0 <= r2 < 1.0
    requires OwnersValid(cars, |its|)
    ensures var r := Spawned(cars, its, width, height, r1, r2);
      && |r| == |cars| + 1 && r[..|cars|] == cars
      && OwnersValid(r, |its|)
      && var e := r[|cars|];
      && e.car.dir == SpawnDirection(r1) && !e.car.stopped
      && Along(e.car) == (match e.car.dir
                          case UP => -(height + SpawnMargin)
                          case DOWN => -SpawnMargin
                          case LEFT => -(width + SpawnMargin)
                          case RIGHT => -SpawnMargin)
      && (e.car.dir == LEFT ==> forall k :: 0 <= k < |its| ==> its[k].cx <= its[e.ix].cx)
      && (e.car.dir == RIGHT ==> forall k :: 0 <= k < |its| ==> its[e.ix].cx <= its[k].cx)
  {
  }

  /** On level 2, LEFT cars are given to the second intersection and RIGHT cars to the first. */
  lemma SpawnSidesOnLevelTwo(width: nat, height: nat, r2: real)
    requires 0.0 <= r2 < 1.0
    ensures var its := LevelIntersections(2, width, height);
      && SpawnOwner(its, LEFT, r2) == 1 && SpawnOwner(its, RIGHT, r2) == 0
  {
  }
}
