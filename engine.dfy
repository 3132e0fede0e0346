/**
 * The game object: its fields are updated in place by the stages of a tick, and
 * each method is proved to leave exactly the state the corresponding function of
 * `Simulation` describes.
 */
module Engine {
  import opened Basics
  import opened Lights
  import opened Crossings
  import opened Motion
  import opened Lanes
  import opened Jams
  import opened Collisions
  import opened Spawning
  import opened Simulation

  /** The game panel's simulation state. */
  class Game {
    const width: nat
    const height: nat
    var cars: seq<CarEntry>
    var intersections: seq<Intersection>
    var lastCarSpawn: int
    var level: int
    var levelStartTime: int
    var jamWarning: bool
    var lastUpdateTime: int

    function View(): World
      reads this
    {
      World(width, height, cars, intersections, lastCarSpawn, level, levelStartTime, jamWarning, lastUpdateTime)
    }

    ghost predicate Valid()
      reads this
    {
      WorldInv(View())
    }

    /** A new game at time `now`: level 1 built, no spawn yet. */
    constructor (width: nat, height: nat, now: int)
      ensures View() == World(width, height, [], LevelIntersections(1, width, height), 0, 1, now, false, now)
      ensures Valid()
    {
      this.width := width;
      this.height := height;
      cars := [];
      intersections := [];
      lastCarSpawn := 0;
      level := 1;
      levelStartTime := now;
      jamWarning := false;
      lastUpdateTime := now;
      new;
      BuildLevel(level, now);
      LevelShape(1, width, height);
    }

    method BuildLevel(lvl: int, now: int)
      modifies this
      ensures View() == Built(old(View()), lvl, now)
    {
      intersections := [];
      cars := [];
      levelStartTime := now;
      if lvl == 1 {
        var size := width * 28 / 100;
        var cx := width / 2 - size / 2;
        var cy := height / 2 - size / 2;
        intersections := intersections + [NewIntersection(cx, cy, size)];
      } else if lvl == 2 {
        var size := width * 24 / 100;
        var spacing := BoxSpacing;
        var cx1 := width / 2 - size - spacing / 2;
        var cy1 := height / 2 - size / 2;
        var cx2 := width / 2 + spacing / 2;
        var cy2 := height / 2 - size / 2;
        intersections := intersections + [NewIntersection(cx1, cy1, size)];
        intersections := intersections + [NewIntersection(cx2, cy2, size)];
      }
    }

    method NextLevel(now: int) returns (outcome: Outcome)
      requires Valid()
      modifies this
      ensures (View(), outcome) == LevelAdvanced(old(View()), now)
      ensures Valid()
    {
      if level == LastLevel {
        return Win;
      }
      level := level + 1;
      BuildLevel(level, now);
      LevelShape(2, width, height);
      outcome := Outcome.NextLevel;
    }

    method SpawnCar(r1: real, r2: real)
      requires Valid() && 0.0 <= r2 < 1.0
      modifies this
      ensures Valid()
      ensures View() == old(View()).(cars := Spawned(old(cars), old(intersections), width, height, r1, r2))
    {
      SpawnAppendsOne(cars, intersections, width, height, r1, r2);
      var dir := SpawnDirection(r1);
      var ix: nat;
      if dir == UP || dir == DOWN {
        ix := DrawIndex(r2, |intersections|);
      } else if dir == LEFT {
        ix := MaxCxIndex(intersections, |intersections|);
      } else {
        ix := MinCxIndex(intersections, |intersections|);
      }
      var car := SpawnedCar(width, height, intersections[ix], dir);
      cars := cars + [CarEntry(car, ix)];
    }

    /** The light stage: the clock read, then `updateLights(delta)` on every intersection, in order. */
    method AdvanceLights(now: int)
      requires Valid()
      modifies this
      ensures Valid()
      ensures View() == Lit(old(View()), now)
    {
      var delta := now - lastUpdateTime;
      lastUpdateTime := now;
      var its := intersections;
      for k := 0 to |its|
        invariant |its| == |intersections|
        invariant forall m :: 0 <= m < k ==> its[m] == UpdateLights(intersections[m], delta)
        invariant forall m :: k <= m < |its| ==> its[m] == intersections[m]
      {
        its := its[k := UpdateLights(its[k], delta)];
      }
      assert its == LightsAdvanced(intersections, delta);
      intersections := its;
    }

    /** The spawn stage: a car every 1200 ms. */
    method SpawnIfDue(now: int, r1: real, r2: real)
      requires Valid() && 0.0 <= r2 < 1.0
      modifies this
      ensures Valid()
      ensures View() == SpawnDue(old(View()), now, r1, r2)
    {
      if now - lastCarSpawn >= SpawnInterval {
        SpawnCar(r1, r2);
        lastCarSpawn := now;
      }
    }

    /** The move-and-cull, handoff and lane-spacing stages. */
    method MoveCars()
      requires Valid()
      modifies this
      ensures Valid()
      ensures View() == CarStages(old(View()))
    {
      ghost var w := View();
      cars := MoveAndCull(intersections, cars, width, height);
      cars := HandOff(intersections, cars);
      cars := EnforceSpacing(cars, |intersections|);
      assert cars == CarsMoved(intersections, w.cars, width, height);
      assert View() == w.(cars := cars);
    }

    /** Jam detection, collision detection and the level clock: the end of `update()`. */
    method Judge(now: int) returns (outcome: Outcome)
      requires Valid()
      modifies this
      ensures Valid()
      ensures (View(), outcome) == Concluded(old(View()), now)
    {
      jamWarning := false;
      var jam, warn := ScanJams(cars, intersections);
      jamWarning := warn;
      if jam {
        return Jam;
      }
      var hit := FindCollision(cars, intersections);
      if hit {
        return Collision;
      }
      if now - levelStartTime >= SurviveDuration {
        outcome := NextLevel(now);
        return;
      }
      return Continue;
    }

    /** `update()` at time `now`, with `r1` and `r2` the two draws a spawn would make. */
    method Tick(now: int, r1: real, r2: real) returns (outcome: Outcome)
      requires Valid() && 0.0 <= r2 < 1.0
      modifies this
      ensures Valid()
      ensures (View(), outcome) == TickResult(old(View()), now, r1, r2)
    {
      ghost var w := View();
      AdvanceLights(now);
      SpawnIfDue(now, r1, r2);
      MoveCars();
      outcome := Judge(now);
    }

    /**
     * The mouse handler: search the intersections in order and, in each, the lights
     * north, east, south, west; the first light whose housing contains the point
     * gets `requestChange` and the search ends.
     */
    method Click(mx: int, my: int)
      requires Valid()
      modifies this
      ensures Valid()
      ensures View() == Clicked(old(View()), mx, my)
    {
      var i := 0;
      while i < |intersections|
        invariant 0 <= i <= |intersections|
        invariant View() == old(View())
        invariant HitFrom(intersections, mx, my, 0, 0) == HitFrom(intersections, mx, my, i, 0)
      {
        var it := intersections[i];
        var lights := Housings(it);
        var k := 0;
        while k < 4
          invariant 0 <= k <= 4
          invariant View() == old(View())
          invariant HitFrom(intersections, mx, my, 0, 0) == HitFrom(intersections, mx, my, i, k)
        {
          if Covers(lights[k], mx, my) {
            intersections := intersections[i := WithHousing(it, k, Requested(lights[k]))];
            return;
          }
          k := k + 1;
        }
        i := i + 1;
      }
    }
  }
}
