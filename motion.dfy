/**
 * The first stages of a tick after the lights: every car moves once under its
 * owner's stop line and light, cars that left the board are dropped, and cars
 * crossing from one intersection's road to the next change owner.
 */
module Motion {
  import opened Basics
  import opened Cars
  import opened Crossings

  /** `CarEntry`: a car and the index of the intersection that currently owns it. */
  datatype CarEntry = CarEntry(car: CarState, ix: int)

  /** Every entry is owned by one of the `n` intersections. */
  predicate OwnersValid(cars: seq<CarEntry>, n: int) {
    forall k :: 0 <= k < |cars| ==> 0 <= cars[k].ix < n
  }

  /** `approaching`: the car's progress has not yet passed its stop line. */
  predicate Approaching(c: CarState, stopLine: int)
    ensures Approaching(c, stopLine) <==> Along(c) <= LineAlong(c.dir, stopLine)
  {
    match c.dir
    case UP => c.y >= stopLine
    case DOWN => c.y <= stopLine
    case LEFT => c.x >= stopLine
    case RIGHT => c.x <= stopLine
  }

  /** The stop directive: the governing light is RED or YELLOW and the line is not yet passed. */
  predicate ShouldStop(it: Intersection, c: CarState)
    ensures ShouldStop(it, c) <==>
              (LightFor(it, c.dir).state == RED || LightFor(it, c.dir).state == YELLOW)
              && Along(c) <= LineAlong(c.dir, StopLineFor(it, c.dir))
  {
    LightFor(it, c.dir).state != GREEN && Approaching(c, StopLineFor(it, c.dir))
  }

  /**
   * One entry after its car's `update` under its owner's light and stop line: the
   * owner, direction and lane line are kept; a car that ends stopped has not moved,
   * any other has advanced exactly one speed-increment; and a car is held only
   * under a RED or YELLOW light.
   */
  function Moved(its: seq<Intersection>, e: CarEntry): (r: CarEntry)
    requires 0 <= e.ix < |its|
    ensures r.ix == e.ix && r.car.dir == e.car.dir && Across(r.car) == Across(e.car)
    ensures r.car.stopped ==> r.car.x == e.car.x && r.car.y == e.car.y
    ensures !r.car.stopped ==> Along(r.car) == Along(e.car) + Speed
    ensures r.car.stopped ==> LightFor(its[e.ix], e.car.dir).state != GREEN
  {
    var it := its[e.ix];
    e.(car := Step(e.car, ShouldStop(it, e.car), StopLineFor(it, e.car.dir)))
  }

  /**
   * The move-and-cull stage (`cars.removeIf`): every entry is moved, and those whose
   * car is then out of bounds are dropped; no survivor is out of bounds.
   */
  function MovedAndCulled(its: seq<Intersection>, cars: seq<CarEntry>, boardW: int, boardH: int)
    : (r: seq<CarEntry>)
    requires OwnersValid(cars, |its|)
    ensures |r| <= |cars|
    ensures OwnersValid(r, |its|)
    ensures forall k :: 0 <= k < |r| ==> !OutOfBounds(r[k].car, boardW, boardH)
    decreases |cars|
  {
    if cars == [] then []
    else
      var rest := MovedAndCulled(its, cars[..|cars| - 1], boardW, boardH);
      var m := Moved(its, cars[|cars| - 1]);
      if OutOfBounds(m.car, boardW, boardH) then rest else rest + [m]
  }

  /** `pick` lists increasing indices into `cars`. */
  predicate Increasing(pick: seq<int>, bound: int) {
    && (forall i :: 0 <= i < |pick| ==> 0 <= pick[i] < bound)
    && (forall i, j :: 0 <= i < j < |pick| ==> pick[i] < pick[j])
  }

  /**
   * Culling keeps exactly the moved entries that are in bounds, in their original
   * order and with their owner index: `pick` says where each survivor came from,
   * and every entry it skips went out of bounds.
   */
  lemma {:induction false} SurvivorsInOrder(its: seq<Intersection>, cars: seq<CarEntry>, boardW: int, boardH: int)
    returns (pick: seq<int>)
    requires OwnersValid(cars, |its|)
    decreases |cars|
    ensures var r := MovedAndCulled(its, cars, boardW, boardH);
      && |pick| == |r| && Increasing(pick, |cars|)
      && (forall i :: 0 <= i < |pick| ==> r[i] == Moved(its, cars[pick[i]]))
      && (forall k :: 0 <= k < |cars| && k !in pick ==> OutOfBounds(Moved(its, cars[k]).car, boardW, boardH))
  {
    if cars == [] {
      pick := [];
    } else {
      var n := |cars| - 1;
      var init := cars[..n];
      assert OwnersValid(init, |its|) by {
        forall k | 0 <= k < |init| ensures 0 <= init[k].ix < |its| {
          assert init[k] == cars[k];
        }
      }
      var p := SurvivorsInOrder(its, init, boardW, boardH);
      var m := Moved(its, cars[n]);
      if OutOfBounds(m.car, boardW, boardH) {
        pick := p;
      } else {
        pick := p + [n];
      }
      forall k | 0 <= k < |cars| && k !in pick
        ensures OutOfBounds(Moved(its, cars[k]).car, boardW, boardH)
      {
        if k < n {
          assert k !in p;
          assert init[k] == cars[k];
        }
      }
    }
  }

  /**
   * A car whose governing light is not GREEN and which has not reached its stop
   * line has still not passed it after the move.
   */
  lemma StopLineEnforced(its: seq<Intersection>, e: CarEntry)
    requires 0 <= e.ix < |its|
    requires LightFor(its[e.ix], e.car.dir).state != GREEN
    requires Approaching(e.car, StopLineFor(its[e.ix], e.car.dir))
    ensures Approaching(Moved(its, e).car, StopLineFor(its[e.ix], e.car.dir))
  {
    StopLineHeld(e.car, StopLineFor(its[e.ix], e.car.dir));
  }

  /** The move-and-cull loop: each car is updated once, in list order, and culled if out. */
  method MoveAndCull(its: seq<Intersection>, cars: seq<CarEntry>, boardW: int, boardH: int)
    returns (kept: seq<CarEntry>)
    requires OwnersValid(cars, |its|)
    ensures kept == MovedAndCulled(its, cars, boardW, boardH)
  {
    kept := [];
    var i := 0;
    while i < |cars|
      invariant 0 <= i <= |cars|
      invariant OwnersValid(cars[..i], |its|)
      invariant kept == MovedAndCulled(its, cars[..i], boardW, boardH)
    {
      var entry := cars[i];
      var it := its[entry.ix];
      var red := LightFor(it, entry.car.dir).state != GREEN;
      var stopLine := StopLineFor(it, entry.car.dir);
      var approaching := Approaching(entry.car, stopLine);
      var car := Step(entry.car, red && approaching, stopLine);
      assert cars[..i + 1][..i] == cars[..i];
      if !OutOfBounds(car, boardW, boardH) {
        kept := kept + [entry.(car := car)];
      }
      i := i + 1;
    }
    assert cars[..i] == cars;
  }

  /** The owner of one entry after the handoff between the two intersections. */
  function HandedOff(its: seq<Intersection>, e: CarEntry): (r: CarEntry)
    ensures r.car == e.car
    ensures 0 <= e.ix < |its| ==> 0 <= r.ix < |its|
  {
    if |its| < 2 then e
    else
      var e1 := if e.car.dir == RIGHT && e.ix == 0 && e.car.x > its[0].cx + its[0].size
                then e.(ix := 1) else e;
      if e1.car.dir == LEFT && e1.ix == 1 && e1.car.x < its[1].cx then e1.(ix := 0) else e1
  }

  /** The handoff stage applied to every entry. */
  function HandedOffAll(its: seq<Intersection>, cars: seq<CarEntry>): (r: seq<CarEntry>)
    ensures |r| == |cars|
    ensures forall k :: 0 <= k < |r| ==> r[k] == HandedOff(its, cars[k])
  {
    seq(|cars|, k requires 0 <= k < |cars| => HandedOff(its, cars[k]))
  }

  /**
   * The handoff changes owners in exactly two cases: a RIGHT-bound car owned by the
   * first intersection that is past its box goes to the second, and a LEFT-bound car
   * owned by the second that is before its box goes to the first. Positions are
   * never touched, nothing changes with fewer than two intersections, and owners
   * stay valid.
   */
  lemma HandOffCases(its: seq<Intersection>, e: CarEntry)
    ensures HandedOff(its, e).car == e.car
    ensures |its| < 2 ==> HandedOff(its, e) == e
    ensures HandedOff(its, e).ix != e.ix <==>
              |its| >= 2 &&
              ((e.car.dir == RIGHT && e.ix == 0 && e.car.x > its[0].cx + its[0].size) ||
               (e.car.dir == LEFT && e.ix == 1 && e.car.x < its[1].cx))
    ensures HandedOff(its, e).ix != e.ix ==> HandedOff(its, e).ix == 1 - e.ix
    ensures 0 <= e.ix < |its| ==> 0 <= HandedOff(its, e).ix < |its|
  {
  }

  /** The handoff loop: owners are reassigned in place, entry by entry. */
  method HandOff(its: seq<Intersection>, cars: seq<CarEntry>) returns (out: seq<CarEntry>)
    ensures out == HandedOffAll(its, cars)
  {
    out := cars;
    for i := 0 to |cars|
      invariant |out| == |cars|
      invariant forall k :: 0 <= k < i ==> out[k] == HandedOff(its, cars[k])
      invariant forall k :: i <= k < |cars| ==> out[k] == cars[k]
    {
      if |its| < 2 {
        continue;
      }
      var c := out[i].car;
      if c.dir == RIGHT && out[i].ix == 0 {
        if c.x > its[0].cx + its[0].size {
          out := out[i := out[i].(ix := 1)];
        }
      }
      if c.dir == LEFT && out[i].ix == 1 {
        if c.x < its[1].cx {
          out := out[i := out[i].(ix := 0)];
        }
      }
    }
  }
}
