/**
 * Collision detection: two entries collide when they have the same owner, both
 * cars are strictly inside that owner's box, and their circles overlap. Cars of
 * different intersections, or outside the box, never count.
 */
module Collisions {
  import opened Cars
  import opened Crossings
  import opened Motion

  /** Entries `i` < `j` form a colliding pair inside their common owner's box. */
  predicate CollisionAt(cars: seq<CarEntry>, its: seq<Intersection>, i: int, j: int)
    requires OwnersValid(cars, |its|) && 0 <= i < j < |cars|
  {
    var it := its[cars[i].ix];
    && cars[j].ix == cars[i].ix
    && CarInside(it, cars[i].car) && CarInside(it, cars[j].car)
    && Collides(cars[i].car, cars[j].car)
  }

  predicate AnyCollision(cars: seq<CarEntry>, its: seq<Intersection>)
    requires OwnersValid(cars, |its|)
  {
    exists i, j :: 0 <= i < j < |cars| && CollisionAt(cars, its, i, j)
  }

  /**
   * The detection loops: every pair `i` < `j` is visited, pairs of different owners
   * are skipped, and the first colliding pair ends the search. A collision is
   * reported exactly when some pair collides.
   */
  method FindCollision(cars: seq<CarEntry>, its: seq<Intersection>) returns (hit: bool)
    requires OwnersValid(cars, |its|)
    ensures hit <==> AnyCollision(cars, its)
  {
    for i := 0 to |cars|
      invariant forall i', j :: 0 <= i' < i && i' < j < |cars| ==> !CollisionAt(cars, its, i', j)
    {
      var a := cars[i].car;
      var aix := cars[i].ix;
      var ia := its[aix];
      for j := i + 1 to |cars|
        invariant forall i', j' :: 0 <= i' < i && i' < j' < |cars| ==> !CollisionAt(cars, its, i', j')
        invariant forall j' :: i < j' < j ==> !CollisionAt(cars, its, i, j')
      {
        if cars[j].ix != aix {
          continue;
        }
        var b := cars[j].car;
        if CarInside(ia, a) && CarInside(ia, b) && Collides(a, b) {
          assert CollisionAt(cars, its, i, j);
          return true;
        }
      }
    }
    return false;
  }

  /**
   * Both cars of a colliding pair have crossed their stop lines: a car inside the
   * box has passed the edge its traffic enters by, and the line is before that edge. The pair is also less than two
   * radii apart on each axis, whichever entry comes first.
   */
  lemma CollidingCarsCrossedTheirLines(cars: seq<CarEntry>, its: seq<Intersection>, i: int, j: int)
    requires OwnersValid(cars, |its|) && 0 <= i < j < |cars|
    requires StopLinesFixed(its[cars[i].ix])
    requires CollisionAt(cars, its, i, j)
    ensures var it := its[cars[i].ix];
      && Along(cars[i].car) > LineAlong(cars[i].car.dir, StopLineFor(it, cars[i].car.dir))
      && Along(cars[j].car) > LineAlong(cars[j].car.dir, StopLineFor(it, cars[j].car.dir))
    ensures -(Radius + Radius) < cars[j].car.x - cars[i].car.x < Radius + Radius
    ensures Collides(cars[j].car, cars[i].car)
  {
    CollisionIsClose(cars[j].car, cars[i].car);
    CollidesSymmetric(cars[i].car, cars[j].car);
  }
}
