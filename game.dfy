/**
 * The game: its cars and intersections, and the tick that drives them. `World` is
 * the value of the game's fields; `TickResult` is the tick as a composition of the
 * stage functions, and the class `Game` is proved to perform exactly that tick in
 * place, stage by stage.
 *
 * The end of the game (a dialog and process exit in the program) is the returned
 * `Outcome`; the clock and the random draws are parameters.
 */
module Simulation {
  import opened Lights
  import opened Crossings
  import opened Motion
  import opened Lanes
  import opened Jams
  import opened Collisions
  import opened Spawning

  /** Milliseconds between two spawns. */
  const SpawnInterval := 1200
  /** Milliseconds a level must be survived. */
  const SurviveDuration := 90000
  /** The last level. */
  const LastLevel := 2

  /** How a tick ends: play on, one of the two game-over cases, a new level, or the win. */
  datatype Outcome = Continue | Jam | Collision | NextLevel | Win

  datatype World = World(
    width: nat, height: nat,
    cars: seq<CarEntry>,
    its: seq<Intersection>,
    lastCarSpawn: int,
    level: int,
    levelStartTime: int,
    jamWarning: bool,
    lastUpdateTime: int)

  /**
   * What holds between ticks: the level is 1 or 2 and has that many intersections,
   * all well formed, and every car is owned by one of them.
   */
  predicate WorldInv(w: World) {
    && (w.level == 1 || w.level == 2)
    && |w.its| == w.level
    && WellFormed(w.its)
    && OwnersValid(w.cars, |w.its|)
  }

  /** The light stage: every intersection's lights advance by `delta`. */
  function LightsAdvanced(its: seq<Intersection>, delta: int): (r: seq<Intersection>)
    ensures |r| == |its|
    ensures forall k :: 0 <= k < |r| ==> r[k] == UpdateLights(its[k], delta)
    ensures WellFormed(its) ==> WellFormed(r)
  {
    seq(|its|, k requires 0 <= k < |its| => UpdateLights(its[k], delta))
  }

  /** `buildLevel(lvl)`: fresh intersections, no cars, the level clock restarted. */
  function Built(w: World, lvl: int, now: int): (r: World)
    ensures r.cars == [] && r.levelStartTime == now
    ensures r.level == w.level && r.width == w.width && r.height == w.height
    ensures r.jamWarning == w.jamWarning && r.lastCarSpawn == w.lastCarSpawn
    ensures |r.its| == (if lvl == 1 || lvl == 2 then lvl else 0) && WellFormed(r.its)
  {
    LevelShape(lvl, w.width, w.height);
    w.(its := LevelIntersections(lvl, w.width, w.height), cars := [], levelStartTime := now)
  }

  /** `nextLevel`: from level 2 the game is won; otherwise the next level is built. */
  function LevelAdvanced(w: World, now: int): (r: (World, Outcome))
    requires WorldInv(w)
    ensures WorldInv(r.0)
    ensures r.1 == Win <==> w.level == LastLevel
    ensures r.1 == Win ==> r.0 == w
    ensures r.1 != Win ==> r.1 == NextLevel && r.0.level == w.level + 1 && r.0.cars == []
                           && r.0.levelStartTime == now
  {
    LevelShape(2, w.width, w.height);
    if w.level == LastLevel then (w, Win)
    else (Built(w.(level := w.level + 1), w.level + 1, now), NextLevel)
  }

  /**
   * The move-and-cull, handoff and spacing stages applied to the cars: no car is
   * added, every owner index stays valid, and every lane of every intersection
   * ends up spaced in leader-first order.
   */
  function CarsMoved(its: seq<Intersection>, cars: seq<CarEntry>, width: nat, height: nat): (r: seq<CarEntry>)
    requires OwnersValid(cars, |its|)
    ensures |r| <= |cars|
    ensures OwnersValid(r, |its|)
    ensures LanesSpaced(r, |its|)
  {
    var handed := HandedOffAll(its, MovedAndCulled(its, cars, width, height));
    var r := Spaced(handed, |its|);
    assert forall k :: 0 <= k < |r| ==> r[k].ix == handed[k].ix;
    r
  }

  /**
   * The light stage of `update`: the update clock moves to `now` and every
   * intersection's lights advance by the time since the previous update.
   */
  function Lit(w: World, now: int): (r: World)
    requires WorldInv(w)
    ensures WorldInv(r)
    ensures r.cars == w.cars && r.level == w.level && r.lastUpdateTime == now
    ensures r.levelStartTime == w.levelStartTime && r.lastCarSpawn == w.lastCarSpawn
    ensures |r.its| == |w.its|
    ensures forall k :: 0 <= k < |r.its| ==> r.its[k] == UpdateLights(w.its[k], now - w.lastUpdateTime)
  {
    w.(lastUpdateTime := now, its := LightsAdvanced(w.its, now - w.lastUpdateTime))
  }

  /**
   * The spawn stage: when 1200 ms have passed since the last spawn, one car is
   * appended and the spawn clock moves to `now`; otherwise nothing changes.
   */
  function SpawnDue(w: World, now: int, r1: real, r2: real): (r: World)
    requires WorldInv(w) && 0.0 <= r2 < 1.0
    ensures WorldInv(r)
    ensures r.its == w.its && r.levelStartTime == w.levelStartTime
    ensures now - w.lastCarSpawn >= SpawnInterval ==>
              |r.cars| == |w.cars| + 1 && r.cars[..|w.cars|] == w.cars && r.lastCarSpawn == now
    ensures now - w.lastCarSpawn < SpawnInterval ==> r == w
  {
    if now - w.lastCarSpawn >= SpawnInterval then
      SpawnAppendsOne(w.cars, w.its, w.width, w.height, r1, r2);
      w.(cars := Spawned(w.cars, w.its, w.width, w.height, r1, r2), lastCarSpawn := now)
    else w
  }

  /**
   * The car stages: move and cull, hand off, space the lanes. Afterwards every lane
   * of every intersection is spaced in leader-first order.
   */
  function CarStages(w: World): (r: World)
    requires WorldInv(w)
    ensures WorldInv(r)
    ensures r.its == w.its && r.levelStartTime == w.levelStartTime && r.lastCarSpawn == w.lastCarSpawn
    ensures LanesSpaced(r.cars, |r.its|)
  {
    w.(cars := CarsMoved(w.its, w.cars, w.width, w.height))
  }

  /** The world after the lights, spawn, move-and-cull, handoff and spacing stages. */
  function Staged(w: World, now: int, r1: real, r2: real): (r: World)
    requires WorldInv(w) && 0.0 <= r2 < 1.0
    ensures WorldInv(r)
  {
    CarStages(SpawnDue(Lit(w, now), now, r1, r2))
  }

  /**
   * The end of `update`: jam detection (which rewrites the warning flag), then
   * collision detection, then the level clock.
   */
  function Concluded(s: World, now: int): (r: (World, Outcome))
    requires WorldInv(s)
    ensures WorldInv(r.0)
  {
    var report := JamScan(s.cars, s.its);
    var s' := s.(jamWarning := report.warn);
    if report.jam then (s', Jam)
    else if AnyCollision(s.cars, s.its) then (s', Collision)
    else if now - s.levelStartTime >= SurviveDuration then LevelAdvanced(s', now)
    else (s', Continue)
  }

  /** One call of `update` at time `now`; the game invariant holds after it. */
  function TickResult(w: World, now: int, r1: real, r2: real): (r: (World, Outcome))
    requires WorldInv(w) && 0.0 <= r2 < 1.0
    ensures WorldInv(r.0)
  {
    Concluded(Staged(w, now, r1, r2), now)
  }

  /**
   * How the end of `update` decides. A jam is reported exactly when some lane
   * jams; a collision exactly when no lane jams and some pair collides inside its
   * box; the win exactly when neither happened, the 90 seconds are up and this is
   * level 2; a new level when they are up on level 1, with the cars cleared and
   * the level clock restarted. On any other outcome the cars, intersections and
   * level are kept, and after a collision or with play going on the warning is
   * raised exactly when some lane warns.
   */
  lemma ConclusionCases(s: World, now: int)
    requires WorldInv(s)
    ensures var (w', outcome) := Concluded(s, now);
      var jammed := exists ix, d :: 0 <= ix < |s.its| && LaneJams(s.cars, s.its, ix, d);
      var collided := AnyCollision(s.cars, s.its);
      var timeUp := now - s.levelStartTime >= SurviveDuration;
      && (outcome == Jam <==> jammed)
      && (outcome == Collision <==> !jammed && collided)
      && (outcome == Win <==> !jammed && !collided && timeUp && s.level == 2)
      && (outcome == NextLevel <==> !jammed && !collided && timeUp && s.level == 1)
      && (outcome == NextLevel ==>
            w'.level == 2 && w'.cars == [] && |w'.its| == 2 && w'.levelStartTime == now)
      && (outcome != NextLevel ==> w' == s.(jamWarning := w'.jamWarning))
      && (outcome == Continue || outcome == Collision ==>
            (w'.jamWarning <==> exists ix, d :: 0 <= ix < |s.its| && LaneWarns(s.cars, s.its, ix, d)))
  {
    JamScanMeaning(s.cars, s.its);
  }

  /**
   * After a tick that lets play go on, every lane of every intersection is spaced
   * in leader-first order, no pair of cars collides inside a box, no lane jams, the
   * level clock has not run out, and a spawn happened exactly when 1200 ms had
   * passed since the last one.
   */
  lemma ContinueIsSafe(w: World, now: int, r1: real, r2: real)
    requires WorldInv(w) && 0.0 <= r2 < 1.0
    requires TickResult(w, now, r1, r2).1 == Continue
    ensures var w' := TickResult(w, now, r1, r2).0;
      && LanesSpaced(w'.cars, |w'.its|)
      && !AnyCollision(w'.cars, w'.its)
      && (forall ix, d :: 0 <= ix < |w'.its| ==> !LaneJams(w'.cars, w'.its, ix, d))
      && w'.lastCarSpawn == (if now - w.lastCarSpawn >= SpawnInterval then now else w.lastCarSpawn)
      && now - w.levelStartTime < SurviveDuration
  {
    var s := Staged(w, now, r1, r2);
    StagedClocks(w, now, r1, r2);
    ConclusionCases(s, now);
  }

  /** The stages keep the level clock, move the spawn clock on a spawn, and leave every lane spaced. */
  lemma StagedClocks(w: World, now: int, r1: real, r2: real)
    requires WorldInv(w) && 0.0 <= r2 < 1.0
    ensures var s := Staged(w, now, r1, r2);
      && s.levelStartTime == w.levelStartTime
      && s.lastCarSpawn == (if now - w.lastCarSpawn >= SpawnInterval then now else w.lastCarSpawn)
      && LanesSpaced(s.cars, |s.its|)
  {
    var l := Lit(w, now);
    assert SpawnDue(l, now, r1, r2).lastCarSpawn == (if now - w.lastCarSpawn >= SpawnInterval then now else w.lastCarSpawn);
  }

  /** Where a click lands: nowhere, or light `slot` of `Housings` of intersection `ix`. */
  datatype Target = Miss | Hit(ix: nat, slot: nat)

  /** Housing (`i`, `k`) comes before housing (`ix`, `slot`) in the order the click handler searches. */
  predicate SearchedBefore(i: int, k: int, ix: int, slot: int) {
    i < ix || (i == ix && k < slot)
  }

  /**
   * The search of the click handler from housing (`ix`, `slot`) on: intersections in
   * order, and in each the lights north, east, south, west; the first housing that
   * contains the point is hit.
   */
  function HitFrom(its: seq<Intersection>, mx: int, my: int, ix: nat, slot: nat): (t: Target)
    decreases |its| - ix, 4 - slot
    ensures t.Hit? ==> ix <= t.ix < |its| && t.slot < 4 && Covers(Housings(its[t.ix])[t.slot], mx, my)
  {
    if ix >= |its| then Miss
    else if slot >= 4 then HitFrom(its, mx, my, ix + 1, 0)
    else if Covers(Housings(its[ix])[slot], mx, my) then Hit(ix, slot)
    else HitFrom(its, mx, my, ix, slot + 1)
  }

  /** Housing (`i`, `k`) contains the point and no housing searched before it does. */
  ghost predicate FirstCovered(its: seq<Intersection>, mx: int, my: int, i: int, k: int) {
    && 0 <= i < |its| && 0 <= k < 4
    && Covers(Housings(its[i])[k], mx, my)
    && forall i', k' :: 0 <= i' < |its| && 0 <= k' < 4 && SearchedBefore(i', k', i, k) ==>
         !Covers(Housings(its[i'])[k'], mx, my)
  }

  /**
   * The search from (`ix`, `slot`) hits a housing at or after that point that contains
   * the click, with no housing between the start and it containing the click; it
   * misses only when no housing from the start on contains the click.
   */
  lemma {:induction false} HitFromMeaning(its: seq<Intersection>, mx: int, my: int, ix: nat, slot: nat)
    decreases |its| - ix, 4 - slot
    ensures var t := HitFrom(its, mx, my, ix, slot);
      && (t.Hit? ==> !SearchedBefore(t.ix, t.slot, ix, slot)
                     && forall i, k ::
                          (0 <= i < |its| && 0 <= k < 4 && !SearchedBefore(i, k, ix, slot) && SearchedBefore(i, k, t.ix, t.slot))
                          ==> !Covers(Housings(its[i])[k], mx, my))
      && (t.Miss? ==> forall i, k :: 0 <= i < |its| && 0 <= k < 4 && !SearchedBefore(i, k, ix, slot) ==>
                        !Covers(Housings(its[i])[k], mx, my))
  {
    if ix >= |its| {
    } else if slot >= 4 {
      HitFromMeaning(its, mx, my, ix + 1, 0);
    } else if Covers(Housings(its[ix])[slot], mx, my) {
    } else {
      HitFromMeaning(its, mx, my, ix, slot + 1);
    }
  }

  /**
   * The click handler: the first housing containing the point gets `requestChange`;
   * a click on no housing changes nothing.
   */
  function Clicked(w: World, mx: int, my: int): (r: World)
    requires WorldInv(w)
    ensures WorldInv(r)
    ensures r == w.(its := r.its) && |r.its| == |w.its|
  {
    match HitFrom(w.its, mx, my, 0, 0)
    case Miss => w
    case Hit(ix, slot) =>
      var it := w.its[ix];
      assert Inv(Housings(it)[slot]);
      w.(its := w.its[ix := WithHousing(it, slot, Requested(Housings(it)[slot]))])
  }

  /**
   * A click changes exactly one light, the first housing in search order that contains
   * the point, and that light receives `requestChange`; every box and stop line and
   * every other light is kept, and a click on no housing leaves the game as it was.
   */
  lemma ClickRequestsFirstCovered(w: World, mx: int, my: int)
    requires WorldInv(w)
    ensures var r := Clicked(w, mx, my);
      && ((forall i, k :: 0 <= i < |w.its| && 0 <= k < 4 ==> !Covers(Housings(w.its[i])[k], mx, my)) ==> r == w)
      && (forall i :: 0 <= i < |w.its| ==> SameFrame(r.its[i], w.its[i]))
      && forall i, k :: 0 <= i < |w.its| && 0 <= k < 4 ==>
           Housings(r.its[i])[k] == (if FirstCovered(w.its, mx, my, i, k) then Requested(Housings(w.its[i])[k])
                                        else Housings(w.its[i])[k])
  {
    var r := Clicked(w, mx, my);
    var t := HitFrom(w.its, mx, my, 0, 0);
    HitFromMeaning(w.its, mx, my, 0, 0);
    if t.Hit? {
      var it := w.its[t.ix];
      assert r.its[t.ix] == WithHousing(it, t.slot, Requested(Housings(it)[t.slot]));
      forall i, k | 0 <= i < |w.its| && 0 <= k < 4
        ensures Housings(r.its[i])[k] == (if FirstCovered(w.its, mx, my, i, k) then Requested(Housings(w.its[i])[k])
                                          else Housings(w.its[i])[k])
      {
        if FirstCovered(w.its, mx, my, i, k) && !(i == t.ix && k == t.slot) {
          assert SearchedBefore(t.ix, t.slot, i, k);
          assert false;
        }
        assert i == t.ix && k == t.slot ==> FirstCovered(w.its, mx, my, i, k);
      }
    } else {
      assert r == w;
      forall i, k | 0 <= i < |w.its| && 0 <= k < 4
        ensures !FirstCovered(w.its, mx, my, i, k)
      {
        assert !SearchedBefore(i, k, 0, 0);
      }
    }
  }
}
