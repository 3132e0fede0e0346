# Traffic-light game: the simulation core

This project models the simulation core of a small Swing traffic game. It covers three layers.

- **Traffic lights.** Each light is a four-field state machine. A request turns a RED or GREEN light YELLOW. After one second of accumulated amber time, the light resolves to the opposite of where it started.
- **Cars.** Each tick a car either moves two units along its direction or freezes before a stop line it has been told to respect. A car is culled once it is more than 50 units outside the board.
- **The game tick.** It runs in this order:
  1. Every intersection's four lights advance by the elapsed time.
  2. A car is spawned every 1200 ms.
  3. Every car moves under its owner's light and stop line, and cars that left the board are dropped.
  4. On the two-intersection level, cars crossing between the boxes change owner.
  5. Every lane (one owner, one direction) is sorted leader-first. Each trailing car is pushed back to at least 40 units behind the car ahead.
  6. Jam detection looks at RED lanes of three or more cars whose leader waits at the line. Three or four queued cars raise the warning; five end the game.
  7. Two cars of the same owner colliding inside its box end the game.
  8. After 90 seconds the next level is built, or, on level 2, the game is won.

## Modules

- **`Basics`**: directions, light states, Java's truncating integer division.
- **`Lights`**: the `Light` value and its transitions. The class `TrafficLight` is proved to update its fields exactly as those transitions say.
- **`Cars`**: the `CarState` value, the per-tick `Step`, bounds and collision predicates. The class `Car` is proved to match them.
- **`Crossings`**: the `Intersection` value, with stop lines, `lightFor` and `carInside`.
- **`Motion`**: `CarEntry` (a car and its owner's index). The move-and-cull stage and the owner handoff.
- **`Lanes`**: lane extraction, the stable sort by the lane comparator, and the spacing stage.
- **`Jams`**: the waiting-car count, the per-lane verdict, and the detection loops.
- **`Collisions`**: the pairwise collision search.
- **`Spawning`**: `buildLevel`'s intersections and `spawnCar`.
- **`Simulation`**: the `World` value (the game's fields), its invariant, and each stage of `update` as a function. `TickResult` is their composition.
- **`Engine`**: the class `Game`. Each of its methods performs one stage in place and is proved equal to that stage's function. `Tick` is proved equal to `TickResult`.

Each stage loop is a method on sequences, proved equal to a pure stage function. The properties the game promises are proved about those functions.

Cars are held by value in the entry list. A lane is a sequence of indices into that list. This stands for the shared `Car` references that the source collects into lane lists and writes through with `setX`/`setY`.

### The jam tail branch

After counting waiting cars, jam detection computes a tail distance for the last waiting car. It declares a jam when that distance exceeds 200 (src/Game.java:375-385). The distance is the car's progress minus the stop line's progress. The branch is guarded by the leader having stopped on the approach side of the line (src/Game.java:348-355), and the lane is sorted leader-first. So the distance is never positive and the branch cannot fire. `Jams.TailBranchUnreachable` proves this.

The `Math.min` that picks the car always picks `waiting - 1`; `Jams.MinPicksLastWaiting` proves this. The model keeps the branch exactly as written.

## Model

| member | source | states |
|---|---|---|
| Lights.Requested | src/TrafficLight.java:23-34 | a transitioning light is unchanged; a RED or GREEN one becomes YELLOW with timer 0, transitioning, remembering the old state; the light invariant is preserved and the housing position never moves |
| Lights.Advanced | src/TrafficLight.java:37-53 | a steady light is unchanged; a transitioning light stays transitioning exactly while timer plus delta is below 1000; YELLOW only results from YELLOW; the invariant is preserved |
| Lights.DoubleRequestIsOne | src/TrafficLight.java:23-25 | a second request is a no-op, so a double request starts one transition |
| Lights.SteadyLightHolds | src/TrafficLight.java:37-38 | a light that is not transitioning is unchanged by any sequence of updates |
| Lights.AmberResolves | src/TrafficLight.java:40-52 | over any run of non-negative ticks: YELLOW while accumulated time is below 1000, afterwards GREEN if it came from RED and RED if it came from GREEN, and no longer transitioning; the invariant holds throughout |
| Lights.DoubleRequestOnRed | src/TrafficLight.java:23-53 | a RED light requested twice is YELLOW until 1000 ms have accumulated and GREEN from then on |
| Lights.HousingIsClosed | src/TrafficLight.java:55-57 | for any light, the housing hit test includes its corners on all four edges and excludes the points one unit beyond each edge |
| Lights.TrafficLight.constructor | src/TrafficLight.java:9-20 | a new light is RED, not transitioning, timer 0, and satisfies the invariant (YELLOW exactly while transitioning, prior state RED or GREEN) |
| Lights.TrafficLight.RequestChange | src/TrafficLight.java:23-34 | the fields after the call are `Requested` of the fields before, and the invariant is kept |
| Lights.TrafficLight.Update | src/TrafficLight.java:37-53 | the fields after the call are `Advanced` of the fields before, and the invariant is kept |
| Lights.TrafficLight.ContainsPoint | src/TrafficLight.java:55-57 | the hit test is `Covers` of the light's fields: the closed 30 by 80 rectangle at the housing's corner |
| Lights.TrafficLight.GetState | src/TrafficLight.java:73-75 | on a light that keeps the invariant, the state reported is YELLOW exactly while it is transitioning |
| Cars.Step | src/Car.java:23-62 | direction and cross-axis coordinate never change; a stopping car whose next step reaches or crosses the line freezes in place and is stopped; otherwise it is not stopped and advances exactly 2 along its direction |
| Cars.ReachesLineAlong | src/Car.java:25-51 | the four direction-specific stop comparisons are one test: progress after a step is at or past the line |
| Cars.StopLineHeld | src/Car.java:23-61 | a car told to stop that starts on the approach side of its line is still on that side after the update, for each direction |
| Cars.OutOfBounds | src/Car.java:64-65 | a car anywhere on the board is never out of bounds |
| Cars.CulledOnlyAhead | src/Car.java:23-65 | a car on the board that leaves the bounds in one update was moving and left more than 50 beyond the edge it drives towards |
| Cars.DistSq | src/Car.java:100-104 | the squared distance is never negative and is zero exactly when the two positions coincide |
| Cars.Collides | src/Car.java:106-108 | two cars at the same position always collide |
| Cars.CollidesSymmetric | src/Car.java:100-108 | `collidesWith` is symmetric |
| Cars.CollisionIsClose | src/Car.java:100-108 | colliding cars are less than 28 apart on each axis |
| Cars.BeforeIntersectionReadsOneBound | src/Car.java:83-90 | `isBeforeIntersection` reads one bound per direction (UP the third argument, DOWN the second, LEFT the fourth, RIGHT the first) and holds exactly when the car's progress has not reached it |
| Cars.BeforeIntersection | src/Car.java:83-90 | its meaning, one bound per direction, is stated by `BeforeIntersectionReadsOneBound` |
| Cars.Car.constructor | src/Car.java:17-21 | a new car has the given position and direction and is not stopped |
| Cars.Car.Update | src/Car.java:23-62 | the fields after the call are `Step` of the fields before |
| Cars.Car.IsOutOfBounds | src/Car.java:64-65 | a car whose fields lie on the board is not out of bounds |
| Cars.Car.CollidesWith | src/Car.java:106-108 | the answer is `Collides` of the two cars' fields |
| Cars.Car.IsBeforeIntersection | src/Car.java:83-90 | true exactly when the car's progress is below the one bound its direction reads |
| Cars.Car.IsStopped | src/Car.java:111 | the answer is the stopped flag of the car's fields |
| Cars.Car.SetX | src/Car.java:96 | only x changes |
| Cars.Car.SetY | src/Car.java:97 | only y changes |
| Cars.Car.SetStopped | src/Car.java:112 | only the stopped flag changes |
| Crossings.UpdateLights | src/Game.java:74-79 | advancing the four lights keeps the light invariant and the stop lines |
| Crossings.NewIntersection | src/Game.java:56-72 | the box is the one given, stop lines and housings stand where the geometry says, every light keeps the invariant and every governing light is RED and steady |
| Crossings.LightFor | src/Game.java:113-120 | on an intersection of non-negative size with its housings placed, the governing light stands on the side the direction's traffic enters from |
| Crossings.StopLineFor | src/Game.java:247-252 | on an intersection with fixed stop lines, the stop line lies 12 before the edge the direction's traffic meets first |
| Crossings.CarInside | src/Game.java:122-125 | a car strictly inside the box has passed the edge its traffic enters by |
| Crossings.WithHousing | src/Game.java:164-168 | exactly one housing is replaced; the box and stop lines are kept, as is the light invariant when the new light keeps it |
| Crossings.NewIntersectionGeometry | src/Game.java:56-72 | the constructor keeps the box and puts each stop line 12 beyond the edge its traffic meets first; all four lights start RED, not transitioning |
| Crossings.UpdateLightsPerDirection | src/Game.java:74-79 | for every direction, the governing light after the update is that light advanced; stop lines and box are unchanged |
| Crossings.ApproachSideIsOutside | src/Game.java:122-125 | a car that has not reached its stop line is not strictly inside the box |
| Motion.MovedAndCulled | src/Game.java:239-267 | no survivor is out of bounds, no entry is added, and every owner index stays valid |
| Motion.Approaching | src/Game.java:254-259 | the four direction-specific comparisons are one test: progress has not passed the stop line |
| Motion.ShouldStop | src/Game.java:243-261 | a car is told to stop exactly when its light is RED or YELLOW and it has not passed its stop line |
| Motion.Moved | src/Game.java:240-264 | owner, direction and lane line are kept; a car that ends stopped has not moved and its light is not GREEN; any other car advanced exactly 2 |
| Motion.SurvivorsInOrder | src/Game.java:239-267 | the survivors are exactly the moved entries that stayed in bounds, in their original order and with their owners; every dropped entry went out of bounds |
| Motion.StopLineEnforced | src/Game.java:243-264 | a car whose light is not GREEN and which has not passed its stop line has still not passed it after the move |
| Motion.MoveAndCull | src/Game.java:239-267 | the loop's result is `MovedAndCulled` of its input |
| Motion.HandedOff | src/Game.java:271-292 | the handoff never changes the car and keeps the owner index valid |
| Motion.HandedOffAll | src/Game.java:271-292 | the handoff stage keeps the list length and applies the handoff to every entry |
| Motion.HandOffCases | src/Game.java:271-292 | an owner changes exactly for a RIGHT car of box 0 past its right edge or a LEFT car of box 1 before its left edge; it then swaps between 0 and 1; nothing changes with fewer than two boxes |
| Motion.HandOff | src/Game.java:271-292 | the loop's result is `HandedOffAll` of its input |
| Lanes.Rank | src/Game.java:305-310 | the comparators' key is progress negated, so ascending order puts the car that has come furthest first |
| Lanes.LaneOf | src/Game.java:300-303 | the filter lists, without repeats and in list order, exactly the entries of that owner and direction |
| Lanes.InsertByRank | src/Game.java:305-310 | insertion adds exactly the new index to the lane's multiset |
| Lanes.InsertBounded | src/Game.java:305-310 | insertion introduces no key above a bound that all inputs respect |
| Lanes.InsertSorted | src/Game.java:305-310 | inserting into a sorted lane keeps it sorted |
| Lanes.InsertDistinct | src/Game.java:305-310 | inserting a new index keeps the lane free of repeats |
| Lanes.SortByRank | src/Game.java:305-310 | the sort returns a permutation of the lane, ordered by the comparator key |
| Lanes.SortDistinct | src/Game.java:305-310 | sorting keeps the lane free of repeats |
| Lanes.InsertStable | src/Game.java:305-310 | insertion keeps the relative order of the entries of every key and puts the new index after those of equal key |
| Lanes.SortStable | src/Game.java:305-310 | the sort is stable: the entries of any one key keep their relative order, as `List.sort` promises |
| Lanes.SnapBehind | src/Game.java:316-319 | the trailing car keeps direction, flag and lane line, and ends at least 40 behind the car ahead without moving forward |
| Lanes.SnapStep | src/Game.java:312-321 | one snap leaves the trailing car at least 40 behind, moved only backward |
| Lanes.SpaceFrom | src/Game.java:312-321 | the loop from one position on keeps the list's length; its meaning is stated by `SpaceFromSpec` |
| Lanes.SpaceLane | src/Game.java:312-321 | one lane's loop keeps the list's length; its meaning is stated by `SpaceLaneSpec` |
| Lanes.SpaceFromSpec | src/Game.java:312-321 | from any position on, the loop spaces the whole lane, only moves cars backward, and leaves entries outside the lane untouched |
| Lanes.SpaceLaneSpec | src/Game.java:312-321 | after one lane's loop, each car is at least 40 behind the one ahead; cars only move backward along their lane line; other entries are untouched |
| Lanes.DirIndexOf | src/Game.java:298 | the position of the j-th direction is j |
| Lanes.LaneUpToFrame | src/Game.java:300-303 | the lane filter reads only owners and directions |
| Lanes.SpacedFrom | src/Game.java:297-323 | the pass from one lane on keeps the list's length; its meaning is stated by the `SpacedFrom` lemmas below |
| Lanes.Spaced | src/Game.java:297-323 | after the stage every lane of every intersection is spaced in leader-first order; cars only move backward along their lane line; cars of other owners are untouched |
| Lanes.InsertFrame | src/Game.java:305-310 | insertion reads only the keys of the lane's cars |
| Lanes.SortFrame | src/Game.java:305-310 | the sort reads only the keys of the lane's cars |
| Lanes.SortedLaneMembers | src/Game.java:300-310 | the sorted lane holds, without repeats, exactly the entries of that owner and direction |
| Lanes.OtherLaneKept | src/Game.java:297-323 | spacing one lane leaves every other lane's membership and order unchanged |
| Lanes.LaneStep | src/Game.java:297-323 | spacing one lane spaces it, keeps owners and directions, moves cars only backward, and leaves other entries alone |
| Lanes.SpacedFromStep | src/Game.java:297-323 | the pass at one lane is that lane's spacing followed by the rest of the pass |
| Lanes.SpacedFromMovesBack | src/Game.java:297-323 | the pass only moves each car backward along its lane line |
| Lanes.SpacedFromFrame | src/Game.java:297-323 | the pass does not touch lanes it has already passed |
| Lanes.LaneStaysSpaced | src/Game.java:297-323 | a lane, once spaced, stays spaced to the end of the pass |
| Lanes.OtherLaneSpaced | src/Game.java:297-323 | a lane spaced by the rest of the pass is still spaced when the current lane is spaced first |
| Lanes.SpacedFromSpacesAt | src/Game.java:297-323 | every direction not yet reached at an intersection ends up spaced |
| Lanes.SpacedFromSpaces | src/Game.java:297-323 | every lane still pending when the pass reaches a point ends up spaced |
| Lanes.SpacedGap | src/Game.java:312-321 | in a spaced lane, any later car is strictly behind any earlier one |
| Lanes.SpacedIsStrict | src/Game.java:312-321 | a spaced lane is strictly ordered by the comparator key |
| Lanes.SameLeader | src/Game.java:305-310 | a strictly sorted and a sorted permutation of one lane have the same leader |
| Lanes.SortedUnique | src/Game.java:305-310 | a strictly sorted lane equals every sorted permutation of it, so re-sorting a spaced lane (as jam detection does) gives the same order |
| Lanes.SpacingPassSpacesEveryLane | src/Game.java:297-323 | after the stage, every lane of every intersection, in leader-first order, has each car at least 40 behind the one ahead; cars only move backward along their lane line; cars of other owners are untouched |
| Lanes.SnapLane | src/Game.java:312-321 | the loop's result is `SpaceLane` of its input |
| Lanes.EnforceSpacing | src/Game.java:297-323 | the nested loops' result is `Spaced` of their input |
| Jams.Waiting | src/Game.java:357-367 | `1 <= waiting <= lane.size()` |
| Jams.WaitingFromIsRun | src/Game.java:357-367 | from a position on, the count stops at the first gap wider than 41 |
| Jams.WaitingIsLeadingRun | src/Game.java:357-367 | `waiting` is one plus the leading run of gaps of at most 41: every gap before it is queued and the one at it, if any, is not |
| Jams.CountWaiting | src/Game.java:357-367 | the loop with its early exit computes `Waiting` |
| Jams.MinPicksLastWaiting | src/Game.java:375 | the `Math.min` always picks `waiting - 1` |
| Jams.TailBranchUnreachable | src/Game.java:375-385 | when the leader is stopped at the line, every car's tail distance is at most 0, so the over-200 branch never fires |
| Jams.SortedLaneSize | src/Game.java:335-346 | sorting keeps the lane's size |
| Jams.FirstAtLine | src/Game.java:348-355 | for the lane's own direction, the leader counts as waiting exactly when it is stopped and has not passed the stop line |
| Jams.TailDistance | src/Game.java:376-381 | for the lane's own direction, the distance is the car's progress minus the stop line's progress |
| Jams.CheckLane | src/Game.java:330-386 | a lane warns or jams only under a RED light with at least three cars |
| Jams.ScanFrom | src/Game.java:326-388 | a warning once raised is never cleared by the rest of the scan, and a jam is reported only while intersections remain |
| Jams.JamScan | src/Game.java:326-388 | its meaning is stated by `JamScanMeaning` |
| Jams.CheckWatchedLane | src/Game.java:330-386 | a watched lane warns for three or four waiting cars and jams for five or more |
| Jams.CheckUnwatchedLane | src/Game.java:330-355 | a lane that is not RED, has fewer than three cars, or whose leader is not stopped at the line contributes nothing |
| Jams.CheckLaneMeaning | src/Game.java:330-386 | a lane jams exactly when it is watched and five or more cars wait; it warns exactly when it is watched and three or four wait |
| Jams.ScanFromMeaning | src/Game.java:326-388 | from any point on, the loops report a jam exactly when some remaining lane jams; otherwise the warning is the incoming flag or some remaining lane warning |
| Jams.JamScanMeaning | src/Game.java:326-388 | the stage reports a jam exactly when some lane of some intersection jams; otherwise the warning is raised exactly when some lane warns |
| Jams.ScanJams | src/Game.java:326-388 | the nested loops compute `JamScan` |
| Collisions.FindCollision | src/Game.java:391-405 | a collision is reported exactly when some pair i < j with the same owner is strictly inside that box and collides |
| Collisions.CollidingCarsCrossedTheirLines | src/Game.java:122-125 | both cars of a colliding pair have passed their stop lines and are less than 28 apart horizontally |
| Spawning.LevelIntersections | src/Game.java:199-218 | level 1 builds one intersection, level 2 two, any other level none |
| Spawning.LevelShape | src/Game.java:194-219 | level 1 has one intersection and level 2 two; all are well formed with every light RED; on level 2 the boxes have equal size, share a row, and the first ends 250 before the second begins |
| Spawning.FreshIntersectionReady | src/Game.java:56-72 | a new intersection has fixed stop lines, valid lights, and all lights RED |
| Spawning.SpawnDirectionBands | src/Game.java:502-505 | UP below the double nearest 0.45, DOWN from there to below the double nearest 0.85, LEFT from there to below the double nearest 0.93, RIGHT from there on; a larger draw never gives an earlier direction; a draw of exactly 0.85 is LEFT, since the double 0.85 lies just below it |
| Spawning.SpawnDirection | src/Game.java:502-505 | its bands are stated by `SpawnDirectionBands` |
| Spawning.MaxCxIndex | src/Game.java:516 | the index of the largest `cx`, the first among equals |
| Spawning.MinCxIndex | src/Game.java:518 | the index of the smallest `cx`, the first among equals |
| Spawning.SpawnOwner | src/Game.java:510-520 | the chosen owner is a valid index |
| Spawning.DrawIndex | src/Game.java:511 | a draw in [0, 1) scaled by n and truncated is a valid index |
| Spawning.SpawnedCar | src/Game.java:522-532 | the new car travels the drawn direction, is not stopped, and starts 20 outside the edge it enters from |
| Spawning.Spawned | src/Game.java:497-535 | spawning keeps every owner index valid |
| Spawning.SpawnAppendsOne | src/Game.java:497-535 | exactly one entry is appended and the others are kept; the new car has the drawn direction, is not stopped, and starts 20 outside the edge it enters from |
| Spawning.SpawnSidesOnLevelTwo | src/Game.java:514-519 | on level 2, LEFT cars go to the second (right) intersection and RIGHT cars to the first |
| Simulation.LightsAdvanced | src/Game.java:230 | every intersection's lights advance by the same delta, and well-formedness is kept |
| Simulation.LevelAdvanced | src/Game.java:481-493 | the game is won exactly on level 2 and is then unchanged; otherwise the level goes up by one with no cars and a restarted level clock; the invariant holds after |
| Simulation.Lit | src/Game.java:225-230 | the update clock moves to now; every intersection's lights advance by the time since the previous update; cars, level and other clocks are kept |
| Simulation.SpawnDue | src/Game.java:233-236 | when 1200 ms have passed one car is appended, the others are kept and the spawn clock moves to now; otherwise nothing changes |
| Simulation.CarStages | src/Game.java:239-323 | afterwards every lane of every intersection is spaced, the invariant holds, and the intersections and clocks are kept |
| Simulation.TickResult | src/Game.java:224-410 | one `update` keeps the game invariant: level 1 or 2 with that many well-formed intersections, and every car owned by one of them |
| Simulation.ConclusionCases | src/Game.java:326-409 | Jam exactly when some lane jams; Collision exactly when none jams and a pair collides in its box; Win or NextLevel exactly when neither happened and 90 s are up, on level 2 or 1; otherwise only the warning flag changes, and it reflects the lanes |
| Simulation.Built | src/Game.java:194-219 | no cars, the level clock at now, level and board size kept; one intersection on level 1, two on level 2, none otherwise, all well formed |
| Simulation.CarsMoved | src/Game.java:239-323 | no car is added, every owner index stays valid, and every lane of every intersection ends up spaced in leader-first order |
| Simulation.Staged | src/Game.java:225-323 | the invariant holds after the stages; the clocks are stated by `StagedClocks` |
| Simulation.Concluded | src/Game.java:326-409 | the invariant holds after the end of the tick; the cases are stated by `ConclusionCases` |
| Simulation.HitFrom | src/Game.java:164-171 | a hit names a valid intersection and housing whose light contains the point |
| Simulation.HitFromMeaning | src/Game.java:164-171 | the search hits the first housing, in intersection order and then north, east, south, west, that contains the point, and misses only when none does |
| Simulation.Clicked | src/Game.java:161-173 | a click keeps the game invariant and changes nothing but the intersections |
| Simulation.ClickRequestsFirstCovered | src/Game.java:161-173 | exactly the first housing containing the point receives `requestChange`; every other light, box and stop line is kept; a click on no housing changes nothing |
| Simulation.StagedClocks | src/Game.java:225-323 | the stages keep the level clock, move the spawn clock exactly on a spawn, and leave every lane spaced |
| Simulation.ContinueIsSafe | src/Game.java:224-410 | when play goes on, every lane is spaced, no pair collides in a box, no lane jams, the level has time left, and a spawn happened exactly when due |
| Engine.Game.constructor | src/Game.java:131-222 | a new game is on level 1 with its intersection built, no cars, and both clocks at now |
| Engine.Game.BuildLevel | src/Game.java:194-219 | the fields become `Built`: that level's intersections, no cars, the level clock at now |
| Engine.Game.NextLevel | src/Game.java:481-493 | the fields and outcome are `LevelAdvanced` of the fields before |
| Engine.Game.SpawnCar | src/Game.java:497-535 | only the cars change, to `Spawned` of the cars before |
| Engine.Game.AdvanceLights | src/Game.java:225-230 | the fields become `Lit` of the fields before |
| Engine.Game.SpawnIfDue | src/Game.java:233-236 | the fields become `SpawnDue` of the fields before |
| Engine.Game.MoveCars | src/Game.java:239-323 | the fields become `CarStages` of the fields before |
| Engine.Game.Judge | src/Game.java:326-409 | the fields and outcome are `Concluded` of the fields before |
| Engine.Game.Tick | src/Game.java:224-410 | the fields and outcome are `TickResult` of the fields before, so every property proved of `TickResult` holds for the game |
| Engine.Game.Click | src/Game.java:161-173 | the nested search loops with their early return leave the fields as `Clicked` of the fields before, and the invariant is kept |

## Left out

- Rendering: `paintComponent`, the HUD, the road and light drawing, `Car.draw`, `TrafficLight.draw`, and the warning blink. These are presentation only.
- The keyboard listener (src/Game.java:141-155), and the registration of the mouse listener. The mouse handler's body (src/Game.java:162-172) is modelled as `Game.Click` with the event's coordinates as parameters.
- The Swing timer loop, `start`, `stop` and `addNotify` (src/Game.java:176-191). This is scheduling.
- Dialogs and process exit in `handleCollision`, `handleTrafficJam` and `nextLevel`. They become the returned `Outcome`.
- `System.currentTimeMillis`: the clock is the parameter `now`. `update` reads the clock twice (the delta, and the level clock); the model uses one `now` for both.
- `Math.random`: the two draws are the parameters `r1` and `r2`, taken as real numbers. The 45/40/8/7 percent distribution is statistical and not modelled; the threshold-to-direction mapping is, with each threshold the exact value of its binary64 literal.
- Floating point. Positions are integers: they start at integer spawn points and only move by 2 or snap to 40 from another car. `distanceTo`'s square root is replaced by comparing squared distances. The `(int)(width * 0.28)`, `0.24` and `0.32` sizes are `width * 28 / 100` and so on.
- Integer widths: the `(int)` cast of the elapsed time and overflow of `int` or `long` arithmetic are not modelled. All integers are unbounded.
- `Car.update`'s three unused parameters, and the car's constant speed field (the constant `Speed`).
- src/App.java is not part of this model (window bootstrap).
- `Direction` and `TrafficLightState` are not part of this model's sources. They are taken as the enumerations UP, DOWN, LEFT, RIGHT (in that order, for `Direction.values()`) and RED, YELLOW, GREEN.
- `intersections.indexOf(it)` in `spawnCar` is modelled as the index the owner choice selected. It is the same index because the intersections are distinct objects.
- Aliasing: the game holds cars and intersections as values. Lanes hold indices rather than shared references, and the `TrafficLight` and `Car` classes are proved equal to the same value functions that the game uses.
