/**
 * Jam detection: for every intersection and direction whose light is RED, the lane
 * is examined when it holds at least three cars and its leader is stopped at the
 * line. The run of cars queued bumper to bumper behind the leader is counted; five
 * or more is a jam, three or four raise the jam warning.
 *
 * The check also measures how far the last queued car is from the stop line and
 * declares a jam beyond 200 units. The distance is taken as progress minus the
 * line, which is never positive for a queue whose leader has not passed the line,
 * so that branch cannot fire (`TailBranchUnreachable`).
 */
module Jams {
  import opened Basics
  import opened Cars
  import opened Crossings
  import opened Motion
  import opened Lanes

  /** Longest tail distance tolerated before a jam is declared. */
  const JamLimit := 200

  function Abs(v: int): int {
    if v < 0 then -v else v
  }

  /** Distance between two cars measured along the lane's axis. */
  function Gap(a: CarState, b: CarState, dir: Direction): (g: int)
    ensures g >= 0
  {
    match dir
    case UP => Abs(a.y - b.y)
    case DOWN => Abs(a.y - b.y)
    case LEFT => Abs(a.x - b.x)
    case RIGHT => Abs(a.x - b.x)
  }

  /** Two consecutive lane cars count as queued together when this close. */
  predicate Queued(cars: seq<CarEntry>, lane: seq<int>, dir: Direction, i: int)
    requires IndicesIn(lane, |cars|) && 1 <= i < |lane|
  {
    Gap(cars[lane[i - 1]].car, cars[lane[i]].car, dir) <= LaneSpacing + 1
  }

  /** The `waiting` count once the loop has reached position `i`. */
  function WaitingFrom(cars: seq<CarEntry>, lane: seq<int>, dir: Direction, i: nat): (w: nat)
    requires IndicesIn(lane, |cars|) && 1 <= i <= |lane|
    ensures i <= w <= |lane|
    decreases |lane| - i
  {
    if i == |lane| then i
    else if Queued(cars, lane, dir, i) then WaitingFrom(cars, lane, dir, i + 1)
    else i
  }

  /** The `waiting` count of a nonempty lane in leader-first order. */
  function Waiting(cars: seq<CarEntry>, lane: seq<int>, dir: Direction): (w: nat)
    requires IndicesIn(lane, |cars|) && |lane| >= 1
    ensures 1 <= w <= |lane|
  {
    WaitingFrom(cars, lane, dir, 1)
  }

  lemma {:induction false} WaitingFromIsRun(cars: seq<CarEntry>, lane: seq<int>, dir: Direction, i: nat)
    requires IndicesIn(lane, |cars|) && 1 <= i <= |lane|
    decreases |lane| - i
    ensures var w := WaitingFrom(cars, lane, dir, i);
      && (forall k :: i <= k < w ==> Queued(cars, lane, dir, k))
      && (w < |lane| ==> !Queued(cars, lane, dir, w))
  {
    if i < |lane| && Queued(cars, lane, dir, i) {
      WaitingFromIsRun(cars, lane, dir, i + 1);
    }
  }

  /**
   * `waiting` is one plus the length of the leading run of queued gaps: every gap
   * before it is at most 41, and the gap at it, if there is one, is more.
   */
  lemma WaitingIsLeadingRun(cars: seq<CarEntry>, lane: seq<int>, dir: Direction)
    requires IndicesIn(lane, |cars|) && |lane| >= 1
    ensures var w := Waiting(cars, lane, dir);
      && 1 <= w <= |lane|
      && (forall k :: 1 <= k < w ==> Queued(cars, lane, dir, k))
      && (w < |lane| ==> !Queued(cars, lane, dir, w))
  {
    WaitingFromIsRun(cars, lane, dir, 1);
  }

  /** The counting loop, with its early `break`. */
  method CountWaiting(cars: seq<CarEntry>, lane: seq<int>, dir: Direction) returns (waiting: nat)
    requires IndicesIn(lane, |cars|) && |lane| >= 1
    ensures waiting == Waiting(cars, lane, dir)
  {
    waiting := 1;
    var i := 1;
    while i < |lane|
      invariant 1 <= i <= |lane| && waiting == i
      invariant WaitingFrom(cars, lane, dir, i) == Waiting(cars, lane, dir)
      decreases |lane| - i
    {
      var a := cars[lane[i - 1]].car;
      var b := cars[lane[i]].car;
      var d := Gap(a, b, dir);
      if d <= LaneSpacing + 1 {
        waiting := waiting + 1;
      } else {
        break;
      }
      i := i + 1;
    }
  }

  /**
   * `firstAtLine`, per direction as written: the leader is stopped and has not
   * passed the stop line, the same test as the move stage's `approaching`.
   */
  predicate FirstAtLine(it: Intersection, dir: Direction, first: CarState)
    ensures first.dir == dir ==>
              (FirstAtLine(it, dir, first) <==> first.stopped && Approaching(first, StopLineFor(it, dir)))
  {
    match dir
    case UP => first.stopped && first.y >= it.stopUp
    case DOWN => first.stopped && first.y <= it.stopDown
    case LEFT => first.stopped && first.x >= it.stopLeft
    case RIGHT => first.stopped && first.x <= it.stopRight
  }

  /**
   * The tail distance `dist`, per direction as written: for a car of the lane it is
   * how far the car has come beyond the stop line, not how far it is behind it.
   */
  function TailDistance(it: Intersection, dir: Direction, back: CarState): (dist: int)
    ensures back.dir == dir ==> dist == Along(back) - LineAlong(dir, StopLineFor(it, dir))
  {
    match dir
    case UP => it.stopUp - back.y
    case DOWN => back.y - it.stopDown
    case LEFT => it.stopLeft - back.x
    case RIGHT => back.x - it.stopRight
  }

  function Min(a: int, b: int): int {
    if a <= b then a else b
  }

  /** What one lane's examination contributes: a warning, a jam, both or neither. */
  datatype Verdict = Verdict(warn: bool, jam: bool)

  /**
   * The examination of lane (`ix`, `dir`) of intersection `it`, as written. Only a
   * lane under a RED light with at least three cars contributes anything.
   */
  function CheckLane(cars: seq<CarEntry>, it: Intersection, ix: int, dir: Direction): (v: Verdict)
    ensures v.warn || v.jam ==> LightFor(it, dir).state == RED && |LaneOf(cars, ix, dir)| >= 3
  {
    if LightFor(it, dir).state != RED then Verdict(false, false)
    else
      var filtered := LaneOf(cars, ix, dir);
      if |filtered| < 3 then Verdict(false, false)
      else
        var lane := SortByRank(cars, filtered);
        if !FirstAtLine(it, dir, cars[lane[0]].car) then Verdict(false, false)
        else
          var waiting := Waiting(cars, lane, dir);
          var warn := waiting >= 3 && waiting < 5;
          if waiting >= 5 then Verdict(warn, true)
          else
            var back := cars[lane[Min(waiting - 1, |lane| - 1)]].car;
            Verdict(warn, TailDistance(it, dir, back) > JamLimit)
  }

  /** A lane the check looks at: RED light, three or more cars, leader stopped at the line. */
  predicate Watched(cars: seq<CarEntry>, it: Intersection, ix: int, dir: Direction) {
    var lane := SortedLane(cars, ix, dir);
    LightFor(it, dir).state == RED && |lane| >= 3 && FirstAtLine(it, dir, cars[lane[0]].car)
  }

  /** `Math.min(waiting - 1, lane.size() - 1)` always picks `waiting - 1`. */
  lemma MinPicksLastWaiting(cars: seq<CarEntry>, lane: seq<int>, dir: Direction)
    requires IndicesIn(lane, |cars|) && |lane| >= 1
    ensures Min(Waiting(cars, lane, dir) - 1, |lane| - 1) == Waiting(cars, lane, dir) - 1
  {
  }

  /**
   * The tail distance of any car in a leader-first lane whose leader is at the line
   * is at most zero: the distance is the car's progress minus the line's, the
   * leader has not passed the line, and every other car is behind the leader.
   */
  lemma TailBranchUnreachable(cars: seq<CarEntry>, it: Intersection, ix: int, dir: Direction, k: int)
    requires |SortedLane(cars, ix, dir)| >= 1 && 0 <= k < |SortedLane(cars, ix, dir)|
    requires FirstAtLine(it, dir, cars[SortedLane(cars, ix, dir)[0]].car)
    ensures TailDistance(it, dir, cars[SortedLane(cars, ix, dir)[k]].car) <= 0
  {
    var lane := SortedLane(cars, ix, dir);
    SortedLaneMembers(cars, ix, dir);
    var first, back := cars[lane[0]].car, cars[lane[k]].car;
    assert first.dir == dir && back.dir == dir;
    assert KeyAt(cars, lane[0]) <= KeyAt(cars, lane[k]);
  }

  /** The leader-first lane has as many cars as the filtered one. */
  lemma SortedLaneSize(cars: seq<CarEntry>, ix: int, dir: Direction)
    ensures |SortedLane(cars, ix, dir)| == |LaneOf(cars, ix, dir)|
  {
    var filtered := LaneOf(cars, ix, dir);
    assert |multiset(SortByRank(cars, filtered))| == |multiset(filtered)|;
  }

  /** A watched lane warns for three or four waiting cars and jams for five or more. */
  lemma CheckWatchedLane(cars: seq<CarEntry>, it: Intersection, ix: int, dir: Direction)
    requires Watched(cars, it, ix, dir)
    ensures var w := Waiting(cars, SortedLane(cars, ix, dir), dir);
      CheckLane(cars, it, ix, dir) == Verdict(3 <= w < 5, w >= 5)
  {
    SortedLaneSize(cars, ix, dir);
    var lane := SortedLane(cars, ix, dir);
    var w := Waiting(cars, lane, dir);
    if w < 5 {
      MinPicksLastWaiting(cars, lane, dir);
      TailBranchUnreachable(cars, it, ix, dir, w - 1);
    }
  }

  /** A lane that is not watched contributes nothing. */
  lemma CheckUnwatchedLane(cars: seq<CarEntry>, it: Intersection, ix: int, dir: Direction)
    requires !Watched(cars, it, ix, dir)
    ensures CheckLane(cars, it, ix, dir) == Verdict(false, false)
  {
    SortedLaneSize(cars, ix, dir);
  }

  /**
   * A lane raises a jam exactly when it is watched and at least five cars queue from
   * its leader, and raises the warning exactly when it is watched and three or four
   * do; lanes that are not watched contribute nothing.
   */
  lemma CheckLaneMeaning(cars: seq<CarEntry>, it: Intersection, ix: int, dir: Direction)
    ensures var v := CheckLane(cars, it, ix, dir);
      && (v.jam <==> Watched(cars, it, ix, dir) && Waiting(cars, SortedLane(cars, ix, dir), dir) >= 5)
      && (v.warn <==> Watched(cars, it, ix, dir) && 3 <= Waiting(cars, SortedLane(cars, ix, dir), dir) < 5)
  {
    if Watched(cars, it, ix, dir) {
      CheckWatchedLane(cars, it, ix, dir);
    } else {
      CheckUnwatchedLane(cars, it, ix, dir);
    }
  }

  /** The outcome of the whole detection stage: whether it ended in a jam, and the warning flag. */
  datatype JamReport = JamReport(jam: bool, warn: bool)

  /** The detection loops from intersection `ix`, direction number `j` on, stopping at a jam. */
  function ScanFrom(cars: seq<CarEntry>, its: seq<Intersection>, ix: nat, j: nat, warn: bool): (r: JamReport)
    decreases |its| - ix, 4 - j
    ensures warn ==> r.warn
    ensures r.jam ==> ix < |its|
  {
    if ix >= |its| then JamReport(false, warn)
    else if j >= 4 then ScanFrom(cars, its, ix + 1, 0, warn)
    else
      var v := CheckLane(cars, its[ix], ix, Directions[j]);
      var warn' := warn || v.warn;
      if v.jam then JamReport(true, warn') else ScanFrom(cars, its, ix, j + 1, warn')
  }

  /** The detection stage; the warning flag is cleared before the scan. */
  function JamScan(cars: seq<CarEntry>, its: seq<Intersection>): JamReport {
    ScanFrom(cars, its, 0, 0, false)
  }

  predicate LaneJams(cars: seq<CarEntry>, its: seq<Intersection>, ix: int, d: Direction)
    requires 0 <= ix < |its|
  {
    CheckLane(cars, its[ix], ix, d).jam
  }

  predicate LaneWarns(cars: seq<CarEntry>, its: seq<Intersection>, ix: int, d: Direction)
    requires 0 <= ix < |its|
  {
    CheckLane(cars, its[ix], ix, d).warn
  }

  lemma {:induction false} ScanFromMeaning(cars: seq<CarEntry>, its: seq<Intersection>, ix: nat, j: nat, warn: bool)
    decreases |its| - ix, 4 - j
    ensures var r := ScanFrom(cars, its, ix, j, warn);
      && (r.jam <==> exists kix, kd :: Pending(|its|, ix, j, kix, kd) && LaneJams(cars, its, kix, kd))
      && (!r.jam ==> (r.warn <==> warn || exists kix, kd :: Pending(|its|, ix, j, kix, kd) && LaneWarns(cars, its, kix, kd)))
  {
    if ix >= |its| {
    } else if j >= 4 {
      ScanFromMeaning(cars, its, ix + 1, 0, warn);
      forall kix, kd ensures Pending(|its|, ix, j, kix, kd) <==> Pending(|its|, ix + 1, 0, kix, kd) {
        assert DirIndex(kd) < 4;
      }
    } else {
      var d := Directions[j];
      assert DirIndex(d) == j;
      var v := CheckLane(cars, its[ix], ix, d);
      ScanFromMeaning(cars, its, ix, j + 1, warn || v.warn);
      forall kix, kd ensures Pending(|its|, ix, j, kix, kd) <==> Pending(|its|, ix, j + 1, kix, kd) || (kix == ix && kd == d) {
        assert DirIndex(kd) == j ==> kd == d;
      }
      if v.jam {
        assert Pending(|its|, ix, j, ix, d) && LaneJams(cars, its, ix, d);
      } else {
        assert !LaneJams(cars, its, ix, d);
        if v.warn {
          assert Pending(|its|, ix, j, ix, d) && LaneWarns(cars, its, ix, d);
        } else {
          assert !LaneWarns(cars, its, ix, d);
        }
      }
    }
  }

  /**
   * The detection stage reports a jam exactly when some lane of some intersection
   * jams; when it reports none, the warning is raised exactly when some lane warns.
   */
  lemma JamScanMeaning(cars: seq<CarEntry>, its: seq<Intersection>)
    ensures var r := JamScan(cars, its);
      && (r.jam <==> exists ix, d :: 0 <= ix < |its| && LaneJams(cars, its, ix, d))
      && (!r.jam ==> (r.warn <==> exists ix, d :: 0 <= ix < |its| && LaneWarns(cars, its, ix, d)))
  {
    ScanFromMeaning(cars, its, 0, 0, false);
    forall ix, d ensures Pending(|its|, 0, 0, ix, d) <==> 0 <= ix < |its| {
    }
  }

  /** The detection loops: nested over intersections and directions, returning at the first jam. */
  method ScanJams(cars: seq<CarEntry>, its: seq<Intersection>) returns (jam: bool, warn: bool)
    ensures JamReport(jam, warn) == JamScan(cars, its)
  {
    jam, warn := false, false;
    for ix := 0 to |its|
      invariant ScanFrom(cars, its, ix, 0, warn) == JamScan(cars, its)
    {
      var it := its[ix];
      for j := 0 to 4
        invariant ScanFrom(cars, its, ix, j, warn) == JamScan(cars, its)
      {
        var dir := Directions[j];
        if LightFor(it, dir).state != RED {
          continue;
        }
        var filtered := LaneOf(cars, ix, dir);
        if |filtered| < 3 {
          continue;
        }
        var lane := SortByRank(cars, filtered);
        if !FirstAtLine(it, dir, cars[lane[0]].car) {
          continue;
        }
        var waiting := CountWaiting(cars, lane, dir);
        if waiting >= 3 && waiting < 5 {
          warn := true;
        }
        if waiting >= 5 {
          jam := true;
          return;
        } else {
          var back := cars[lane[Min(waiting - 1, |lane| - 1)]].car;
          var dist := TailDistance(it, dir, back);
          if dist > JamLimit {
            jam := true;
            return;
          }
        }
      }
    }
  }
}
