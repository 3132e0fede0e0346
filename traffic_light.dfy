/**
 * The traffic light of one approach: a four-field state machine that routes
 * every change RED/GREEN -> YELLOW -> GREEN/RED through a one-second amber phase.
 *
 * `Light` is the value of a light's fields; `Requested` and `Advanced` say what
 * `requestChange` and `update` do to it, and the class `TrafficLight` is proved
 * to do exactly that in place.
 */
module Lights {
  import opened Basics

  const Width := 30
  const Height := 80
  /** Length of the amber phase, in milliseconds. */
  const YellowDuration := 1000

  datatype Light = Light(
    x: int, y: int,
    state: TrafficLightState,
    transitioning: bool,
    yellowTimer: int,
    stateBeforeTransition: TrafficLightState)

  /** A light as constructed: RED, not transitioning. */
  function NewLight(x: int, y: int): Light {
    Light(x, y, RED, false, 0, RED)
  }

  /** The state an amber phase that started from `before` ends in. */
  function Resolution(before: TrafficLightState): TrafficLightState {
    if before == RED then GREEN else RED
  }

  /**
   * The invariant every light keeps from construction on: it shows YELLOW exactly
   * while it is transitioning, it remembers a RED or GREEN prior state, and an
   * unfinished amber phase has not yet reached its duration.
   */
  predicate Inv(l: Light) {
    && (l.state == YELLOW <==> l.transitioning)
    && l.stateBeforeTransition != YELLOW
    && (l.transitioning ==> l.yellowTimer < YellowDuration)
  }

  /** `requestChange`: ignored while transitioning; from RED or GREEN, start the amber phase. */
  function Requested(l: Light): (r: Light)
    ensures r.x == l.x && r.y == l.y
    ensures l.transitioning ==> r == l
    ensures !l.transitioning && (l.state == RED || l.state == GREEN) ==>
              r.state == YELLOW && r.transitioning && r.yellowTimer == 0
              && r.stateBeforeTransition == l.state
    ensures Inv(l) ==> Inv(r)
  {
    if l.transitioning then l
    else if l.state == RED || l.state == GREEN then
      l.(stateBeforeTransition := l.state, state := YELLOW, yellowTimer := 0, transitioning := true)
    else l
  }

  /** `update(deltaMs)`: accumulate amber time and resolve once the duration is reached. */
  function Advanced(l: Light, deltaMs: int): (r: Light)
    ensures r.x == l.x && r.y == l.y && r.stateBeforeTransition == l.stateBeforeTransition
    ensures !l.transitioning ==> r == l
    ensures r.state == YELLOW ==> l.state == YELLOW
    ensures Inv(l) && l.transitioning ==>
              (r.transitioning <==> l.yellowTimer + deltaMs < YellowDuration)
    ensures Inv(l) ==> Inv(r)
  {
    if !l.transitioning then l
    else
      var t := l.yellowTimer + deltaMs;
      if t >= YellowDuration then
        l.(yellowTimer := t, state := Resolution(l.stateBeforeTransition), transitioning := false)
      else
        l.(yellowTimer := t)
  }

  /** `containsPoint`: the point lies in the housing, both edges included. */
  predicate Covers(l: Light, mx: int, my: int) {
    mx >= l.x && mx <= l.x + Width && my >= l.y && my <= l.y + Height
  }

  /** Total of a sequence of tick lengths. */
  function Sum(ds: seq<int>): int {
    if ds == [] then 0 else ds[0] + Sum(ds[1..])
  }

  /** The light after one `update` per tick length in `ds`, in order. */
  function Elapse(l: Light, ds: seq<int>): Light
    decreases |ds|
  {
    if ds == [] then l else Elapse(Advanced(l, ds[0]), ds[1..])
  }

  predicate NonNegative(ds: seq<int>) {
    forall i :: 0 <= i < |ds| ==> ds[i] >= 0
  }

  lemma {:induction false} SumNonNegative(ds: seq<int>)
    requires NonNegative(ds)
    ensures Sum(ds) >= 0
  {
    if ds != [] {
      SumNonNegative(ds[1..]);
    }
  }

  /** A second request is a no-op: requesting twice starts one transition. */
  lemma DoubleRequestIsOne(l: Light)
    ensures Requested(Requested(l)) == Requested(l)
  {
  }

  /** A light that is not transitioning ignores the passage of time. */
  lemma {:induction false} SteadyLightHolds(l: Light, ds: seq<int>)
    requires !l.transitioning
    decreases |ds|
    ensures Elapse(l, ds) == l
  {
    if ds != [] {
      SteadyLightHolds(Advanced(l, ds[0]), ds[1..]);
    }
  }

  /**
   * The amber phase lasts exactly until the accumulated time reaches the duration:
   * while it is below, the light stays YELLOW and transitioning; once it reaches
   * the duration, a light that came from RED is GREEN, one that came from GREEN is
   * RED, and it is no longer transitioning.
   */
  lemma {:induction false} AmberResolves(l: Light, ds: seq<int>)
    requires Inv(l) && l.transitioning && NonNegative(ds)
    decreases |ds|
    ensures Inv(Elapse(l, ds))
    ensures Elapse(l, ds).transitioning <==> l.yellowTimer + Sum(ds) < YellowDuration
    ensures Elapse(l, ds).state ==
              if l.yellowTimer + Sum(ds) < YellowDuration then YELLOW
              else Resolution(l.stateBeforeTransition)
  {
    if ds != [] {
      var m := Advanced(l, ds[0]);
      assert NonNegative(ds[1..]) by {
        forall i | 0 <= i < |ds[1..]| ensures ds[1..][i] >= 0 {
          assert ds[1..][i] == ds[i + 1];
        }
      }
      if m.transitioning {
        AmberResolves(m, ds[1..]);
      } else {
        SteadyLightHolds(m, ds[1..]);
        SumNonNegative(ds[1..]);
      }
    }
  }

  /**
   * A RED light that is asked to change twice in a row becomes GREEN once one
   * amber duration has passed, and is still YELLOW before that.
   */
  lemma DoubleRequestOnRed(l: Light, ds: seq<int>)
    requires Inv(l) && l.state == RED && NonNegative(ds)
    ensures Elapse(Requested(Requested(l)), ds).state ==
              if Sum(ds) < YellowDuration then YELLOW else GREEN
  {
    DoubleRequestIsOne(l);
    AmberResolves(Requested(l), ds);
  }

  /** The light object of src/TrafficLight.java; `View` is the value of its fields. */
  class TrafficLight {
    const x: int
    const y: int
    var state: TrafficLightState
    var transitioning: bool
    var yellowTimer: int
    var stateBeforeTransition: TrafficLightState

    function View(): Light
      reads this
    {
      Light(x, y, state, transitioning, yellowTimer, stateBeforeTransition)
    }

    ghost predicate Valid()
      reads this
    {
      Inv(View())
    }

    constructor (x: int, y: int)
      ensures View() == NewLight(x, y)
      ensures Valid()
    {
      this.x := x;
      this.y := y;
      state := RED;
      transitioning := false;
      yellowTimer := 0;
      stateBeforeTransition := RED;
    }

    method RequestChange()
      requires Valid()
      modifies this
      ensures View() == Requested(old(View()))
      ensures Valid()
    {
      if transitioning {
        return;
      }
      if state == RED || state == GREEN {
        stateBeforeTransition := state;
        state := YELLOW;
        yellowTimer := 0;
        transitioning := true;
      }
    }

    method Update(deltaMs: int)
      requires Valid()
      modifies this
      ensures View() == Advanced(old(View()), deltaMs)
      ensures Valid()
    {
      if !transitioning {
        return;
      }
      yellowTimer := yellowTimer + deltaMs;
      if yellowTimer >= YellowDuration {
        if stateBeforeTransition == RED {
          state := GREEN;
        } else {
          state := RED;
        }
        transitioning := false;
      }
    }

    /** Hit test against the light's housing. */
    function ContainsPoint(mx: int, my: int): (hit: bool)
      reads this
      ensures hit == Covers(View(), mx, my)
    {
      mx >= x && mx <= x + Width && my >= y && my <= y + Height
    }

    /** The light's aspect; a valid light shows YELLOW exactly while it is transitioning. */
    function GetState(): (s: TrafficLightState)
      reads this
      ensures Valid() ==> (s == YELLOW <==> transitioning)
    {
      state
    }
  }

  /**
   * The housing hit test is closed on all four edges: the corners are inside and
   * a point one unit beyond any edge is outside.
   */
  lemma HousingIsClosed(l: Light)
    ensures Covers(l, l.x, l.y) && Covers(l, l.x + Width, l.y + Height)
    ensures !Covers(l, l.x - 1, l.y) && !Covers(l, l.x + Width + 1, l.y)
    ensures !Covers(l, l.x, l.y - 1) && !Covers(l, l.x, l.y + Height + 1)
  {
  }
}
