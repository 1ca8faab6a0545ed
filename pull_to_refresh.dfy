/** The history screen's pull-to-refresh gesture: touch start, move and end
    events drive three fields, and a timer clears the refreshing flag.
    Positions are exact reals, so the 0.5 resistance is exact. */
module PullToRefresh {
  import opened Types

  const RefreshThreshold: real := 80.0
  const Resistance: real := 0.5

  /** The three state fields of the gesture. */
  datatype Gesture = Gesture(isRefreshing: bool, pullStart: Option<real>, pullPosition: real)

  const Idle: Gesture := Gesture(false, None, 0.0)

  /** The events the gesture reacts to. `atTop` stands for the page being
      scrolled to the top; `RefreshTimeout` is the timer set when a refresh
      starts. */
  datatype TouchEvent =
    | TouchStart(atTop: bool, clientY: real)
    | TouchMove(clientY: real)
    | TouchEnd
    | RefreshTimeout

  /** The state after one event. A refresh starts only when a pull past the
      threshold is released, and only the timer ends one. */
  function Step(g: Gesture, e: TouchEvent): (r: Gesture)
    ensures !g.isRefreshing && r.isRefreshing ==>
      e.TouchEnd? && g.pullStart.Some? && g.pullPosition > RefreshThreshold
    ensures g.isRefreshing && !r.isRefreshing ==> e.RefreshTimeout?
  {
    match e
    case TouchStart(atTop, y) =>
      if atTop && !g.isRefreshing then g.(pullStart := Some(y)) else g
    case TouchMove(y) =>
      if g.pullStart.None? || g.isRefreshing then g
      else
        var delta := y - g.pullStart.value;
        if delta > 0.0 then g.(pullPosition := delta * Resistance)
        else g.(pullStart := None, pullPosition := 0.0)
    case TouchEnd =>
      if g.isRefreshing || g.pullStart.None? then g
      else Gesture(g.pullPosition > RefreshThreshold, None, 0.0)
    case RefreshTimeout =>
      g.(isRefreshing := false)
  }

  /** The state after a sequence of events. Without a touch end no refresh
      can start. */
  function Run(g: Gesture, events: seq<TouchEvent>): (r: Gesture)
    ensures !g.isRefreshing && (forall k :: 0 <= k < |events| ==> !events[k].TouchEnd?) ==> !r.isRefreshing
    decreases |events|
  {
    if events == [] then g else Run(Step(g, events[0]), events[1..])
  }

  /** The gesture's invariant: the pull is never negative, no pull start
      means no pull, and a refresh is never under way during a pull. */
  ghost predicate Inv(g: Gesture) {
    && g.pullPosition >= 0.0
    && (g.pullStart.None? ==> g.pullPosition == 0.0)
    && (g.isRefreshing ==> g.pullStart.None?)
  }

  lemma StepKeepsInv(g: Gesture, e: TouchEvent)
    requires Inv(g)
    ensures Inv(Step(g, e))
  {
  }

  /** Every state reachable from a valid state satisfies the invariant. */
  lemma {:induction false} RunKeepsInv(g: Gesture, events: seq<TouchEvent>)
    requires Inv(g)
    ensures Inv(Run(g, events))
    decreases |events|
  {
    if events != [] {
      StepKeepsInv(g, events[0]);
      RunKeepsInv(Step(g, events[0]), events[1..]);
    }
  }

  /** A pull starts only at the top and when no refresh is under way. */
  lemma StartGuard(g: Gesture, atTop: bool, y: real)
    ensures Step(g, TouchStart(atTop, y)).pullStart == Some(y) || Step(g, TouchStart(atTop, y)) == g
    ensures Step(g, TouchStart(atTop, y)) != g ==> atTop && !g.isRefreshing
    ensures atTop && !g.isRefreshing ==> Step(g, TouchStart(atTop, y)) == g.(pullStart := Some(y))
  {
  }

  /** During a refresh, start, move and end change nothing; only the timer
      ends it. */
  lemma RefreshingIgnoresTouches(g: Gesture, e: TouchEvent)
    requires g.isRefreshing
    ensures e.RefreshTimeout? <==> Step(g, e) != g
    ensures e.RefreshTimeout? ==> !Step(g, e).isRefreshing
  {
  }

  /** A move without a pull in progress changes nothing; with one, a
      downward move sets the pull to half the distance from the start and
      an upward (or zero) move cancels it. */
  lemma MoveRule(g: Gesture, y: real)
    ensures g.pullStart.None? ==> Step(g, TouchMove(y)) == g
    ensures g.pullStart.Some? && !g.isRefreshing && y > g.pullStart.value ==>
      Step(g, TouchMove(y)) == Gesture(false, g.pullStart, (y - g.pullStart.value) / 2.0)
    ensures g.pullStart.Some? && !g.isRefreshing && y <= g.pullStart.value ==>
      Step(g, TouchMove(y)) == Gesture(false, None, 0.0)
  {
  }

  /** Touch end during a pull starts a refresh exactly when the pull exceeds
      80, and always clears the pull. */
  lemma EndRule(g: Gesture)
    requires Inv(g) && g.pullStart.Some?
    ensures Step(g, TouchEnd).isRefreshing <==> g.pullPosition > RefreshThreshold
    ensures Step(g, TouchEnd).pullStart == None && Step(g, TouchEnd).pullPosition == 0.0
  {
  }

  /** Moves all below the start leave the pull at half the distance of the
      last one: the pull is computed from the start, not accumulated. */
  lemma {:induction false} PullTracksLastMove(g: Gesture, ys: seq<real>)
    requires !g.isRefreshing && g.pullStart.Some? && |ys| > 0
    requires forall k :: 0 <= k < |ys| ==> ys[k] > g.pullStart.value
    ensures Run(g, Moves(ys)) == Gesture(false, g.pullStart, (ys[|ys| - 1] - g.pullStart.value) * Resistance)
    decreases |ys|
  {
    var g' := Step(g, TouchMove(ys[0]));
    assert Moves(ys)[0] == TouchMove(ys[0]);
    assert Moves(ys)[1..] == Moves(ys[1..]);
    if |ys| > 1 {
      PullTracksLastMove(g', ys[1..]);
    } else {
      assert Moves(ys[1..]) == [];
    }
  }

  function Moves(ys: seq<real>): (events: seq<TouchEvent>)
    ensures |events| == |ys|
    ensures forall k :: 0 <= k < |ys| ==> events[k] == TouchMove(ys[k])
  {
    seq(|ys|, k requires 0 <= k < |ys| => TouchMove(ys[k]))
  }

  /** A drag of 200 from the top, released, starts a refresh and the timer
      ends it; a drag of 100, released, returns to idle without one. */
  lemma DragScenarios()
    ensures Run(Idle, [TouchStart(true, 100.0), TouchMove(300.0), TouchEnd])
      == Gesture(true, None, 0.0)
    ensures Run(Idle, [TouchStart(true, 100.0), TouchMove(300.0), TouchEnd, RefreshTimeout]) == Idle
    ensures Run(Idle, [TouchStart(true, 100.0), TouchMove(200.0), TouchEnd]) == Idle
    ensures Run(Idle, [TouchStart(false, 100.0), TouchMove(300.0), TouchEnd]) == Idle
  {
  }

  /** The gesture as the component holds it: one method per event handler. */
  class PullState {
    var isRefreshing: bool
    var pullStart: Option<real>
    var pullPosition: real

    function State(): Gesture
      reads this
    {
      Gesture(isRefreshing, pullStart, pullPosition)
    }

    ghost predicate Valid()
      reads this
    {
      Inv(State())
    }

    constructor ()
      ensures Valid() && State() == Idle
    {
      isRefreshing, pullStart, pullPosition := false, None, 0.0;
    }

    /** `handleTouchStart`. */
    method OnTouchStart(atTop: bool, clientY: real)
      requires Valid()
      modifies this
      ensures Valid()
      ensures State() == Step(old(State()), TouchStart(atTop, clientY))
    {
      if atTop && !isRefreshing {
        pullStart := Some(clientY);
      }
    }

    /** `handleTouchMove`. */
    method OnTouchMove(clientY: real)
      requires Valid()
      modifies this
      ensures Valid()
      ensures State() == Step(old(State()), TouchMove(clientY))
    {
      if pullStart.None? || isRefreshing {
        return;
      }
      var pullDelta := clientY - pullStart.value;
      if pullDelta > 0.0 {
        pullPosition := pullDelta * Resistance;
      } else {
        pullStart := None;
        pullPosition := 0.0;
      }
    }

    /** `handleTouchEnd`. */
    method OnTouchEnd()
      requires Valid()
      modifies this
      ensures Valid()
      ensures State() == Step(old(State()), TouchEnd)
    {
      if isRefreshing || pullStart.None? {
        return;
      }
      if pullPosition > RefreshThreshold {
        isRefreshing := true;
      }
      pullStart := None;
      pullPosition := 0.0;
    }

    /** The 1500 ms timer set by a refresh. */
    method OnRefreshTimeout()
      requires Valid()
      modifies this
      ensures Valid()
      ensures State() == Step(old(State()), RefreshTimeout)
    {
      isRefreshing := false;
    }
  }
}
