/**
 * The wheel gesture decoder (src/utils/createPanZoom.ts). A burst of wheel
 * events is one gesture: the first event starts it, each event reports the
 * zoom scale (ctrl held) or the horizontal pan (otherwise) accumulated since
 * the start, and a quiet period of `END_TIMEOUT` milliseconds ends it.
 *
 * Wheel deltas are exact reals, and the timer is an explicit event: a
 * scheduled timeout is identified by the number `setTimeout` returned, and
 * firing it is a call of `OnTimeout`.
 */
module PanZoom {
  import opened Optional

  const PAN_DELTA_FACTOR: real := 0.1
  const SCALE_DELTA_FACTOR: real := 0.01
  /** Milliseconds without a wheel event after which the gesture ends. */
  const END_TIMEOUT: nat := 250

  /** The callbacks of the options object. */
  datatype Callback = Start | End | PanX(panX: real) | Zoom(scale: real)

  /** The fields of a wheel event the decoder reads. */
  datatype Wheel = Wheel(ctrlKey: bool, deltaX: real, deltaY: real)

  /** The decoder's gesture state: whether a gesture is under way and the
      scale and pan accumulated in it. */
  datatype Gesture = Gesture(active: bool, scale: real, panX: real)

  /** No gesture: scale 1, no pan. */
  const AT_REST := Gesture(false, 1.0, 0.0)

  // ---------------------------------------------------------------------------
  // The decoder as a state machine

  /** `onWheel`: the new gesture state and the callbacks fired, in order. */
  function WheelStep(g: Gesture, e: Wheel): (Gesture, seq<Callback>) {
    var start := if g.active then [] else [Start];
    if e.ctrlKey then
      var scale := g.scale - e.deltaY * SCALE_DELTA_FACTOR;
      (Gesture(true, scale, g.panX), start + [Zoom(scale)])
    else
      var panX := g.panX - e.deltaX * PAN_DELTA_FACTOR;
      (Gesture(true, g.scale, panX), start + [PanX(panX)])
  }

  /** `onTimeout`: ends the gesture and returns to rest. */
  function TimeoutStep(g: Gesture): (Gesture, seq<Callback>) {
    (AT_REST, [End])
  }

  /** A wheel event fires `onStart` exactly when no gesture is under way,
      and always leaves one under way. */
  lemma WheelStarts(g: Gesture, e: Wheel)
    ensures WheelStep(g, e).0.active
    ensures Start in WheelStep(g, e).1 <==> !g.active
    ensures !g.active ==> WheelStep(g, e).1[0] == Start
  {
  }

  /** Every wheel event fires exactly one of `onZoom` (ctrl held) and
      `onPanX` (otherwise), last, with the new accumulated value; a zoom
      changes only the scale and a pan only the pan. */
  lemma WheelReportsOnce(g: Gesture, e: Wheel)
    ensures var (g2, fired) := WheelStep(g, e);
      |fired| >= 1 &&
      (e.ctrlKey ==> fired[|fired| - 1] == Zoom(g2.scale) && g2.panX == g.panX) &&
      (!e.ctrlKey ==> fired[|fired| - 1] == PanX(g2.panX) && g2.scale == g.scale) &&
      forall i :: 0 <= i < |fired| - 1 ==> fired[i] == Start
  {
  }

  // ---------------------------------------------------------------------------
  // Whole gestures

  datatype Event = WheelEvent(wheel: Wheel) | Timeout

  function Step(g: Gesture, e: Event): (Gesture, seq<Callback>) {
    match e
    case WheelEvent(w) => WheelStep(g, w)
    case Timeout => TimeoutStep(g)
  }

  function Run(g: Gesture, events: seq<Event>): (Gesture, seq<Callback>)
    decreases |events|
  {
    if events == [] then (g, [])
    else
      var (g1, f1) := Run(g, events[..|events| - 1]);
      var (g2, f2) := Step(g1, events[|events| - 1]);
      (g2, f1 + f2)
  }

  /** Whatever the events, a decoder that is not in a gesture is at rest:
      scale 1 and no pan. */
  lemma {:induction false} InactiveIsAtRest(events: seq<Event>)
    ensures var g := Run(AT_REST, events).0; !g.active ==> g == AT_REST
    decreases |events|
  {
    if events != [] {
      InactiveIsAtRest(events[..|events| - 1]);
    }
  }

  /** A timeout always ends in rest, after firing `onEnd` last. */
  lemma TimeoutEndsGesture(g: Gesture, events: seq<Event>)
    ensures var events' := events + [Timeout];
      Run(g, events').0 == AT_REST && Run(g, events').1 == Run(g, events).1 + [End]
  {
    assert (events + [Timeout])[..|events|] == events;
  }

  /** The vertical deltas of the ctrl-held events. */
  function ZoomDelta(ws: seq<Wheel>): real
    decreases |ws|
  {
    if ws == [] then 0.0
    else ZoomDelta(ws[..|ws| - 1]) + (if ws[|ws| - 1].ctrlKey then ws[|ws| - 1].deltaY else 0.0)
  }

  /** The horizontal deltas of the other events. */
  function PanDelta(ws: seq<Wheel>): real
    decreases |ws|
  {
    if ws == [] then 0.0
    else PanDelta(ws[..|ws| - 1]) + (if ws[|ws| - 1].ctrlKey then 0.0 else ws[|ws| - 1].deltaX)
  }

  function Starts(fired: seq<Callback>): nat
    decreases |fired|
  {
    if fired == [] then 0 else Starts(fired[..|fired| - 1]) + (if fired[|fired| - 1] == Start then 1 else 0)
  }

  lemma {:induction false} StartsAppend(a: seq<Callback>, b: seq<Callback>)
    ensures Starts(a + b) == Starts(a) + Starts(b)
    decreases |b|
  {
    if b == [] {
      assert a + b == a;
    } else {
      assert (a + b)[..|a + b| - 1] == a + b[..|b| - 1];
      StartsAppend(a, b[..|b| - 1]);
    }
  }

  /** Wheel events with no timeout in between, from the left. */
  function Wheels(g: Gesture, ws: seq<Wheel>): (Gesture, seq<Callback>)
    decreases |ws|
  {
    if ws == [] then (g, [])
    else
      var (g1, f1) := Wheels(g, ws[..|ws| - 1]);
      var (g2, f2) := WheelStep(g1, ws[|ws| - 1]);
      (g2, f1 + f2)
  }

  /** A wheel event fires `onStart` once if no gesture was under way, and
      not at all otherwise. */
  lemma WheelStepStarts(g: Gesture, e: Wheel)
    ensures Starts(WheelStep(g, e).1) == if g.active then 0 else 1
  {
    var fired := WheelStep(g, e).1;
    if g.active {
      assert |fired| == 1 && fired[0] != Start && fired[..0] == [];
    } else {
      assert |fired| == 2 && fired[1] != Start;
      assert fired[..1] == [Start] && fired[..1][..0] == [];
      assert Starts(fired[..1]) == 1;
    }
  }

  /**
   * Within one gesture, the values reported are totals: the scale falls by
   * `SCALE_DELTA_FACTOR` per unit of ctrl-held vertical delta and the pan
   * by `PAN_DELTA_FACTOR` per unit of horizontal delta, from where they
   * stood.
   */
  lemma {:induction false} WheelsAccumulate(g: Gesture, ws: seq<Wheel>)
    ensures var g2 := Wheels(g, ws).0;
      g2.scale == g.scale - ZoomDelta(ws) * SCALE_DELTA_FACTOR &&
      g2.panX == g.panX - PanDelta(ws) * PAN_DELTA_FACTOR &&
      (ws != [] ==> g2.active) && (ws == [] ==> g2 == g)
    decreases |ws|
  {
    if ws != [] {
      WheelsAccumulate(g, ws[..|ws| - 1]);
    }
  }

  /** Within one gesture `onStart` fires once, and only if no gesture was
      under way before it. */
  lemma {:induction false} WheelsStartOnce(g: Gesture, ws: seq<Wheel>)
    ensures Starts(Wheels(g, ws).1) == (if ws != [] && !g.active then 1 else 0)
    decreases |ws|
  {
    if ws != [] {
      var init := ws[..|ws| - 1];
      var (g1, f1) := Wheels(g, init);
      WheelsStartOnce(g, init);
      WheelsAccumulate(g, init);
      WheelStepStarts(g1, ws[|ws| - 1]);
      StartsAppend(f1, WheelStep(g1, ws[|ws| - 1]).1);
    }
  }

  /** From rest, a gesture reports the totals from scale 1 and pan 0. */
  lemma GestureFromRest(ws: seq<Wheel>)
    requires ws != []
    ensures Wheels(AT_REST, ws).0 == Gesture(true, 1.0 - ZoomDelta(ws) * SCALE_DELTA_FACTOR, 0.0 - PanDelta(ws) * PAN_DELTA_FACTOR)
    ensures Starts(Wheels(AT_REST, ws).1) == 1
  {
    WheelsAccumulate(AT_REST, ws);
    WheelsStartOnce(AT_REST, ws);
  }

  /** After the timeout the next wheel event starts a fresh gesture: it fires
      `onStart` and reports its own delta from scale 1 or pan 0. */
  lemma TimeoutThenWheel(g: Gesture, e: Wheel)
    ensures var (g2, fired) := WheelStep(TimeoutStep(g).0, e);
      fired[0] == Start &&
      (e.ctrlKey ==> fired == [Start, Zoom(1.0 - e.deltaY * SCALE_DELTA_FACTOR)]) &&
      (!e.ctrlKey ==> fired == [Start, PanX(0.0 - e.deltaX * PAN_DELTA_FACTOR)])
  {
  }

  // ---------------------------------------------------------------------------
  // The closure

  /** The closure `createPanZoom` returns, with its captured variables. */
  class PanZoom {
    var endTimeoutId: Option<nat>
    var active: bool
    var scale: real
    var panX: real
    /** Timers scheduled and neither cleared nor fired yet. */
    var pendingTimeouts: set<nat>
    /** Every callback fired so far, in order. */
    var fired: seq<Callback>

    function State(): Gesture
      reads this
    {
      Gesture(active, scale, panX)
    }

    /** At rest nothing is pending; during a gesture exactly the last
        scheduled timeout is. */
    predicate Valid()
      reads this
    {
      (endTimeoutId.Some? ==> endTimeoutId.value > 0) &&
      if active then endTimeoutId.Some? && pendingTimeouts == {endTimeoutId.value}
      else State() == AT_REST && pendingTimeouts == {}
    }

    constructor ()
      ensures Valid()
      ensures State() == AT_REST && endTimeoutId.None? && pendingTimeouts == {} && fired == []
    {
      endTimeoutId := None;
      active := false;
      scale := 1.0;
      panX := 0.0;
      pendingTimeouts := {};
      fired := [];
    }

    /**
     * `onWheel`: starts a gesture if none is under way, replaces the pending
     * timeout by a new one with the number `timerId` that `setTimeout`
     * returns (always positive), and reports the new total.
     */
    method OnWheel(e: Wheel, timerId: nat)
      requires Valid()
      requires timerId > 0
      modifies this
      ensures Valid()
      ensures State() == WheelStep(old(State()), e).0
      ensures fired == old(fired) + WheelStep(old(State()), e).1
      ensures endTimeoutId == Some(timerId) && pendingTimeouts == {timerId}
    {
      if !active {
        fired := fired + [Start];
        active := true;
      }
      if endTimeoutId.Some? && endTimeoutId.value != 0 {
        pendingTimeouts := pendingTimeouts - {endTimeoutId.value};
      }
      if e.ctrlKey {
        scale := scale - e.deltaY * SCALE_DELTA_FACTOR;
        fired := fired + [Zoom(scale)];
      } else {
        panX := panX - e.deltaX * PAN_DELTA_FACTOR;
        fired := fired + [PanX(panX)];
      }
      endTimeoutId := Some(timerId);
      pendingTimeouts := pendingTimeouts + {timerId};
    }

    /** `onTimeout`, when the pending timer fires: ends the gesture. */
    method OnTimeout(timerId: nat)
      requires Valid()
      requires timerId in pendingTimeouts
      modifies this`active, this`scale, this`panX, this`pendingTimeouts, this`fired
      ensures Valid()
      ensures State() == TimeoutStep(old(State())).0 && fired == old(fired) + TimeoutStep(old(State())).1
      ensures pendingTimeouts == {} && endTimeoutId == old(endTimeoutId)
    {
      pendingTimeouts := pendingTimeouts - {timerId};
      fired := fired + [End];
      active := false;
      scale := 1.0;
      panX := 0.0;
    }
  }
}
