/**
 * The mouse and touch note tracker (src/PianoController.ts). Mouse and touch events
 * on the keyboard are turned into key-down and key-up notifications.
 *
 * Hit-testing is an input: a mouse or touch event arrives with the note of
 * the key under the pointer, or `None` when the element there is not a key.
 * The two callbacks become a trace of `Emit` values.
 */
module Pointer {
  import opened Optional

  /** One call of `onKeyDown` or `onKeyUp`. */
  datatype Emit = On(note: int) | Off(note: int)

  /** What lies under a moving touch: no element at all, or an element and
      the note it stands for, if it is a key. */
  datatype Hit = NoElement | Element(midi: Option<int>)

  /** One entry of a `touchmove` event's changed touches. */
  datatype TouchPoint = TouchPoint(identifier: int, hit: Hit)

  // ---------------------------------------------------------------------------
  // The mouse session

  /** `isMouseDown` and `activeMouseMidi`. */
  datatype Mouse = Mouse(isDown: bool, active: Option<int>)

  datatype MouseEvent = MouseDown(hit: Option<int>) | MouseMove(hit: Option<int>) | MouseUp | MouseLeave

  const MouseIdle := Mouse(false, None)

  /** `onKeyUp` for the remembered note, if there is one. */
  function Release(active: Option<int>): (r: seq<Emit>)
    ensures |r| <= 1
    ensures r == [] <==> active.None?
    ensures forall i :: 0 <= i < |r| ==> r[i].Off?
  {
    if active.Some? then [Off(active.value)] else []
  }

  /** One mouse handler: the new session and what it emits. */
  function MouseStep(s: Mouse, e: MouseEvent): (Mouse, seq<Emit>) {
    match e
    case MouseDown(hit) =>
      (Mouse(true, hit), if hit.Some? then [On(hit.value)] else [])
    case MouseMove(hit) =>
      if !s.isDown || s.active == hit then (s, [])
      else if hit.Some? then (Mouse(s.isDown, hit), Release(s.active) + [On(hit.value)])
      else (s, Release(s.active))
    case MouseLeave =>
      (Mouse(s.isDown, None), Release(s.active))
    case MouseUp =>
      (Mouse(false, None), Release(s.active))
  }

  /** The handlers applied to a sequence of events. */
  function RunMouse(s: Mouse, events: seq<MouseEvent>): (Mouse, seq<Emit>)
    decreases |events|
  {
    if events == [] then (s, [])
    else
      var (s1, e1) := MouseStep(s, events[0]);
      var (s2, e2) := RunMouse(s1, events[1..]);
      (s2, e1 + e2)
  }

  /** Mouse down remembers the note under the pointer (or none) and emits
      `onKeyDown` exactly once when there is a note. */
  lemma MouseDownEmits(s: Mouse, hit: Option<int>)
    ensures MouseStep(s, MouseDown(hit)).0 == Mouse(true, hit)
    ensures |MouseStep(s, MouseDown(hit)).1| == (if hit.Some? then 1 else 0)
    ensures hit.Some? ==> MouseStep(s, MouseDown(hit)).1 == [On(hit.value)]
  {
  }

  /** A move with the button up, or onto the remembered note, does nothing. */
  lemma MouseMoveIdle(s: Mouse, hit: Option<int>)
    requires !s.isDown || s.active == hit
    ensures MouseStep(s, MouseMove(hit)) == (s, [])
  {
  }

  /** A pressed move onto another key releases the remembered note, presses
      the new one and remembers it. A pressed move off the keys releases the
      remembered note but keeps remembering it. */
  lemma MouseMoveChanges(s: Mouse, hit: Option<int>)
    requires s.isDown && s.active != hit
    ensures hit.Some? ==> MouseStep(s, MouseMove(hit)) == (Mouse(true, hit), Release(s.active) + [On(hit.value)])
    ensures hit.None? ==> MouseStep(s, MouseMove(hit)) == (s, [Off(s.active.value)])
  {
  }

  /** Leave and up release the remembered note and forget it; up also ends
      the press. */
  lemma MouseReleases(s: Mouse)
    ensures MouseStep(s, MouseLeave) == (Mouse(s.isDown, None), Release(s.active))
    ensures MouseStep(s, MouseUp) == (MouseIdle, Release(s.active))
  {
  }

  // ---------------------------------------------------------------------------
  // Sounding notes

  /**
   * Replays a trace of notifications against a single voice: `Some(n)` when
   * the trace is well formed and leaves `n` (or nothing) sounding, `None`
   * when it presses a key while another sounds or releases a key that is
   * not sounding.
   */
  function Replay(t: seq<Emit>): Option<Option<int>>
    decreases |t|
  {
    if t == [] then Some(None)
    else
      match Replay(t[..|t| - 1])
      case None => None
      case Some(sounding) =>
        match t[|t| - 1]
        case On(n) => if sounding.None? then Some(Some(n)) else None
        case Off(n) => if sounding == Some(n) then Some(None) else None
  }

  lemma {:induction false} ReplayAppend(a: seq<Emit>, b: seq<Emit>)
    ensures Replay(a + b) == if Replay(a).None? then None else ReplayFrom(Replay(a).value, b)
    decreases |b|
  {
    if b == [] {
      assert a + b == a;
    } else {
      var b' := b[..|b| - 1];
      assert (a + b)[..|a + b| - 1] == a + b';
      assert (a + b)[|a + b| - 1] == b[|b| - 1];
      ReplayAppend(a, b');
    }
  }

  /** `Replay` continued from a voice that is already sounding `start`. */
  function ReplayFrom(start: Option<int>, t: seq<Emit>): Option<Option<int>>
    decreases |t|
  {
    if t == [] then Some(start)
    else
      match ReplayFrom(start, t[..|t| - 1])
      case None => None
      case Some(sounding) =>
        match t[|t| - 1]
        case On(n) => if sounding.None? then Some(Some(n)) else None
        case Off(n) => if sounding == Some(n) then Some(None) else None
  }

  /**
   * The mouse move the handler evidently intends: a pressed move off the
   * keys releases the remembered note and forgets it, as mouse leave does.
   */
  function MouseMoveIntended(s: Mouse, hit: Option<int>): (r: (Mouse, seq<Emit>))
    ensures hit.Some? || s.active == hit || !s.isDown ==> r == MouseStep(s, MouseMove(hit))
    ensures hit.None? && s.isDown ==> r.0.active.None?
  {
    if !s.isDown || s.active == hit then (s, [])
    else if hit.Some? then (Mouse(s.isDown, hit), Release(s.active) + [On(hit.value)])
    else (Mouse(s.isDown, None), Release(s.active))
  }

  /** The session agrees with the trace: a released button remembers no
      note, and the remembered note is exactly the one left sounding. */
  ghost predicate MouseAgrees(s: Mouse, t: seq<Emit>) {
    (!s.isDown ==> s.active.None?) && Replay(t) == Some(s.active)
  }

  /**
   * The mouse down the handler evidently intends: a note still held (a
   * second button pressed while the first is down) is released before the
   * new one is pressed.
   */
  function MouseDownIntended(s: Mouse, hit: Option<int>): (r: (Mouse, seq<Emit>))
    ensures s.active.None? ==> r == MouseStep(s, MouseDown(hit))
    ensures r.0 == Mouse(true, hit)
    ensures s.active.Some? ==> |r.1| >= 1 && r.1[0] == Off(s.active.value)
  {
    var press := if hit.Some? then [On(hit.value)] else [];
    assert [] + press == press;
    (Mouse(true, hit), Release(s.active) + press)
  }

  /** The mouse handlers with the corrected mouse down and mouse move. */
  function IntendedMouseStep(s: Mouse, e: MouseEvent): (Mouse, seq<Emit>) {
    match e
    case MouseDown(hit) => MouseDownIntended(s, hit)
    case MouseMove(hit) => MouseMoveIntended(s, hit)
    case _ => MouseStep(s, e)
  }

  /** Every corrected mouse step keeps the trace well formed, so each note
      sounds and is released at most once at a time. */
  lemma IntendedMouseKeepsAgreement(s: Mouse, t: seq<Emit>, e: MouseEvent)
    requires MouseAgrees(s, t)
    ensures var r := IntendedMouseStep(s, e); MouseAgrees(r.0, t + r.1)
  {
    var r := IntendedMouseStep(s, e);
    ReplayAppend(t, r.1);
    match e
    case MouseDown(hit) =>
      if s.active.Some? {
        assert ReplayFrom(s.active, r.1[..1]) == Some(None) by {
          assert r.1[..1][..0] == [];
        }
        if hit.Some? {
          assert r.1[..|r.1| - 1] == r.1[..1];
        }
      } else if hit.Some? {
        assert r.1[..0] == [];
      }
    case MouseMove(hit) =>
      if s.isDown && s.active != hit {
        if s.active.Some? {
          assert ReplayFrom(s.active, r.1[..1]) == Some(None) by {
            assert r.1[..1][..0] == [];
          }
          if hit.Some? {
            assert r.1[..|r.1| - 1] == r.1[..1];
          }
        } else if hit.Some? {
          assert r.1[..0] == [];
        }
      }
    case MouseLeave =>
      if s.active.Some? {
        assert r.1[..0] == [];
      }
    case MouseUp =>
      if s.active.Some? {
        assert r.1[..0] == [];
      }
  }

  /**
   * As written, a second mouse down while a key is held (another button
   * pressed before the first is released) presses the new key without
   * releasing the held one, which no single voice can replay.
   */
  lemma MouseDownWhileHeld()
    ensures RunMouse(MouseIdle, [MouseDown(Some(60)), MouseDown(Some(62))]).1 == [On(60), On(62)]
    ensures Replay([On(60), On(62)]).None?
  {
    var events := [MouseDown(Some(60)), MouseDown(Some(62))];
    assert events[1..] == [MouseDown(Some(62))];
    assert events[1..][1..] == [];
    var t := [On(60), On(62)];
    assert t[..1] == [On(60)];
    assert t[..1][..0] == [];
  }

  /**
   * As written, pressing a key, dragging off the keys and releasing the
   * button releases the key twice: the move emits `onKeyUp(60)` but keeps
   * remembering 60, and mouse up emits it again.
   */
  lemma MouseDoubleRelease()
    ensures RunMouse(MouseIdle, [MouseDown(Some(60)), MouseMove(None), MouseUp]).1 == [On(60), Off(60), Off(60)]
    ensures Replay([On(60), Off(60), Off(60)]).None?
  {
    var events := [MouseDown(Some(60)), MouseMove(None), MouseUp];
    assert events[1..] == [MouseMove(None), MouseUp];
    assert events[1..][1..] == [MouseUp];
    assert events[1..][1..][1..] == [];
    var t := [On(60), Off(60), Off(60)];
    assert t[..2] == [On(60), Off(60)];
    assert t[..2][..1] == [On(60)];
    assert t[..2][..1][..0] == [];
  }

  // ---------------------------------------------------------------------------
  // Touches

  /** `touchstart`: a touch landing on a key presses it and remembers it
      under the touch's identifier; anywhere else nothing happens. No other
      touch's entry changes, and for an identifier not yet remembered the
      key-downs minus key-ups it emits equal the entries it adds. */
  function TouchStartStep(m: map<int, int>, identifier: int, hit: Option<int>): (r: (map<int, int>, seq<Emit>))
    ensures hit.None? ==> r == (m, [])
    ensures forall id :: id != identifier ==> (id in r.0 <==> id in m) && (id in m ==> r.0[id] == m[id])
    ensures identifier !in m ==> Presses(r.1) - Releases(r.1) == |r.0| - |m|
  {
    if hit.None? then (m, [])
    else
      SingleCounts(On(hit.value));
      MapUpdateSize(m, identifier, hit.value);
      (m[identifier := hit.value], [On(hit.value)])
  }

  /** One changed touch of `touchmove`. */
  function TouchMoveOne(m: map<int, int>, p: TouchPoint): (map<int, int>, seq<Emit>) {
    var id := p.identifier;
    match p.hit
    case NoElement =>
      if id in m then (m - {id}, [Off(m[id])]) else (m, [])
    case Element(midi) =>
      if midi.Some? && id in m && m[id] == midi.value then (m, [])
      else
        var release := if id in m then [Off(m[id])] else [];
        if midi.None? then (m - {id}, release)
        else (m[id := midi.value], release + [On(midi.value)])
  }

  /** All changed touches of one `touchmove`, in order. */
  function TouchMoveAll(m: map<int, int>, points: seq<TouchPoint>): (map<int, int>, seq<Emit>)
    decreases |points|
  {
    if points == [] then (m, [])
    else
      var (m1, e1) := TouchMoveAll(m, points[..|points| - 1]);
      var (m2, e2) := TouchMoveOne(m1, points[|points| - 1]);
      (m2, e1 + e2)
  }

  /** `touchend`: a remembered touch releases its note and is forgotten.
      The lifted touch is remembered no longer, no other touch's entry
      changes, and the key-ups it emits equal the entries it drops. */
  function TouchEndStep(m: map<int, int>, identifier: int): (r: (map<int, int>, seq<Emit>))
    ensures identifier !in r.0
    ensures forall id :: id != identifier ==> (id in r.0 <==> id in m) && (id in m ==> r.0[id] == m[id])
    ensures Presses(r.1) - Releases(r.1) == |r.0| - |m|
  {
    if identifier in m then
      SingleCounts(Off(m[identifier]));
      MapRemoveSize(m, identifier);
      (m - {identifier}, [Off(m[identifier])])
    else (m, [])
  }

  /** A move onto no element at all does what a move onto an element that is
      not a key does. */
  lemma NoElementIsNonKey(m: map<int, int>, identifier: int)
    ensures TouchMoveOne(m, TouchPoint(identifier, NoElement)) == TouchMoveOne(m, TouchPoint(identifier, Element(None)))
  {
    if identifier !in m {
      assert m - {identifier} == m;
    }
  }

  /** A move only changes the entries of the touches it lists. */
  lemma {:induction false} TouchMoveOthersUntouched(m: map<int, int>, points: seq<TouchPoint>, other: int)
    requires forall i :: 0 <= i < |points| ==> points[i].identifier != other
    ensures other in TouchMoveAll(m, points).0 <==> other in m
    ensures other in m ==> TouchMoveAll(m, points).0[other] == m[other]
    decreases |points|
  {
    if points != [] {
      TouchMoveOthersUntouched(m, points[..|points| - 1], other);
    }
  }

  datatype TouchEvent =
    | TouchStart(identifier: int, hit: Option<int>)
    | TouchMove(changed: seq<TouchPoint>)
    | TouchEnd(identifier: int)

  function TouchStep(m: map<int, int>, e: TouchEvent): (map<int, int>, seq<Emit>) {
    match e
    case TouchStart(id, hit) => TouchStartStep(m, id, hit)
    case TouchMove(points) => TouchMoveAll(m, points)
    case TouchEnd(id) => TouchEndStep(m, id)
  }

  function RunTouch(m: map<int, int>, events: seq<TouchEvent>): (map<int, int>, seq<Emit>)
    decreases |events|
  {
    if events == [] then (m, [])
    else
      var (m1, e1) := TouchStep(m, events[0]);
      var (m2, e2) := RunTouch(m1, events[1..]);
      (m2, e1 + e2)
  }

  /** No `touchstart` arrives for an identifier that is already remembered. */
  ghost predicate FreshStarts(m: map<int, int>, events: seq<TouchEvent>)
    decreases |events|
  {
    events == [] ||
    ((events[0].TouchStart? ==> events[0].identifier !in m) &&
     FreshStarts(TouchStep(m, events[0]).0, events[1..]))
  }

  function Presses(t: seq<Emit>): nat
    decreases |t|
  {
    if t == [] then 0 else (if t[0].On? then 1 else 0) + Presses(t[1..])
  }

  function Releases(t: seq<Emit>): nat
    decreases |t|
  {
    if t == [] then 0 else (if t[0].Off? then 1 else 0) + Releases(t[1..])
  }

  lemma {:induction false} CountsAppend(a: seq<Emit>, b: seq<Emit>)
    ensures Presses(a + b) == Presses(a) + Presses(b)
    ensures Releases(a + b) == Releases(a) + Releases(b)
    decreases |a|
  {
    if a == [] {
      assert a + b == b;
    } else {
      assert (a + b)[1..] == a[1..] + b;
      CountsAppend(a[1..], b);
    }
  }

  lemma SingleCounts(x: Emit)
    ensures Presses([x]) == (if x.On? then 1 else 0)
    ensures Releases([x]) == (if x.Off? then 1 else 0)
  {
    assert [x][1..] == [];
  }

  lemma MapRemoveSize(m: map<int, int>, id: int)
    requires id in m
    ensures |m - {id}| == |m| - 1
  {
    assert (m - {id})[id := m[id]] == m;
  }

  lemma MapUpdateSize(m: map<int, int>, id: int, v: int)
    ensures |m[id := v]| == if id in m then |m| else |m| + 1
  {
    if id in m {
      assert m[id := v] == (m - {id})[id := v];
      MapRemoveSize(m, id);
    }
  }

  /** One changed touch presses as many keys as it adds entries. */
  lemma TouchMoveOneBalance(m: map<int, int>, p: TouchPoint)
    ensures var (m2, e) := TouchMoveOne(m, p); Presses(e) - Releases(e) == |m2| - |m|
  {
    var id := p.identifier;
    if id in m {
      SingleCounts(Off(m[id]));
      MapRemoveSize(m, id);
    } else {
      assert m - {id} == m;
    }
    if p.hit.Element? && p.hit.midi.Some? && !(id in m && m[id] == p.hit.midi.value) {
      var release: seq<Emit> := if id in m then [Off(m[id])] else [];
      SingleCounts(On(p.hit.midi.value));
      CountsAppend(release, [On(p.hit.midi.value)]);
      MapUpdateSize(m, id, p.hit.midi.value);
    }
  }

  lemma {:induction false} TouchMoveAllBalance(m: map<int, int>, points: seq<TouchPoint>)
    ensures var (m2, e) := TouchMoveAll(m, points); Presses(e) - Releases(e) == |m2| - |m|
    decreases |points|
  {
    if points != [] {
      var (m1, e1) := TouchMoveAll(m, points[..|points| - 1]);
      var (m2, e2) := TouchMoveOne(m1, points[|points| - 1]);
      TouchMoveAllBalance(m, points[..|points| - 1]);
      TouchMoveOneBalance(m1, points[|points| - 1]);
      CountsAppend(e1, e2);
    }
  }

  /** One touch handler presses as many keys as it adds entries, unless it
      is a `touchstart` for a remembered identifier. */
  lemma TouchStepBalance(m: map<int, int>, e: TouchEvent)
    requires e.TouchStart? ==> e.identifier !in m
    ensures var (m2, emits) := TouchStep(m, e); Presses(emits) - Releases(emits) == |m2| - |m|
  {
    match e
    case TouchStart(id, hit) =>
    case TouchMove(points) => TouchMoveAllBalance(m, points);
    case TouchEnd(id) =>
  }

  /**
   * Across the touch handlers, the keys pressed minus the keys released
   * equals the growth of the touch map, as long as no `touchstart` arrives
   * for an identifier that is already remembered.
   */
  lemma {:induction false} TouchBalance(m: map<int, int>, events: seq<TouchEvent>)
    requires FreshStarts(m, events)
    ensures var (m2, e) := RunTouch(m, events); Presses(e) - Releases(e) == |m2| - |m|
    decreases |events|
  {
    if events != [] {
      var (m1, e1) := TouchStep(m, events[0]);
      var (m2, e2) := RunTouch(m1, events[1..]);
      TouchStepBalance(m, events[0]);
      TouchBalance(m1, events[1..]);
      CountsAppend(e1, e2);
    }
  }

  /** A second `touchstart` for a remembered identifier presses a key without
      adding an entry: the balance above then fails. */
  lemma RepeatedStartUnbalances(m: map<int, int>, identifier: int, note: int)
    requires identifier in m
    ensures var (m2, e) := TouchStartStep(m, identifier, Some(note));
      Presses(e) - Releases(e) == 1 && |m2| == |m|
  {
  }

  /** Touching 64, sliding to 65 and lifting presses and releases each once,
      in order, and forgets the touch. */
  lemma SlideScenario()
    ensures RunTouch(map[], [TouchStart(1, Some(64)), TouchMove([TouchPoint(1, Element(Some(65)))]), TouchEnd(1)])
         == (map[], [On(64), Off(64), On(65), Off(65)])
  {
    var events := [TouchStart(1, Some(64)), TouchMove([TouchPoint(1, Element(Some(65)))]), TouchEnd(1)];
    assert events[1..] == [TouchMove([TouchPoint(1, Element(Some(65)))]), TouchEnd(1)];
    assert events[1..][1..] == [TouchEnd(1)];
    assert events[1..][1..][1..] == [];
    var m1 := map[1 := 64];
    var points := [TouchPoint(1, Element(Some(65)))];
    assert points[..0] == [];
    assert 1 in m1 && m1[1] == 64;
    assert m1[1 := 65] == map[1 := 65];
    assert TouchMoveOne(m1, points[0]) == (map[1 := 65], [Off(64)] + [On(65)]);
    assert TouchMoveAll(m1, points) == (map[1 := 65], [] + ([Off(64)] + [On(65)]));
    assert [] + ([Off(64)] + [On(65)]) == [Off(64), On(65)];
    assert map[1 := 65] - {1} == map[];
    assert RunTouch(map[], events[1..][1..][1..]) == (map[], []);
    assert RunTouch(map[1 := 65], events[1..][1..]) == (map[], [Off(65)] + []);
    assert RunTouch(m1, events[1..]) == (map[], [Off(64), On(65)] + ([Off(65)] + []));
    assert [On(64)] + ([Off(64), On(65)] + ([Off(65)] + [])) == [On(64), Off(64), On(65), Off(65)];
  }

  // ---------------------------------------------------------------------------
  // The controller

  class PianoController {
    var isMouseDown: bool
    var activeMouseMidi: Option<int>
    var touchMidiByIdentifier: map<int, int>
    /** Every `onKeyDown` / `onKeyUp` call so far, in order. */
    var emitted: seq<Emit>

    constructor ()
      ensures !isMouseDown && activeMouseMidi.None? && touchMidiByIdentifier == map[] && emitted == []
    {
      isMouseDown := false;
      activeMouseMidi := None;
      touchMidiByIdentifier := map[];
      emitted := [];
    }

    /** Presses the button; remembers the note under the pointer and presses it. */
    method OnMouseDown(hit: Option<int>)
      modifies this`isMouseDown, this`activeMouseMidi, this`emitted
      ensures var (session, emits) := MouseStep(old(Mouse(isMouseDown, activeMouseMidi)), MouseDown(hit));
        isMouseDown == session.isDown && activeMouseMidi == session.active && emitted == old(emitted) + emits
    {
      isMouseDown := true;
      activeMouseMidi := hit;
      if activeMouseMidi.Some? {
        emitted := emitted + [On(activeMouseMidi.value)];
      }
    }

    /** While pressed, follows the pointer from key to key. */
    method OnMouseMove(hit: Option<int>)
      modifies this`activeMouseMidi, this`emitted
      ensures var (session, emits) := MouseStep(old(Mouse(isMouseDown, activeMouseMidi)), MouseMove(hit));
        isMouseDown == session.isDown && activeMouseMidi == session.active && emitted == old(emitted) + emits
    {
      if !isMouseDown {
        return;
      }
      if activeMouseMidi == hit {
        return;
      }
      if activeMouseMidi.Some? {
        emitted := emitted + [Off(activeMouseMidi.value)];
      }
      if hit.Some? {
        activeMouseMidi := hit;
        emitted := emitted + [On(hit.value)];
      }
    }

    /** Releases the remembered note and ends the press. */
    method OnMouseUp()
      modifies this`isMouseDown, this`activeMouseMidi, this`emitted
      ensures var (session, emits) := MouseStep(old(Mouse(isMouseDown, activeMouseMidi)), MouseUp);
        isMouseDown == session.isDown && activeMouseMidi == session.active && emitted == old(emitted) + emits
    {
      OnMouseLeave();
      isMouseDown := false;
    }

    /** Releases the remembered note and forgets it. */
    method OnMouseLeave()
      modifies this`activeMouseMidi, this`emitted
      ensures var (session, emits) := MouseStep(old(Mouse(isMouseDown, activeMouseMidi)), MouseLeave);
        isMouseDown == session.isDown && activeMouseMidi == session.active && emitted == old(emitted) + emits
    {
      if activeMouseMidi.Some? {
        emitted := emitted + [Off(activeMouseMidi.value)];
      }
      activeMouseMidi := None;
    }

    /** A new touch on a key presses it and remembers it. */
    method OnTouchStart(identifier: int, hit: Option<int>)
      modifies this`touchMidiByIdentifier, this`emitted
      ensures var (touches, emits) := TouchStartStep(old(touchMidiByIdentifier), identifier, hit);
        touchMidiByIdentifier == touches && emitted == old(emitted) + emits
    {
      if hit.None? {
        return;
      }
      touchMidiByIdentifier := touchMidiByIdentifier[identifier := hit.value];
      emitted := emitted + [On(hit.value)];
    }

    /** Follows each changed touch, in order, from key to key. */
    method OnTouchMove(changedTouches: seq<TouchPoint>)
      modifies this`touchMidiByIdentifier, this`emitted
      ensures var (touches, emits) := TouchMoveAll(old(touchMidiByIdentifier), changedTouches);
        touchMidiByIdentifier == touches && emitted == old(emitted) + emits
    {
      var touchIndex := 0;
      while touchIndex < |changedTouches|
        invariant touchIndex <= |changedTouches|
        invariant touchMidiByIdentifier == TouchMoveAll(old(touchMidiByIdentifier), changedTouches[..touchIndex]).0
        invariant emitted == old(emitted) + TouchMoveAll(old(touchMidiByIdentifier), changedTouches[..touchIndex]).1
      {
        var touch := changedTouches[touchIndex];
        assert changedTouches[..touchIndex + 1][..touchIndex] == changedTouches[..touchIndex];
        ghost var before := emitted;
        var id := touch.identifier;
        var lastMidi: Option<int> := if id in touchMidiByIdentifier then Some(touchMidiByIdentifier[id]) else None;
        match touch.hit {
          case NoElement =>
            if lastMidi.Some? {
              touchMidiByIdentifier := touchMidiByIdentifier - {id};
              emitted := emitted + [Off(lastMidi.value)];
            }
          case Element(midi) =>
            if midi.Some? && lastMidi == midi {
            } else {
              if lastMidi.Some? {
                emitted := emitted + [Off(lastMidi.value)];
              }
              if midi.None? {
                touchMidiByIdentifier := touchMidiByIdentifier - {id};
              } else {
                touchMidiByIdentifier := touchMidiByIdentifier[id := midi.value];
                emitted := emitted + [On(midi.value)];
              }
            }
        }
        touchIndex := touchIndex + 1;
      }
      assert changedTouches[..touchIndex] == changedTouches;
    }

    /** A lifted touch releases its note, if it has one, and is forgotten. */
    method OnTouchEnd(identifier: int)
      modifies this`touchMidiByIdentifier, this`emitted
      ensures var (touches, emits) := TouchEndStep(old(touchMidiByIdentifier), identifier);
        touchMidiByIdentifier == touches && emitted == old(emitted) + emits
    {
      if identifier in touchMidiByIdentifier {
        emitted := emitted + [Off(touchMidiByIdentifier[identifier])];
        touchMidiByIdentifier := touchMidiByIdentifier - {identifier};
      }
    }
  }
}
