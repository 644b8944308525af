/**
 * The key-strip range manager (src/Renderer.ts). It keeps a materialized range
 * [midiStart, midiEnd] of notes that have key elements, and a view range
 * [midiViewStart, midiViewEnd] that is scaled to fill the widget. The strip
 * grows at either edge without rebuilding the keys already there, and after a
 * range change the keys outside the view are removed.
 *
 * The strip's invariant: the rendered notes are exactly midiStart ..
 * midiEnd, followed by midiEnd + 1 when that note is a black key (a trailing
 * black key is never cut in half at the right edge).
 */
module Renderer {
  import opened Optional
  import opened Theory
  import opened Keys

  // The range shown when no bounds are given. The values sit behind
  // functions so that the verifier does not evaluate whole strips on them.
  const DEFAULT_MIDI_START: nat := DefaultMidiStart()
  const DEFAULT_MIDI_END: nat := DefaultMidiEnd()
  function DefaultMidiStart(): nat { 48 }
  function DefaultMidiEnd(): nat { 84 }

  /** The last note rendered for a run ending on `midiEnd`: the black key just
      above it when there is one (the one-note look-ahead). */
  function TrailingEnd(midiEnd: nat): (r: nat)
    ensures r == midiEnd || r == midiEnd + 1
    ensures r == midiEnd + 1 <==> !IsDiatonic(midiEnd + 1)
    ensures IsDiatonic(r + 1)
  {
    AccidentalNeighbours(midiEnd + 1);
    if IsDiatonic(midiEnd + 1) then midiEnd else midiEnd + 1
  }

  /** A key is invisible when it lies outside the view, unless it is the black
      key just past the view's end. */
  predicate IsInvisible(midi: nat, viewStart: nat, viewEnd: nat) {
    var isTrailingAccidental := midi == viewEnd + 1 && !IsDiatonic(midi);
    (midi > viewEnd || midi < viewStart) && !isTrailingAccidental
  }

  /** The test `clearInvisibleKeys` applies to every key element. */
  function InvisibleIn(viewStart: nat, viewEnd: nat): nat -> bool {
    (n: nat) => IsInvisible(n, viewStart, viewEnd)
  }

  /**
   * `addKeysLeft` asks for keys up to `midiStart - DIATONIC_STEP`; snapping
   * that end right and adding the trailing black key always lands exactly on
   * `midiStart - 1`, so the new run ends where the strip begins.
   */
  lemma LeftRunMeetsStrip(midiStart: nat)
    requires IsDiatonic(midiStart) && midiStart >= DIATONIC_STEP
    ensures TrailingEnd(ClosestDiatonicRight(midiStart - DIATONIC_STEP)) + 1 == midiStart
  {
    AccidentalNeighbours(midiStart - 2);
    AccidentalNeighbours(midiStart - 1);
  }

  /**
   * `addKeysRight` starts its run at `midiEnd + DIATONIC_STEP` snapped left:
   * exactly the first note after the strip's trailing key, so no key is
   * created twice and none is skipped.
   */
  lemma RightRunMeetsStrip(midiEnd: nat)
    requires IsDiatonic(midiEnd)
    ensures ClosestDiatonicLeft(midiEnd + DIATONIC_STEP) == TrailingEnd(midiEnd) + 1
  {
    AccidentalNeighbours(midiEnd);
    AccidentalNeighbours(midiEnd + 1);
    AccidentalNeighbours(midiEnd + 2);
  }

  /**
   * A note is rendered by the strip from a white `midiStart` to a white
   * `midiEnd` exactly when it lies in [midiStart, midiEnd] or is the black
   * key just above `midiEnd`.
   */
  lemma StripMember(midiStart: nat, midiEnd: nat, n: nat)
    requires IsDiatonic(midiStart) && midiStart <= midiEnd
    ensures n in Notes(Run(midiStart, TrailingEnd(midiEnd) + 1)) <==>
      midiStart <= n <= midiEnd || (n == midiEnd + 1 && !IsDiatonic(n))
  {
    var hi := TrailingEnd(midiEnd) + 1;
    RunNotes(midiStart, hi);
    IntervalMembers(midiStart, hi, n);
  }

  /** The strip renders no note twice. */
  lemma StripDistinct(midiStart: nat, midiEnd: nat)
    requires IsDiatonic(midiStart)
    ensures var notes := Notes(Run(midiStart, TrailingEnd(midiEnd) + 1));
      forall i, j :: 0 <= i < j < |notes| ==> notes[i] != notes[j]
  {
    RunNotes(midiStart, TrailingEnd(midiEnd) + 1);
    IntervalDistinct(midiStart, TrailingEnd(midiEnd) + 1);
  }

  /**
   * Pruning a strip to a view inside it leaves exactly the strip of the view:
   * the keys before the view, after it, and past its trailing black key go.
   */
  lemma PruneToView(midiStart: nat, midiEnd: nat, viewStart: nat, viewEnd: nat)
    requires IsDiatonic(midiStart) && IsDiatonic(viewStart) && IsDiatonic(viewEnd)
    requires midiStart <= viewStart <= viewEnd <= midiEnd
    ensures Prune(Run(midiStart, TrailingEnd(midiEnd) + 1), InvisibleIn(viewStart, viewEnd))
         == Run(viewStart, TrailingEnd(viewEnd) + 1)
  {
    var removed := InvisibleIn(viewStart, viewEnd);
    var hi := TrailingEnd(midiEnd) + 1;
    var mid := TrailingEnd(viewEnd) + 1;
    RunConcat3(midiStart, viewStart, mid, hi);
    InvisibleAroundView(viewStart, viewEnd);
    PruneRunAll(midiStart, viewStart, removed);
    PruneRunNone(viewStart, mid, removed);
    PruneRunAll(mid, hi, removed);
    PruneMiddle(Run(midiStart, viewStart), Run(viewStart, mid), Run(mid, hi), removed);
  }

  /** The notes before the view and those past its trailing key are
      invisible; those from its start through its trailing key are not. */
  lemma InvisibleAroundView(viewStart: nat, viewEnd: nat)
    requires viewStart <= viewEnd
    ensures forall n: nat :: n < viewStart ==> InvisibleIn(viewStart, viewEnd)(n)
    ensures forall n: nat :: viewStart <= n <= TrailingEnd(viewEnd) ==> !InvisibleIn(viewStart, viewEnd)(n)
    ensures forall n: nat :: TrailingEnd(viewEnd) < n ==> InvisibleIn(viewStart, viewEnd)(n)
  {
  }

  /** The run `addKeysLeft` builds for `start` (the new start) and `end`
      (two semitones below the old start) reaches exactly up to the old
      start, and prepending it to the strip gives the longer strip. */
  lemma LeftGrowth(midiStart: nat, midiEnd: nat, start: nat, end: nat)
    requires IsDiatonic(midiStart) && midiStart <= midiEnd
    requires IsDiatonic(start) && start < midiStart && midiStart >= DIATONIC_STEP && end == midiStart - DIATONIC_STEP
    ensures Run(ClosestDiatonicLeft(start), TrailingEnd(ClosestDiatonicRight(end)) + 1) == Run(start, midiStart)
    ensures Run(start, midiStart) + Run(midiStart, TrailingEnd(midiEnd) + 1) == Run(start, TrailingEnd(midiEnd) + 1)
  {
    LeftRunMeetsStrip(midiStart);
    assert ClosestDiatonicLeft(start) == start;
    RunConcat(start, midiStart, TrailingEnd(midiEnd) + 1);
  }

  class Renderer {
    var midiStart: nat
    var midiEnd: nat
    var midiViewStart: nat
    var midiViewEnd: nat
    /** The white-key elements of the keys container, in order. */
    var keys: seq<Key>

    /** Both ranges are snapped to white keys, the view lies inside the
        materialized range, and the strip renders the materialized range. */
    ghost predicate Valid()
      reads this
    {
      IsDiatonic(midiStart) && IsDiatonic(midiEnd) &&
      IsDiatonic(midiViewStart) && IsDiatonic(midiViewEnd) &&
      midiStart <= midiViewStart <= midiViewEnd <= midiEnd &&
      keys == Run(midiStart, TrailingEnd(midiEnd) + 1)
    }

    /** Snaps the requested bounds outward, shows the whole range and renders it. */
    constructor (midiStart: Option<nat>, midiEnd: Option<nat>)
      ensures this.midiStart == ClosestDiatonicLeft(midiStart.GetOr(DEFAULT_MIDI_START))
      ensures this.midiEnd == ClosestDiatonicRight(midiEnd.GetOr(DEFAULT_MIDI_END))
      ensures midiViewStart == this.midiStart && midiViewEnd == this.midiEnd
      ensures keys == Run(this.midiStart, TrailingEnd(this.midiEnd) + 1)
      ensures this.midiStart <= this.midiEnd ==> Valid()
    {
      var start := ClosestDiatonicLeft(midiStart.GetOr(DEFAULT_MIDI_START));
      var end := ClosestDiatonicRight(midiEnd.GetOr(DEFAULT_MIDI_END));
      assert ClosestDiatonicLeft(start) == start && ClosestDiatonicRight(end) == end;
      var keysFragment := ConstructKeysFragment(start, end);
      assert keysFragment == Run(start, TrailingEnd(end) + 1);
      this.midiStart := start;
      this.midiEnd := end;
      midiViewStart := start;
      midiViewEnd := end;
      keys := keysFragment;
    }

    /**
     * Builds the keys for the snapped range [left(midiStart), right(midiEnd)]
     * and, when the note after the snapped end is a black key, that key too.
     * Each black key is appended into the white key created just before it.
     */
    static method ConstructKeysFragment(midiStart: nat, midiEnd: nat) returns (fragment: seq<Key>)
      ensures fragment == Run(ClosestDiatonicLeft(midiStart), TrailingEnd(ClosestDiatonicRight(midiEnd)) + 1)
    {
      var midiDiatonicStart := ClosestDiatonicLeft(midiStart);
      var midiDiatonicEnd := ClosestDiatonicRight(midiEnd);
      var isNextDiatonic := IsDiatonic(midiDiatonicEnd + 1);
      var trailingEnd := if isNextDiatonic then midiDiatonicEnd else midiDiatonicEnd + 1;
      assert trailingEnd == TrailingEnd(midiDiatonicEnd);
      fragment := [];
      // false while black keys would still go into the detached placeholder
      var haveDiatonicKey := false;
      var midi := midiDiatonicStart;
      while midi <= trailingEnd
        invariant midi == midiDiatonicStart || midiDiatonicStart < midi <= trailingEnd + 1
        invariant fragment == Run(midiDiatonicStart, midi)
        invariant haveDiatonicKey <==> fragment != []
      {
        RunNext(midiDiatonicStart, midi);
        if IsDiatonic(midi) {
          fragment := fragment + [Key(midi, [])];
          haveDiatonicKey := true;
        } else if haveDiatonicKey {
          var last := fragment[|fragment| - 1];
          fragment := fragment[|fragment| - 1 := Key(last.diatonic, last.accidentals + [midi])];
        }
        midi := midi + 1;
      }
      if midiDiatonicStart > trailingEnd + 1 {
        assert Run(midiDiatonicStart, midi) == [] == Run(midiDiatonicStart, trailingEnd + 1);
      }
    }

    /**
     * Stores the snapped view bounds and computes the geometry of the strip:
     * the white-key counts of the view and of the materialized range (the
     * width is their ratio) and of the part left of the view (the offset).
     * That last count is never negative, so the offset is always applied.
     */
    method SetView(midiStart: nat, midiEnd: nat)
      returns (viewableDiatonicRange: nat, totalDiatonicRange: nat, leftDiatonicDiff: nat)
      modifies this`midiViewStart, this`midiViewEnd
      ensures midiViewStart == ClosestDiatonicLeft(midiStart)
      ensures midiViewEnd == ClosestDiatonicRight(midiEnd)
      ensures viewableDiatonicRange == CountDiatonic(midiViewStart, midiViewEnd) + 1
      ensures totalDiatonicRange == DiatonicRangeOf(this.midiStart, this.midiEnd) + 1
      ensures leftDiatonicDiff == DiatonicRangeOf(this.midiStart, midiViewStart)
      ensures IsDiatonic(this.midiStart) && IsDiatonic(this.midiEnd) &&
              this.midiStart <= midiViewStart <= midiViewEnd <= this.midiEnd
              ==> viewableDiatonicRange <= totalDiatonicRange
    {
      var start := ClosestDiatonicLeft(midiStart);
      var end := ClosestDiatonicRight(midiEnd);
      viewableDiatonicRange := DiatonicRangeInclusive(start, end);
      totalDiatonicRange := DiatonicRangeInclusive(this.midiStart, this.midiEnd);
      leftDiatonicDiff := DiatonicRange(this.midiStart, start);
      midiViewStart := start;
      midiViewEnd := end;
      if IsDiatonic(this.midiStart) && IsDiatonic(this.midiEnd) && this.midiStart <= start <= end <= this.midiEnd {
        CountMonotone(this.midiStart, start, end, this.midiEnd);
      }
    }

    /**
     * Extends the strip on the left to the white key at or below
     * `midiStart - keyCount`, prepending keys for exactly the notes between it
     * and the old start.
     */
    method AddKeysLeft(keyCount: nat)
      requires Valid()
      requires 0 < keyCount <= midiStart
      modifies this`midiStart, this`keys
      ensures Valid()
      ensures midiStart == ClosestDiatonicLeft(old(midiStart) - keyCount)
      ensures keys == Run(midiStart, old(midiStart)) + old(keys)
    {
      var start := ClosestDiatonicLeft(midiStart - keyCount);
      assert !IsDiatonic(1);
      var end := midiStart - DIATONIC_STEP;
      LeftGrowth(midiStart, midiEnd, start, end);
      var keysFragment := ConstructKeysFragment(start, end);
      keys := keysFragment + keys;
      midiStart := start;
    }

    /**
     * Extends the strip on the right to the white key at or above
     * `midiEnd + keyCount`, appending keys that start just after the old
     * trailing key.
     */
    method AddKeysRight(keyCount: nat)
      requires Valid()
      requires 0 < keyCount
      modifies this`midiEnd, this`keys
      ensures Valid()
      ensures midiEnd == ClosestDiatonicRight(old(midiEnd) + keyCount)
      ensures keys == old(keys) + Run(TrailingEnd(old(midiEnd)) + 1, TrailingEnd(midiEnd) + 1)
    {
      var start := midiEnd + DIATONIC_STEP;
      var end := ClosestDiatonicRight(midiEnd + keyCount);
      RightRunMeetsStrip(midiEnd);
      var oldHi, newHi := TrailingEnd(midiEnd) + 1, TrailingEnd(end) + 1;
      assert ClosestDiatonicLeft(start) == oldHi;
      assert ClosestDiatonicRight(end) == end;
      assert midiStart <= oldHi <= newHi && IsDiatonic(oldHi);
      RunConcat(midiStart, oldHi, newHi);
      var keysFragment := ConstructKeysFragment(start, end);
      keys := keys + keysFragment;
      midiEnd := end;
    }

    /** Stores the start snapped left; nothing else changes. */
    method SetMidiStart(midi: nat)
      modifies this`midiStart
      ensures midiStart == ClosestDiatonicLeft(midi)
    {
      midiStart := ClosestDiatonicLeft(midi);
    }

    /** Stores the end snapped right; nothing else changes. */
    method SetMidiEnd(midi: nat)
      modifies this`midiEnd
      ensures midiEnd == ClosestDiatonicRight(midi)
    {
      midiEnd := ClosestDiatonicRight(midi);
    }

    /**
     * Removes every key outside the view except a black key just past its
     * end, then makes the materialized range the view.
     */
    method ClearInvisibleKeys()
      requires Valid()
      modifies this
      ensures Valid()
      ensures keys == Prune(old(keys), InvisibleIn(old(midiViewStart), old(midiViewEnd)))
      ensures keys == Run(old(midiViewStart), TrailingEnd(old(midiViewEnd)) + 1)
      ensures midiStart == midiViewStart == old(midiViewStart)
      ensures midiEnd == midiViewEnd == old(midiViewEnd)
    {
      PruneToView(midiStart, midiEnd, midiViewStart, midiViewEnd);
      var remaining := RemoveKeys(keys, InvisibleIn(midiViewStart, midiViewEnd));
      keys := remaining;
      midiStart := midiViewStart;
      midiEnd := midiViewEnd;
      var _, _, _ := SetView(midiStart, midiEnd);
    }

    /**
     * Moves the widget to the range [left(midiStart), right(midiEnd)]: grows
     * the strip only on a side where the target lies outside it, re-applies
     * the old view, applies the target view, and prunes the strip to it.
     * The returned ghost pair is the materialized range at the moment the
     * target view is applied.
     */
    method SetRange(midiStart: nat, midiEnd: nat) returns (ghost materializedAtAnimation: (nat, nat))
      requires Valid()
      requires ClosestDiatonicLeft(midiStart) <= ClosestDiatonicRight(midiEnd)
      modifies this
      ensures Valid()
      ensures this.midiStart == midiViewStart == ClosestDiatonicLeft(midiStart)
      ensures this.midiEnd == midiViewEnd == ClosestDiatonicRight(midiEnd)
      ensures keys == Run(this.midiStart, TrailingEnd(this.midiEnd) + 1)
      ensures materializedAtAnimation.0 ==
        if ClosestDiatonicLeft(midiStart) < old(this.midiStart) then ClosestDiatonicLeft(midiStart) else old(this.midiStart)
      ensures materializedAtAnimation.1 ==
        if ClosestDiatonicRight(midiEnd) > old(this.midiEnd) then ClosestDiatonicRight(midiEnd) else old(this.midiEnd)
      ensures materializedAtAnimation.0 <= old(midiViewStart) && old(midiViewEnd) <= materializedAtAnimation.1
    {
      var normalizedMidiStart := ClosestDiatonicLeft(midiStart);
      var normalizedMidiEnd := ClosestDiatonicRight(midiEnd);
      var initialMidiViewStart := midiViewStart;
      var initialMidiViewEnd := midiViewEnd;
      var leftKeyCount := this.midiStart - normalizedMidiStart;
      var rightKeyCount := normalizedMidiEnd - this.midiEnd;
      if leftKeyCount > 0 {
        assert ClosestDiatonicLeft(this.midiStart - leftKeyCount) == normalizedMidiStart;
        AddKeysLeft(leftKeyCount);
      }
      if rightKeyCount > 0 {
        assert ClosestDiatonicRight(this.midiEnd + rightKeyCount) == normalizedMidiEnd;
        AddKeysRight(rightKeyCount);
      }
      var _, _, _ := SetView(initialMidiViewStart, initialMidiViewEnd);
      materializedAtAnimation := (this.midiStart, this.midiEnd);
      var _, _, _ := SetView(normalizedMidiStart, normalizedMidiEnd);
      ClearInvisibleKeys();
    }
  }
}
