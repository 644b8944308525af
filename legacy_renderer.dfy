/**
 * The earlier key-strip range manager (src/renderer.ts). Its strip is built
 * for the half-open range [midiStart, midiEnd): the key of `midiEnd` itself
 * is not rendered and there is no trailing black key. `setRange` stores its
 * arguments unsnapped, and `clearInvisibleKeys` keeps every key in the closed
 * view [midiViewStart, midiViewEnd].
 */
module LegacyRenderer {
  import opened Optional
  import opened Theory
  import opened Keys

  // The range shown when no bounds are given. The values sit behind
  // functions so that the verifier does not evaluate whole strips on them.
  const DEFAULT_MIDI_START: nat := DefaultMidiStart()
  const DEFAULT_MIDI_END: nat := DefaultMidiEnd()
  function DefaultMidiStart(): nat { 48 }
  function DefaultMidiEnd(): nat { 72 }

  /** The test `clearInvisibleKeys` applies to every key element: outside the
      closed view, with no exception for a black key. */
  function LegacyInvisibleIn(viewStart: nat, viewEnd: nat): nat -> bool {
    (n: nat) => n > viewEnd || n < viewStart
  }

  /** The strip after `setRange`'s growth step on the left. */
  ghost function GrownLeft(keys: seq<Key>, midiStart: nat, start: nat): seq<Key> {
    if start < midiStart then Run(ClosestDiatonicLeft(start), ClosestDiatonicRight(midiStart)) + keys else keys
  }

  /** The strip after `setRange`'s growth step on the right. */
  ghost function GrownRight(keys: seq<Key>, midiEnd: nat, end: nat): seq<Key> {
    if end > midiEnd then keys + Run(ClosestDiatonicLeft(midiEnd), ClosestDiatonicRight(end)) else keys
  }

  /** The strip after both of `setRange`'s growth steps, before its pruning. */
  ghost function Extended(keys: seq<Key>, midiStart: nat, midiEnd: nat, start: nat, end: nat): seq<Key> {
    GrownRight(GrownLeft(keys, midiStart, start), midiEnd, end)
  }

  /** Growing only on the right appends the run from the old end. */
  lemma ExtendedRightOnly(keys: seq<Key>, midiStart: nat, midiEnd: nat, end: nat)
    requires midiEnd < end
    ensures Extended(keys, midiStart, midiEnd, midiStart, end)
         == keys + Run(ClosestDiatonicLeft(midiEnd), ClosestDiatonicRight(end))
  {
  }

  /** From a strip that renders [midiStart, midiEnd), the growth steps give
      the strip of the range widened to cover [start, end]. */
  lemma ExtendedRun(midiStart: nat, midiEnd: nat, start: nat, end: nat)
    requires IsDiatonic(midiStart) && IsDiatonic(midiEnd) && midiStart <= midiEnd
    ensures Extended(Run(midiStart, midiEnd), midiStart, midiEnd, start, end) ==
      Run(if start < midiStart then ClosestDiatonicLeft(start) else midiStart,
          if end > midiEnd then ClosestDiatonicRight(end) else midiEnd)
  {
    var lo := if start < midiStart then ClosestDiatonicLeft(start) else midiStart;
    var hi := if end > midiEnd then ClosestDiatonicRight(end) else midiEnd;
    assert ClosestDiatonicRight(midiStart) == midiStart && ClosestDiatonicLeft(midiEnd) == midiEnd;
    if start < midiStart {
      RunConcat(lo, midiStart, midiEnd);
    }
    if end > midiEnd {
      RunConcat(lo, midiEnd, hi);
    }
  }

  /**
   * Pruning the strip of [midiStart, midiEnd) to a white-bounded view inside
   * it keeps [viewStart, viewEnd) and, when the strip goes past the view,
   * the key of `viewEnd` as well.
   */
  lemma LegacyPruneToView(midiStart: nat, midiEnd: nat, viewStart: nat, viewEnd: nat)
    requires IsDiatonic(midiStart) && IsDiatonic(midiEnd) && IsDiatonic(viewStart) && IsDiatonic(viewEnd)
    requires midiStart <= viewStart <= viewEnd <= midiEnd
    ensures Prune(Run(midiStart, midiEnd), LegacyInvisibleIn(viewStart, viewEnd))
         == Run(viewStart, if viewEnd < midiEnd then viewEnd + 1 else viewEnd)
  {
    var removed := LegacyInvisibleIn(viewStart, viewEnd);
    if viewEnd == midiEnd {
      RunConcat3(midiStart, viewStart, viewEnd, midiEnd);
      PruneRunAll(midiStart, viewStart, removed);
      PruneRunNone(viewStart, viewEnd, removed);
      assert Run(viewEnd, midiEnd) == [];
      PruneMiddle(Run(midiStart, viewStart), Run(viewStart, viewEnd), [], removed);
    } else {
      var next := ClosestDiatonicRight(viewEnd + 1);
      AccidentalNeighbours(viewEnd + 1);
      assert viewEnd < next <= midiEnd;
      RunConcat3(midiStart, viewStart, next, midiEnd);
      PruneRunAll(midiStart, viewStart, removed);
      PruneRunAll(next, midiEnd, removed);
      LastKeyOfView(viewStart, viewEnd, removed);
      PruneAppend(Run(midiStart, viewStart) + Run(viewStart, next), Run(next, midiEnd), removed);
      PruneAppend(Run(midiStart, viewStart), Run(viewStart, next), removed);
    }
  }

  /** The run from a white key up to the next white key: that key alone,
      holding the black key above it when there is one. */
  lemma RunToNextWhite(n: nat)
    requires IsDiatonic(n)
    ensures Run(n, ClosestDiatonicRight(n + 1)) == [Key(n, if IsDiatonic(n + 1) then [] else [n + 1])]
  {
    AccidentalNeighbours(n + 1);
    assert Run(n, n + 1) == [Key(n, [])];
    if !IsDiatonic(n + 1) {
      assert [] + [n + 1] == [n + 1];
      assert Run(n, n + 2) == Place([Key(n, [])], n + 1);
    }
  }

  /** Up to the next white key, only the view end's own key survives, and
      its black key does not. */
  lemma LastKeyOfView(viewStart: nat, viewEnd: nat, removed: nat -> bool)
    requires IsDiatonic(viewStart) && IsDiatonic(viewEnd) && viewStart <= viewEnd
    requires removed == LegacyInvisibleIn(viewStart, viewEnd)
    ensures Prune(Run(viewStart, ClosestDiatonicRight(viewEnd + 1)), removed) == Run(viewStart, viewEnd + 1)
  {
    var next := ClosestDiatonicRight(viewEnd + 1);
    var last := Key(viewEnd, if IsDiatonic(viewEnd + 1) then [] else [viewEnd + 1]);
    RunToNextWhite(viewEnd);
    RunConcat(viewStart, viewEnd, next);
    PruneAppend(Run(viewStart, viewEnd), [last], removed);
    PruneRunNone(viewStart, viewEnd, removed);
    assert KeepAccidentals(last.accidentals, removed) == [];
    assert Prune([last], removed) == [Key(viewEnd, [])];
    RunStep(viewStart, viewEnd + 1);
  }

  /**
   * `setRange` on a strip that renders [midiStart, midiEnd), to a white
   * target [start, end]: the result renders [start, end), plus the key of
   * `end` when the old strip reached past it.
   */
  lemma SetRangeOnStrip(midiStart: nat, midiEnd: nat, start: nat, end: nat)
    requires IsDiatonic(midiStart) && IsDiatonic(midiEnd) && midiStart <= midiEnd
    requires IsDiatonic(start) && IsDiatonic(end) && start <= end
    ensures Prune(Extended(Run(midiStart, midiEnd), midiStart, midiEnd, start, end), LegacyInvisibleIn(start, end))
         == Run(start, if end < midiEnd then end + 1 else end)
  {
    ExtendedRun(midiStart, midiEnd, start, end);
    var lo := if start < midiStart then ClosestDiatonicLeft(start) else midiStart;
    var hi := if end > midiEnd then ClosestDiatonicRight(end) else midiEnd;
    assert lo <= start && end <= hi && IsDiatonic(lo) && IsDiatonic(hi);
    assert end < hi <==> end < midiEnd;
    LegacyPruneToView(lo, hi, start, end);
  }

  /** The notes of the strip a shrink-then-grow sequence leaves behind: the
      note `shrunkEnd` twice in a row. */
  lemma ShrinkGrowNotes(start: nat, shrunkEnd: nat, end: nat)
    requires IsDiatonic(start) && IsDiatonic(shrunkEnd) && start <= shrunkEnd < end
    ensures var notes := Notes(Run(start, shrunkEnd + 1) + Run(shrunkEnd, end));
      |notes| > shrunkEnd - start + 1 &&
      notes[shrunkEnd - start] == shrunkEnd && notes[shrunkEnd - start + 1] == shrunkEnd
  {
    NotesAppend(Run(start, shrunkEnd + 1), Run(shrunkEnd, end));
    RunNotes(start, shrunkEnd + 1);
    RunNotes(shrunkEnd, end);
    IntervalAt(start, shrunkEnd + 1, shrunkEnd - start);
    IntervalAt(shrunkEnd, end, 0);
  }

  class Renderer {
    var midiStart: nat
    var midiEnd: nat
    var midiViewStart: nat
    var midiViewEnd: nat
    /** The white-key elements of the keys container, in order. */
    var keys: seq<Key>

    /** Both bounds are white keys and the strip renders [midiStart, midiEnd). */
    ghost predicate Valid()
      reads this
    {
      IsDiatonic(midiStart) && IsDiatonic(midiEnd) && midiStart <= midiEnd &&
      keys == Run(midiStart, midiEnd)
    }

    /** Snaps the requested bounds outward, shows the whole range and renders it. */
    constructor (midiStart: Option<nat>, midiEnd: Option<nat>)
      ensures this.midiStart == ClosestDiatonicLeft(midiStart.GetOr(DEFAULT_MIDI_START))
      ensures this.midiEnd == ClosestDiatonicRight(midiEnd.GetOr(DEFAULT_MIDI_END))
      ensures midiViewStart == this.midiStart && midiViewEnd == this.midiEnd
      ensures keys == Run(this.midiStart, this.midiEnd)
      ensures this.midiStart <= this.midiEnd ==> Valid()
    {
      var start := ClosestDiatonicLeft(midiStart.GetOr(DEFAULT_MIDI_START));
      var end := ClosestDiatonicRight(midiEnd.GetOr(DEFAULT_MIDI_END));
      SnapIdempotent(midiStart.GetOr(DEFAULT_MIDI_START));
      SnapIdempotent(midiEnd.GetOr(DEFAULT_MIDI_END));
      var keysFragment := ConstructKeysFragment(start, end);
      this.midiStart := start;
      this.midiEnd := end;
      midiViewStart := start;
      midiViewEnd := end;
      keys := keysFragment;
    }

    /**
     * Builds the keys for the half-open range [left(midiStart),
     * right(midiEnd)); each black key is appended into the white key created
     * just before it.
     */
    static method ConstructKeysFragment(midiStart: nat, midiEnd: nat) returns (fragment: seq<Key>)
      ensures fragment == Run(ClosestDiatonicLeft(midiStart), ClosestDiatonicRight(midiEnd))
    {
      var midiDiatonicStart := ClosestDiatonicLeft(midiStart);
      var midiDiatonicEnd := ClosestDiatonicRight(midiEnd);
      fragment := [];
      // false while black keys would still go into the detached placeholder
      var haveDiatonicKey := false;
      var midi := midiDiatonicStart;
      while midi < midiDiatonicEnd
        invariant midi == midiDiatonicStart || midiDiatonicStart < midi <= midiDiatonicEnd
        invariant fragment == Run(midiDiatonicStart, midi)
        invariant haveDiatonicKey <==> fragment != []
      {
        RunNext(midiDiatonicStart, midi);
        if IsDiatonic(midi) {
          fragment := fragment + [Key(midi, [])];
          haveDiatonicKey := true;
        } else if haveDiatonicKey {
          var last := fragment[|fragment| - 1];
          fragment := fragment[|fragment| - 1 := Key(last.diatonic, last.accidentals + [midi])];
        }
        midi := midi + 1;
      }
      if midiDiatonicStart > midiDiatonicEnd {
        assert Run(midiDiatonicStart, midi) == [] == Run(midiDiatonicStart, midiDiatonicEnd);
      }
    }

    /**
     * Stores the snapped view bounds and computes the white-key counts the
     * width and scroll position are derived from: of the view, of the
     * materialized range, and from the materialized start to the view start.
     */
    method SetMidiView(midiStart: nat, midiEnd: nat)
      returns (viewableDiatonicRange: nat, totalDiatonicRange: nat, scrollDiatonicRange: nat)
      modifies this`midiViewStart, this`midiViewEnd
      ensures midiViewStart == ClosestDiatonicLeft(midiStart)
      ensures midiViewEnd == ClosestDiatonicRight(midiEnd)
      ensures viewableDiatonicRange == CountDiatonic(midiViewStart, midiViewEnd)
      ensures totalDiatonicRange == DiatonicRangeOf(this.midiStart, this.midiEnd)
      ensures scrollDiatonicRange == DiatonicRangeOf(this.midiStart, midiStart)
      ensures IsDiatonic(this.midiStart) && IsDiatonic(this.midiEnd) &&
              this.midiStart <= midiViewStart <= midiViewEnd <= this.midiEnd
              ==> viewableDiatonicRange <= totalDiatonicRange
    {
      var start := ClosestDiatonicLeft(midiStart);
      var end := ClosestDiatonicRight(midiEnd);
      viewableDiatonicRange := DiatonicRange(start, end);
      totalDiatonicRange := DiatonicRange(this.midiStart, this.midiEnd);
      scrollDiatonicRange := DiatonicRange(this.midiStart, midiStart);
      midiViewStart := start;
      midiViewEnd := end;
      if IsDiatonic(this.midiStart) && IsDiatonic(this.midiEnd) && this.midiStart <= start <= end <= this.midiEnd {
        CountMonotone(this.midiStart, start, end, this.midiEnd);
      }
    }

    /**
     * Extends the strip on the left to the white key at or below
     * `midiStart - keyCount`, prepending the keys of the half-open range
     * from there to the old start.
     */
    method AddKeysLeft(keyCount: nat)
      requires keyCount <= midiStart
      modifies this`midiStart, this`keys
      ensures midiStart == ClosestDiatonicLeft(old(midiStart) - keyCount)
      ensures keys == Run(midiStart, ClosestDiatonicRight(old(midiStart))) + old(keys)
      ensures old(Valid()) ==> Valid()
    {
      var start := ClosestDiatonicLeft(midiStart - keyCount);
      var end := midiStart;
      assert ClosestDiatonicLeft(start) == start;
      if Valid() {
        assert ClosestDiatonicRight(end) == end;
        RunConcat(start, end, midiEnd);
      }
      var keysFragment := ConstructKeysFragment(start, end);
      keys := keysFragment + keys;
      midiStart := start;
    }

    /**
     * Extends the strip on the right to the white key at or above
     * `midiEnd + keyCount`, appending the keys of the half-open range from
     * the old end.
     */
    method AddKeysRight(keyCount: nat)
      modifies this`midiEnd, this`keys
      ensures midiEnd == ClosestDiatonicRight(old(midiEnd) + keyCount)
      ensures keys == old(keys) + Run(ClosestDiatonicLeft(old(midiEnd)), midiEnd)
      ensures old(Valid()) ==> Valid()
    {
      var start := midiEnd;
      var end := ClosestDiatonicRight(midiEnd + keyCount);
      assert ClosestDiatonicRight(end) == end;
      if Valid() {
        assert ClosestDiatonicLeft(start) == start;
        RunConcat(midiStart, start, end);
      }
      var keysFragment := ConstructKeysFragment(start, end);
      keys := keys + keysFragment;
      midiEnd := end;
    }

    /** Stores the start snapped left; nothing else changes. */
    method SetMidiStart(midi: nat)
      modifies this`midiStart
      ensures midiStart == ClosestDiatonicLeft(midi)
    {
      midiStart := ClosestDiatonicLeft(midi);
    }

    /** Stores the end snapped right; nothing else changes. */
    method SetMidiEnd(midi: nat)
      modifies this`midiEnd
      ensures midiEnd == ClosestDiatonicRight(midi)
    {
      midiEnd := ClosestDiatonicRight(midi);
    }

    /** Removes every key outside the closed view, then makes the
        materialized range the view. */
    method ClearInvisibleKeys()
      modifies this`keys, this`midiStart, this`midiEnd
      ensures keys == Prune(old(keys), LegacyInvisibleIn(midiViewStart, midiViewEnd))
      ensures midiStart == midiViewStart && midiEnd == midiViewEnd
    {
      var remaining := RemoveKeys(keys, LegacyInvisibleIn(midiViewStart, midiViewEnd));
      keys := remaining;
      midiStart := midiViewStart;
      midiEnd := midiViewEnd;
    }

    /**
     * Moves the widget to the range [midiStart, midiEnd] as given: grows the
     * strip on a side where the target lies outside it, stores the target as
     * the view, and prunes the strip to it.
     */
    method SetRange(midiStart: nat, midiEnd: nat)
      modifies this
      ensures this.midiStart == midiViewStart == midiStart
      ensures this.midiEnd == midiViewEnd == midiEnd
      ensures keys == Prune(Extended(old(keys), old(this.midiStart), old(this.midiEnd), midiStart, midiEnd),
                            LegacyInvisibleIn(midiStart, midiEnd))
    {
      ghost var ms, me := this.midiStart, this.midiEnd;
      var leftKeyCount: int := this.midiStart - midiStart;
      var rightKeyCount: int := midiEnd - this.midiEnd;
      if leftKeyCount > 0 {
        assert this.midiStart - leftKeyCount == midiStart;
        AddKeysLeft(leftKeyCount);
      }
      assert keys == GrownLeft(old(keys), ms, midiStart);
      if rightKeyCount > 0 {
        assert this.midiEnd + rightKeyCount == midiEnd;
        AddKeysRight(rightKeyCount);
      }
      assert keys == Extended(old(keys), ms, me, midiStart, midiEnd);
      midiViewStart := midiStart;
      midiViewEnd := midiEnd;
      ClearInvisibleKeys();
    }
  }

  /**
   * Shrinking the range on the right and growing it back renders one note
   * twice: the first `setRange` keeps the key of its end (the view is
   * closed), and the second appends a run that starts on that same note.
   * Returns the rendered notes, in which `shrunkEnd` appears at two
   * consecutive positions (for example 48 .. 72, then 48 .. 60, then back to
   * 48 .. 72 renders note 60 twice).
   */
  method ShrinkThenGrow(start: nat, shrunkEnd: nat, end: nat) returns (notes: seq<nat>)
    requires IsDiatonic(start) && IsDiatonic(shrunkEnd) && IsDiatonic(end) && start <= shrunkEnd < end
    ensures |notes| > shrunkEnd - start + 1
    ensures notes[shrunkEnd - start] == shrunkEnd && notes[shrunkEnd - start + 1] == shrunkEnd
  {
    var r := new Renderer(Some(start), Some(end));
    assert ClosestDiatonicLeft(start) == start && ClosestDiatonicRight(end) == end;
    SetRangeOnStrip(start, end, start, shrunkEnd);
    r.SetRange(start, shrunkEnd);
    ghost var shrunk := r.keys;
    assert shrunk == Run(start, shrunkEnd + 1);
    assert r.midiStart == start && r.midiEnd == shrunkEnd;
    r.SetRange(start, end);
    var removed := LegacyInvisibleIn(start, end);
    assert r.keys == Prune(Extended(shrunk, start, shrunkEnd, start, end), removed);
    assert ClosestDiatonicLeft(shrunkEnd) == shrunkEnd && ClosestDiatonicRight(end) == end;
    ExtendedRightOnly(shrunk, start, shrunkEnd, end);
    PruneAppend(Run(start, shrunkEnd + 1), Run(shrunkEnd, end), removed);
    PruneRunNone(start, shrunkEnd + 1, removed);
    PruneRunNone(shrunkEnd, end, removed);
    ShrinkGrowNotes(start, shrunkEnd, end);
    notes := Notes(r.keys);
  }
}
