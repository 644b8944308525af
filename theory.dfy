/**
 * Diatonic pitch arithmetic of the keyboard: which notes are white keys,
 * snapping a note to the nearest white key, counting white keys in a range and
 * stepping a number of white keys away.
 *
 * Notes are MIDI numbers. They are modelled as `nat`: the pitch-class test
 * uses `%`, which truncates in the source and is Euclidean in Dafny, and the
 * two agree only on non-negative numbers.
 */
module Theory {
  import opened Optional

  /** Pitch classes of the white keys: C D E F G A B. */
  const DIATONIC_PITCH_CLASSES: set<nat> := {0, 2, 4, 5, 7, 9, 11}

  /** Names of the black keys by pitch class. */
  const SIMPLE_ACCIDENTAL_NAMES: map<nat, string> :=
    map[1 := "cs", 3 := "ds", 6 := "fs", 8 := "gs", 10 := "as"]

  /** The distance, in semitones, from a white key to the next-but-one
      semitone: used by the renderer to step over a trailing black key. */
  const DIATONIC_STEP: nat := 2

  /** The pitch class of a note, `midi % 12`, by repeated subtraction. */
  function PitchClass(midi: nat): (r: nat)
    ensures r < 12
    decreases midi
  {
    if midi < 12 then midi else PitchClass(midi - 12)
  }

  lemma {:induction false} PitchClassMod(midi: nat)
    ensures PitchClass(midi) == midi % 12
    decreases midi
  {
    if midi >= 12 {
      PitchClassMod(midi - 12);
    }
  }

  predicate IsDiatonic(midi: nat) {
    PitchClass(midi) in DIATONIC_PITCH_CLASSES
  }

  /** The pitch class of the next semitone. */
  lemma PitchClassSucc(n: nat)
    ensures PitchClass(n + 1) == if PitchClass(n) == 11 then 0 else PitchClass(n) + 1
  {
    PitchClassMod(n);
    PitchClassMod(n + 1);
  }

  /** A black key is flanked by two white keys; there are never two black
      keys in a row, and never three white keys in a row. */
  lemma AccidentalNeighbours(n: nat)
    ensures !IsDiatonic(n) ==> n >= 1 && IsDiatonic(n - 1) && IsDiatonic(n + 1)
    ensures IsDiatonic(n) && IsDiatonic(n + 1) ==> !IsDiatonic(n + 2)
  {
    PitchClassSucc(n);
    PitchClassSucc(n + 1);
    if n >= 1 {
      PitchClassSucc(n - 1);
    }
  }

  /** Walks from `midi` one semitone at a time in `direction` until it stands
      on a white key. The walk takes at most one step. */
  function ClosestDiatonic(midi: nat, direction: int): (r: nat)
    requires direction == 1 || direction == -1
    ensures IsDiatonic(r)
    ensures r == midi || r == midi + direction
    ensures IsDiatonic(midi) <==> r == midi
    decreases if IsDiatonic(midi) then 0 else 1
  {
    if IsDiatonic(midi) then midi
    else
      AccidentalNeighbours(midi);
      ClosestDiatonic(midi + direction, direction)
  }

  /** The nearest white key at or below `midi`. */
  function ClosestDiatonicLeft(midi: nat): (r: nat)
    ensures IsDiatonic(r) && midi - 1 <= r <= midi
    ensures IsDiatonic(midi) <==> r == midi
  {
    ClosestDiatonic(midi, -1)
  }

  /** The nearest white key at or above `midi`. */
  function ClosestDiatonicRight(midi: nat): (r: nat)
    ensures IsDiatonic(r) && midi <= r <= midi + 1
    ensures IsDiatonic(midi) <==> r == midi
  {
    ClosestDiatonic(midi, 1)
  }

  /** The name of a black key; there is none for a white key. */
  function AccidentalName(midi: nat): (r: Option<string>)
    ensures r.Some? <==> !IsDiatonic(midi)
    ensures r.Some? ==> |r.value| == 2 && r.value[1] == 's'
  {
    var pc := PitchClass(midi);
    if pc in SIMPLE_ACCIDENTAL_NAMES then Some(SIMPLE_ACCIDENTAL_NAMES[pc]) else None
  }

  // ---------------------------------------------------------------------------
  // Counting white keys

  /** The number of white keys in the half-open range [lo, hi). */
  function CountDiatonic(lo: nat, hi: nat): nat
    decreases hi
  {
    if hi <= lo then 0
    else CountDiatonic(lo, hi - 1) + (if IsDiatonic(hi - 1) then 1 else 0)
  }

  /** Counts are additive over adjacent ranges. */
  lemma {:induction false} CountSplit(a: nat, b: nat, c: nat)
    requires a <= b <= c
    ensures CountDiatonic(a, b) + CountDiatonic(b, c) == CountDiatonic(a, c)
    decreases c
  {
    if c > b {
      CountSplit(a, b, c - 1);
    }
  }

  /** A count never exceeds the width of its range. */
  lemma {:induction false} CountBound(lo: nat, hi: nat)
    ensures CountDiatonic(lo, hi) <= if hi <= lo then 0 else hi - lo
    decreases hi
  {
    if hi > lo {
      CountBound(lo, hi - 1);
    }
  }

  /** Exactly one white key lies in [d, d'] where d' is the white key met by
      snapping one semitone past `d`: the snap lands on the first white key. */
  lemma CountToNextDiatonic(n: nat)
    ensures CountDiatonic(n, ClosestDiatonicRight(n) + 1) == 1
  {
    var r := ClosestDiatonicRight(n);
    if r == n + 1 {
      assert CountDiatonic(n, n + 1) == 0;
    }
  }

  /** Exactly one white key lies in [ClosestDiatonicLeft(n - 1), n). */
  lemma CountFromPrevDiatonic(n: nat)
    requires n >= 1
    ensures CountDiatonic(ClosestDiatonicLeft(n - 1), n) == 1
  {
    var l := ClosestDiatonicLeft(n - 1);
    if l == n - 2 {
      assert CountDiatonic(l, n - 1) == 1;
    }
  }

  /** A count over a range that starts on a white key is positive. */
  lemma CountFromDiatonicPositive(a: nat, b: nat)
    requires IsDiatonic(a) && a < b
    ensures CountDiatonic(a, b) >= 1
  {
    CountSplit(a, a + 1, b);
  }

  /** For a fixed white start `a`, the count grows strictly with a white end. */
  lemma CountStrictlyIncreasing(a: nat, b: nat, c: nat)
    requires IsDiatonic(b)
    requires a <= b < c
    ensures CountDiatonic(a, b) < CountDiatonic(a, c)
  {
    CountSplit(a, b, c);
    CountFromDiatonicPositive(b, c);
  }

  /** For a fixed end `c`, the count shrinks strictly as a white start moves right. */
  lemma CountStrictlyDecreasing(a: nat, b: nat, c: nat)
    requires IsDiatonic(a)
    requires a < b <= c
    ensures CountDiatonic(a, c) > CountDiatonic(b, c)
  {
    CountSplit(a, b, c);
    CountFromDiatonicPositive(a, b);
  }

  /** A count over a sub-range is at most the count over the whole range. */
  lemma CountMonotone(a: nat, b: nat, c: nat, d: nat)
    requires a <= b <= c <= d
    ensures CountDiatonic(b, c) <= CountDiatonic(a, d)
  {
    CountSplit(a, b, d);
    CountSplit(b, c, d);
  }

  /** The spec of `getDiatonicRange`: white keys in [left(a), right(b)). */
  function DiatonicRangeOf(midiStart: nat, midiEnd: nat): nat {
    CountDiatonic(ClosestDiatonicLeft(midiStart), ClosestDiatonicRight(midiEnd))
  }

  /**
   * Counts the white keys from the snapped start up to, but not including,
   * the snapped end.
   */
  method DiatonicRange(midiStart: nat, midiEnd: nat) returns (range: nat)
    ensures range == CountDiatonic(ClosestDiatonicLeft(midiStart), ClosestDiatonicRight(midiEnd))
    ensures ClosestDiatonicLeft(midiStart) >= ClosestDiatonicRight(midiEnd) ==> range == 0
    ensures range <= ClosestDiatonicRight(midiEnd) - ClosestDiatonicLeft(midiStart)
                     || ClosestDiatonicLeft(midiStart) >= ClosestDiatonicRight(midiEnd)
  {
    range := 0;
    var start := ClosestDiatonicLeft(midiStart);
    var end := ClosestDiatonicRight(midiEnd);
    var midi := start;
    while midi < end
      invariant midi == start || start < midi <= end
      invariant range == CountDiatonic(start, midi)
    {
      if IsDiatonic(midi) {
        range := range + 1;
      }
      midi := midi + 1;
    }
    if start < end {
      CountBound(start, end);
    } else {
      assert CountDiatonic(start, end) == 0;
    }
  }

  /** `getDiatonicRange` plus one: counts the start key too. */
  method DiatonicRangeInclusive(midiStart: nat, midiEnd: nat) returns (range: nat)
    ensures range == DiatonicRangeOf(midiStart, midiEnd) + 1
    ensures midiStart == midiEnd && IsDiatonic(midiStart) ==> range == 1
  {
    range := DiatonicRange(midiStart, midiEnd);
    range := range + 1;
  }

  /** For a white start, the range is additive over adjacent white intervals. */
  lemma DiatonicRangeAdditive(a: nat, b: nat, c: nat)
    requires IsDiatonic(a) && IsDiatonic(b) && IsDiatonic(c)
    requires a <= b <= c
    ensures DiatonicRangeOf(a, c) == DiatonicRangeOf(a, b) + DiatonicRangeOf(b, c)
  {
    CountSplit(a, b, c);
  }

  /** For a white start, the range grows strictly with the white end. */
  lemma DiatonicRangeStrictlyIncreasing(a: nat, b: nat, c: nat)
    requires IsDiatonic(a) && IsDiatonic(b) && IsDiatonic(c)
    requires a <= b < c
    ensures DiatonicRangeOf(a, b) < DiatonicRangeOf(a, c)
  {
    CountStrictlyIncreasing(a, b, c);
  }

  // ---------------------------------------------------------------------------
  // Stepping white keys

  /** Moving `dist` white keys from `midi` stays at or above note 0. */
  ghost predicate HasRoom(midi: nat, dist: int) {
    dist < 0 ==> -dist <= CountDiatonic(0, midi)
  }

  /**
   * The note reached by landing on `|dist|` white keys while walking from
   * `midi` in the direction of the sign of `dist`.
   */
  ghost function StepAway(midi: nat, dist: int): nat
    requires HasRoom(midi, dist)
    decreases if dist < 0 then -dist else dist
  {
    if dist == 0 then midi
    else if dist > 0 then StepAway(ClosestDiatonicRight(midi + 1), dist - 1)
    else
      assert midi >= 1;
      CountFromPrevDiatonic(midi);
      CountSplit(0, ClosestDiatonicLeft(midi - 1), midi);
      StepAway(ClosestDiatonicLeft(midi - 1), dist + 1)
  }

  /** Upward: the landing note is white, above the start, and exactly `dist`
      white keys lie in (midi, r]. */
  lemma {:induction false} StepAwayUp(midi: nat, dist: nat)
    ensures var r := StepAway(midi, dist);
      midi <= r && CountDiatonic(midi + 1, r + 1) == dist &&
      (dist > 0 ==> midi < r && IsDiatonic(r))
    decreases dist
  {
    if dist > 0 {
      var next := ClosestDiatonicRight(midi + 1);
      StepAwayUp(next, dist - 1);
      var r := StepAway(next, dist - 1);
      CountToNextDiatonic(midi + 1);
      CountSplit(midi + 1, next + 1, r + 1);
    }
  }

  /** Downward: the landing note is white, below the start, and exactly `-dist`
      white keys lie in [r, midi). */
  lemma {:induction false} StepAwayDown(midi: nat, dist: int)
    requires dist <= 0 && HasRoom(midi, dist)
    ensures var r := StepAway(midi, dist);
      r <= midi && CountDiatonic(r, midi) == -dist &&
      (dist < 0 ==> r < midi && IsDiatonic(r))
    decreases -dist
  {
    if dist < 0 {
      var prev := ClosestDiatonicLeft(midi - 1);
      CountFromPrevDiatonic(midi);
      CountSplit(0, prev, midi);
      StepAwayDown(prev, dist + 1);
      var r := StepAway(prev, dist + 1);
      CountSplit(r, prev, midi);
    }
  }

  /** One semitone of the walk: landing on a white key uses up one step. */
  lemma StepAwayShift(midi: nat, dist: int)
    requires dist != 0 && HasRoom(midi, dist)
    ensures dist > 0 ==>
      StepAway(midi, dist) == StepAway(midi + 1, if IsDiatonic(midi + 1) then dist - 1 else dist)
    ensures dist < 0 ==>
      midi >= 1 && HasRoom(midi - 1, if IsDiatonic(midi - 1) then dist + 1 else dist) &&
      StepAway(midi, dist) == StepAway(midi - 1, if IsDiatonic(midi - 1) then dist + 1 else dist)
  {
    if dist > 0 {
      AccidentalNeighbours(midi + 1);
    } else {
      assert midi >= 1;
      AccidentalNeighbours(midi - 1);
      CountFromPrevDiatonic(midi);
      CountSplit(0, ClosestDiatonicLeft(midi - 1), midi);
      CountSplit(0, midi - 1, midi);
    }
  }

  /**
   * Walks one semitone at a time in the direction of `diatonicDist`, counting
   * the white keys landed on, until `|diatonicDist|` of them have been met.
   */
  method MidiDiatonicDistAway(diatonic: nat, diatonicDist: int) returns (r: nat)
    requires HasRoom(diatonic, diatonicDist)
    ensures r == StepAway(diatonic, diatonicDist)
  {
    if diatonicDist == 0 {
      return diatonic;
    }
    var diatonicDistAbs: nat := if diatonicDist < 0 then -diatonicDist else diatonicDist;
    var direction := if diatonicDist < 0 then -1 else 1;
    var currentMidi: nat := diatonic;
    var currentDiatonicDistAbs: nat := 0;
    ghost var target := StepAway(diatonic, diatonicDist);
    // the signed number of white keys still to land on
    ghost var remaining: int := diatonicDist;
    if diatonicDist > 0 {
      StepAwayUp(diatonic, diatonicDist);
    } else {
      StepAwayDown(diatonic, diatonicDist);
    }
    while currentDiatonicDistAbs < diatonicDistAbs
      invariant currentDiatonicDistAbs <= diatonicDistAbs
      invariant remaining == if direction > 0 then diatonicDistAbs - currentDiatonicDistAbs
                             else currentDiatonicDistAbs - diatonicDistAbs
      invariant HasRoom(currentMidi, remaining)
      invariant StepAway(currentMidi, remaining) == target
      invariant direction > 0 ==> currentMidi <= target
      invariant direction < 0 ==> target <= currentMidi
      decreases if direction > 0 then target - currentMidi else currentMidi - target
    {
      StepAwayShift(currentMidi, remaining);
      if direction > 0 {
        StepAwayUp(currentMidi, remaining);
        currentMidi := currentMidi + 1;
      } else {
        StepAwayDown(currentMidi, remaining);
        currentMidi := currentMidi - 1;
      }
      if IsDiatonic(currentMidi) {
        currentDiatonicDistAbs := currentDiatonicDistAbs + 1;
        remaining := remaining - direction;
      }
    }
    r := currentMidi;
  }

  /** From a white key, `getDiatonicRange(d, stepAway(d, k))` is `k`. */
  lemma DiatonicRangeOfStep(d: nat, k: nat)
    requires IsDiatonic(d)
    ensures DiatonicRangeOf(d, StepAway(d, k)) == k
  {
    StepAwayUp(d, k);
    var r := StepAway(d, k);
    if k > 0 {
      CountSplit(d, d + 1, r);
      CountSplit(d + 1, r, r + 1);
    }
  }

  /** Stepping `k` white keys up from a white key and then `k` back returns to it. */
  lemma StepAwayRoundTrip(d: nat, k: nat)
    requires IsDiatonic(d)
    ensures HasRoom(StepAway(d, k), -(k as int))
    ensures StepAway(StepAway(d, k), -(k as int)) == d
  {
    DiatonicRangeOfStep(d, k);
    var r := StepAway(d, k);
    StepAwayUp(d, k);
    CountSplit(0, d, r);
    StepAwayDown(r, -(k as int));
    var back := StepAway(r, -(k as int));
    if k > 0 {
      if back < d {
        CountStrictlyDecreasing(back, d, r);
      } else if back > d {
        CountStrictlyDecreasing(d, back, r);
      }
    }
  }

  // ---------------------------------------------------------------------------
  // Properties of the older copy of these functions

  /** The pitch-class test repeats every octave. */
  lemma DiatonicPeriodic(n: nat)
    ensures IsDiatonic(n + 12) == IsDiatonic(n)
  {
    assert PitchClass(n + 12) == PitchClass(n);
  }

  /** Exactly 7 of any 12 consecutive notes are white keys. */
  lemma {:induction false} SevenInEveryOctave(n: nat)
    ensures CountDiatonic(n, n + 12) == 7
    decreases n
  {
    if n == 0 {
      assert CountDiatonic(0, 12) == 7;
    } else {
      SevenInEveryOctave(n - 1);
      DiatonicPeriodic(n - 1);
      CountSplit(n - 1, n, n + 11);
      CountSplit(n, n + 11, n + 12);
      CountSplit(n - 1, n + 11, n + 12);
      assert CountDiatonic(n - 1, n) == CountDiatonic(n + 11, n + 12);
    }
  }

  /** The left snap is the greatest white key at or below `n`. */
  lemma ClosestLeftIsGreatest(n: nat, m: nat)
    requires ClosestDiatonicLeft(n) < m <= n
    ensures !IsDiatonic(m)
  {
  }

  /** The right snap is the least white key at or above `n`. */
  lemma ClosestRightIsLeast(n: nat, m: nat)
    requires n <= m < ClosestDiatonicRight(n)
    ensures !IsDiatonic(m)
  {
  }

  /** Snapping twice is snapping once. */
  lemma SnapIdempotent(n: nat)
    ensures ClosestDiatonicLeft(ClosestDiatonicLeft(n)) == ClosestDiatonicLeft(n)
    ensures ClosestDiatonicRight(ClosestDiatonicRight(n)) == ClosestDiatonicRight(n)
  {
  }

  /** The two snaps agree exactly on white keys and straddle a black key. */
  lemma SnapsAroundAccidental(n: nat)
    ensures ClosestDiatonicLeft(n) == ClosestDiatonicRight(n) <==> IsDiatonic(n)
    ensures !IsDiatonic(n) ==> ClosestDiatonicRight(n) - ClosestDiatonicLeft(n) == 2
  {
  }
}
