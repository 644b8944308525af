# A verified model of the clayton piano widget's core

This project models, in Dafny, the logic at the heart of a browser piano
keyboard widget written in TypeScript:

- **Diatonic pitch arithmetic** (`theory.dfy`, module `Theory`). It covers
  which MIDI notes are white keys, snapping a note to the nearest white key,
  counting white keys in a range, stepping a number of white keys away, and
  naming black keys.
- **The key strip** (`keys.dfy`, module `Keys`). The keys container is an
  ordered sequence of white-key elements, each holding the black keys nested
  in it. Building a fragment note by note is `Run`. Removing elements is
  `Prune`.
- **The range manager** (`renderer.dfy`, module `Renderer`, class
  `Renderer`). It keeps a materialized range and a view range, grows the
  strip at either edge, and prunes it to the view. Its invariant is that the
  rendered notes are exactly the materialized range plus a trailing black key.
- **The earlier range manager** (`legacy_renderer.dfy`, module
  `LegacyRenderer`). It uses a half-open strip and an unsnapped `setRange`.
- **The mouse and touch note tracker** (`pointer.dfy`, module `Pointer`, class
  `PianoController`). It turns mouse and touch events into key-down and key-up
  notifications.
- **The wheel gesture decoder** (`panzoom.dfy`, module `PanZoom`, class
  `PanZoom`). It turns bursts of wheel events into start / zoom / pan / end
  callbacks.
- **The default key labels** (`key_labels.dfy`, module `KeyLabels`). It is
  the loop that names white keys 2 to 84 by letter and octave.

`optional.dfy` holds the `Option` type used for absent arguments and
unresolved hit tests.

Each stateful file is a class whose methods are proved against pure step
or specification functions. The properties are lemmas about those functions.

Notes that are not part of the model:

- Both renderers import from `./TheoryUtils`, but `src/TheoryUtils.ts` lacks
  some of the names they use. `src/Renderer.ts` imports `DIATONIC_STEP`,
  `getDiatonicRange` and `getDiatonicRangeInclusive`, and `src/TheoryUtils.ts`
  defines none of them. `src/renderer.ts` imports `getDiatonicRange`, which
  `src/TheoryUtils.ts` does not define either. Only `src/lib/theoryUtils.ts` defines these names, and the
  model uses its definitions throughout.
- The two theory files have identical `isDiatonic` and snapping functions, so
  `Theory` defines them once.
- `IsDiatonic` tests the pitch class `PitchClass(midi)`, computed by repeated
  subtraction of 12. `PitchClassMod` proves that this is `midi % 12`. Written
  with `%` directly, the white-key test draws the verifier into non-linear
  arithmetic in the stepping proofs.

## Model

| member | source | states |
|---|---|---|
| Theory.PitchClassMod | src/lib/theoryUtils.ts:11-13 | the pitch class the white-key test uses is `midi % 12` |
| Theory.DiatonicPeriodic | src/TheoryUtils.ts:1-5 | the white-key test repeats with period 12 |
| Theory.SevenInEveryOctave | src/TheoryUtils.ts:1-5 | exactly 7 of any 12 consecutive notes are white keys |
| Theory.AccidentalNeighbours | src/lib/theoryUtils.ts:1-13 | a black key has white keys on both sides; there are never two black keys in a row nor three white keys in a row |
| Theory.ClosestDiatonic | src/lib/theoryUtils.ts:64-69 | the walk ends on a white key after at most one step in the given direction, and stays put exactly on a white key |
| Theory.ClosestDiatonicLeft | src/lib/theoryUtils.ts:15-17 | the left snap is a white key in {n-1, n}, equal to n exactly when n is white |
| Theory.ClosestDiatonicRight | src/lib/theoryUtils.ts:19-21 | the right snap is a white key in {n, n+1}, equal to n exactly when n is white |
| Theory.ClosestLeftIsGreatest | src/TheoryUtils.ts:7-20 | no white key lies strictly between the left snap of n and n |
| Theory.ClosestRightIsLeast | src/TheoryUtils.ts:11-20 | no white key lies between n and its right snap |
| Theory.SnapIdempotent | src/TheoryUtils.ts:15-17 | snapping twice is snapping once, on both sides |
| Theory.SnapsAroundAccidental | src/TheoryUtils.ts:15-20 | left and right snaps agree exactly on white keys; around a black key they are two apart |
| Theory.AccidentalName | src/lib/theoryUtils.ts:2-62 | a name exists exactly for black keys, and it is two letters ending in 's' |
| Theory.CountSplit | src/lib/theoryUtils.ts:23-33 | white-key counts add up over adjacent ranges |
| Theory.CountBound | src/lib/theoryUtils.ts:23-33 | a count never exceeds the width of its range |
| Theory.CountToNextDiatonic | src/lib/theoryUtils.ts:23-33 | from any note through its right snap there is exactly one white key |
| Theory.CountFromPrevDiatonic | src/lib/theoryUtils.ts:23-33 | from the left snap of n-1 up to n there is exactly one white key |
| Theory.CountFromDiatonicPositive | src/lib/theoryUtils.ts:23-33 | a non-empty range starting on a white key counts at least one |
| Theory.CountStrictlyIncreasing | src/lib/theoryUtils.ts:23-33 | the count grows strictly as the end moves past a white key |
| Theory.CountStrictlyDecreasing | src/lib/theoryUtils.ts:23-33 | the count shrinks strictly as the start moves past a white key |
| Theory.CountMonotone | src/lib/theoryUtils.ts:23-33 | a sub-range never counts more than its enclosing range |
| Theory.DiatonicRange | src/lib/theoryUtils.ts:23-33 | the loop counts the white keys in [left(a), right(b)); the count is 0 when the snapped range is empty, and at most its width |
| Theory.DiatonicRangeInclusive | src/lib/theoryUtils.ts:35-38 | the inclusive range is the range plus one, so it is 1 for a white key against itself |
| Theory.DiatonicRangeAdditive | src/lib/theoryUtils.ts:23-33 | for white bounds the range is additive over adjacent intervals |
| Theory.DiatonicRangeStrictlyIncreasing | src/lib/theoryUtils.ts:23-33 | for a white start the range grows strictly with a white end |
| Theory.StepAwayUp | src/lib/theoryUtils.ts:40-58 | stepping up k white keys lands on a white key strictly above, with exactly k white keys landed on |
| Theory.StepAwayDown | src/lib/theoryUtils.ts:40-58 | stepping down lands on a white key strictly below, with exactly -k white keys landed on |
| Theory.StepAwayShift | src/lib/theoryUtils.ts:50-55 | one semitone of the walk uses up one step exactly when it lands on a white key |
| Theory.MidiDiatonicDistAway | src/lib/theoryUtils.ts:40-58 | the loop returns the start for distance 0, and otherwise the note reached after landing on \|k\| white keys in the direction of k's sign |
| Theory.DiatonicRangeOfStep | src/lib/theoryUtils.ts:23-58 | from a white key, the range up to the note k steps away is k |
| Theory.StepAwayRoundTrip | src/lib/theoryUtils.ts:40-58 | stepping k white keys up and then k back returns to the start |
| Keys.NotesAppend | src/Renderer.ts:107-116 | the notes of a prepended or appended fragment are the concatenation of the notes |
| Keys.RunNotes | src/Renderer.ts:154-165 | a fragment built from a white key holds every note of its range exactly once, in order |
| Keys.RunNotesStep | src/Renderer.ts:154-165 | each loop step adds exactly its own note to the fragment's notes |
| Keys.RunKeyAt | src/Renderer.ts:154-165 | each element of a fragment is a white key in range, holding at most the black key just above it |
| Keys.RunNested | src/Renderer.ts:162-164 | every black key is nested in the white key one semitone below it, and every note lies in range |
| Keys.RunLength | src/Renderer.ts:154-165 | a fragment has one element per white key of its range |
| Keys.RunStart | src/Renderer.ts:154-160 | a fragment starting on a white key starts with that key |
| Keys.RunLast | src/Renderer.ts:154-165 | the last element of a fragment is the last white key of its range |
| Keys.RunStep | src/Renderer.ts:154-165 | a white note appends a key; a black note goes into the last white key |
| Keys.RunConcat | src/Renderer.ts:107-116 | two fragments that meet at a white key join into the fragment of the whole range |
| Keys.RunConcat3 | src/Renderer.ts:107-116 | three fragments that meet at white keys join into one |
| Keys.IntervalMembers | src/Renderer.ts:154 | the notes of an interval are exactly those in [lo, hi) |
| Keys.IntervalDistinct | src/Renderer.ts:154 | an interval repeats no note |
| Keys.KeepAccidentals | src/Renderer.ts:131-137 | the surviving black keys are among the originals and none is removed; when none is removed, all survive |
| Keys.PruneAppend | src/Renderer.ts:131-137 | removing keys commutes with concatenation |
| Keys.RemoveKeys | src/Renderer.ts:130-137 | the removal loop leaves exactly the pruned strip: each white key is kept or removed together with its black keys |
| Keys.PruneAll | src/Renderer.ts:131-137 | a strip whose white keys are all removed disappears |
| Keys.PruneNone | src/Renderer.ts:131-137 | a strip none of whose notes is removed is kept whole |
| Keys.PruneRunAll | src/Renderer.ts:131-137 | a fragment whose every note is removed disappears |
| Keys.PruneRunNone | src/Renderer.ts:131-137 | a fragment none of whose notes is removed is kept whole |
| Keys.PruneMiddle | src/Renderer.ts:131-137 | removing the outer parts of a strip keeps its kept middle |
| Renderer.TrailingEnd | src/Renderer.ts:149-152 | the look-ahead adds the next note exactly when it is a black key, and what follows is always white |
| Renderer.LeftRunMeetsStrip | src/Renderer.ts:104-107 | the left run, ending at midiStart - DIATONIC_STEP snapped right plus its trailing key, ends exactly at midiStart - 1 |
| Renderer.RightRunMeetsStrip | src/Renderer.ts:112-115 | the right run starts exactly on the first note after the strip's trailing key |
| Renderer.StripMember | src/Renderer.ts:50-168 | a note is rendered exactly when it lies in [midiStart, midiEnd] or is the black key just above midiEnd |
| Renderer.StripDistinct | src/Renderer.ts:144-168 | the strip renders no note twice |
| Renderer.PruneToView | src/Renderer.ts:128-137 | pruning a strip to a view inside it leaves exactly the strip of the view |
| Renderer.InvisibleAroundView | src/Renderer.ts:133-134 | notes before the view or past its trailing key are invisible; those from its start through its trailing key are not |
| Renderer.LeftGrowth | src/Renderer.ts:104-110 | the run addKeysLeft builds reaches exactly up to the old start, and prepending it gives the longer strip |
| Renderer.Renderer.constructor | src/Renderer.ts:11-54 | the bounds are the outward snaps of the options or of the defaults 48 and 84; the view equals them; the strip renders them |
| Renderer.Renderer.ConstructKeysFragment | src/Renderer.ts:144-168 | the loop builds the run from the left-snapped start through the right-snapped end and its trailing black key |
| Renderer.Renderer.SetView | src/Renderer.ts:88-102 | the view is stored snapped; the counts are the view's and the range's inclusive white-key counts and the white keys from the range's start up to the view, which is never negative, so the offset is always applied; the view never counts more than the range it lies in |
| Renderer.Renderer.AddKeysLeft | src/Renderer.ts:104-110 | the strip gains exactly the keys from the new start up to the old one, and the invariant holds |
| Renderer.Renderer.AddKeysRight | src/Renderer.ts:112-118 | the strip gains exactly the keys after its old trailing key up to the new one, and the invariant holds |
| Renderer.Renderer.SetMidiStart | src/Renderer.ts:120-122 | the start is stored snapped left and nothing else changes |
| Renderer.Renderer.SetMidiEnd | src/Renderer.ts:124-126 | the end is stored snapped right and nothing else changes |
| Renderer.Renderer.ClearInvisibleKeys | src/Renderer.ts:128-142 | exactly the invisible keys are removed, the strip becomes the strip of the view, and the range becomes the view |
| Renderer.Renderer.SetRange | src/Renderer.ts:65-86 | the range and view end as the snapped target; the strip renders it; when the target view is applied, the materialized range is the old one widened to the target and covers the old view |
| LegacyRenderer.ExtendedRun | src/renderer.ts:61-107 | growing a half-open strip gives the strip of the range widened to the target |
| LegacyRenderer.LegacyPruneToView | src/renderer.ts:125-137 | pruning to a view inside the strip keeps [viewStart, viewEnd) plus the key of viewEnd when the strip had it |
| LegacyRenderer.RunToNextWhite | src/renderer.ts:139-159 | the run up to the next white key is one key holding the black key above it, if any |
| LegacyRenderer.LastKeyOfView | src/renderer.ts:130-131 | the view end's own key survives pruning but its black key does not |
| LegacyRenderer.SetRangeOnStrip | src/renderer.ts:61-137 | setRange on a valid strip to white bounds renders [start, end), plus end's own key when the old strip reached past it |
| LegacyRenderer.ShrinkGrowNotes | src/renderer.ts:101-159 | after a shrink and a regrow on the right, the note of the shrunk end is rendered twice in a row |
| LegacyRenderer.Renderer.constructor | src/renderer.ts:8-47 | the bounds are the outward snaps of the options or of the defaults 48 and 72; the view equals them; the strip renders the half-open range |
| LegacyRenderer.Renderer.ConstructKeysFragment | src/renderer.ts:139-159 | the loop builds the run of the half-open range [left(s), right(e)) |
| LegacyRenderer.Renderer.SetMidiView | src/renderer.ts:78-91 | the view is stored snapped; the counts are the view's, the range's, and the count up to the raw requested start; the view never counts more than the range it lies in |
| LegacyRenderer.Renderer.AddKeysLeft | src/renderer.ts:93-99 | the strip gains the keys of [new start, old start) in front and the invariant is kept |
| LegacyRenderer.Renderer.AddKeysRight | src/renderer.ts:101-107 | the strip gains the keys of [old end, new end) behind and the invariant is kept |
| LegacyRenderer.Renderer.SetMidiStart | src/renderer.ts:109-111 | the start is stored snapped left and nothing else changes |
| LegacyRenderer.Renderer.SetMidiEnd | src/renderer.ts:113-115 | the end is stored snapped right and nothing else changes |
| LegacyRenderer.Renderer.ClearInvisibleKeys | src/renderer.ts:125-137 | every key outside the closed view is removed, with no exception for a black key, and the range becomes the view |
| LegacyRenderer.Renderer.SetRange | src/renderer.ts:61-76 | range and view become the raw arguments; the strip is the old one grown on each side the target exceeds, then pruned to the view |
| LegacyRenderer.ShrinkThenGrow | src/renderer.ts:61-137 | shrinking on the right and growing back renders the shrunk end's note at two consecutive positions |
| Pointer.MouseDownEmits | src/PianoController.ts:47-56 | mouse down presses, remembers the note under the pointer, and emits key-down exactly once when there is one |
| Pointer.MouseMoveIdle | src/PianoController.ts:58-69 | a move with the button up, or onto the remembered note, emits nothing and changes nothing |
| Pointer.MouseMoveChanges | src/PianoController.ts:71-78 | a pressed move onto another key releases the old one and presses and remembers the new one; off the keys it releases the old note but keeps remembering it |
| Pointer.MouseReleases | src/PianoController.ts:81-92 | leave and up release the remembered note and forget it; up also ends the press |
| Pointer.MouseDoubleRelease | src/PianoController.ts:58-92 | press on 60, drag off the keys, release: key-up for 60 is emitted twice, which no single voice can replay |
| Pointer.MouseMoveIntended | src/PianoController.ts:71-78 | the corrected move agrees with the handler except off the keys, where it forgets the released note |
| Pointer.MouseDownIntended | src/PianoController.ts:47-56 | the corrected mouse down agrees with the handler when no note is held, and otherwise releases the held note first |
| Pointer.MouseDownWhileHeld | src/PianoController.ts:47-56 | as written, a second mouse down while 60 is held emits key-down 62 without key-up 60, which no single voice can replay |
| Pointer.IntendedMouseKeepsAgreement | src/PianoController.ts:47-92 | with the corrected mouse down and move, every mouse event in every reachable session keeps the emitted trace well formed and the remembered note equal to the sounding one |
| Pointer.TouchStartStep | src/PianoController.ts:94-105 | a touch off the keys changes nothing; no other touch's entry changes; for an identifier not yet mapped, key-downs minus key-ups equal the entries added |
| Pointer.TouchEndStep | src/PianoController.ts:140-148 | the lifted touch is no longer mapped, no other touch's entry changes, and key-downs minus key-ups equal the change in the number of mapped touches |
| Pointer.NoElementIsNonKey | src/PianoController.ts:115-136 | a move onto no element acts as a move onto an element that is not a key |
| Pointer.TouchMoveOthersUntouched | src/PianoController.ts:107-138 | a move changes no entry of a touch it does not list |
| Pointer.TouchMoveOneBalance | src/PianoController.ts:112-136 | each changed touch presses as many keys, net of releases, as it adds entries |
| Pointer.TouchMoveAllBalance | src/PianoController.ts:107-138 | a whole move keeps key-downs minus key-ups equal to the growth of the map |
| Pointer.TouchStepBalance | src/PianoController.ts:94-148 | each touch handler keeps that balance, unless touchstart repeats a mapped identifier |
| Pointer.TouchBalance | src/PianoController.ts:94-148 | over any touch events with no repeated touchstart, key-downs minus key-ups equals the growth of the map |
| Pointer.RepeatedStartUnbalances | src/PianoController.ts:94-105 | a touchstart for a mapped identifier emits a key-down without adding an entry |
| Pointer.SlideScenario | src/PianoController.ts:94-148 | touch 64, slide to 65, lift: key-down 64, key-up 64, key-down 65, key-up 65, and nothing stays mapped |
| Pointer.PianoController.constructor | src/PianoController.ts:12-14 | the controller starts unpressed, with no remembered note, no touches and nothing emitted |
| Pointer.PianoController.OnMouseDown | src/PianoController.ts:47-56 | the session and the emitted trace follow the mouse-down step |
| Pointer.PianoController.OnMouseMove | src/PianoController.ts:58-79 | the session and the emitted trace follow the mouse-move step |
| Pointer.PianoController.OnMouseUp | src/PianoController.ts:81-84 | the session and the emitted trace follow the mouse-up step |
| Pointer.PianoController.OnMouseLeave | src/PianoController.ts:86-92 | the session and the emitted trace follow the mouse-leave step |
| Pointer.PianoController.OnTouchStart | src/PianoController.ts:94-105 | the touch map and the emitted trace follow the touchstart step |
| Pointer.PianoController.OnTouchMove | src/PianoController.ts:107-138 | the loop over changed touches leaves the map and trace of the touchmove step over all of them, in order |
| Pointer.PianoController.OnTouchEnd | src/PianoController.ts:140-148 | the touch map and the emitted trace follow the touchend step |
| PanZoom.WheelStarts | src/utils/createPanZoom.ts:20-23 | a wheel event fires onStart exactly when no gesture is under way, first, and leaves one under way |
| PanZoom.WheelReportsOnce | src/utils/createPanZoom.ts:29-35 | every wheel event ends with exactly one onZoom (ctrl held) or onPanX carrying the new total; a zoom changes only the scale and a pan only the pan |
| PanZoom.WheelStepStarts | src/utils/createPanZoom.ts:20-23 | a wheel event fires onStart once or not at all |
| PanZoom.WheelsAccumulate | src/utils/createPanZoom.ts:29-35 | within a gesture the scale falls by 0.01 per unit of ctrl-held vertical delta and the pan by 0.1 per unit of horizontal delta |
| PanZoom.WheelsStartOnce | src/utils/createPanZoom.ts:20-23 | within a gesture onStart fires once, and only if none was under way |
| PanZoom.GestureFromRest | src/utils/createPanZoom.ts:13-35 | from rest the reported totals start from scale 1 and pan 0 |
| PanZoom.InactiveIsAtRest | src/utils/createPanZoom.ts:13-45 | whatever the events, an inactive decoder has scale 1 and pan 0 |
| PanZoom.TimeoutEndsGesture | src/utils/createPanZoom.ts:40-45 | a timeout always ends at rest with onEnd fired last |
| PanZoom.TimeoutThenWheel | src/utils/createPanZoom.ts:17-45 | after a timeout the next wheel event fires onStart and reports its own delta from scale 1 or pan 0 |
| PanZoom.PanZoom.constructor | src/utils/createPanZoom.ts:12-15 | the closure starts at rest with no timeout and nothing fired |
| PanZoom.PanZoom.OnWheel | src/utils/createPanZoom.ts:17-38 | state and callbacks follow the wheel step; the previous timeout is cleared and exactly the new one is pending |
| PanZoom.PanZoom.OnTimeout | src/utils/createPanZoom.ts:40-45 | state and callbacks follow the timeout step and nothing stays pending |
| KeyLabels.LetterIndex | src/lib/utils/keyLabels.ts:3-19 | the letter index of a white pitch class points back at that pitch class |
| KeyLabels.NextLetter | src/lib/utils/keyLabels.ts:13-19 | the letter of a white key follows the letter of the white key below it, wrapping from B to C |
| KeyLabels.LabelOctaveShift | src/lib/utils/keyLabels.ts:12-20 | a white key one octave up has the same letter and the next octave |
| KeyLabels.LabelExamples | src/lib/utils/keyLabels.ts:12-20 | middle C (60) is "C4", note 2 is "D-1", note 84 is "C6" |
| KeyLabels.DecimalRoundTrip | src/lib/utils/keyLabels.ts:20 | the octave's decimal text reads back as the octave |
| KeyLabels.LabelledCount | src/lib/utils/keyLabels.ts:11 | from a D, the next 83 notes hold 49 white keys |
| KeyLabels.LabelsBelowKeys | src/lib/utils/keyLabels.ts:11-13 | exactly the white keys from 2 up to the bound are labelled |
| KeyLabels.LabelsBelowValues | src/lib/utils/keyLabels.ts:12-20 | each label is its key's letter and octave `midi / 12 - 1` |
| KeyLabels.LabelsBelowSize | src/lib/utils/keyLabels.ts:11-13 | there are as many labels as white keys |
| KeyLabels.DefaultLabelsContents | src/lib/utils/keyLabels.ts:7-24 | exactly the 49 white keys in [2, 84] are labelled, each with its letter and octave |
| KeyLabels.CreateDefaultLabels | src/lib/utils/keyLabels.ts:7-24 | the loop, with its wrapping letter counter, builds exactly the default labels |

## Left out

- DOM construction and styling are left out. This covers element creation, class names, `dataset`, style strings and the floating-point width and offset percentages. Only the integer counts fed into them are modelled.
- `getBoundingClientRect` / `scrollTo` pixel math in `src/renderer.ts` is left out.
- `onClick` in both renderers is left out, as are `enableAnimation`, `disableAnimation`, `enableWidthAnimation` and `disableWidthAnimation`. They only read the DOM or set styles.
- Timing is not modelled. `Renderer.Renderer.SetRange` is one sequential method; the `await delay(...)` pauses and the animation are left out.
- Renderer.Renderer.SetRange: requires that the snapped target is not inverted (left(start) <= right(end)). The model does not describe what the source does with an inverted target.
- Notes are natural numbers. JavaScript `%` truncates and Dafny `%` does not, so negative notes are left out.
  - Renderer.Renderer.AddKeysLeft and LegacyRenderer.Renderer.AddKeysLeft require `keyCount <= midiStart` for the same reason.
- The placeholder `div` that receives a black key appearing before any white key in a fragment is modelled by dropping that key. It never reaches the keys container.
- Hit testing is replaced by resolved inputs: `event.target`, `elementFromPoint`, and `getMidiFromKeyElement`'s `Number`/`isFinite` parsing. A mouse or touch event arrives with `Option<int>`; a moving touch arrives with `NoElement` or `Element(note?)`. Non-integer finite notes are not modelled.
- `addEventListener` / `removeEventListener` wiring and `destroy` in `src/PianoController.ts` are left out, as is `preventDefault`.
- Touch start reads only `targetTouches[0]`, and touch end only `changedTouches[0]`. The model takes that one touch as the event.
- Real timers, the 250 ms delay and IEEE rounding of wheel deltas are left out. A timeout is an explicit `OnTimeout` call for a pending timer id, and deltas and totals are exact reals.
- The octave label in `createDefaultLabels` is the text `"C" + octave`. The model stores the letter and the octave number (`KeyLabels.Label`), and `KeyLabels.LabelText` gives their text. The record's string keys are the notes themselves.

## Findings

| source | as written | input that shows it | evidently intended | confidence | as-written member | corrected member |
|---|---|---|---|---|---|---|
| src/renderer.ts:61-76, 101-107, 130-131 | `clearInvisibleKeys` keeps the key of `midiViewEnd` (closed view), yet sets `midiEnd` to it, and `addKeysRight` builds from `midiEnd` on the half-open assumption that `midiEnd` is not rendered | from the default 48..72, `setRange(48, 60)` then `setRange(48, 72)` renders note 60 twice | each note rendered once; `src/Renderer.ts` keeps a closed strip and starts `addKeysRight` past the trailing key | high (proved; not executed) | LegacyRenderer.ShrinkThenGrow | Renderer.StripDistinct |
| src/PianoController.ts:71-78, 81-92 | a pressed mouse move off the keys emits `onKeyUp(active)` but keeps `activeMouseMidi` | mouse down on 60, move off the keys, mouse up: `onKeyUp(60)` is called twice | the released note is forgotten, as `onMouseLeave` does | high (proved; not executed) | Pointer.MouseDoubleRelease | Pointer.IntendedMouseKeepsAgreement |
| src/PianoController.ts:47-56 | `onMouseDown` overwrites `activeMouseMidi` without releasing a note still held | mouse down on 60, then a second mouse down (another button) on 62: `onKeyDown(62)` follows `onKeyDown(60)` and 60 is never released | the held note is released first, as `onMouseMove` does on a change of key | medium (proved; not executed) | Pointer.MouseDownWhileHeld | Pointer.IntendedMouseKeepsAgreement |
