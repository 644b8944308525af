/**
 * The default key labels (src/lib/utils/keyLabels.ts): every white key from
 * note 2 to note 84 is labelled with its letter and octave, "D-1" for note 2
 * up to "C6" for note 84.
 *
 * The record the source builds is keyed by the note's decimal text; here it
 * is a map keyed by the note itself.
 */
module KeyLabels {
  import opened Theory

  /** The labelled notes run from `FIRST_LABELLED` to `LAST_LABELLED`. The
      values sit behind functions so that the verifier does not evaluate the
      whole loop on them. */
  const FIRST_LABELLED: nat := FirstLabelled()
  const LAST_LABELLED: nat := LastLabelled()
  function FirstLabelled(): nat { 2 }
  function LastLabelled(): nat { 84 }

  /** The letters of the white keys, from C. */
  const NOTES: string := "CDEFGAB"

  /** The pitch classes of the white keys, in the order of `NOTES`. */
  const LETTER_PITCH_CLASSES: seq<nat> := [0, 2, 4, 5, 7, 9, 11]

  /** The position of a white key's pitch class in `NOTES`. */
  function LetterIndex(pc: nat): (r: nat)
    requires pc in DIATONIC_PITCH_CLASSES
    ensures r < |NOTES| && LETTER_PITCH_CLASSES[r] == pc
  {
    if pc == 0 then 0
    else if pc == 2 then 1
    else if pc == 4 then 2
    else if pc == 5 then 3
    else if pc == 7 then 4
    else if pc == 9 then 5
    else 6
  }

  /** The letter of a white key. */
  function Letter(midi: nat): char
    requires IsDiatonic(midi)
  {
    NOTES[LetterIndex(PitchClass(midi))]
  }

  // ---------------------------------------------------------------------------
  // Decimal text of the octave number

  function DigitChar(d: nat): char
    requires d < 10
  {
    "0123456789"[d]
  }

  function DigitValue(c: char): nat {
    if '0' <= c <= '9' then (c as int - '0' as int) as nat else 0
  }

  lemma DigitRoundTrip(d: nat)
    requires d < 10
    ensures DigitValue(DigitChar(d)) == d
  {
  }

  /** The decimal text of a natural number, without leading zeros. */
  function DecimalText(n: nat): (r: string)
    ensures 1 <= |r|
    ensures forall i :: 0 <= i < |r| ==> '0' <= r[i] <= '9'
    decreases n
  {
    if n < 10 then [DigitChar(n)] else DecimalText(n / 10) + [DigitChar(n % 10)]
  }

  /** Reads decimal digits back into a number. */
  function DecimalValue(s: string): nat
    decreases |s|
  {
    if s == [] then 0 else DecimalValue(s[..|s| - 1]) * 10 + DigitValue(s[|s| - 1])
  }

  /** The decimal text of a number reads back as that number. */
  lemma {:induction false} DecimalRoundTrip(n: nat)
    ensures DecimalValue(DecimalText(n)) == n
    decreases n
  {
    var r := DecimalText(n);
    if n < 10 {
      assert r[..0] == [];
      DigitRoundTrip(n);
    } else {
      DecimalRoundTrip(n / 10);
      DigitRoundTrip(n % 10);
      assert r == DecimalText(n / 10) + [DigitChar(n % 10)];
      assert r[..|r| - 1] == DecimalText(n / 10);
      assert DecimalValue(r) == DecimalValue(DecimalText(n / 10)) * 10 + DigitValue(DigitChar(n % 10));
    }
  }

  /** How a whole number of octaves is written when joined to a string. */
  function OctaveText(octave: int): (r: string)
    ensures 1 <= |r|
    ensures octave < 0 <==> r[0] == '-'
  {
    if octave < 0 then "-" + DecimalText(-octave) else DecimalText(octave)
  }

  /** A key label: a letter joined to an octave number. */
  datatype Label = Label(letter: char, octave: int)

  /** The text of a label, as the string join writes it. */
  function LabelText(keyLabel: Label): (r: string)
    ensures |r| >= 2 && r[0] == keyLabel.letter
    ensures r[1..] == OctaveText(keyLabel.octave)
  {
    [keyLabel.letter] + OctaveText(keyLabel.octave)
  }

  /** The label of a white key: its letter, then its octave, where notes 0
      to 11 are octave -1. */
  function DefaultLabel(midi: nat): Label
    requires IsDiatonic(midi)
  {
    Label(Letter(midi), midi / 12 - 1)
  }

  /** Middle C is "C4"; the lowest labelled key is "D-1"; the highest is
      "C6". */
  lemma LabelExamples()
    ensures LabelText(DefaultLabel(60)) == "C4"
    ensures LabelText(DefaultLabel(2)) == "D-1"
    ensures LabelText(DefaultLabel(84)) == "C6"
  {
    assert PitchClass(60) == 0 && PitchClass(2) == 2 && PitchClass(84) == 0;
  }

  /** A white key an octave up has the same letter and the next octave. */
  lemma LabelOctaveShift(midi: nat)
    requires IsDiatonic(midi)
    ensures IsDiatonic(midi + 12)
    ensures Letter(midi + 12) == Letter(midi)
    ensures (midi + 12) / 12 - 1 == midi / 12
  {
    assert PitchClass(midi + 12) == PitchClass(midi);
  }

  /**
   * Letters cycle: the letter of a white key is the one after the letter of
   * the white key below it, wrapping from B to C.
   */
  lemma NextLetter(midi: nat)
    requires 1 <= midi && IsDiatonic(midi)
    ensures var previous := LetterIndex(PitchClass(ClosestDiatonicLeft(midi - 1)));
      LetterIndex(PitchClass(midi)) == if previous >= |NOTES| - 1 then 0 else previous + 1
  {
    AccidentalNeighbours(midi - 1);
    PitchClassSucc(midi - 1);
    if !IsDiatonic(midi - 1) {
      PitchClassSucc(midi - 2);
    }
  }

  /** Whole octaves hold seven white keys each. */
  lemma {:induction false} OctavesCount(n: nat, k: nat)
    ensures CountDiatonic(n, n + 12 * k) == 7 * k
    decreases k
  {
    if k > 0 {
      OctavesCount(n, k - 1);
      SevenInEveryOctave(n + 12 * (k - 1));
      CountSplit(n, n + 12 * (k - 1), n + 12 * k);
    }
  }

  /** From any D, the next 83 notes hold 49 white keys: seven whole octaves
      less the C sharp that would end the seventh. */
  lemma LabelledCount(lo: nat)
    requires PitchClass(lo) == 2
    ensures CountDiatonic(lo, lo + 83) == 49
  {
    OctavesCount(lo, 7);
    CountSplit(lo, lo + 83, lo + 84);
    PitchClassMod(lo);
    PitchClassMod(lo + 83);
    assert !IsDiatonic(lo + 83);
  }

  /** The labels of the white keys from `FIRST_LABELLED` up to, not
      including, `hi`. */
  ghost function LabelsBelow(hi: nat): map<nat, Label>
    decreases hi
  {
    if hi <= FIRST_LABELLED then map[]
    else
      var labels := LabelsBelow(hi - 1);
      if IsDiatonic(hi - 1) then labels[hi - 1 := DefaultLabel(hi - 1)] else labels
  }

  /** Exactly the white keys in range are labelled. */
  lemma {:induction false} LabelsBelowKeys(hi: nat)
    ensures forall n :: n in LabelsBelow(hi) <==> FIRST_LABELLED <= n < hi && IsDiatonic(n)
    decreases hi
  {
    if hi > FIRST_LABELLED {
      LabelsBelowKeys(hi - 1);
    }
  }

  /** Each label is the letter and octave of its key. */
  lemma {:induction false} LabelsBelowValues(hi: nat)
    ensures forall n :: n in LabelsBelow(hi) ==> IsDiatonic(n) && LabelsBelow(hi)[n] == DefaultLabel(n)
    decreases hi
  {
    if hi > FIRST_LABELLED {
      LabelsBelowValues(hi - 1);
    }
  }

  /** There are as many labels as white keys in range. */
  lemma {:induction false} LabelsBelowSize(hi: nat)
    ensures |LabelsBelow(hi)| == CountDiatonic(FIRST_LABELLED, hi)
    decreases hi
  {
    if hi > FIRST_LABELLED {
      LabelsBelowSize(hi - 1);
      LabelsBelowKeys(hi - 1);
      assert hi - 1 !in LabelsBelow(hi - 1);
    }
  }

  /** The labels `createDefaultLabels` produces. */
  ghost function DefaultLabels(): map<nat, Label> {
    LabelsBelow(LAST_LABELLED + 1)
  }

  /** Exactly the 49 white keys from note 2 to note 84 are labelled, each
      with its letter and octave. */
  lemma DefaultLabelsContents()
    ensures forall midi :: midi in DefaultLabels() <==> FIRST_LABELLED <= midi <= LAST_LABELLED && IsDiatonic(midi)
    ensures forall midi :: midi in DefaultLabels() ==> DefaultLabels()[midi] == DefaultLabel(midi)
    ensures |DefaultLabels()| == 49
  {
    LabelsBelowKeys(LAST_LABELLED + 1);
    LabelsBelowValues(LAST_LABELLED + 1);
    LabelsBelowSize(LAST_LABELLED + 1);
    PitchClassMod(FIRST_LABELLED);
    LabelledCount(FIRST_LABELLED);
    assert LAST_LABELLED + 1 == FIRST_LABELLED + 83;
  }

  /**
   * `createDefaultLabels`: walks notes 2 to 84 keeping the index of the last
   * letter used, and labels each white key with the next letter and its
   * octave.
   */
  method CreateDefaultLabels() returns (keyLabels: map<nat, Label>)
    ensures keyLabels == DefaultLabels()
  {
    keyLabels := map[];
    var currentNoteIndex := 0;
    var currentNoteLabel: char;
    var midi := FIRST_LABELLED;
    while midi <= LAST_LABELLED
      invariant FIRST_LABELLED <= midi <= LAST_LABELLED + 1
      invariant currentNoteIndex == LetterIndex(PitchClass(ClosestDiatonicLeft(midi - 1)))
      invariant keyLabels == LabelsBelow(midi)
    {
      var octave := midi / 12 - 1;
      if IsDiatonic(midi) {
        NextLetter(midi);
        if currentNoteIndex >= |NOTES| - 1 {
          currentNoteIndex := 0;
        } else {
          currentNoteIndex := currentNoteIndex + 1;
        }
        currentNoteLabel := NOTES[currentNoteIndex];
        assert Label(currentNoteLabel, octave) == DefaultLabel(midi);
        keyLabels := keyLabels[midi := Label(currentNoteLabel, octave)];
        assert keyLabels == LabelsBelow(midi + 1);
      } else {
        AccidentalNeighbours(midi);
        assert keyLabels == LabelsBelow(midi + 1);
      }
      midi := midi + 1;
    }
  }
}
