/**
 * The key strip as the renderers build it: an ordered run of white-key
 * elements, each holding the black-key elements nested inside it.
 *
 * Creating and removing elements becomes building and filtering a sequence of
 * `Key` values; prepending and appending a fragment become concatenation.
 */
module Keys {
  import opened Theory

  /** One white-key element and the black-key elements appended into it. */
  datatype Key = Key(diatonic: nat, accidentals: seq<nat>)

  /** The notes of a strip in document order. */
  function Notes(keys: seq<Key>): seq<nat> {
    if keys == [] then [] else [keys[0].diatonic] + keys[0].accidentals + Notes(keys[1..])
  }

  /** The notes lo, lo + 1, ..., hi - 1. */
  function Interval(lo: nat, hi: nat): seq<nat>
    decreases hi
  {
    if hi <= lo then [] else Interval(lo, hi - 1) + [hi - 1]
  }

  /**
   * Adds the element for note `midi` to a fragment under construction: a
   * white key becomes a new sibling; a black key is appended into the last
   * white key. Before any white key exists the black key goes into a detached
   * placeholder element and so never reaches the fragment.
   */
  function Place(keys: seq<Key>, midi: nat): seq<Key> {
    if IsDiatonic(midi) then keys + [Key(midi, [])]
    else if keys == [] then keys
    else
      var last := keys[|keys| - 1];
      keys[|keys| - 1 := Key(last.diatonic, last.accidentals + [midi])]
  }

  /** The fragment built for the notes lo .. hi - 1, one note at a time. */
  function Run(lo: nat, hi: nat): seq<Key>
    decreases hi
  {
    if hi <= lo then [] else Place(Run(lo, hi - 1), hi - 1)
  }

  /** Every key of a strip is well nested: a white key holds only the black
      key one semitone above it. */
  ghost predicate WellNested(keys: seq<Key>) {
    forall i :: 0 <= i < |keys| ==>
      IsDiatonic(keys[i].diatonic) &&
      (keys[i].accidentals == [] ||
       (keys[i].accidentals == [keys[i].diatonic + 1] && !IsDiatonic(keys[i].diatonic + 1)))
  }

  /** Every note of every key of a strip lies in [lo, hi). */
  ghost predicate Within(keys: seq<Key>, lo: nat, hi: nat) {
    forall i :: 0 <= i < |keys| ==>
      lo <= keys[i].diatonic < hi &&
      forall j :: 0 <= j < |keys[i].accidentals| ==> lo <= keys[i].accidentals[j] < hi
  }

  lemma {:induction false} NotesAppend(a: seq<Key>, b: seq<Key>)
    ensures Notes(a + b) == Notes(a) + Notes(b)
    decreases |a|
  {
    if a == [] {
      assert a + b == b;
    } else {
      assert (a + b)[1..] == a[1..] + b;
      NotesAppend(a[1..], b);
    }
  }

  lemma IntervalSplit(a: nat, b: nat, c: nat)
    requires a <= b <= c
    ensures Interval(a, b) + Interval(b, c) == Interval(a, c)
  {
  }

  /** The members of an interval are exactly the notes in [lo, hi). */
  lemma {:induction false} IntervalMembers(lo: nat, hi: nat, n: nat)
    ensures n in Interval(lo, hi) <==> lo <= n < hi
    decreases hi
  {
    if hi > lo {
      IntervalMembers(lo, hi - 1, n);
    }
  }

  /** The i-th note of an interval is lo + i. */
  lemma {:induction false} IntervalAt(lo: nat, hi: nat, i: nat)
    requires lo + i < hi
    ensures |Interval(lo, hi)| == hi - lo && Interval(lo, hi)[i] == lo + i
    decreases hi
  {
    if lo + i < hi - 1 {
      IntervalAt(lo, hi - 1, i);
    } else if lo < hi - 1 {
      IntervalAt(lo, hi - 1, 0);
    }
  }

  /** An interval has no repeated note. */
  lemma {:induction false} IntervalDistinct(lo: nat, hi: nat)
    ensures forall i, j :: 0 <= i < j < |Interval(lo, hi)| ==> Interval(lo, hi)[i] != Interval(lo, hi)[j]
    decreases hi
  {
    if hi > lo {
      IntervalDistinct(lo, hi - 1);
      IntervalMembers(lo, hi - 1, hi - 1);
    }
  }

  /** A run that starts on a white key is non-empty and starts with that key. */
  lemma {:induction false} RunStart(lo: nat, hi: nat)
    requires IsDiatonic(lo) && lo < hi
    ensures |Run(lo, hi)| >= 1 && Run(lo, hi)[0].diatonic == lo
    decreases hi
  {
    if hi - 1 > lo {
      RunStart(lo, hi - 1);
    }
  }

  /** The last key of a run from a white key is the white key at or below
      hi - 1, holding hi - 1 when that note is black. */
  lemma {:induction false} RunLast(lo: nat, hi: nat)
    requires IsDiatonic(lo) && lo < hi
    ensures var r := Run(lo, hi);
      |r| >= 1 &&
      r[|r| - 1] == Key(ClosestDiatonicLeft(hi - 1), if IsDiatonic(hi - 1) then [] else [hi - 1])
    decreases hi
  {
    if !IsDiatonic(hi - 1) {
      AccidentalNeighbours(hi - 1);
      RunLast(lo, hi - 1);
    }
  }

  /** A run one note longer places that note on the shorter run. */
  lemma RunNext(lo: nat, m: nat)
    requires lo <= m
    ensures Run(lo, m + 1) == Place(Run(lo, m), m)
  {
  }

  /** Placing a note after a non-empty fragment leaves whatever precedes it alone. */
  lemma PlaceAppend(x: seq<Key>, y: seq<Key>, midi: nat)
    requires y != []
    ensures Place(x + y, midi) == x + Place(y, midi)
  {
    if !IsDiatonic(midi) {
      var last := y[|y| - 1];
      assert (x + y)[|x + y| - 1 := Key(last.diatonic, last.accidentals + [midi])]
          == x + y[|y| - 1 := Key(last.diatonic, last.accidentals + [midi])];
    }
  }

  /** One step of building a run: a white key is appended as a new sibling, a
      black key is nested into the white key just below it. */
  lemma RunStep(lo: nat, hi: nat)
    requires IsDiatonic(lo) && lo < hi
    ensures IsDiatonic(hi - 1) ==> Run(lo, hi) == Run(lo, hi - 1) + [Key(hi - 1, [])]
    ensures !IsDiatonic(hi - 1) ==>
      var prev := Run(lo, hi - 1);
      lo < hi - 1 && |prev| >= 1 && prev[|prev| - 1] == Key(hi - 2, []) &&
      Run(lo, hi) == prev[|prev| - 1 := Key(hi - 2, [hi - 1])]
  {
    var m := hi - 1;
    if !IsDiatonic(m) {
      AccidentalNeighbours(m);
      RunLast(lo, m);
      assert [] + [m] == [m];
    }
  }

  /** Replacing the last key is dropping it and appending the new one. */
  lemma UpdateLast(keys: seq<Key>, k: Key)
    requires |keys| >= 1
    ensures keys[|keys| - 1 := k] == keys[..|keys| - 1] + [k]
    ensures keys[|keys| - 1] == k ==> keys == keys[..|keys| - 1] + [k]
  {
  }

  /** Appending a bare white key appends its note. */
  lemma NotesPushWhite(keys: seq<Key>, midi: nat)
    ensures Notes(keys + [Key(midi, [])]) == Notes(keys) + [midi]
  {
    NotesAppend(keys, [Key(midi, [])]);
    assert [Key(midi, [])][1..] == [];
  }

  /** Nesting a black key into the last white key appends its note. */
  lemma NotesPushBlack(keys: seq<Key>, diatonic: nat, midi: nat)
    ensures Notes(keys + [Key(diatonic, [midi])]) == Notes(keys + [Key(diatonic, [])]) + [midi]
  {
    NotesAppend(keys, [Key(diatonic, [midi])]);
    NotesAppend(keys, [Key(diatonic, [])]);
    assert [Key(diatonic, [midi])][1..] == [];
    assert [Key(diatonic, [])][1..] == [];
    assert Notes([Key(diatonic, [midi])]) == Notes([Key(diatonic, [])]) + [midi];
  }

  /** Each step of a run adds exactly its note to the notes of the strip. */
  lemma RunNotesStep(lo: nat, hi: nat)
    requires IsDiatonic(lo) && lo < hi
    ensures Notes(Run(lo, hi)) == Notes(Run(lo, hi - 1)) + [hi - 1]
  {
    var m := hi - 1;
    var prev := Run(lo, m);
    RunStep(lo, hi);
    if IsDiatonic(m) {
      NotesPushWhite(prev, m);
    } else {
      var init := prev[..|prev| - 1];
      UpdateLast(prev, Key(m - 1, []));
      UpdateLast(prev, Key(m - 1, [m]));
      NotesPushBlack(init, m - 1, m);
    }
  }

  /** A run from a white key holds exactly one element per note of [lo, hi), in order. */
  lemma {:induction false} RunNotes(lo: nat, hi: nat)
    requires IsDiatonic(lo)
    ensures Notes(Run(lo, hi)) == Interval(lo, hi)
    decreases hi
  {
    if hi > lo {
      RunNotes(lo, hi - 1);
      RunNotesStep(lo, hi);
    }
  }

  /** A white key in [lo, hi) holding nothing, or holding just the black key
      above it when that is below hi. */
  ghost predicate KeyShape(k: Key, lo: nat, hi: nat) {
    IsDiatonic(k.diatonic) && lo <= k.diatonic < hi &&
    (k.accidentals == [] ||
     (k.accidentals == [k.diatonic + 1] && !IsDiatonic(k.diatonic + 1) && k.diatonic + 1 < hi))
  }

  /** Each key of a run from a white key is a white key in [lo, hi) holding
      nothing, or holding just the black key above it when that is below hi. */
  lemma {:induction false} RunKeyAt(lo: nat, hi: nat, i: nat)
    requires IsDiatonic(lo) && i < |Run(lo, hi)|
    ensures KeyShape(Run(lo, hi)[i], lo, hi)
    decreases hi
  {
    var m := hi - 1;
    RunStep(lo, hi);
    var prev := Run(lo, m);
    var k := Run(lo, hi)[i];
    if IsDiatonic(m) {
      if i < |prev| {
        assert k == prev[i];
        RunKeyAt(lo, m, i);
      } else {
        assert k == Key(m, []);
      }
    } else {
      AccidentalNeighbours(m);
      if i < |prev| - 1 {
        assert k == prev[i];
        RunKeyAt(lo, m, i);
      } else {
        assert k == Key(m - 1, [m]);
        assert IsDiatonic(m - 1) && !IsDiatonic(m - 1 + 1);
      }
    }
  }

  /** A run from a white key holds one key per white note of [lo, hi). */
  lemma {:induction false} RunLength(lo: nat, hi: nat)
    requires IsDiatonic(lo)
    ensures |Run(lo, hi)| == CountDiatonic(lo, hi)
    decreases hi
  {
    if hi > lo {
      RunLength(lo, hi - 1);
      RunStep(lo, hi);
    }
  }

  /** Each key of a run from a white key is well nested and within [lo, hi). */
  lemma RunNested(lo: nat, hi: nat)
    requires IsDiatonic(lo)
    ensures WellNested(Run(lo, hi))
    ensures Within(Run(lo, hi), lo, hi)
  {
    forall i | 0 <= i < |Run(lo, hi)|
      ensures IsDiatonic(Run(lo, hi)[i].diatonic) && lo <= Run(lo, hi)[i].diatonic < hi
      ensures var k := Run(lo, hi)[i];
        k.accidentals == [] ||
        (k.accidentals == [k.diatonic + 1] && !IsDiatonic(k.diatonic + 1) && k.diatonic + 1 < hi)
    {
      RunKeyAt(lo, hi, i);
    }
  }

  /** Two runs that meet at a white key join into one run. */
  lemma {:induction false} RunConcat(a: nat, b: nat, c: nat)
    requires a <= b <= c && IsDiatonic(b)
    ensures Run(a, b) + Run(b, c) == Run(a, c)
    decreases c
  {
    if c > b {
      var m := c - 1;
      RunConcat(a, b, m);
      if m == b {
        assert Run(b, m) == [];
      } else {
        RunStart(b, m);
        PlaceAppend(Run(a, b), Run(b, m), m);
      }
    }
  }

  // ---------------------------------------------------------------------------
  // Removing keys

  /** The black keys that survive `removed`. */
  function KeepAccidentals(accidentals: seq<nat>, removed: nat -> bool): (r: seq<nat>)
    ensures forall j :: 0 <= j < |r| ==> r[j] in accidentals && !removed(r[j])
    ensures (forall j :: 0 <= j < |accidentals| ==> !removed(accidentals[j])) ==> r == accidentals
  {
    if accidentals == [] then []
    else (if removed(accidentals[0]) then [] else [accidentals[0]])
         + KeepAccidentals(accidentals[1..], removed)
  }

  /**
   * Removes every element whose note satisfies `removed`. Removing a white-key
   * element removes the black keys nested in it with it.
   */
  function Prune(keys: seq<Key>, removed: nat -> bool): seq<Key> {
    if keys == [] then []
    else
      (if removed(keys[0].diatonic) then []
       else [Key(keys[0].diatonic, KeepAccidentals(keys[0].accidentals, removed))])
      + Prune(keys[1..], removed)
  }

  lemma {:induction false} PruneAppend(a: seq<Key>, b: seq<Key>, removed: nat -> bool)
    ensures Prune(a + b, removed) == Prune(a, removed) + Prune(b, removed)
    decreases |a|
  {
    if a == [] {
      assert a + b == b;
    } else {
      assert (a + b)[1..] == a[1..] + b;
      PruneAppend(a[1..], b, removed);
    }
  }

  /** Visits every key element in document order and removes those whose
      note satisfies `removed`; removing a white key takes its nested black
      keys with it. */
  method RemoveKeys(keys: seq<Key>, removed: nat -> bool) returns (remaining: seq<Key>)
    ensures remaining == Prune(keys, removed)
  {
    remaining := [];
    var i := 0;
    while i < |keys|
      invariant i <= |keys|
      invariant remaining == Prune(keys[..i], removed)
    {
      var key := keys[i];
      assert keys[..i + 1] == keys[..i] + [key];
      PruneAppend(keys[..i], [key], removed);
      assert [key][1..] == [];
      if !removed(key.diatonic) {
        remaining := remaining + [Key(key.diatonic, KeepAccidentals(key.accidentals, removed))];
      }
      i := i + 1;
    }
    assert keys[..i] == keys;
  }

  /** Pruning removes all of a strip whose white keys are all removed. */
  lemma {:induction false} PruneAll(keys: seq<Key>, removed: nat -> bool)
    requires forall i :: 0 <= i < |keys| ==> removed(keys[i].diatonic)
    ensures Prune(keys, removed) == []
    decreases |keys|
  {
    if keys != [] {
      PruneAll(keys[1..], removed);
    }
  }

  /** Pruning keeps all of a strip none of whose notes is removed. */
  lemma {:induction false} PruneNone(keys: seq<Key>, removed: nat -> bool)
    requires forall i :: 0 <= i < |keys| ==>
      !removed(keys[i].diatonic) &&
      forall j :: 0 <= j < |keys[i].accidentals| ==> !removed(keys[i].accidentals[j])
    ensures Prune(keys, removed) == keys
    decreases |keys|
  {
    if keys != [] {
      PruneNone(keys[1..], removed);
    }
  }

  /** Pruning removes all of a run whose every note in [lo, hi) is removed. */
  lemma PruneRunAll(lo: nat, hi: nat, removed: nat -> bool)
    requires IsDiatonic(lo)
    requires forall n: nat :: lo <= n < hi ==> removed(n)
    ensures Prune(Run(lo, hi), removed) == []
  {
    var keys := Run(lo, hi);
    forall i | 0 <= i < |keys|
      ensures removed(keys[i].diatonic)
    {
      RunKeyAt(lo, hi, i);
    }
    PruneAll(keys, removed);
  }

  /** Pruning keeps all of a run none of whose notes in [lo, hi) is removed. */
  lemma PruneRunNone(lo: nat, hi: nat, removed: nat -> bool)
    requires IsDiatonic(lo)
    requires forall n: nat :: lo <= n < hi ==> !removed(n)
    ensures Prune(Run(lo, hi), removed) == Run(lo, hi)
  {
    var keys := Run(lo, hi);
    forall i | 0 <= i < |keys|
      ensures !removed(keys[i].diatonic)
      ensures forall j :: 0 <= j < |keys[i].accidentals| ==> !removed(keys[i].accidentals[j])
    {
      RunKeyAt(lo, hi, i);
    }
    PruneNone(keys, removed);
  }

  /** Three runs that meet at white keys join into one run. */
  lemma RunConcat3(a: nat, b: nat, c: nat, d: nat)
    requires a <= b <= c <= d && IsDiatonic(b) && IsDiatonic(c)
    ensures Run(a, d) == Run(a, b) + Run(b, c) + Run(c, d)
  {
    RunConcat(a, b, c);
    RunConcat(a, c, d);
  }

  /** Pruning a strip whose outer parts vanish and whose middle survives
      leaves exactly the middle. */
  lemma PruneMiddle(a: seq<Key>, b: seq<Key>, c: seq<Key>, removed: nat -> bool)
    requires Prune(a, removed) == [] && Prune(b, removed) == b && Prune(c, removed) == []
    ensures Prune(a + b + c, removed) == b
  {
    PruneAppend(a + b, c, removed);
    PruneAppend(a, b, removed);
  }
}
