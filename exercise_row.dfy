/**
 * One exercise of an expanded routine card: the details line, one set icon per
 * planned set, and the two writes a tap makes to the local database — toggling
 * a set and adding one.
 *
 * The records it writes are current ones (schema version 3), so `setsCompleted`
 * is always present.
 */
module ExerciseRow {
  import opened Wrappers
  import opened Text
  import opened LocalDb
  import Seqs

  const Separator := " / "

  /** The time an exercise has when none was entered; it is not shown. */
  const NoTime := "00:00"

  /** The parts of the details line, in this order: `x<reps>`, `<weight>lb`, the time; each only when set. */
  function DetailParts(repetitions: int, weight: int, time: Option<string>): (parts: seq<string>)
    ensures |parts| <= 3
    ensures forall k :: 0 <= k < |parts| ==> parts[k] != ""
    ensures parts == [] <==> repetitions == 0 && weight == 0 && (time.None? || time.value in {"", NoTime})
  {
    (if repetitions != 0 then ["x" + IntToString(repetitions)] else [])
    + (if weight != 0 then [IntToString(weight) + "lb"] else [])
    + (if time.Some? && time.value != "" && time.value != NoTime then [time.value] else [])
  }

  /** The details line: the parts joined by `" / "`. */
  function Details(e: Exercise): string
  {
    Join(DetailParts(e.repetitions, e.weight, e.time), Separator)
  }

  /** The details line is empty, and so not drawn, exactly when there are no repetitions, no weight and no time to show. */
  lemma DetailsEmpty(e: Exercise)
    ensures Details(e) == "" <==> e.repetitions == 0 && e.weight == 0 && (e.time.None? || e.time.value in {"", NoTime})
  {
    var parts := DetailParts(e.repetitions, e.weight, e.time);
    if parts != [] {
      JoinPrefix(parts, Separator);
    }
  }

  /**
   * The details line reads back into its parts: splitting it on `" / "` gives
   * the repetitions, weight and time shown, as long as the time itself holds no
   * `" / "`.
   */
  lemma DetailsSplit(e: Exercise)
    requires e.time.Some? ==> !Includes(e.time.value, Separator)
    requires Details(e) != ""
    ensures SplitOn(Details(e), Separator) == DetailParts(e.repetitions, e.weight, e.time)
  {
    var parts := DetailParts(e.repetitions, e.weight, e.time);
    IntToStringNoSpace(e.repetitions);
    IntToStringNoSpace(e.weight);
    var reps := "x" + IntToString(e.repetitions);
    var weight := IntToString(e.weight) + "lb";
    assert NoSpace(reps) && NoSpace(weight);
    forall k | 0 <= k < |parts| - 1
      ensures OnlyAtEnd(parts[k], Separator)
    {
      assert parts[k] == reps || parts[k] == weight;
      NoSpaceOnlyAtEnd(parts[k]);
    }
    var last := parts[|parts| - 1];
    if last == reps || last == weight {
      NoSpaceExcludes(last);
    }
    SplitJoin(parts, Separator);
  }

  predicate NoSpace(s: string)
  {
    forall i :: 0 <= i < |s| ==> s[i] != ' '
  }

  lemma IntToStringNoSpace(n: int)
    ensures NoSpace(IntToString(n))
  {
    var s := IntToString(n);
    if n < 0 {
      assert forall i :: 1 <= i < |s| ==> IsDigit(s[i]) by {
        assert s[1..] == NatToString(-n);
      }
    }
  }

  lemma NoSpaceOnlyAtEnd(x: string)
    requires NoSpace(x)
    ensures OnlyAtEnd(x, Separator)
  {
    forall i | 0 <= i < |x|
      ensures !StartsWith((x + Separator)[i..], Separator)
    {
      DiffersAt((x + Separator)[i..], Separator, 0);
    }
  }

  lemma {:induction false} NoSpaceExcludes(s: string)
    requires NoSpace(s)
    ensures !Includes(s, Separator)
    decreases |s|
  {
    if s != [] {
      DiffersAt(s, Separator, 0);
      NoSpaceExcludes(s[1..]);
    } else {
      ShortExcludes(s, Separator);
    }
  }

  // ---------------------------------------------------------------- set icons

  /** `Array.from({length: sets}, …)`: one icon per set, completed for the first `setsCompleted`. */
  function Icons(sets: int, setsCompleted: int): (icons: seq<bool>)
    ensures |icons| == if sets > 0 then sets else 0
    ensures forall i :: 0 <= i < |icons| ==> (icons[i] <==> i < setsCompleted)
  {
    if sets <= 0 then [] else Icons(sets - 1, setsCompleted) + [sets - 1 < setsCompleted]
  }

  /** `toggleSet(index)`: a completed icon uncompletes it and every icon after it; any other completes up to and including it. */
  function ToggledCount(index: int, setsCompleted: int): int
  {
    if index < setsCompleted then index else index + 1
  }

  /**
   * Tapping a drawn icon flips that icon and leaves the completed icons a prefix
   * ending just before it (when it was completed) or at it (when it was not);
   * the count stays within `0..sets`.
   */
  lemma ToggleFlipsIcon(sets: int, setsCompleted: int, index: int)
    requires 0 <= index < sets
    ensures var n := ToggledCount(index, setsCompleted);
      && 0 <= n <= sets
      && Icons(sets, n)[index] == !Icons(sets, setsCompleted)[index]
      && forall j :: 0 <= j < sets ==> (Icons(sets, n)[j] <==> j < index || (j == index && !Icons(sets, setsCompleted)[index]))
  {
  }

  function NotDone(done: bool): bool
  {
    !done
  }

  /** The sets still to do: the icons not yet completed. */
  function Remaining(sets: int, setsCompleted: int): nat
  {
    Seqs.Count(NotDone, Icons(sets, setsCompleted))
  }

  lemma {:induction false} RemainingIs(sets: int, setsCompleted: int)
    requires 0 <= setsCompleted
    ensures Remaining(sets, setsCompleted) == if sets > setsCompleted then sets - setsCompleted else 0
    decreases if sets > 0 then sets else 0
  {
    if sets > 0 {
      RemainingIs(sets - 1, setsCompleted);
      var icons := Icons(sets, setsCompleted);
      assert icons[..|icons| - 1] == Icons(sets - 1, setsCompleted);
    }
  }

  /** `addSet` adds a set and marks one more done, so the sets still to do stay the same. */
  lemma AddSetKeepsRemaining(sets: int, setsCompleted: int)
    requires 0 <= setsCompleted
    ensures Remaining(sets + 1, setsCompleted + 1) == Remaining(sets, setsCompleted)
    ensures |Icons(sets + 1, setsCompleted + 1)| == |Icons(sets, setsCompleted)| + (if sets >= 0 then 1 else 0)
  {
    RemainingIs(sets + 1, setsCompleted + 1);
    RemainingIs(sets, setsCompleted);
  }

  // ---------------------------------------------------------------- writes

  /** The fields `toggleSet(index)` writes. */
  function ToggleChanges(e: Exercise, index: int): ExerciseChanges
    requires e.setsCompleted.Some?
  {
    ExerciseChanges(None, Some(ToggledCount(index, e.setsCompleted.value)))
  }

  /** The fields `addSet` writes. */
  function AddSetChanges(e: Exercise): ExerciseChanges
    requires e.setsCompleted.Some?
  {
    ExerciseChanges(Some(e.sets + 1), Some(e.setsCompleted.value + 1))
  }

  /** The record after a toggle keeps its sets and shows the tapped icon flipped; no other field changes. */
  lemma ToggleWrites(e: Exercise, index: int)
    requires e.setsCompleted.Some? && 0 <= index < e.sets
    ensures var r := UpdateAt(e.id, ToggleChanges(e, index))(e);
      && r.(setsCompleted := e.setsCompleted) == e
      && r.setsCompleted.Some?
      && Icons(r.sets, r.setsCompleted.value)[index] == !Icons(e.sets, e.setsCompleted.value)[index]
  {
    ToggleFlipsIcon(e.sets, e.setsCompleted.value, index);
  }

  /** The record after `addSet` has one more set and one more done, and no other field changes. */
  lemma AddSetWrites(e: Exercise)
    requires e.setsCompleted.Some? && 0 <= e.setsCompleted.value
    ensures var r := UpdateAt(e.id, AddSetChanges(e))(e);
      && r.(sets := e.sets, setsCompleted := e.setsCompleted) == e
      && r.sets == e.sets + 1 && r.setsCompleted == Some(e.setsCompleted.value + 1)
      && Remaining(r.sets, r.setsCompleted.value) == Remaining(e.sets, e.setsCompleted.value)
  {
    AddSetKeepsRemaining(e.sets, e.setsCompleted.value);
  }

  /** `toggleSet(index)`: one update of the exercise's record. */
  method ToggleSet(db: PumpDb, e: Exercise, index: int)
    requires db.Valid() && e.setsCompleted.Some?
    modifies db
    ensures db.Valid() && db.version == old(db.version)
    ensures db.State() == old(db.State()).(exercises := Seqs.Map(UpdateAt(e.id, ToggleChanges(e, index)), old(db.exercises)))
  {
    db.UpdateExercise(e.id, ToggleChanges(e, index));
  }

  /** `addSet`: one update of the exercise's record. */
  method AddSet(db: PumpDb, e: Exercise)
    requires db.Valid() && e.setsCompleted.Some?
    modifies db
    ensures db.Valid() && db.version == old(db.version)
    ensures db.State() == old(db.State()).(exercises := Seqs.Map(UpdateAt(e.id, AddSetChanges(e)), old(db.exercises)))
  {
    db.UpdateExercise(e.id, AddSetChanges(e));
  }
}
