/**
 * One routine card of the day view: adding an exercise, renaming the routine,
 * deleting an exercise, and copying the routine with its exercises to another
 * date. Every write goes through the SWR cache's mutation hooks; the outcome of
 * each request is a parameter.
 */
module RoutineCard {
  import opened Wrappers
  import opened Text
  import opened Js
  import opened Client
  import opened UseApi
  import Seqs
  import CreateExercise

  /** `exercises` as `useExercises` exposes it: `None` while the card is collapsed or the list is not loaded. */
  function Listed(exercises: Option<seq<ExerciseResponse>>): seq<ExerciseResponse>
  {
    if exercises.Some? then exercises.value else []
  }

  /** The key `useExercises(expanded ? routine.id : null)` reads under. */
  function CardKey(expanded: bool, routineId: string): Option<string>
  {
    ExercisesReadKey(if expanded then Some(routineId) else None)
  }

  /** A collapsed card reads no exercise list, so it never has exercises to copy. */
  lemma CollapsedReadsNothing(cache: Cache, routineId: string)
    ensures CardKey(false, routineId).None? && cache.Read(CardKey(false, routineId)).None?
  {
  }

  // ---------------------------------------------------------------- add

  /** The body `addExercise` posts: the next order after the exercises listed, an empty name and default metrics. */
  function NewExerciseFor(routineId: string, exercises: Option<seq<ExerciseResponse>>): (e: NewExercise)
    ensures e.routineId == routineId && e.order == |Listed(exercises)| + 1
    ensures e.name == "" && e.time == "00:00"
    ensures e.repetitions == 0 && e.weight == 0 && e.sets == 0 && e.setsCompleted == 0 && e.distance == 0
  {
    NewExercise(routineId, "", 0, 0, 0, 0, "00:00", 0, |Listed(exercises)| + 1)
  }

  /** `JSON.stringify` of a create-exercise body, as the server's handler reads its fields. */
  function ExerciseBody(e: NewExercise): (f: JsonObject)
    ensures Get(f, "routineId") == Str(e.routineId) && Get(f, "name") == Str(e.name) && Get(f, "order") == Num(e.order)
  {
    map["routineId" := Str(e.routineId), "name" := Str(e.name), "repetitions" := Num(e.repetitions),
        "weight" := Num(e.weight), "sets" := Num(e.sets), "setsCompleted" := Num(e.setsCompleted),
        "time" := Str(e.time), "distance" := Num(e.distance), "order" := Num(e.order)]
  }

  /**
   * The body `addExercise` posts always fails the server's required-field check:
   * its name is empty, which is falsy, so `POST /exercises` answers 400.
   */
  lemma AddExerciseRejected(routineId: string, exercises: Option<seq<ExerciseResponse>>)
    ensures CreateExercise.MissingFields(ExerciseBody(NewExerciseFor(routineId, exercises)))
  {
    assert !Truthy(Get(ExerciseBody(NewExerciseFor(routineId, exercises)), "name"));
  }

  // ---------------------------------------------------------------- rename

  /** `newName.trim() && newName !== routine.name`: the raw input is compared, the trimmed one sent. */
  predicate RenameFires(newName: string, current: string)
  {
    Trim(newName) != "" && newName != current
  }

  /**
   * The rename is sent exactly for a non-blank input that differs from the
   * current name as typed; an input that is the current name plus trailing
   * white space is sent, and sends the current name again.
   */
  lemma RenameRule(newName: string, current: string, ws: string)
    requires AllJsSpace(ws) && ws != [] && current != [] && !IsJsSpace(current[0]) && !IsJsSpace(current[|current| - 1])
    ensures RenameFires(newName, current) ==> Trim(newName) != "" && newName != current
    ensures !RenameFires(current, current)
    ensures RenameFires(current + ws, current) && Trim(current + ws) == current
  {
    TrimAppendSpace(current, ws);
    TrimUnchanged(current);
    assert |current + ws| != |current|;
  }

  // ---------------------------------------------------------------- copy

  /** `reduce((max, r) => Math.max(max, r.order), acc)` over the target date's routines. */
  function MaxOrder(acc: int, routines: seq<RoutineResponse>): (m: int)
    ensures m >= acc
    ensures forall k :: 0 <= k < |routines| ==> m >= routines[k].order
    ensures m == acc || exists k :: 0 <= k < |routines| && m == routines[k].order
    decreases |routines|
  {
    if routines == [] then acc
    else
      var rest := MaxOrder(if routines[0].order > acc then routines[0].order else acc, routines[1..]);
      assert rest == routines[0].order || rest == acc || exists k :: 1 <= k < |routines| && rest == routines[k].order by {
        if exists j :: 0 <= j < |routines[1..]| && rest == routines[1..][j].order {
          var j :| 0 <= j < |routines[1..]| && rest == routines[1..][j].order;
          assert rest == routines[j + 1].order;
        }
      }
      rest
  }

  /** The order of the copy: one past the highest order on the target date, counting from 0 (`?? 0` when not loaded). */
  function CopyOrder(targets: Option<seq<RoutineResponse>>): (order: int)
    ensures order >= 1
    ensures forall k :: 0 <= k < |ListedRoutines(targets)| ==> order > ListedRoutines(targets)[k].order
    ensures order == 1 || exists k :: 0 <= k < |ListedRoutines(targets)| && order == ListedRoutines(targets)[k].order + 1
  {
    MaxOrder(0, ListedRoutines(targets)) + 1
  }

  function ListedRoutines(routines: Option<seq<RoutineResponse>>): seq<RoutineResponse>
  {
    if routines.Some? then routines.value else []
  }

  /** With no routine on the target date the copy gets order 1. */
  lemma CopyOrderEmpty()
    ensures CopyOrder(None) == 1 && CopyOrder(Some([])) == 1
  {
  }

  /** The body of one exercise's copy: every field kept, under the new routine, with no set completed. */
  function CopiedExercise(newRoutineId: string, ex: ExerciseResponse): (e: NewExercise)
    ensures e.routineId == newRoutineId && e.setsCompleted == 0
    ensures e.name == ex.name && e.repetitions == ex.repetitions && e.weight == ex.weight && e.sets == ex.sets
    ensures e.time == ex.time && e.distance == ex.distance && e.order == ex.order
  {
    NewExercise(newRoutineId, ex.name, ex.repetitions, ex.weight, ex.sets, 0, ex.time, ex.distance, ex.order)
  }

  function CopyOf(newRoutineId: string): ExerciseResponse -> NewExercise
  {
    ex => CopiedExercise(newRoutineId, ex)
  }

  /** The position of the first request that fails, or the number of requests when none does. */
  function FirstFailing<T>(xs: seq<Exchange<T>>): (k: nat)
    ensures k <= |xs|
    ensures forall j :: 0 <= j < k ==> ApiFetch(xs[j]).Success?
    ensures k < |xs| ==> ApiFetch(xs[k]).Failure?
  {
    if xs == [] then 0
    else if ApiFetch(xs[0]).Failure? then 0
    else 1 + FirstFailing(xs[1..])
  }

  /** How a copy ended. */
  datatype CopyOutcome =
    | NotStarted
    | RoutineNotCreated(routineError: Thrown)
    | ExerciseNotCreated(exerciseError: Thrown, copied: nat, routine: RoutineResponse)
    | Copied(created: RoutineResponse)

  /** The state of one card. */
  class Card {
    const routine: RoutineResponse
    var renaming: bool
    var showCopyDialog: bool
    var copyDate: string
    var editing: Option<ExerciseResponse>

    constructor(routine: RoutineResponse)
      ensures this.routine == routine
      ensures !renaming && !showCopyDialog && copyDate == "" && editing.None?
    {
      this.routine := routine;
      renaming := false;
      showCopyDialog := false;
      copyDate := "";
      editing := None;
    }

    /** `addExercise()`: on success the new exercise opens in the editor; on failure nothing changes. */
    method AddExercise(cache: Cache, exercises: Option<seq<ExerciseResponse>>, x: Exchange<ExerciseResponse>)
      returns (r: Result<ExerciseResponse, Thrown>)
      modifies cache, this
      ensures r == ApiFetch(x)
      ensures r.Success? ==> editing == Some(r.value) && cache.entries == old(cache.entries) - {ExercisesKey(routine.id)}
      ensures r.Failure? ==> editing == old(editing) && cache.entries == old(cache.entries)
      ensures renaming == old(renaming) && showCopyDialog == old(showCopyDialog) && copyDate == old(copyDate)
    {
      r := cache.CreateExercise(NewExerciseFor(routine.id, exercises), x);
      if r.Success? {
        editing := Some(r.value);
      }
    }

    /** `deleteExercise(id)`. */
    method DeleteExercise(cache: Cache, exerciseId: string, x: Exchange<ExerciseDeleted>)
      returns (r: Result<ExerciseDeleted, Thrown>)
      modifies cache
      ensures r == ApiFetch(x)
      ensures r.Success? ==> cache.entries == old(cache.entries) - {ExercisesKey(routine.id), PhotosKey(exerciseId)}
      ensures r.Failure? ==> cache.entries == old(cache.entries)
    {
      r := cache.DeleteExercise(exerciseId, routine.id, x);
    }

    /** `handleRename(newName)`: the input closes; the trimmed name is sent only when the rule fires. */
    method Rename(cache: Cache, newName: string, x: Exchange<Ack>) returns (sent: Option<string>)
      modifies cache, this
      ensures !renaming && showCopyDialog == old(showCopyDialog) && copyDate == old(copyDate) && editing == old(editing)
      ensures sent == if RenameFires(newName, routine.name) then Some(Trim(newName)) else None
      ensures sent.None? || ApiFetch(x).Failure? ==> cache.entries == old(cache.entries)
      ensures sent.Some? && ApiFetch(x).Success? ==> cache.entries == old(cache.entries) - {RoutinesKey(routine.date)}
    {
      renaming := false;
      sent := None;
      if Trim(newName) != "" && newName != routine.name {
        sent := Some(Trim(newName));
        var _ := cache.UpdateRoutine(routine.id, Trim(newName), routine.date, x);
      }
    }

    /**
     * `handleCopy()`: with a target date chosen, create the copy, then each
     * listed exercise's copy in list order, stopping at the first request that
     * fails. Whatever was created stays; the dialog closes only when all of it
     * succeeded. `sent` is the exercise bodies posted, in order.
     */
    method HandleCopy(cache: Cache, exercises: Option<seq<ExerciseResponse>>, targets: Option<seq<RoutineResponse>>,
                      routineX: Exchange<RoutineResponse>, exerciseXs: seq<Exchange<ExerciseResponse>>)
      returns (outcome: CopyOutcome, sent: seq<NewExercise>)
      requires |exerciseXs| == |Listed(exercises)|
      modifies cache, this
      ensures renaming == old(renaming) && editing == old(editing)
      ensures old(copyDate) == "" ==>
        outcome == NotStarted && sent == [] && cache.entries == old(cache.entries)
        && copyDate == old(copyDate) && showCopyDialog == old(showCopyDialog)
      ensures old(copyDate) != "" && ApiFetch(routineX).Failure? ==>
        outcome == RoutineNotCreated(ApiFetch(routineX).error) && sent == [] && cache.entries == old(cache.entries)
        && copyDate == old(copyDate) && showCopyDialog == old(showCopyDialog)
      ensures old(copyDate) != "" && ApiFetch(routineX).Success? ==>
        CopyDone(old(copyDate), old(showCopyDialog), ApiFetch(routineX).value, Listed(exercises), exerciseXs,
                 old(cache.entries), outcome, sent, cache.entries, copyDate, showCopyDialog)
    {
      if copyDate == "" {
        return NotStarted, [];
      }
      var date := copyDate;
      var r := cache.CreateRoutine(NewRoutine(date, routine.name, CopyOrder(targets)), routineX);
      if r.Failure? {
        return RoutineNotCreated(r.error), [];
      }
      var created := r.value;
      var error;
      error, sent := CopyExercises(cache, created.id, Listed(exercises), exerciseXs);
      if error.Some? {
        return ExerciseNotCreated(error.value, FirstFailing(exerciseXs), created), sent;
      }
      showCopyDialog := false;
      copyDate := "";
      outcome := Copied(created);
    }
  }

  /**
   * The loop of `handleCopy()`: post the copy of each listed exercise in list
   * order under the new routine, stopping at the first request that fails.
   */
  method CopyExercises(cache: Cache, newRoutineId: string, list: seq<ExerciseResponse>,
                       exerciseXs: seq<Exchange<ExerciseResponse>>)
    returns (error: Option<Thrown>, sent: seq<NewExercise>)
    requires |exerciseXs| == |list|
    modifies cache
    ensures CopiesSent(newRoutineId, list, exerciseXs, error, sent)
    ensures cache.entries == old(cache.entries) - (if FirstFailing(exerciseXs) > 0 then {ExercisesKey(newRoutineId)} else {})
  {
    ghost var all := Seqs.Map(CopyOf(newRoutineId), list);
    sent := [];
    var i := 0;
    while i < |list|
      invariant 0 <= i <= |list| && i <= FirstFailing(exerciseXs)
      invariant sent == all[..i]
      invariant cache.entries == old(cache.entries) - (if i > 0 then {ExercisesKey(newRoutineId)} else {})
    {
      var res := cache.CreateExercise(CopiedExercise(newRoutineId, list[i]), exerciseXs[i]);
      sent := sent + [CopiedExercise(newRoutineId, list[i])];
      assert sent == all[..i + 1];
      if res.Failure? {
        return Some(res.error), sent;
      }
      i := i + 1;
    }
    assert all[..i] == all;
    error := None;
  }

  /**
   * The exercise bodies posted are the copies of the listed exercises up to and
   * including the first failing request, and the error is that request's.
   */
  predicate CopiesSent(newRoutineId: string, list: seq<ExerciseResponse>, exerciseXs: seq<Exchange<ExerciseResponse>>,
                       error: Option<Thrown>, sent: seq<NewExercise>)
    requires |exerciseXs| == |list|
  {
    var k := FirstFailing(exerciseXs);
    var all := Seqs.Map(CopyOf(newRoutineId), list);
    if k == |list| then error.None? && sent == all
    else error == Some(ApiFetch(exerciseXs[k]).error) && sent == all[..k + 1]
  }

  /**
   * The end of a copy whose routine was created: the exercise bodies sent are
   * the copies of the listed exercises up to and including the first failing
   * request; the target date's routines and the new routine's exercises are
   * dropped from the cache; the dialog closes and the date clears only when
   * every exercise was copied.
   */
  ghost predicate CopyDone(date: string, dialog: bool, created: RoutineResponse, list: seq<ExerciseResponse>,
                           exerciseXs: seq<Exchange<ExerciseResponse>>, before: map<string, Cached>,
                           outcome: CopyOutcome, sent: seq<NewExercise>, after: map<string, Cached>,
                           copyDate: string, showCopyDialog: bool)
    requires |exerciseXs| == |list|
  {
    var k := FirstFailing(exerciseXs);
    && CopiesSent(created.id, list, exerciseXs, if k == |list| then None else Some(ApiFetch(exerciseXs[k]).error), sent)
    && after == before - {RoutinesKey(date)} - (if k > 0 then {ExercisesKey(created.id)} else {})
    && (k == |list| ==> outcome == Copied(created) && !showCopyDialog && copyDate == "")
    && (k < |list| ==> outcome == ExerciseNotCreated(ApiFetch(exerciseXs[k]).error, k, created)
                       && showCopyDialog == dialog && copyDate == date)
  }
}
