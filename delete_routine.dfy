/**
 * `DELETE /routines/{routineId}`: a three-stage cascade driven by the filter
 * `PartitionKey eq '<userId>' and routineId eq '<routineId>'`. First every
 * exercise row the filter lists is deleted and its id collected, then every
 * photo under `<userId>/<exerciseId>/` of a collected id, and last the first
 * routine row the filter lists. The first two stages run whether or not the
 * routine exists. When the ids hold no quote the filter selects the routine's
 * rows in the caller's partition; a quote can make it malformed (the handler
 * answers 500) or make it select rows of other partitions.
 */
module DeleteRoutine {
  import opened Wrappers
  import opened Text
  import opened Js
  import opened Http
  import opened TableStore
  import Cascade
  import OData
  import Seqs

  function ExerciseIdOf(e: ExerciseEntity): string
  {
    e.exerciseId
  }

  /** The ids collected in stage 1: those of the exercise rows the filter lists, in listing order. */
  function RemovedIds(rows: seq<ExerciseEntity>, listed: ExerciseEntity -> bool): seq<string>
  {
    Seqs.Map(ExerciseIdOf, Seqs.Filter(listed, rows))
  }

  /** The test a blob passes when it lies under none of the photo folders of `ids`. */
  function NotUnderAny(userId: string, ids: seq<string>): Blob -> bool
  {
    (b: Blob) => forall id :: id in ids ==> !StartsWith(b.name, PhotoPrefix(userId, id))
  }

  method Handle(store: Store, userId: string, routineId: string) returns (r: Response<nat>)
    requires store.Valid()
    modifies store
    ensures store.Valid()
    ensures routineId == "" ==>
      && r == Fail(400, "Missing routineId parameter")
      && store.routines == old(store.routines)
      && store.exercises == old(store.exercises)
      && store.blobs == old(store.blobs)
    ensures routineId != "" && OData.Parse(OData.IdFilter(userId, "routineId", routineId)).None? ==>
      && r == Fail(500, "Failed to delete routine")
      && store.routines == old(store.routines)
      && store.exercises == old(store.exercises)
      && store.blobs == old(store.blobs)
    ensures routineId != "" && OData.Parse(OData.IdFilter(userId, "routineId", routineId)).Some? ==>
      var f := OData.Parse(OData.IdFilter(userId, "routineId", routineId)).value;
      var removed := RemovedIds(old(store.exercises), ExerciseSelected(f));
      && store.exercises == Seqs.Filter(ExerciseNotSelected(f), old(store.exercises))
      && store.blobs == Seqs.Filter(NotUnderAny(userId, removed), old(store.blobs))
      && match Seqs.Find(RoutineSelected(f), old(store.routines))
         case None => r == Fail(404, "Routine not found") && store.routines == old(store.routines)
         case Some(i) =>
           && r == Ok(200, |removed|)
           && store.routines == old(store.routines)[..i] + old(store.routines)[i + 1..]
  {
    if routineId == "" {
      return Fail(400, "Missing routineId parameter");
    }
    var query := OData.Parse(OData.IdFilter(userId, "routineId", routineId));
    if query.None? {
      return Fail(500, "Failed to delete routine");
    }
    r := RunCascade(store, userId, query.value);
  }

  /** The three stages, for the filter the query text reads as. */
  method RunCascade(store: Store, userId: string, f: OData.Filter) returns (r: Response<nat>)
    requires store.Valid()
    modifies store
    ensures store.Valid()
    ensures
      var removed := RemovedIds(old(store.exercises), ExerciseSelected(f));
      && store.exercises == Seqs.Filter(ExerciseNotSelected(f), old(store.exercises))
      && store.blobs == Seqs.Filter(NotUnderAny(userId, removed), old(store.blobs))
      && match Seqs.Find(RoutineSelected(f), old(store.routines))
         case None => r == Fail(404, "Routine not found") && store.routines == old(store.routines)
         case Some(i) =>
           && r == Ok(200, |removed|)
           && store.routines == old(store.routines)[..i] + old(store.routines)[i + 1..]
  {
    var removed := DeleteExercisesOf(store, ExerciseSelected(f));
    DeletePhotosOf(store, userId, removed);

    var found := DeleteRoutineRow(store, RoutineSelected(f));
    if !found {
      return Fail(404, "Routine not found");
    }
    r := Ok(200, |removed|);
  }

  /** Stage 3: deletes the first routine row the filter lists, if there is one. */
  method DeleteRoutineRow(store: Store, listed: RoutineEntity -> bool) returns (found: bool)
    requires store.Valid()
    modifies store
    ensures store.Valid()
    ensures store.exercises == old(store.exercises) && store.blobs == old(store.blobs)
    ensures match Seqs.Find(listed, old(store.routines))
      case None => !found && store.routines == old(store.routines)
      case Some(i) => found && store.routines == old(store.routines)[..i] + old(store.routines)[i + 1..]
  {
    var rows := store.routines;
    found := false;
    var i := 0;
    while i < |rows|
      invariant i <= |rows|
      invariant forall j :: 0 <= j < i ==> !listed(rows[j])
      invariant store.routines == rows && store.Valid()
      invariant store.exercises == old(store.exercises) && store.blobs == old(store.blobs)
    {
      if listed(rows[i]) {
        assert HasKey(RoutineKey, rows, RoutineKey(rows[i]));
        store.DeleteRoutine(RoutineKey(rows[i]));
        WithoutKeyAt(RoutineKey, rows, i);
        found := true;
        return;
      }
      i := i + 1;
    }
  }

  /** Stage 1: deletes the exercise rows the filter lists and returns their ids. */
  method DeleteExercisesOf(store: Store, listed: ExerciseEntity -> bool) returns (removed: seq<string>)
    requires store.Valid()
    modifies store
    ensures store.Valid()
    ensures removed == RemovedIds(old(store.exercises), listed)
    ensures store.exercises == Seqs.Filter(Seqs.Not(listed), old(store.exercises))
    ensures store.routines == old(store.routines) && store.blobs == old(store.blobs)
  {
    var rows := store.exercises;
    removed := [];
    var i := 0;
    while i < |rows|
      invariant i <= |rows|
      invariant store.Valid()
      invariant store.exercises == Seqs.Filter(Seqs.Not(listed), rows[..i]) + rows[i..]
      invariant removed == Seqs.Map(ExerciseIdOf, Seqs.Filter(listed, rows[..i]))
      invariant store.routines == old(store.routines) && store.blobs == old(store.blobs)
    {
      removed := VisitExercise(store, listed, rows, i, removed);
      i := i + 1;
    }
    assert rows[..i] == rows;
  }

  /** One turn of the stage-1 loop: row `i` of the table is deleted and its id collected when the filter lists it. */
  method VisitExercise(store: Store, listed: ExerciseEntity -> bool, rows: seq<ExerciseEntity>, i: nat, removed: seq<string>)
    returns (removed': seq<string>)
    requires store.Valid() && i < |rows|
    requires store.exercises == Seqs.Filter(Seqs.Not(listed), rows[..i]) + rows[i..]
    requires removed == Seqs.Map(ExerciseIdOf, Seqs.Filter(listed, rows[..i]))
    modifies store
    ensures store.Valid()
    ensures store.exercises == Seqs.Filter(Seqs.Not(listed), rows[..i + 1]) + rows[i + 1..]
    ensures removed' == Seqs.Map(ExerciseIdOf, Seqs.Filter(listed, rows[..i + 1]))
    ensures store.routines == old(store.routines) && store.blobs == old(store.blobs)
  {
    var kept := Seqs.Filter(Seqs.Not(listed), rows[..i]);
    Seqs.FilterStep(Seqs.Not(listed), rows, i);
    Seqs.FilterStep(listed, rows, i);
    if listed(rows[i]) {
      Seqs.MapAppend(ExerciseIdOf, Seqs.Filter(listed, rows[..i]), rows[i]);
      removed' := removed + [rows[i].exerciseId];
      DeleteNext(store, kept, rows, i);
    } else {
      removed' := removed;
      KeepNext(kept, rows, i);
    }
  }

  lemma KeepNext<T>(kept: seq<T>, rows: seq<T>, i: nat)
    requires i < |rows|
    ensures kept + rows[i..] == (kept + [rows[i]]) + rows[i + 1..]
  {
    assert rows[i..] == [rows[i]] + rows[i + 1..];
  }

  /** Deletes row `i` of the listing, which sits right after the rows kept so far. */
  method DeleteNext(store: Store, kept: seq<ExerciseEntity>, rows: seq<ExerciseEntity>, i: nat)
    requires store.Valid() && i < |rows| && store.exercises == kept + rows[i..]
    modifies store
    ensures store.Valid() && store.exercises == kept + rows[i + 1..]
    ensures store.routines == old(store.routines) && store.blobs == old(store.blobs)
  {
    KeepNext(kept, rows, i);
    assert store.exercises[|kept|] == rows[i];
    store.DeleteExercise(ExerciseKey(rows[i]));
    WithoutKeyOfUnique(ExerciseKey, kept, rows[i], rows[i + 1..]);
  }

  /** Stage 2: deletes every photo under the folder of each collected id. */
  method DeletePhotosOf(store: Store, userId: string, ids: seq<string>)
    requires store.Valid()
    modifies store
    ensures store.Valid()
    ensures store.blobs == Seqs.Filter(NotUnderAny(userId, ids), old(store.blobs))
    ensures store.routines == old(store.routines) && store.exercises == old(store.exercises)
  {
    ghost var before := store.blobs;
    Seqs.FilterAll(NotUnderAny(userId, ids[..0]), before);
    var k := 0;
    while k < |ids|
      invariant k <= |ids|
      invariant store.Valid()
      invariant store.blobs == Seqs.Filter(NotUnderAny(userId, ids[..k]), before)
      invariant store.routines == old(store.routines) && store.exercises == old(store.exercises)
    {
      var _ := Cascade.DeletePhotosUnder(store, PhotoPrefix(userId, ids[k]));
      NotUnderAnyStep(userId, ids, k, before);
      k := k + 1;
    }
    assert ids[..k] == ids;
  }

  /** Deleting the photos under one more id keeps the blobs under none of the ids so far. */
  lemma NotUnderAnyStep(userId: string, ids: seq<string>, k: nat, blobs: seq<Blob>)
    requires k < |ids|
    ensures Seqs.Filter(NameNotStartsWith(PhotoPrefix(userId, ids[k])), Seqs.Filter(NotUnderAny(userId, ids[..k]), blobs))
         == Seqs.Filter(NotUnderAny(userId, ids[..k + 1]), blobs)
  {
    assert ids[..k + 1] == ids[..k] + [ids[k]];
    Seqs.FilterCompose(NotUnderAny(userId, ids[..k]), NameNotStartsWith(PhotoPrefix(userId, ids[k])), NotUnderAny(userId, ids[..k + 1]), blobs);
  }

  /**
   * For ids without a quote, stage 1 removes exactly the routine's exercises in
   * the caller's partition and keeps every other row.
   */
  lemma ExercisesAfterCascade(rows: seq<ExerciseEntity>, userId: string, routineId: string)
    requires '\'' !in userId && '\'' !in routineId
    ensures OData.Parse(OData.IdFilter(userId, "routineId", routineId)) == Some(OData.IdTest(userId, "routineId", routineId))
    ensures forall e :: e in Seqs.Filter(ExerciseNotSelected(OData.IdTest(userId, "routineId", routineId)), rows) <==>
      e in rows && !(e.partitionKey == userId && e.routineId == Str(routineId))
  {
    InRoutineQueryExact(rows, userId, routineId);
    forall e {
      Seqs.FilterMembership(NotInRoutine(userId, routineId), rows, e);
    }
  }

  /** The count reported is the number of exercise rows the cascade removed. */
  lemma CountIsRowsRemoved(rows: seq<ExerciseEntity>, listed: ExerciseEntity -> bool)
    ensures |RemovedIds(rows, listed)| == |rows| - |Seqs.Filter(Seqs.Not(listed), rows)|
  {
    Seqs.FilterSplitsLength(listed, Seqs.Not(listed), rows);
  }

  /** After stage 2 no photo of a removed exercise is left, and every other photo is kept. */
  lemma PhotosAfterCascade(blobs: seq<Blob>, userId: string, ids: seq<string>)
    ensures forall b :: b in Seqs.Filter(NotUnderAny(userId, ids), blobs) <==>
      b in blobs && forall id :: id in ids ==> !StartsWith(b.name, PhotoPrefix(userId, id))
  {
    forall b {
      Seqs.FilterMembership(NotUnderAny(userId, ids), blobs, b);
    }
  }

  /**
   * A photo folder of one user never holds a name that starts with another
   * user's folder, as long as user ids hold no `/`: the cascade leaves other
   * users' photos alone.
   */
  lemma OtherUsersPhotosKept(blobs: seq<Blob>, userId: string, ids: seq<string>, other: string)
    requires '/' !in userId && '/' !in other && other != userId
    ensures forall b :: b in blobs && StartsWith(b.name, other + "/") ==>
      b in Seqs.Filter(NotUnderAny(userId, ids), blobs)
  {
    forall b | b in blobs && StartsWith(b.name, other + "/")
      ensures b in Seqs.Filter(NotUnderAny(userId, ids), blobs)
    {
      forall id | id in ids
        ensures !StartsWith(b.name, PhotoPrefix(userId, id))
      {
        if StartsWith(b.name, PhotoPrefix(userId, id)) {
          OwnersAgree(b.name, userId, id, other);
        }
      }
      Seqs.FilterMembership(NotUnderAny(userId, ids), blobs, b);
    }
  }

  /** A name under `<userId>/<id>/` and under `<other>/` has `other == userId`, for user ids without `/`. */
  lemma OwnersAgree(name: string, userId: string, id: string, other: string)
    requires '/' !in userId && '/' !in other
    requires StartsWith(name, PhotoPrefix(userId, id)) && StartsWith(name, other + "/")
    ensures other == userId
  {
    assert name[|userId|] == '/' by {
      assert PhotoPrefix(userId, id)[|userId|] == '/';
    }
    assert name[|other|] == '/';
    assert name[..|userId|] == userId by {
      assert PhotoPrefix(userId, id)[..|userId|] == userId;
    }
  }

  /** For ids without a quote, the cascade keeps the rows of every other partition. */
  lemma OtherUsersRowsKept(exercises: seq<ExerciseEntity>, routines: seq<RoutineEntity>, userId: string, routineId: string)
    requires '\'' !in userId && '\'' !in routineId
    ensures OData.Parse(OData.IdFilter(userId, "routineId", routineId)) == Some(OData.IdTest(userId, "routineId", routineId))
    ensures forall e :: e in exercises && e.partitionKey != userId ==>
      e in Seqs.Filter(ExerciseNotSelected(OData.IdTest(userId, "routineId", routineId)), exercises)
    ensures match Seqs.Find(RoutineSelected(OData.IdTest(userId, "routineId", routineId)), routines)
      case None => true
      case Some(i) => forall e :: e in routines && e.partitionKey != userId ==> e in routines[..i] + routines[i + 1..]
  {
    ExercisesAfterCascade(exercises, userId, routineId);
    RoutineQueryExact(routines, userId, routineId);
    var found := Seqs.Find(RoutineMatches(userId, routineId), routines);
    if found.Some? {
      var i := found.value;
      forall e | e in routines && e.partitionKey != userId
        ensures e in routines[..i] + routines[i + 1..]
      {
        var k :| 0 <= k < |routines| && routines[k] == e;
        if k < i {
          assert routines[..i][k] == e;
        } else {
          assert routines[i + 1..][k - i - 1] == e;
        }
      }
    }
  }

  /**
   * The routine id `x' or routineId ne '` turns the filter into an `or` that
   * holds for every row with a non-empty `routineId`: stage 1 deletes another
   * user's exercise, and stage 3 deletes another user's routine when it is the
   * first row of the table.
   */
  lemma InjectionReachesOtherUsers(exercises: seq<ExerciseEntity>, routines: seq<RoutineEntity>, userId: string, e: ExerciseEntity)
    requires e in exercises && e.partitionKey != userId && e.routineId.Str? && e.routineId.s != ""
    requires routines != [] && routines[0].partitionKey != userId && routines[0].routineId != ""
    ensures e !in Seqs.Filter(ExerciseNotSelected(OData.InjectedTest(userId)), exercises)
    ensures Seqs.Find(RoutineSelected(OData.InjectedTest(userId)), routines) == Some(0)
  {
    InjectedListsExercise(userId, e);
    InjectedListsRoutine(userId, routines[0]);
    Seqs.FilterMembership(ExerciseNotSelected(OData.InjectedTest(userId)), exercises, e);
  }

  /** The injected filter lists every exercise row whose `routineId` is a non-empty string. */
  lemma InjectedListsExercise(userId: string, e: ExerciseEntity)
    requires e.routineId.Str? && e.routineId.s != ""
    ensures ExerciseSelected(OData.InjectedTest(userId))(e)
  {
    var pr := ExerciseProperty(e);
    assert pr("routineId") == Some(e.routineId.s);
    assert OData.Holds(OData.Compare("routineId", OData.Ne, ""), pr);
  }

  /** The injected filter lists every routine row whose `routineId` is not empty. */
  lemma InjectedListsRoutine(userId: string, r: RoutineEntity)
    requires r.routineId != ""
    ensures RoutineSelected(OData.InjectedTest(userId))(r)
  {
    var pr := RoutineProperty(r);
    assert pr("routineId") == Some(r.routineId);
    assert OData.Holds(OData.Compare("routineId", OData.Ne, ""), pr);
  }
}
