/**
 * `DELETE /exercises/{exerciseId}`: deletes every photo under
 * `<userId>/<exerciseId>/`, then the first exercise row the query
 * `PartitionKey eq '<userId>' and exerciseId eq '<exerciseId>'` lists. The
 * photos go even when no row is listed, and even when the filter is malformed
 * (the handler then answers 500).
 */
module DeleteExercise {
  import opened Wrappers
  import opened Text
  import opened Http
  import opened TableStore
  import Cascade
  import OData
  import Seqs

  method Handle(store: Store, userId: string, exerciseId: string) returns (r: Response<nat>)
    requires store.Valid()
    modifies store
    ensures store.Valid()
    ensures store.routines == old(store.routines)
    ensures exerciseId == "" ==>
      && r == Fail(400, "Missing exerciseId parameter")
      && store.exercises == old(store.exercises) && store.blobs == old(store.blobs)
    ensures exerciseId != "" ==>
      var prefix := PhotoPrefix(userId, exerciseId);
      && store.blobs == Seqs.Filter(NameNotStartsWith(prefix), old(store.blobs))
      && match OData.Parse(OData.IdFilter(userId, "exerciseId", exerciseId))
         case None => r == Fail(500, "Failed to delete exercise") && store.exercises == old(store.exercises)
         case Some(f) =>
           match Seqs.Find(ExerciseSelected(f), old(store.exercises))
           case None => r == Fail(404, "Exercise not found") && store.exercises == old(store.exercises)
           case Some(i) =>
             && r == Ok(200, |Seqs.Filter(NameStartsWith(prefix), old(store.blobs))|)
             && store.exercises == old(store.exercises)[..i] + old(store.exercises)[i + 1..]
  {
    if exerciseId == "" {
      return Fail(400, "Missing exerciseId parameter");
    }
    var photosDeleted := Cascade.DeletePhotosUnder(store, PhotoPrefix(userId, exerciseId));

    var query := OData.Parse(OData.IdFilter(userId, "exerciseId", exerciseId));
    if query.None? {
      return Fail(500, "Failed to delete exercise");
    }
    var found := DeleteFirst(store, ExerciseSelected(query.value));
    if !found {
      return Fail(404, "Exercise not found");
    }
    r := Ok(200, photosDeleted);
  }

  /** Deletes the first exercise row the query lists, if there is one. */
  method DeleteFirst(store: Store, listed: ExerciseEntity -> bool) returns (found: bool)
    requires store.Valid()
    modifies store
    ensures store.Valid()
    ensures store.routines == old(store.routines) && store.blobs == old(store.blobs)
    ensures match Seqs.Find(listed, old(store.exercises))
      case None => !found && store.exercises == old(store.exercises)
      case Some(i) => found && store.exercises == old(store.exercises)[..i] + old(store.exercises)[i + 1..]
  {
    var rows := store.exercises;
    found := false;
    var i := 0;
    while i < |rows|
      invariant i <= |rows|
      invariant forall j :: 0 <= j < i ==> !listed(rows[j])
      invariant store.exercises == rows && store.Valid()
      invariant store.routines == old(store.routines) && store.blobs == old(store.blobs)
    {
      if listed(rows[i]) {
        assert HasKey(ExerciseKey, rows, ExerciseKey(rows[i]));
        store.DeleteExercise(ExerciseKey(rows[i]));
        WithoutKeyAt(ExerciseKey, rows, i);
        found := true;
        return;
      }
      i := i + 1;
    }
  }
}
