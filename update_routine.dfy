/**
 * `PATCH /routines/{routineId}`: renames the first routine the query
 * `PartitionKey eq '<userId>' and routineId eq '<routineId>'` lists. Only `name`
 * is merged into the row. The ids are pasted into the filter as they are, so a
 * quote in either one changes what the query means or makes it fail.
 */
module UpdateRoutine {
  import opened Wrappers
  import opened Js
  import opened Http
  import opened TableStore
  import OData
  import GetRoutines
  import Seqs

  /** The table after renaming row `i`: that row gets the new name and every other field, and every other row, stays. */
  function Renamed(rows: seq<RoutineEntity>, i: nat, name: JsValue): (r: seq<RoutineEntity>)
    requires i < |rows|
    ensures |r| == |rows| && r[i].name == name
    ensures r[i] == RoutineEntity(rows[i].partitionKey, rows[i].rowKey, rows[i].date, name, rows[i].order, rows[i].routineId)
    ensures forall j :: 0 <= j < |rows| && j != i ==> r[j] == rows[j]
  {
    rows[i := rows[i].(name := name)]
  }

  method Handle(store: Store, userId: string, routineId: string, body: Body) returns (r: Response<()>)
    requires store.Valid()
    modifies store
    ensures store.Valid()
    ensures store.exercises == old(store.exercises) && store.blobs == old(store.blobs)
    ensures body.Unparseable? ==> r == Fail(500, "Failed to update routine")
    ensures !body.Unparseable? && routineId == "" ==> r == Fail(400, "Missing routineId parameter")
    ensures body.Null? && routineId != "" ==> r == Fail(500, "Failed to update routine")
    ensures body.Object? && routineId != "" && !Truthy(Get(body.fields, "name")) ==>
      r == Fail(400, "Missing required field: name")
    ensures !(body.Object? && routineId != "" && Truthy(Get(body.fields, "name"))) ==>
      store.routines == old(store.routines)
    ensures body.Object? && routineId != "" && Truthy(Get(body.fields, "name")) ==>
      match OData.Parse(OData.IdFilter(userId, "routineId", routineId))
      case None => r == Fail(500, "Failed to update routine") && store.routines == old(store.routines)
      case Some(f) =>
        match Seqs.Find(RoutineSelected(f), old(store.routines))
        case None => r == Fail(404, "Routine not found") && store.routines == old(store.routines)
        case Some(i) => r == Ok(200, ()) && store.routines == Renamed(old(store.routines), i, Get(body.fields, "name"))
  {
    if body.Unparseable? {
      return Fail(500, "Failed to update routine");
    }
    if routineId == "" {
      return Fail(400, "Missing routineId parameter");
    }
    if body.Null? {
      return Fail(500, "Failed to update routine");
    }
    var name := Get(body.fields, "name");
    if !Truthy(name) {
      return Fail(400, "Missing required field: name");
    }
    var query := OData.Parse(OData.IdFilter(userId, "routineId", routineId));
    if query.None? {
      return Fail(500, "Failed to update routine");
    }
    var found := RenameFirst(store, query.value, name);
    if !found {
      return Fail(404, "Routine not found");
    }
    r := Ok(200, ());
  }

  /** Renames the first routine row the filter selects, if there is one. */
  method RenameFirst(store: Store, f: OData.Filter, name: JsValue) returns (found: bool)
    requires store.Valid()
    modifies store
    ensures store.Valid()
    ensures store.exercises == old(store.exercises) && store.blobs == old(store.blobs)
    ensures match Seqs.Find(RoutineSelected(f), old(store.routines))
      case None => !found && store.routines == old(store.routines)
      case Some(i) => found && store.routines == Renamed(old(store.routines), i, name)
  {
    var rows := store.routines;
    found := false;
    var i := 0;
    while i < |rows|
      invariant i <= |rows|
      invariant forall j :: 0 <= j < i ==> !RoutineSelected(f)(rows[j])
      invariant store.routines == rows && store.Valid()
      invariant store.exercises == old(store.exercises) && store.blobs == old(store.blobs)
    {
      if RoutineSelected(f)(rows[i]) {
        store.MergeRoutineName(RoutineKey(rows[i]), name);
        RenameByKey(rows, i, name, store.routines);
        found := true;
        return;
      }
      i := i + 1;
    }
  }

  /** In a table with unique keys, merging a name into the row with the key of row `i` renames row `i` alone. */
  lemma RenameByKey(rows: seq<RoutineEntity>, i: nat, name: JsValue, after: seq<RoutineEntity>)
    requires i < |rows| && UniqueKeys(RoutineKey, rows)
    requires |after| == |rows|
    requires forall j :: 0 <= j < |after| ==>
      after[j] == if RoutineKey(rows[j]) == RoutineKey(rows[i]) then rows[j].(name := name) else rows[j]
    ensures after == Renamed(rows, i, name)
  {
    forall j | 0 <= j < |rows| && j != i
      ensures RoutineKey(rows[j]) != RoutineKey(rows[i])
    {
      if j < i {
        assert RoutineKey(rows[j]) != RoutineKey(rows[i]);
      }
    }
  }

  /** After a rename the day listing shows the routine under its new name, with its id, date and order. */
  lemma RenameIsListed(rows: seq<RoutineEntity>, i: nat, name: JsValue, userId: string, date: string)
    requires i < |rows| && rows[i].partitionKey == userId && rows[i].date == Str(date)
    ensures RoutineJson(rows[i].routineId, rows[i].date, name, rows[i].order)
      in GetRoutines.Listing(Renamed(rows, i, name), userId, date)
  {
    var after := Renamed(rows, i, name);
    GetRoutines.ListingContents(after, userId, date);
    assert after[i] in after;
    assert GetRoutines.ToJson(after[i]) == RoutineJson(rows[i].routineId, rows[i].date, name, rows[i].order);
  }
}
