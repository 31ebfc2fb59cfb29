/**
 * `POST /exercises`: checks `routineId`, `name` and `order`, fills the missing
 * metrics with defaults, mints a fresh exercise id and stores the row
 * `<routineId>_<exerciseId>`. The referenced routine is not looked up.
 */
module CreateExercise {
  import opened Wrappers
  import opened Js
  import opened Http
  import opened TableStore
  import opened Guids
  import GetExercises

  /** `!routineId || !name || order === undefined`. */
  predicate MissingFields(f: JsonObject)
  {
    !Truthy(Get(f, "routineId")) || !Truthy(Get(f, "name")) || Get(f, "order") == Undefined
  }

  /** `Number(v || 0)`: a falsy or absent metric is stored as 0. */
  function Metric(v: JsValue): (n: JsValue)
    ensures n.Num? || n.NaN?
    ensures !Truthy(v) ==> n == Num(0)
    ensures v.Num? ==> n == v
  {
    ToNumber(Or(v, Num(0)))
  }

  /** The row stored for an accepted body and the fresh id. */
  function NewRow(userId: string, f: JsonObject, id: string): (e: ExerciseEntity)
    ensures e.partitionKey == userId && e.exerciseId == id
    ensures e.rowKey == ToStr(Get(f, "routineId")) + "_" + id
    ensures e.routineId == Get(f, "routineId") && e.name == Get(f, "name")
    ensures e.order == ToNumber(Get(f, "order"))
    ensures !Truthy(Get(f, "time")) ==> e.time == Str("00:00")
    ensures Truthy(Get(f, "time")) ==> e.time == Get(f, "time")
    ensures forall v :: v in [e.repetitions, e.weight, e.sets, e.setsCompleted, e.distance] ==> v.Num? || v.NaN?
  {
    var routineId := Get(f, "routineId");
    ExerciseEntity(userId, ToStr(routineId) + "_" + id, routineId, id, Get(f, "name"),
      Metric(Get(f, "repetitions")), Metric(Get(f, "weight")), Metric(Get(f, "sets")),
      Metric(Get(f, "setsCompleted")), Or(Get(f, "time"), Str("00:00")), Metric(Get(f, "distance")),
      ToNumber(Get(f, "order")))
  }

  method Handle(store: Store, ids: GuidSource, userId: string, body: Body) returns (r: Response<ExerciseJson>)
    requires store.Valid() && ids.Valid()
    modifies store, ids
    ensures store.Valid() && ids.Valid()
    ensures store.routines == old(store.routines) && store.blobs == old(store.blobs)
    ensures !body.Object? ==>
      r == Fail(500, "Failed to create exercise") && store.exercises == old(store.exercises)
    ensures body.Object? && MissingFields(body.fields) ==>
      r == Fail(400, "Missing required fields: routineId, name, order") && store.exercises == old(store.exercises)
    ensures body.Object? && !MissingFields(body.fields) ==>
      exists id :: id !in old(ids.issued) && id in ids.issued &&
        var row := NewRow(userId, body.fields, id);
        if !Insertable(ExerciseKey, old(store.exercises), ExerciseKey(row)) then
          r == Fail(500, "Failed to create exercise") && store.exercises == old(store.exercises)
        else
          r == Ok(201, GetExercises.ToJson(row)) && store.exercises == old(store.exercises) + [row]
  {
    if !body.Object? {
      return Fail(500, "Failed to create exercise");
    }
    var f := body.fields;
    if MissingFields(f) {
      return Fail(400, "Missing required fields: routineId, name, order");
    }
    var id := ids.NewId();
    var row := NewRow(userId, f, id);
    var ok := store.CreateExercise(row);
    if !ok {
      return Fail(500, "Failed to create exercise");
    }
    r := Ok(201, GetExercises.ToJson(row));
  }

  /** A stored exercise shows up in its routine's listing, exactly as the creation answered it. */
  lemma CreatedIsListed(rows: seq<ExerciseEntity>, userId: string, routineId: string, f: JsonObject, id: string)
    requires Get(f, "routineId") == Str(routineId)
    ensures GetExercises.ToJson(NewRow(userId, f, id))
      in GetExercises.Listing(rows + [NewRow(userId, f, id)], userId, routineId)
  {
    var row := NewRow(userId, f, id);
    GetExercises.ListingContents(rows + [row], userId, routineId);
    assert row in rows + [row];
  }

  /**
   * A routine id holding a character the service refuses in keys (`a/b`, say) makes
   * the row key refused, so the handler answers 500 whatever the table holds.
   */
  lemma RefusedRoutineId(rows: seq<ExerciseEntity>, userId: string, f: JsonObject, id: string, routineId: string, i: nat)
    requires Get(f, "routineId") == Str(routineId) && i < |routineId| && RefusedKeyChar(routineId[i])
    ensures !Insertable(ExerciseKey, rows, ExerciseKey(NewRow(userId, f, id)))
  {
    assert NewRow(userId, f, id).rowKey[i] == routineId[i];
  }

  /** A body with only the required fields gets zero metrics and the time `00:00`. */
  lemma Defaults(userId: string, f: JsonObject, id: string)
    requires forall k :: k in f ==> k == "routineId" || k == "name" || k == "order"
    ensures var e := NewRow(userId, f, id);
      && e.repetitions == Num(0) && e.weight == Num(0) && e.sets == Num(0)
      && e.setsCompleted == Num(0) && e.distance == Num(0) && e.time == Str("00:00")
  {
    assert "repetitions" !in f && "weight" !in f && "sets" !in f;
    assert "setsCompleted" !in f && "distance" !in f && "time" !in f;
  }
}
