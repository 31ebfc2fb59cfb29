/**
 * `PATCH /exercises/{exerciseId}`: merges the fields the body supplies into the
 * first exercise row the query `PartitionKey eq '<userId>' and exerciseId eq
 * '<exerciseId>'` lists. Numeric fields go through `Number(…)`; a field the
 * body leaves undefined is not touched.
 */
module UpdateExercise {
  import opened Wrappers
  import opened Js
  import opened Http
  import opened TableStore
  import OData
  import Seqs

  /** The `updateData` object: a field is `Some` when the body supplied it. */
  datatype ExerciseUpdate = ExerciseUpdate(
    name: Option<JsValue>,
    repetitions: Option<JsValue>,
    weight: Option<JsValue>,
    sets: Option<JsValue>,
    setsCompleted: Option<JsValue>,
    time: Option<JsValue>,
    distance: Option<JsValue>,
    order: Option<JsValue>)

  /** A field copied as sent when it is not `undefined`. */
  function Supplied(v: JsValue): Option<JsValue>
  {
    if v != Undefined then Some(v) else None
  }

  /** A numeric field: `Number(v)` when `v` is not `undefined`. */
  function SuppliedNumber(v: JsValue): Option<JsValue>
  {
    if v != Undefined then Some(ToNumber(v)) else None
  }

  /** The update a body asks for. */
  function UpdateOf(f: JsonObject): (u: ExerciseUpdate)
    ensures u.name.Some? <==> Get(f, "name") != Undefined
    ensures u.time.Some? <==> Get(f, "time") != Undefined
    ensures u.repetitions.Some? <==> Get(f, "repetitions") != Undefined
    ensures u.weight.Some? <==> Get(f, "weight") != Undefined
    ensures u.sets.Some? <==> Get(f, "sets") != Undefined
    ensures u.setsCompleted.Some? <==> Get(f, "setsCompleted") != Undefined
    ensures u.distance.Some? <==> Get(f, "distance") != Undefined
    ensures u.order.Some? <==> Get(f, "order") != Undefined
    ensures forall v :: v in [u.repetitions, u.weight, u.sets, u.setsCompleted, u.distance, u.order] && v.Some? ==>
      v.value.Num? || v.value.NaN?
  {
    ExerciseUpdate(Supplied(Get(f, "name")), SuppliedNumber(Get(f, "repetitions")),
      SuppliedNumber(Get(f, "weight")), SuppliedNumber(Get(f, "sets")),
      SuppliedNumber(Get(f, "setsCompleted")), Supplied(Get(f, "time")),
      SuppliedNumber(Get(f, "distance")), SuppliedNumber(Get(f, "order")))
  }

  /** Builds `updateData` field by field, as the handler does. */
  method BuildUpdate(f: JsonObject) returns (u: ExerciseUpdate)
    ensures u == UpdateOf(f)
  {
    u := ExerciseUpdate(None, None, None, None, None, None, None, None);
    if Get(f, "name") != Undefined { u := u.(name := Some(Get(f, "name"))); }
    if Get(f, "repetitions") != Undefined { u := u.(repetitions := Some(ToNumber(Get(f, "repetitions")))); }
    if Get(f, "weight") != Undefined { u := u.(weight := Some(ToNumber(Get(f, "weight")))); }
    if Get(f, "sets") != Undefined { u := u.(sets := Some(ToNumber(Get(f, "sets")))); }
    if Get(f, "setsCompleted") != Undefined { u := u.(setsCompleted := Some(ToNumber(Get(f, "setsCompleted")))); }
    if Get(f, "time") != Undefined { u := u.(time := Some(Get(f, "time"))); }
    if Get(f, "distance") != Undefined { u := u.(distance := Some(ToNumber(Get(f, "distance")))); }
    if Get(f, "order") != Undefined { u := u.(order := Some(ToNumber(Get(f, "order")))); }
  }

  /** A `Merge` update of a row: supplied fields replace the row's, the rest stay. */
  function Apply(u: ExerciseUpdate, e: ExerciseEntity): (r: ExerciseEntity)
    ensures ExerciseKey(r) == ExerciseKey(e)
    ensures r.routineId == e.routineId && r.exerciseId == e.exerciseId
  {
    e.(name := u.name.GetOr(e.name), repetitions := u.repetitions.GetOr(e.repetitions),
       weight := u.weight.GetOr(e.weight), sets := u.sets.GetOr(e.sets),
       setsCompleted := u.setsCompleted.GetOr(e.setsCompleted), time := u.time.GetOr(e.time),
       distance := u.distance.GetOr(e.distance), order := u.order.GetOr(e.order))
  }

  function Merger(u: ExerciseUpdate): ExerciseEntity -> ExerciseEntity
  {
    (e: ExerciseEntity) => Apply(u, e)
  }

  method Handle(store: Store, userId: string, exerciseId: string, body: Body) returns (r: Response<()>)
    requires store.Valid()
    modifies store
    ensures store.Valid()
    ensures store.routines == old(store.routines) && store.blobs == old(store.blobs)
    ensures body.Unparseable? ==>
      r == Fail(500, "Failed to update exercise") && store.exercises == old(store.exercises)
    ensures !body.Unparseable? && exerciseId == "" ==>
      r == Fail(400, "Missing exerciseId parameter") && store.exercises == old(store.exercises)
    ensures !body.Unparseable? && exerciseId != "" ==>
      match OData.Parse(OData.IdFilter(userId, "exerciseId", exerciseId))
      case None => r == Fail(500, "Failed to update exercise") && store.exercises == old(store.exercises)
      case Some(f) =>
        match Seqs.Find(ExerciseSelected(f), old(store.exercises))
        case None => r == Fail(404, "Exercise not found") && store.exercises == old(store.exercises)
        case Some(i) =>
          if body.Null? then
            r == Fail(500, "Failed to update exercise") && store.exercises == old(store.exercises)
          else
            var rows := old(store.exercises);
            r == Ok(200, ()) && store.exercises == rows[i := Apply(UpdateOf(body.fields), rows[i])]
  {
    if body.Unparseable? {
      return Fail(500, "Failed to update exercise");
    }
    if exerciseId == "" {
      return Fail(400, "Missing exerciseId parameter");
    }
    var query := OData.Parse(OData.IdFilter(userId, "exerciseId", exerciseId));
    if query.None? {
      return Fail(500, "Failed to update exercise");
    }
    r := UpdateFirst(store, ExerciseSelected(query.value), body);
  }

  /** Merges the body into the first exercise row the query lists; reading a field of a `null` body throws. */
  method UpdateFirst(store: Store, listed: ExerciseEntity -> bool, body: Body) returns (r: Response<()>)
    requires store.Valid() && !body.Unparseable?
    modifies store
    ensures store.Valid()
    ensures store.routines == old(store.routines) && store.blobs == old(store.blobs)
    ensures match Seqs.Find(listed, old(store.exercises))
      case None => r == Fail(404, "Exercise not found") && store.exercises == old(store.exercises)
      case Some(i) =>
        if body.Null? then
          r == Fail(500, "Failed to update exercise") && store.exercises == old(store.exercises)
        else
          var rows := old(store.exercises);
          r == Ok(200, ()) && store.exercises == rows[i := Apply(UpdateOf(body.fields), rows[i])]
  {
    var rows := store.exercises;
    var i := 0;
    while i < |rows|
      invariant i <= |rows|
      invariant forall j :: 0 <= j < i ==> !listed(rows[j])
      invariant store.exercises == rows && store.Valid()
      invariant store.routines == old(store.routines) && store.blobs == old(store.blobs)
    {
      if listed(rows[i]) {
        if body.Null? {
          return Fail(500, "Failed to update exercise");
        }
        var u := BuildUpdate(body.fields);
        assert HasKey(ExerciseKey, rows, ExerciseKey(rows[i]));
        store.MergeExercise(ExerciseKey(rows[i]), Merger(u));
        MergeByKey(rows, i, u, store.exercises);
        return Ok(200, ());
      }
      i := i + 1;
    }
    r := Fail(404, "Exercise not found");
  }

  /** In a table with unique keys, merging into the row with the key of row `i` changes row `i` alone. */
  lemma MergeByKey(rows: seq<ExerciseEntity>, i: nat, u: ExerciseUpdate, after: seq<ExerciseEntity>)
    requires i < |rows| && UniqueKeys(ExerciseKey, rows)
    requires |after| == |rows|
    requires forall j :: 0 <= j < |after| ==>
      after[j] == if ExerciseKey(rows[j]) == ExerciseKey(rows[i]) then Merger(u)(rows[j]) else rows[j]
    ensures after == rows[i := Apply(u, rows[i])]
  {
    forall j | 0 <= j < |rows| && j != i
      ensures after[j] == rows[j]
    {
      if j < i {
        assert ExerciseKey(rows[j]) != ExerciseKey(rows[i]);
      } else {
        assert ExerciseKey(rows[i]) != ExerciseKey(rows[j]);
      }
    }
  }

  /** A field the body supplies is written (numbers coerced); a field it leaves undefined keeps its value. */
  lemma ApplyFields(f: JsonObject, e: ExerciseEntity)
    ensures var r := Apply(UpdateOf(f), e);
      && r.name == (if Get(f, "name") != Undefined then Get(f, "name") else e.name)
      && r.time == (if Get(f, "time") != Undefined then Get(f, "time") else e.time)
      && r.repetitions == (if Get(f, "repetitions") != Undefined then ToNumber(Get(f, "repetitions")) else e.repetitions)
      && r.weight == (if Get(f, "weight") != Undefined then ToNumber(Get(f, "weight")) else e.weight)
      && r.sets == (if Get(f, "sets") != Undefined then ToNumber(Get(f, "sets")) else e.sets)
      && r.setsCompleted == (if Get(f, "setsCompleted") != Undefined then ToNumber(Get(f, "setsCompleted")) else e.setsCompleted)
      && r.distance == (if Get(f, "distance") != Undefined then ToNumber(Get(f, "distance")) else e.distance)
      && r.order == (if Get(f, "order") != Undefined then ToNumber(Get(f, "order")) else e.order)
      && r.partitionKey == e.partitionKey && r.rowKey == e.rowKey
      && r.routineId == e.routineId && r.exerciseId == e.exerciseId
  {
  }

  /** Sending the same update twice leaves the row as sending it once. */
  lemma {:induction false} ApplyIdempotent(u: ExerciseUpdate, e: ExerciseEntity)
    ensures Apply(u, Apply(u, e)) == Apply(u, e)
  {
  }

  /** A body with none of the updatable fields leaves the row as it was. */
  lemma EmptyUpdate(f: JsonObject, e: ExerciseEntity)
    requires forall k :: k in f ==> k !in ["name", "repetitions", "weight", "sets", "setsCompleted", "time", "distance", "order"]
    ensures Apply(UpdateOf(f), e) == e
  {
    assert "name" !in f && "repetitions" !in f && "weight" !in f && "sets" !in f;
    assert "setsCompleted" !in f && "time" !in f && "distance" !in f && "order" !in f;
  }

  /** An explicit `null` metric is stored as 0, while an explicit `null` name is stored as `null`. */
  lemma NullFields(f: JsonObject, e: ExerciseEntity)
    requires Get(f, "weight") == JsValue.Null && Get(f, "name") == JsValue.Null
    ensures Apply(UpdateOf(f), e).weight == Num(0) && Apply(UpdateOf(f), e).name == JsValue.Null
  {
  }
}
