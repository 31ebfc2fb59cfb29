/**
 * `POST /routines`: checks the body's `date`, `name` and `order`, mints a fresh
 * routine id and stores the row `<date>_<id>` in the caller's partition.
 */
module CreateRoutine {
  import opened Wrappers
  import opened Js
  import opened Http
  import opened Dates
  import opened TableStore
  import opened Guids
  import GetRoutines
  import Seqs

  /** `!date || !name || order === undefined`. */
  predicate MissingFields(f: JsonObject)
  {
    !Truthy(Get(f, "date")) || !Truthy(Get(f, "name")) || Get(f, "order") == Undefined
  }

  /** The date passes `/^\d{4}-\d{2}-\d{2}$/.test(date)`, which reads it as a string. */
  predicate DateFormatOk(f: JsonObject)
  {
    MatchesDatePattern(ToStr(Get(f, "date")))
  }

  /** The row stored for an accepted body and the fresh id: the order is `Number(order)`, the rest as sent. */
  function NewRow(userId: string, f: JsonObject, id: string): (e: RoutineEntity)
    ensures e.partitionKey == userId && e.routineId == id
    ensures e.rowKey == ToStr(Get(f, "date")) + "_" + id
    ensures e.date == Get(f, "date") && e.name == Get(f, "name") && e.order == ToNumber(Get(f, "order"))
  {
    var date := Get(f, "date");
    RoutineEntity(userId, ToStr(date) + "_" + id, date, Get(f, "name"), ToNumber(Get(f, "order")), id)
  }

  method Handle(store: Store, ids: GuidSource, userId: string, body: Body) returns (r: Response<RoutineJson>)
    requires store.Valid() && ids.Valid()
    modifies store, ids
    ensures store.Valid() && ids.Valid()
    ensures store.exercises == old(store.exercises) && store.blobs == old(store.blobs)
    ensures !body.Object? ==>
      r == Fail(500, "Failed to create routine") && store.routines == old(store.routines)
    ensures body.Object? && MissingFields(body.fields) ==>
      r == Fail(400, "Missing required fields: date, name, order") && store.routines == old(store.routines)
    ensures body.Object? && !MissingFields(body.fields) && !DateFormatOk(body.fields) ==>
      r == Fail(400, "Invalid date format. Expected YYYY-MM-DD") && store.routines == old(store.routines)
    ensures body.Object? && !MissingFields(body.fields) && DateFormatOk(body.fields) ==>
      exists id :: id !in old(ids.issued) && id in ids.issued &&
        var row := NewRow(userId, body.fields, id);
        if !Insertable(RoutineKey, old(store.routines), RoutineKey(row)) then
          r == Fail(500, "Failed to create routine") && store.routines == old(store.routines)
        else
          && r == Ok(201, RoutineJson(id, Get(body.fields, "date"), Get(body.fields, "name"), Get(body.fields, "order")))
          && store.routines == old(store.routines) + [row]
  {
    if !body.Object? {
      return Fail(500, "Failed to create routine");
    }
    var f := body.fields;
    if MissingFields(f) {
      return Fail(400, "Missing required fields: date, name, order");
    }
    if !DateFormatOk(f) {
      return Fail(400, "Invalid date format. Expected YYYY-MM-DD");
    }
    var id := ids.NewId();
    var row := NewRow(userId, f, id);
    var ok := store.CreateRoutine(row);
    if !ok {
      return Fail(500, "Failed to create routine");
    }
    r := Ok(201, RoutineJson(id, Get(f, "date"), Get(f, "name"), Get(f, "order")));
  }

  /** A stored routine shows up in the day listing for the date it was created with. */
  lemma CreatedIsListed(rows: seq<RoutineEntity>, userId: string, date: string, f: JsonObject, id: string)
    requires Get(f, "date") == Str(date)
    ensures GetRoutines.ToJson(NewRow(userId, f, id)) in GetRoutines.Listing(rows + [NewRow(userId, f, id)], userId, date)
  {
    var row := NewRow(userId, f, id);
    GetRoutines.ListingContents(rows + [row], userId, date);
    assert row in rows + [row];
  }

  /** The answer echoes the order as sent, while the row keeps its numeric value: they differ for a numeric string. */
  lemma StoredOrderIsCoerced(userId: string, id: string)
    ensures var f := map["date" := Str("2024-02-14"), "name" := Str("Legs"), "order" := Str("2")];
      NewRow(userId, f, id).order == Num(2) && Get(f, "order") == Str("2")
  {
    var f := map["date" := Str("2024-02-14"), "name" := Str("Legs"), "order" := Str("2")];
    assert Get(f, "order") == Str("2");
    Text.StringToNumberOfDigits("2");
  }
}
