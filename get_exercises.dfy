/**
 * `GET /exercises?routineId=…`: the exercise rows the query
 * `PartitionKey eq '<userId>' and routineId eq '<routineId>'` lists, ascending by
 * their `order` field. For ids without a quote these are the caller's exercises
 * of that routine.
 */
module GetExercises {
  import opened Wrappers
  import opened Js
  import opened Http
  import opened TableStore
  import OData
  import Seqs

  /** The item pushed for a row: `id` is the exercise id and every other field is copied. */
  function ToJson(e: ExerciseEntity): ExerciseJson
  {
    ExerciseJson(e.exerciseId, e.routineId, e.name, e.repetitions, e.weight, e.sets,
      e.setsCompleted, e.time, e.distance, e.order)
  }

  /** The sort key of an item. */
  function Order(x: ExerciseJson): JsValue
  {
    x.order
  }

  /** What a successful request answers: the listed rows as items, in listing order, then sorted. */
  function Selection(rows: seq<ExerciseEntity>, listed: ExerciseEntity -> bool): seq<ExerciseJson>
  {
    Seqs.SortBy(ByNumber(Order), Seqs.Map(ToJson, Seqs.Filter(listed, rows)))
  }

  /** The answer when the query is the exact test: the caller's rows of that routine. */
  function Listing(rows: seq<ExerciseEntity>, userId: string, routineId: string): seq<ExerciseJson>
  {
    Selection(rows, InRoutine(userId, routineId))
  }

  method Handle(store: Store, userId: string, routineId: Option<string>) returns (r: Response<seq<ExerciseJson>>)
    ensures !TruthyText(routineId) ==> r == Fail(400, "Missing required query parameter: routineId")
    ensures TruthyText(routineId) ==>
      match OData.Parse(OData.IdFilter(userId, "routineId", routineId.value))
      case None => r == Fail(500, "Failed to fetch exercises")
      case Some(f) => r == Ok(200, Selection(store.exercises, ExerciseSelected(f)))
  {
    if !TruthyText(routineId) {
      return Fail(400, "Missing required query parameter: routineId");
    }
    var query := OData.Parse(OData.IdFilter(userId, "routineId", routineId.value));
    if query.None? {
      return Fail(500, "Failed to fetch exercises");
    }
    var items := Collect(store.exercises, ExerciseSelected(query.value));
    r := Ok(200, items);
  }

  /** Pushes an item for every listed row, then sorts the items by order. */
  method Collect(rows: seq<ExerciseEntity>, listed: ExerciseEntity -> bool) returns (items: seq<ExerciseJson>)
    ensures items == Selection(rows, listed)
  {
    items := [];
    var i := 0;
    while i < |rows|
      invariant i <= |rows|
      invariant items == Seqs.Map(ToJson, Seqs.Filter(listed, rows[..i]))
    {
      Seqs.FilterStep(listed, rows, i);
      if listed(rows[i]) {
        Seqs.MapAppend(ToJson, Seqs.Filter(listed, rows[..i]), rows[i]);
        items := items + [ToJson(rows[i])];
      }
      i := i + 1;
    }
    assert rows[..i] == rows;
    items := Seqs.SortBy(ByNumber(Order), items);
  }

  /** For ids without a quote the query is the exact test, and the answer is the listing of the caller's rows of that routine. */
  lemma QuoteFreeListing(rows: seq<ExerciseEntity>, userId: string, routineId: string)
    requires '\'' !in userId && '\'' !in routineId
    ensures OData.Parse(OData.IdFilter(userId, "routineId", routineId)) == Some(OData.IdTest(userId, "routineId", routineId))
    ensures Selection(rows, ExerciseSelected(OData.IdTest(userId, "routineId", routineId))) == Listing(rows, userId, routineId)
  {
    InRoutineQueryExact(rows, userId, routineId);
  }

  /** The listing holds exactly the caller's rows of that routine, each once per row. */
  lemma ListingContents(rows: seq<ExerciseEntity>, userId: string, routineId: string)
    ensures multiset(Listing(rows, userId, routineId))
         == multiset(Seqs.Map(ToJson, Seqs.Filter(InRoutine(userId, routineId), rows)))
    ensures forall x :: x in Listing(rows, userId, routineId) <==>
      exists e :: e in rows && e.partitionKey == userId && e.routineId == Str(routineId) && x == ToJson(e)
  {
    Seqs.SortPermutes(ByNumber(Order), Seqs.Map(ToJson, Seqs.Filter(InRoutine(userId, routineId), rows)));
    forall x
      ensures x in Listing(rows, userId, routineId) <==>
        exists e :: e in rows && e.partitionKey == userId && e.routineId == Str(routineId) && x == ToJson(e)
    {
      Seqs.SelectionMembers(ByNumber(Order), ToJson, InRoutine(userId, routineId), rows, x);
    }
  }

  /** When every order is a number, the listing is in ascending order. */
  lemma ListingSorted(rows: seq<ExerciseEntity>, userId: string, routineId: string)
    requires forall e :: e in rows ==> ToNumber(e.order).Num?
    ensures var l := Listing(rows, userId, routineId);
      && (forall i :: 0 <= i < |l| ==> ToNumber(l[i].order).Num?)
      && (forall i, j :: 0 <= i < j < |l| ==> ToNumber(l[i].order).n <= ToNumber(l[j].order).n)
  {
    var matched := Seqs.Filter(InRoutine(userId, routineId), rows);
    var items := Seqs.Map(ToJson, matched);
    forall i | 0 <= i < |items|
      ensures ToNumber(Order(items[i])).Num?
    {
      Seqs.FilterMembership(InRoutine(userId, routineId), rows, matched[i]);
    }
    SortByNumber(Order, items);
  }
}
