/**
 * `GET /routines?date=YYYY-MM-DD`: the routine rows the query
 * `PartitionKey eq '<userId>' and date eq '<date>'` lists, ascending by their
 * `order` field. A date that passed the pattern check holds no quote, so for a
 * user id without a quote these are the caller's routines of that day.
 */
module GetRoutines {
  import opened Wrappers
  import opened Js
  import opened Http
  import opened Dates
  import opened TableStore
  import OData
  import Seqs

  /** The listing filter `PartitionKey eq '<userId>' and date eq '<date>'`. */
  function OnDay(userId: string, date: string): RoutineEntity -> bool
  {
    (e: RoutineEntity) => e.partitionKey == userId && e.date == Str(date)
  }

  /** The item pushed for a row. */
  function ToJson(e: RoutineEntity): RoutineJson
  {
    RoutineJson(e.routineId, e.date, e.name, e.order)
  }

  /** The sort key of an item. */
  function Order(x: RoutineJson): JsValue
  {
    x.order
  }

  /** What a successful request answers: the listed rows as items, in listing order, then sorted. */
  function Selection(rows: seq<RoutineEntity>, listed: RoutineEntity -> bool): seq<RoutineJson>
  {
    Seqs.SortBy(ByNumber(Order), Seqs.Map(ToJson, Seqs.Filter(listed, rows)))
  }

  /** The answer when the query is the exact test: the caller's rows of that day. */
  function Listing(rows: seq<RoutineEntity>, userId: string, date: string): seq<RoutineJson>
  {
    Selection(rows, OnDay(userId, date))
  }

  method Handle(store: Store, userId: string, date: Option<string>) returns (r: Response<seq<RoutineJson>>)
    ensures !TruthyText(date) ==> r == Fail(400, "Missing required query parameter: date")
    ensures TruthyText(date) && !MatchesDatePattern(date.value) ==>
      r == Fail(400, "Invalid date format. Expected YYYY-MM-DD")
    ensures TruthyText(date) && MatchesDatePattern(date.value) ==>
      match OData.Parse(OData.IdFilter(userId, "date", date.value))
      case None => r == Fail(500, "Failed to fetch routines")
      case Some(f) => r == Ok(200, Selection(store.routines, RoutineSelected(f)))
  {
    if !TruthyText(date) {
      return Fail(400, "Missing required query parameter: date");
    }
    if !MatchesDatePattern(date.value) {
      return Fail(400, "Invalid date format. Expected YYYY-MM-DD");
    }
    var query := OData.Parse(OData.IdFilter(userId, "date", date.value));
    if query.None? {
      return Fail(500, "Failed to fetch routines");
    }
    var items := Collect(store.routines, RoutineSelected(query.value));
    r := Ok(200, items);
  }

  /** Pushes an item for every listed row, then sorts the items by order. */
  method Collect(rows: seq<RoutineEntity>, listed: RoutineEntity -> bool) returns (items: seq<RoutineJson>)
    ensures items == Selection(rows, listed)
  {
    items := [];
    var i := 0;
    while i < |rows|
      invariant i <= |rows|
      invariant items == Seqs.Map(ToJson, Seqs.Filter(listed, rows[..i]))
    {
      Seqs.FilterStep(listed, rows, i);
      if listed(rows[i]) {
        Seqs.MapAppend(ToJson, Seqs.Filter(listed, rows[..i]), rows[i]);
        items := items + [ToJson(rows[i])];
      }
      i := i + 1;
    }
    assert rows[..i] == rows;
    items := Seqs.SortBy(ByNumber(Order), items);
  }

  /** A date that passed the pattern check holds no quote. */
  lemma DateHasNoQuote(date: string)
    requires MatchesDatePattern(date)
    ensures '\'' !in date
  {
    forall k | 0 <= k < |date|
      ensures date[k] != '\''
    {
    }
  }

  /** For a user id without a quote the query is the exact test, and the answer is the listing of the caller's rows of that day. */
  lemma QuoteFreeListing(rows: seq<RoutineEntity>, userId: string, date: string)
    requires '\'' !in userId && MatchesDatePattern(date)
    ensures OData.Parse(OData.IdFilter(userId, "date", date)) == Some(OData.IdTest(userId, "date", date))
    ensures Selection(rows, RoutineSelected(OData.IdTest(userId, "date", date))) == Listing(rows, userId, date)
  {
    DateHasNoQuote(date);
    OData.KeywordsAreWords();
    OData.IdFilterExact(userId, "date", date);
    DateTestExact(userId, date);
    Seqs.FilterExt(RoutineSelected(OData.IdTest(userId, "date", date)), OnDay(userId, date), rows);
  }

  /** The listing holds exactly the caller's rows of that day, each once per row. */
  lemma ListingContents(rows: seq<RoutineEntity>, userId: string, date: string)
    ensures multiset(Listing(rows, userId, date))
         == multiset(Seqs.Map(ToJson, Seqs.Filter(OnDay(userId, date), rows)))
    ensures forall x :: x in Listing(rows, userId, date) <==>
      exists e :: e in rows && e.partitionKey == userId && e.date == Str(date) && x == ToJson(e)
  {
    Seqs.SortPermutes(ByNumber(Order), Seqs.Map(ToJson, Seqs.Filter(OnDay(userId, date), rows)));
    forall x
      ensures x in Listing(rows, userId, date) <==>
        exists e :: e in rows && e.partitionKey == userId && e.date == Str(date) && x == ToJson(e)
    {
      Seqs.SelectionMembers(ByNumber(Order), ToJson, OnDay(userId, date), rows, x);
    }
  }

  /** When every order is a number, the listing is in ascending order. */
  lemma ListingSorted(rows: seq<RoutineEntity>, userId: string, date: string)
    requires forall e :: e in rows ==> ToNumber(e.order).Num?
    ensures var l := Listing(rows, userId, date);
      && (forall i :: 0 <= i < |l| ==> ToNumber(l[i].order).Num?)
      && (forall i, j :: 0 <= i < j < |l| ==> ToNumber(l[i].order).n <= ToNumber(l[j].order).n)
  {
    var matched := Seqs.Filter(OnDay(userId, date), rows);
    var items := Seqs.Map(ToJson, matched);
    forall i | 0 <= i < |items|
      ensures ToNumber(Order(items[i])).Num?
    {
      Seqs.FilterMembership(OnDay(userId, date), rows, matched[i]);
    }
    SortByNumber(Order, items);
  }
}
