/**
 * The JavaScript values that reach the handlers through JSON request bodies and
 * that the tables store, with the coercions the source applies to them:
 * truthiness (`!x`, `x || d`), `Number(x)` and `String(x)`. Numbers are integers
 * in this model; `NaN` is its own value.
 */
module Js {
  import opened Wrappers
  import opened Text
  import Seqs

  datatype JsValue = Undefined | Null | Bool(b: bool) | Num(n: int) | NaN | Str(s: string)

  /** JavaScript truthiness: `undefined`, `null`, `false`, `0`, `NaN` and `''` are falsy. */
  predicate Truthy(v: JsValue)
  {
    match v
    case Undefined => false
    case Null => false
    case Bool(b) => b
    case Num(n) => n != 0
    case NaN => false
    case Str(s) => s != ""
  }

  /** `a || b`. */
  function Or(a: JsValue, b: JsValue): (r: JsValue)
    ensures Truthy(a) ==> r == a
    ensures !Truthy(a) ==> r == b
  {
    if Truthy(a) then a else b
  }

  /** `Number(v)`: always a number (`Num`) or `NaN`. */
  function ToNumber(v: JsValue): (r: JsValue)
    ensures r.Num? || r.NaN?
    ensures v.Num? ==> r == v
    ensures v == Null || v == Bool(false) ==> r == Num(0)
    ensures v == Undefined ==> r == NaN
  {
    match v
    case Undefined => NaN
    case Null => Num(0)
    case Bool(b) => Num(if b then 1 else 0)
    case Num(n) => v
    case NaN => NaN
    case Str(s) =>
      match StringToNumber(s)
      case Some(n) => Num(n)
      case None => NaN
  }

  /** `String(v)`. */
  function ToStr(v: JsValue): string
  {
    match v
    case Undefined => "undefined"
    case Null => "null"
    case Bool(b) => if b then "true" else "false"
    case Num(n) => IntToString(n)
    case NaN => "NaN"
    case Str(s) => s
  }

  /**
   * The comparator `(a, b) => a.k - b.k` used with `sort`, read as "a may stay
   * before b": the difference is not positive, or it is NaN (which `sort` treats as 0).
   */
  predicate NumberLeq(a: JsValue, b: JsValue)
  {
    var x := ToNumber(a);
    var y := ToNumber(b);
    !(x.Num? && y.Num?) || x.n <= y.n
  }

  /** The comparator `(a, b) => key(a) - key(b)`. */
  function ByNumber<T>(key: T -> JsValue): (T, T) -> bool
  {
    (a: T, b: T) => NumberLeq(key(a), key(b))
  }

  /** On values that coerce to numbers the comparator is a total preorder, so `sort` sorts. */
  lemma NumberLeqTotal<T>(key: T -> JsValue, s: seq<T>)
    requires forall i :: 0 <= i < |s| ==> ToNumber(key(s[i])).Num?
    ensures Seqs.TotalPreorderOn(ByNumber(key), s)
  {
    forall a | a in s
      ensures ToNumber(key(a)).Num?
    {
      var i :| 0 <= i < |s| && s[i] == a;
    }
  }

  /**
   * `s.sort((a, b) => key(a) - key(b))` when every key is a number: the result is a
   * permutation of `s` in ascending order of the keys.
   */
  lemma SortByNumber<T>(key: T -> JsValue, s: seq<T>)
    requires forall i :: 0 <= i < |s| ==> ToNumber(key(s[i])).Num?
    ensures var l := Seqs.SortBy(ByNumber(key), s);
      && multiset(l) == multiset(s)
      && (forall i :: 0 <= i < |l| ==> ToNumber(key(l[i])).Num?)
      && (forall i, j :: 0 <= i < j < |l| ==> ToNumber(key(l[i])).n <= ToNumber(key(l[j])).n)
  {
    NumberLeqTotal(key, s);
    Seqs.SortSorted(ByNumber(key), s);
    Seqs.SortPermutes(ByNumber(key), s);
    var l := Seqs.SortBy(ByNumber(key), s);
    forall i | 0 <= i < |l|
      ensures ToNumber(key(l[i])).Num?
    {
      assert l[i] in multiset(s);
      var k :| 0 <= k < |s| && s[k] == l[i];
    }
  }

  /** A JSON object as parsed from a request body; a missing key reads as `undefined`. */
  type JsonObject = map<string, JsValue>

  function Get(o: JsonObject, key: string): (v: JsValue)
    ensures key !in o ==> v == Undefined
  {
    if key in o then o[key] else Undefined
  }

  /** A text-valued JavaScript value (`string | null` in the source): null or absent is `None`. */
  predicate TruthyText(s: Option<string>)
  {
    s.Some? && s.value != ""
  }
}

/** What an HTTP handler of the server answers, and what a request body parses to. */
module Http {
  import opened Js

  /**
   * A handler's answer: a success status with its JSON body, or an error status
   * with the body's `error` text (and, where the handler adds one, its `details` text).
   */
  datatype Response<T> =
    | Ok(status: int, value: T)
    | Fail(status: int, error: string)
    | FailWithDetails(status: int, error: string, details: string)

  /**
   * `await request.json()`: a body that does not parse (the call throws), the JSON
   * `null`, or any other JSON value, whose fields are read as a `JsonObject`
   * (a JSON number, string or array has no fields the handlers read).
   */
  datatype Body = Unparseable | Null | Object(fields: JsonObject)

  /** A routine as the API returns it (`{id, date, name, order}`). */
  datatype RoutineJson = RoutineJson(id: string, date: JsValue, name: JsValue, order: JsValue)

  /** An exercise as the API returns it: its id and every stored field but the keys. */
  datatype ExerciseJson = ExerciseJson(
    id: string,
    routineId: JsValue,
    name: JsValue,
    repetitions: JsValue,
    weight: JsValue,
    sets: JsValue,
    setsCompleted: JsValue,
    time: JsValue,
    distance: JsValue,
    order: JsValue)

  /** A photo as `getPhotos` lists it: the blob name, a readable URL and the timestamp. */
  datatype PhotoJson = PhotoJson(id: string, url: string, timestamp: int)

  /** The `getPhotos` answer. */
  datatype PhotoList = PhotoList(count: int, photos: seq<PhotoJson>)
}
