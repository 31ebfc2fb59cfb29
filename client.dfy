/**
 * The browser's API client: `apiFetch`, which turns every outcome of a request
 * into the decoded answer or an `ApiError`, the URL of every endpoint, and the
 * two calls that differ from the rest (`uploadPhoto`, which bypasses `apiFetch`,
 * and `deletePhoto`, which encodes a whole blob name into one path segment).
 *
 * The network is not modelled: a request's outcome is an `Exchange` value the
 * caller supplies.
 */
module Client {
  import opened Wrappers
  import opened Text
  import opened Js
  import Uri

  const ApiBase := "/api"

  /**
   * What a client call throws: an `ApiError` with an HTTP status (0 when no
   * response was read), or any other exception, whose message is `None` when the
   * thrown value is not an `Error`.
   */
  datatype Thrown = ApiError(status: int, message: string) | OtherError(errorMessage: Option<string>)

  /**
   * The body of a response as `response.json()` reads it: not JSON (the call
   * throws a `SyntaxError` with the given message), or a JSON value together with
   * what reading its `error` property gives — a value, or the message of the
   * `TypeError` thrown when the body is JSON `null`.
   */
  datatype Payload<T> = NotJson(syntaxError: string) | Json(value: T, errorProperty: Result<JsValue, string>)

  /** The outcome of one `fetch`: it rejects (with an `Error`'s message, or `None`), or a response arrives. */
  datatype Exchange<T> = Rejected(thrown: Option<string>) | Answered(ok: bool, status: int, payload: Payload<T>)

  /** The answers of the routine, exercise and photo calls, as the client declares them. */
  datatype RoutineResponse = RoutineResponse(id: string, date: string, name: string, order: int)

  datatype ExerciseResponse = ExerciseResponse(
    id: string, routineId: string, name: string, repetitions: int, weight: int,
    sets: int, setsCompleted: int, time: string, distance: int, order: int)

  datatype PhotoResponse = PhotoResponse(id: string, url: string, timestamp: int)

  datatype PhotosResponse = PhotosResponse(count: int, photos: seq<PhotoResponse>)

  /** `{success}`, `{success, deletedExercises}`, `{success, photosDeleted}` and the upload's `{id, timestamp, success}`. */
  datatype Ack = Ack(success: bool)

  datatype RoutineDeleted = RoutineDeleted(success: bool, deletedExercises: int)

  datatype ExerciseDeleted = ExerciseDeleted(success: bool, photosDeleted: int)

  datatype PhotoUploaded = PhotoUploaded(id: string, timestamp: int, success: bool)

  /** The bodies `createRoutine` and `createExercise` post (every caller supplies each exercise field). */
  datatype NewRoutine = NewRoutine(date: string, name: string, order: int)

  datatype NewExercise = NewExercise(
    routineId: string, name: string, repetitions: int, weight: int, sets: int,
    setsCompleted: int, time: string, distance: int, order: int)

  /** `error.error || \`HTTP ${status}\``, passed to the `Error` constructor, which converts it to a string. */
  function ErrorMessage(status: int, e: JsValue): (m: string)
    ensures m != ""
    ensures Truthy(e) ==> m == ToStr(e)
    ensures !Truthy(e) ==> m == "HTTP " + IntToString(status)
  {
    if Truthy(e) then TruthyText(e) else "HTTP " + IntToString(status)
  }

  /** The text of a truthy value: never empty. */
  function TruthyText(e: JsValue): (m: string)
    requires Truthy(e)
    ensures m == ToStr(e) && m != ""
  {
    match e
    case Bool(b) => "true"
    case Num(n) => IntToString(n)
    case Str(s) => s
  }

  /**
   * What a non-ok response throws: an unreadable body is replaced by
   * `{error: 'Unknown error'}`; a JSON `null` body makes `.error` throw.
   */
  function ErrorOfAnswer<T>(status: int, p: Payload<T>): (e: Thrown)
  {
    match p
    case NotJson(_) => ApiError(status, "Unknown error")
    case Json(_, Failure(typeError)) => OtherError(Some(typeError))
    case Json(_, Success(field)) => ApiError(status, ErrorMessage(status, field))
  }

  /** The try block shared by `apiFetch` and `uploadPhoto`: what it returns or throws, before any catch. */
  function Attempt<T>(x: Exchange<T>): (r: Result<T, Thrown>)
  {
    match x
    case Rejected(m) => Failure(OtherError(m))
    case Answered(ok, status, p) =>
      if !ok then Failure(ErrorOfAnswer(status, p))
      else match p
        case NotJson(syntaxError) => Failure(OtherError(Some(syntaxError)))
        case Json(v, _) => Success(v)
  }

  /** `apiFetch`'s catch: an `ApiError` is rethrown unchanged, anything else becomes `ApiError(0, …)`. */
  function Translate(e: Thrown): (t: Thrown)
    ensures t.ApiError?
    ensures e.ApiError? ==> t == e
    ensures e.OtherError? ==> t.status == 0
  {
    match e
    case ApiError(_, _) => e
    case OtherError(m) => ApiError(0, m.GetOr("Network error"))
  }

  /** `apiFetch(url, options)`, given the outcome of its `fetch`. */
  function ApiFetch<T>(x: Exchange<T>): (r: Result<T, Thrown>)
    ensures r.Failure? ==> r.error.ApiError?
  {
    match Attempt(x)
    case Success(v) => Success(v)
    case Failure(e) => Failure(Translate(e))
  }

  /** `uploadPhoto`'s request: the same try block with no catch around it. */
  function UploadPhotoFetch<T>(x: Exchange<T>): (r: Result<T, Thrown>)
  {
    Attempt(x)
  }

  /**
   * The outcomes of `apiFetch`: the answer exactly when an ok response has a JSON
   * body; an error response's own status and a non-empty message when its body
   * was read; status 0 for a failed `fetch`, with its message or 'Network error'.
   */
  lemma ApiFetchOutcomes<T>(x: Exchange<T>)
    ensures ApiFetch(x).Success? <==> x.Answered? && x.ok && x.payload.Json?
    ensures ApiFetch(x).Success? ==> ApiFetch(x).value == x.payload.value
    ensures x.Rejected? ==> ApiFetch(x) == Failure(ApiError(0, x.thrown.GetOr("Network error")))
    ensures x.Answered? && !x.ok && x.payload.NotJson? ==> ApiFetch(x) == Failure(ApiError(x.status, "Unknown error"))
    ensures x.Answered? && !x.ok && x.payload.Json? && x.payload.errorProperty.Success? ==>
      ApiFetch(x).Failure? && ApiFetch(x).error.status == x.status && ApiFetch(x).error.message != ""
    ensures ApiFetch(x).Failure? && ApiFetch(x).error.status != 0 ==> x.Answered? && !x.ok && ApiFetch(x).error.status == x.status
  {
  }

  /**
   * `uploadPhoto` agrees with `apiFetch` whenever a response was read and any error
   * is an `ApiError`; a failed `fetch` escapes it unmapped instead of becoming status 0.
   */
  lemma UploadPhotoOutcomes<T>(x: Exchange<T>)
    ensures Attempt(x).Success? || Attempt(x).error.ApiError? ==> UploadPhotoFetch(x) == ApiFetch(x)
    ensures x.Rejected? ==> UploadPhotoFetch(x) == Failure(OtherError(x.thrown)) && ApiFetch(x).error.status == 0
    ensures UploadPhotoFetch(x).Success? <==> ApiFetch(x).Success?
  {
  }

  // ---------------------------------------------------------------- URLs

  /** A read URL: one query parameter whose value is passed through `encodeURIComponent`. */
  function QueryUrl(path: string, parameter: string, value: string): string
  {
    ApiBase + path + "?" + parameter + "=" + Uri.EncodeURIComponent(value)
  }

  /** `fetchRoutines(date)`. */
  function RoutinesUrl(date: string): string
  {
    QueryUrl("/routines", "date", date)
  }

  /** `updateRoutine` and `deleteRoutine`: the id is put into the path as it is. */
  function RoutineUrl(routineId: string): string
  {
    ApiBase + "/routines/" + routineId
  }

  /** `fetchExercises(routineId)`. */
  function ExercisesUrl(routineId: string): string
  {
    QueryUrl("/exercises", "routineId", routineId)
  }

  /** `updateExercise` and `deleteExercise`: the id is put into the path as it is. */
  function ExerciseUrl(exerciseId: string): string
  {
    ApiBase + "/exercises/" + exerciseId
  }

  /** `fetchPhotos(exerciseId)`. */
  function PhotosUrl(exerciseId: string): string
  {
    QueryUrl("/photos", "exerciseId", exerciseId)
  }

  /** `createRoutine`, `createExercise` and `uploadPhoto` post to the collection itself. */
  function CollectionUrl(collection: string): string
  {
    ApiBase + "/" + collection
  }

  /** `deletePhoto(photoId)`: the blob name, slashes included, encoded into one segment. */
  function PhotoUrl(photoId: string): string
  {
    ApiBase + "/photos/" + Uri.EncodeURIComponent(photoId)
  }

  /** The characters that end a path segment, a query parameter or a query. */
  predicate Delimiter(c: char)
  {
    c == '/' || c == '?' || c == '#' || c == '&' || c == '='
  }

  /** `encodeURIComponent(v)` holds no delimiter and reads back as `v`. */
  predicate Carries(e: string, v: string)
  {
    && (forall i :: 0 <= i < |e| ==> !Delimiter(e[i]))
    && Uri.DecodeURIComponent(e) == Success(v)
  }

  lemma EncodingCarries(v: string)
    ensures Carries(Uri.EncodeURIComponent(v), v)
  {
    Uri.EncodedCharacters(v);
    Uri.DecodeEncode(v);
  }

  /**
   * Every query value is encoded: the text after `=` is the whole parameter (no
   * `&`, `#` or `/` can end it early) and decodes to the value the caller passed.
   * `fetchRoutines`, `fetchExercises` and `fetchPhotos` are all of this form.
   */
  lemma QueryValueCarried(path: string, parameter: string, value: string)
    ensures exists e :: QueryUrl(path, parameter, value) == ApiBase + path + "?" + parameter + "=" + e && Carries(e, value)
  {
    EncodingCarries(value);
  }

  /** A photo id, slashes and all, travels as one path segment that decodes back to the blob name. */
  lemma PhotoIdIsOneSegment(photoId: string)
    ensures exists e :: PhotoUrl(photoId) == "/api/photos/" + e && Carries(e, photoId)
  {
    EncodingCarries(photoId);
    assert PhotoUrl(photoId) == "/api/photos/" + Uri.EncodeURIComponent(photoId);
  }

  /**
   * Routine and exercise ids are not encoded: an id holding a `/` reaches the
   * server as more than one path segment, while an id made of unreserved
   * characters gives the same path encoded or not.
   */
  lemma {:induction false} IdPathsUnencoded(id: string)
    ensures '/' in id ==> exists k :: |"/api/routines/"| <= k < |RoutineUrl(id)| && RoutineUrl(id)[k] == '/'
    ensures '/' in id ==> exists k :: |"/api/exercises/"| <= k < |ExerciseUrl(id)| && ExerciseUrl(id)[k] == '/'
    ensures (forall i :: 0 <= i < |id| ==> Uri.Unreserved(id[i])) ==>
      RoutineUrl(id) == "/api/routines/" + Uri.EncodeURIComponent(id)
      && ExerciseUrl(id) == "/api/exercises/" + Uri.EncodeURIComponent(id)
  {
    if '/' in id {
      var j :| 0 <= j < |id| && id[j] == '/';
      assert RoutineUrl(id)[|"/api/routines/"| + j] == '/';
      assert ExerciseUrl(id)[|"/api/exercises/"| + j] == '/';
    }
    if forall i :: 0 <= i < |id| ==> Uri.Unreserved(id[i]) {
      Uri.EncodeUnreserved(id);
    }
  }
}
