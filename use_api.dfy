/**
 * The data hooks of the browser application over one shared request cache.
 * Every read is cached under a key built from its query; every mutation awaits
 * its API call and, only when that call succeeds, drops the keys whose data it
 * changed, so that their readers fetch again. A failing call changes nothing in
 * the cache, and its error reaches the caller.
 */
module UseApi {
  import opened Wrappers
  import opened Text
  import opened Client
  import Dates
  import Uri

  const RoutinesPrefix := "/routines?date="
  const ExercisesPrefix := "/exercises?routineId="
  const PhotosPrefix := "/photos?exerciseId="

  /** The key `useRoutines(date)` reads and the routine mutations drop; the date is not encoded. */
  function RoutinesKey(date: string): string
  {
    RoutinesPrefix + date
  }

  function ExercisesKey(routineId: string): string
  {
    ExercisesPrefix + routineId
  }

  function PhotosKey(exerciseId: string): string
  {
    PhotosPrefix + exerciseId
  }

  /** `useExercises(routineId)`: a null or empty id gives the null key, which fetches nothing. */
  function ExercisesReadKey(routineId: Option<string>): (k: Option<string>)
    ensures k.Some? <==> routineId.Some? && routineId.value != ""
    ensures k.Some? ==> k.value == ExercisesKey(routineId.value)
  {
    if routineId.Some? && routineId.value != "" then Some(ExercisesKey(routineId.value)) else None
  }

  /** `usePhotos(exerciseId)`, likewise. */
  function PhotosReadKey(exerciseId: Option<string>): (k: Option<string>)
    ensures k.Some? <==> exerciseId.Some? && exerciseId.value != ""
    ensures k.Some? ==> k.value == PhotosKey(exerciseId.value)
  {
    if exerciseId.Some? && exerciseId.value != "" then Some(PhotosKey(exerciseId.value)) else None
  }

  /** What the cache holds under a key: the answer of the read that key names. */
  datatype Cached =
    | Routines(routines: seq<RoutineResponse>)
    | Exercises(exercises: seq<ExerciseResponse>)
    | Photos(photos: PhotosResponse)

  /**
   * `usePhotos`' `photos: data?.photos || []` and `photoCount: data?.count || 0`:
   * before an answer there are no photos and the count is 0, and the count shown
   * agrees with the photos shown whenever the answer's own count does.
   */
  function PhotoView(data: Option<PhotosResponse>): (v: (seq<PhotoResponse>, int))
    ensures data.None? ==> v == ([], 0)
    ensures data.Some? ==> v.0 == data.value.photos
    ensures (data.None? || data.value.count == |data.value.photos|) ==> v.1 == |v.0|
  {
    match data
    case None => ([], 0)
    case Some(d) => (d.photos, if d.count != 0 then d.count else 0)
  }

  /** The cache after `useDeleteRoutine` succeeds: its day's key and every exercise-list key are gone. */
  function AfterDeleteRoutine(m: map<string, Cached>, date: string): map<string, Cached>
  {
    map k | k in m && k != RoutinesKey(date) && !StartsWith(k, ExercisesPrefix) :: m[k]
  }

  /**
   * The three key families never meet, and within a family the key names its
   * query value: distinct dates or ids have distinct keys.
   */
  lemma KeyFamilies(a: string, b: string)
    ensures RoutinesKey(a) == RoutinesKey(b) <==> a == b
    ensures ExercisesKey(a) == ExercisesKey(b) <==> a == b
    ensures PhotosKey(a) == PhotosKey(b) <==> a == b
    ensures StartsWith(ExercisesKey(a), ExercisesPrefix)
    ensures !StartsWith(RoutinesKey(a), ExercisesPrefix) && !StartsWith(PhotosKey(a), ExercisesPrefix)
    ensures RoutinesKey(a) != PhotosKey(b) && RoutinesKey(a) != ExercisesKey(b) && PhotosKey(a) != ExercisesKey(b)
  {
    if RoutinesKey(a) == RoutinesKey(b) {
      assert a == RoutinesKey(a)[|RoutinesPrefix|..];
    }
    if ExercisesKey(a) == ExercisesKey(b) {
      assert a == ExercisesKey(a)[|ExercisesPrefix|..];
    }
    if PhotosKey(a) == PhotosKey(b) {
      assert a == PhotosKey(a)[|PhotosPrefix|..];
    }
    assert ExercisesKey(a)[..|ExercisesPrefix|] == ExercisesPrefix;
    assert RoutinesKey(a)[1] == 'r' && PhotosKey(a)[1] == 'p' && ExercisesKey(b)[1] == 'e' && PhotosKey(b)[1] == 'p';
    DiffersAt(RoutinesKey(a), ExercisesPrefix, 1);
    DiffersAt(PhotosKey(a), ExercisesPrefix, 1);
  }

  /**
   * Deleting a routine leaves no exercise list cached, drops its own day only,
   * and keeps every photo list with its data.
   */
  lemma DeleteRoutineSparesPhotos(m: map<string, Cached>, date: string, other: string, id: string)
    ensures ExercisesKey(id) !in AfterDeleteRoutine(m, date)
    ensures RoutinesKey(date) !in AfterDeleteRoutine(m, date)
    ensures other != date && RoutinesKey(other) in m ==>
      RoutinesKey(other) in AfterDeleteRoutine(m, date) && AfterDeleteRoutine(m, date)[RoutinesKey(other)] == m[RoutinesKey(other)]
    ensures PhotosKey(id) in m ==> PhotosKey(id) in AfterDeleteRoutine(m, date) && AfterDeleteRoutine(m, date)[PhotosKey(id)] == m[PhotosKey(id)]
  {
    KeyFamilies(id, date);
    KeyFamilies(date, id);
    KeyFamilies(other, date);
    KeyFamilies(other, id);
  }

  /**
   * A mutation that drops one key leaves every other key of the same family:
   * a routine updated under the wrong caller-supplied date leaves its real day's
   * list stale, and an exercise change leaves the other routines' lists alone.
   */
  lemma OtherKeysStay(m: map<string, Cached>, a: string, b: string)
    requires a != b
    ensures RoutinesKey(b) in m ==> RoutinesKey(b) in m - {RoutinesKey(a)}
    ensures ExercisesKey(b) in m ==> ExercisesKey(b) in m - {ExercisesKey(a)}
    ensures PhotosKey(b) in m ==> PhotosKey(b) in m - {PhotosKey(a)}
  {
    KeyFamilies(a, b);
  }

  /** For a `YYYY-MM-DD` date the cache key is exactly the request path: the date needs no encoding. */
  lemma RoutinesKeyIsPath(date: string)
    requires Dates.MatchesDatePattern(date)
    ensures RoutinesUrl(date) == ApiBase + RoutinesKey(date)
  {
    forall i | 0 <= i < |date|
      ensures Uri.Unreserved(date[i])
    {
      if i != 4 && i != 7 {
        assert IsDigit(date[i]);
      }
    }
    Uri.EncodeUnreserved(date);
    assert "/routines" + "?" + "date" + "=" == RoutinesPrefix;
  }

  /** Ids made of unreserved characters likewise give keys equal to their request paths. */
  lemma IdKeysArePaths(id: string)
    requires forall i :: 0 <= i < |id| ==> Uri.Unreserved(id[i])
    ensures ExercisesUrl(id) == ApiBase + ExercisesKey(id) && PhotosUrl(id) == ApiBase + PhotosKey(id)
  {
    Uri.EncodeUnreserved(id);
    QueryUrlAfterBase("/exercises", "routineId", id);
    QueryUrlAfterBase("/photos", "exerciseId", id);
    PrefixesSpelled();
  }

  /** The two query prefixes are the path, `?`, the parameter name and `=`. */
  lemma PrefixesSpelled()
    ensures "/exercises" + "?" + "routineId" + "=" == ExercisesPrefix
    ensures "/photos" + "?" + "exerciseId" + "=" == PhotosPrefix
  {
  }

  lemma QueryUrlAfterBase(path: string, parameter: string, value: string)
    ensures QueryUrl(path, parameter, value) == ApiBase + (path + "?" + parameter + "=" + Uri.EncodeURIComponent(value))
  {
  }

  /** The global cache `mutate` works on: a map from key to the data last fetched for it. */
  class Cache {
    var entries: map<string, Cached>

    constructor()
      ensures entries == map[]
    {
      entries := map[];
    }

    /** The data a hook reading `key` sees: none for the null key or a key not yet fetched. */
    function Read(key: Option<string>): (d: Option<Cached>)
      reads this
      ensures key.None? ==> d.None?
      ensures key.Some? ==> (d.Some? <==> key.value in entries)
      ensures d.Some? ==> d.value == entries[key.value]
    {
      if key.Some? && key.value in entries then Some(entries[key.value]) else None
    }

    /** A read's answer arrives and is cached under its key. */
    method Store(key: string, data: Cached)
      modifies this
      ensures entries == old(entries)[key := data]
    {
      entries := entries[key := data];
    }

    /** `mutate(key)`: the key's data is dropped, so its readers fetch again. */
    method Invalidate(key: string)
      modifies this
      ensures entries == old(entries) - {key}
    {
      entries := entries - {key};
    }

    /** `useCreateRoutine`: on success the day of the new routine is fetched again. */
    method CreateRoutine(data: NewRoutine, x: Exchange<RoutineResponse>) returns (r: Result<RoutineResponse, Thrown>)
      modifies this
      ensures r == ApiFetch(x)
      ensures r.Failure? ==> entries == old(entries)
      ensures r.Success? ==> entries == old(entries) - {RoutinesKey(data.date)}
      ensures r.Success? ==> Read(Some(RoutinesKey(data.date))).None?
    {
      r := ApiFetch(x);
      if r.Success? {
        Invalidate(RoutinesKey(data.date));
      }
    }

    /** `useUpdateRoutine`: the day dropped is the one the caller names. */
    method UpdateRoutine(routineId: string, name: string, date: string, x: Exchange<Ack>) returns (r: Result<Ack, Thrown>)
      modifies this
      ensures r == ApiFetch(x)
      ensures r.Failure? ==> entries == old(entries)
      ensures r.Success? ==> entries == old(entries) - {RoutinesKey(date)}
    {
      r := ApiFetch(x);
      if r.Success? {
        Invalidate(RoutinesKey(date));
      }
    }

    /** `useDeleteRoutine`: the caller's day, then every exercise list of every routine. */
    method DeleteRoutine(routineId: string, date: string, x: Exchange<RoutineDeleted>) returns (r: Result<RoutineDeleted, Thrown>)
      modifies this
      ensures r == ApiFetch(x)
      ensures r.Failure? ==> entries == old(entries)
      ensures r.Success? ==> entries == AfterDeleteRoutine(old(entries), date)
    {
      r := ApiFetch(x);
      if r.Success? {
        Invalidate(RoutinesKey(date));
        entries := map k | k in entries && !StartsWith(k, ExercisesPrefix) :: entries[k];
      }
    }

    /** `useCreateExercise`: that routine's exercise list is fetched again. */
    method CreateExercise(data: NewExercise, x: Exchange<ExerciseResponse>) returns (r: Result<ExerciseResponse, Thrown>)
      modifies this
      ensures r == ApiFetch(x)
      ensures r.Failure? ==> entries == old(entries)
      ensures r.Success? ==> entries == old(entries) - {ExercisesKey(data.routineId)}
      ensures r.Success? ==> Read(ExercisesReadKey(Some(data.routineId))).None?
    {
      r := ApiFetch(x);
      if r.Success? {
        Invalidate(ExercisesKey(data.routineId));
      }
    }

    /** `useUpdateExercise`: the list of the routine the caller names. */
    method UpdateExercise(exerciseId: string, routineId: string, x: Exchange<Ack>) returns (r: Result<Ack, Thrown>)
      modifies this
      ensures r == ApiFetch(x)
      ensures r.Failure? ==> entries == old(entries)
      ensures r.Success? ==> entries == old(entries) - {ExercisesKey(routineId)}
    {
      r := ApiFetch(x);
      if r.Success? {
        Invalidate(ExercisesKey(routineId));
      }
    }

    /** `useDeleteExercise`: its routine's list and its own photo list. */
    method DeleteExercise(exerciseId: string, routineId: string, x: Exchange<ExerciseDeleted>) returns (r: Result<ExerciseDeleted, Thrown>)
      modifies this
      ensures r == ApiFetch(x)
      ensures r.Failure? ==> entries == old(entries)
      ensures r.Success? ==> entries == old(entries) - {ExercisesKey(routineId), PhotosKey(exerciseId)}
    {
      r := ApiFetch(x);
      if r.Success? {
        Invalidate(ExercisesKey(routineId));
        Invalidate(PhotosKey(exerciseId));
      }
    }

    /** `useUploadPhoto`: the upload goes through `uploadPhoto`, whose errors are not all `ApiError`s. */
    method UploadPhoto(exerciseId: string, x: Exchange<PhotoUploaded>) returns (r: Result<PhotoUploaded, Thrown>)
      modifies this
      ensures r == UploadPhotoFetch(x)
      ensures r.Failure? ==> entries == old(entries)
      ensures r.Success? ==> entries == old(entries) - {PhotosKey(exerciseId)}
      ensures r.Success? ==> Read(PhotosReadKey(Some(exerciseId))).None?
    {
      r := UploadPhotoFetch(x);
      if r.Success? {
        Invalidate(PhotosKey(exerciseId));
      }
    }

    /** `useDeletePhoto`: the photo list of the exercise the caller names. */
    method DeletePhoto(photoId: string, exerciseId: string, x: Exchange<Ack>) returns (r: Result<Ack, Thrown>)
      modifies this
      ensures r == ApiFetch(x)
      ensures r.Failure? ==> entries == old(entries)
      ensures r.Success? ==> entries == old(entries) - {PhotosKey(exerciseId)}
    {
      r := ApiFetch(x);
      if r.Success? {
        Invalidate(PhotosKey(exerciseId));
      }
    }
  }
}
