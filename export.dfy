/**
 * Backup of the local database to a JSON document and restore from one.
 *
 * Export walks the routines in date order, each routine's exercises in `order`,
 * and each exercise's photos in key order, dropping every local key. Import
 * checks the whole document before writing anything, then adds every routine,
 * exercise and photo inside one read-write transaction: existing data is kept,
 * each routine goes after the routines already on its day, and a photo that
 * cannot be decoded aborts the transaction, undoing every write.
 *
 * Reading a blob as base64 (`blobToBase64`) and `atob` are parameters.
 */
module Export {
  import opened Wrappers
  import opened Text
  import opened Js
  import opened Calendar
  import opened Dates
  import opened LocalDb
  import Seqs

  const ExportVersion := 1

  datatype ExportPhoto = ExportPhoto(timestamp: int, base64: string, mimeType: string)

  datatype ExportExercise = ExportExercise(
    name: string, repetitions: int, weight: int, sets: int, setsCompleted: Option<int>,
    time: Option<string>, distance: int, order: int, photos: seq<ExportPhoto>)

  datatype ExportRoutine = ExportRoutine(date: string, name: string, order: int, exercises: seq<ExportExercise>)

  datatype ExportData = ExportData(version: int, exportDate: string, routines: seq<ExportRoutine>)

  // ---------------------------------------------------------------- export

  /** `orderBy('date')`: routines by their date string. */
  function ByDate(a: Routine, b: Routine): bool
  {
    LexLeq(a.date, b.date)
  }

  /** `sortBy('order')`: exercises by their `order`. */
  function ByOrder(a: Exercise, b: Exercise): bool
  {
    a.order <= b.order
  }

  function PhotoOut(p: Photo, encode: seq<int> -> string): ExportPhoto
  {
    ExportPhoto(p.timestamp, encode(p.blob), p.mimeType)
  }

  function PhotosOut(photos: seq<Photo>, encode: seq<int> -> string): (r: seq<ExportPhoto>)
    ensures |r| == |photos|
    ensures forall i :: 0 <= i < |r| ==> r[i] == PhotoOut(photos[i], encode)
  {
    if photos == [] then [] else PhotosOut(photos[..|photos| - 1], encode) + [PhotoOut(photos[|photos| - 1], encode)]
  }

  /** An exercise without its keys, with its photos in key order. */
  function ExerciseOut(t: Tables, e: Exercise, encode: seq<int> -> string): ExportExercise
  {
    ExportExercise(e.name, e.repetitions, e.weight, e.sets, e.setsCompleted, e.time, e.distance, e.order,
                   PhotosOut(Seqs.Filter(OfExercise(e.id), t.photos), encode))
  }

  function ExercisesOut(t: Tables, es: seq<Exercise>, encode: seq<int> -> string): (r: seq<ExportExercise>)
    ensures |r| == |es|
    ensures forall i :: 0 <= i < |r| ==> r[i] == ExerciseOut(t, es[i], encode)
  {
    if es == [] then [] else ExercisesOut(t, es[..|es| - 1], encode) + [ExerciseOut(t, es[|es| - 1], encode)]
  }

  /** The exercises of a routine in the order export lists them. */
  function SortedExercises(t: Tables, routineId: nat): seq<Exercise>
  {
    Seqs.SortBy(ByOrder, Seqs.Filter(InRoutine(routineId), t.exercises))
  }

  /** A routine without its key, with its exercises by `order`. */
  function RoutineOut(t: Tables, r: Routine, encode: seq<int> -> string): ExportRoutine
  {
    ExportRoutine(r.date, r.name, r.order, ExercisesOut(t, SortedExercises(t, r.id), encode))
  }

  function RoutinesOut(t: Tables, rs: seq<Routine>, encode: seq<int> -> string): (r: seq<ExportRoutine>)
    ensures |r| == |rs|
    ensures forall i :: 0 <= i < |r| ==> r[i] == RoutineOut(t, rs[i], encode)
  {
    if rs == [] then [] else RoutinesOut(t, rs[..|rs| - 1], encode) + [RoutineOut(t, rs[|rs| - 1], encode)]
  }

  /** `exportDatabase()` on the given tables, dated `today`. */
  function ExportOf(t: Tables, today: Date, encode: seq<int> -> string): ExportData
  {
    ExportData(ExportVersion, ToLocalDateStr(today), RoutinesOut(t, Seqs.SortBy(ByDate, t.routines), encode))
  }

  /** `exportDatabase()`: one loop per level, each pushing what the level below produced. */
  method ExportDatabase(db: PumpDb, today: Date, encode: seq<int> -> string) returns (d: ExportData)
    ensures d == ExportOf(db.State(), today, encode)
  {
    var routines := Seqs.SortBy(ByDate, db.routines);
    var out: seq<ExportRoutine> := [];
    for i := 0 to |routines|
      invariant out == RoutinesOut(db.State(), routines[..i], encode)
    {
      var exercises := ExportExercises(db, routines[i].id, encode);
      out := out + [ExportRoutine(routines[i].date, routines[i].name, routines[i].order, exercises)];
      assert routines[..i + 1][..i] == routines[..i];
    }
    assert routines[..|routines|] == routines;
    d := ExportData(ExportVersion, ToLocalDateStr(today), out);
  }

  method ExportExercises(db: PumpDb, routineId: nat, encode: seq<int> -> string) returns (out: seq<ExportExercise>)
    ensures out == ExercisesOut(db.State(), SortedExercises(db.State(), routineId), encode)
  {
    var exercises := Seqs.SortBy(ByOrder, db.ExercisesOf(routineId));
    out := [];
    for i := 0 to |exercises|
      invariant out == ExercisesOut(db.State(), exercises[..i], encode)
    {
      var e := exercises[i];
      var photos := ExportPhotos(db, e.id, encode);
      out := out + [ExportExercise(e.name, e.repetitions, e.weight, e.sets, e.setsCompleted, e.time, e.distance, e.order, photos)];
      assert exercises[..i + 1][..i] == exercises[..i];
    }
    assert exercises[..|exercises|] == exercises;
  }

  method ExportPhotos(db: PumpDb, exerciseId: nat, encode: seq<int> -> string) returns (out: seq<ExportPhoto>)
    ensures out == PhotosOut(Seqs.Filter(OfExercise(exerciseId), db.photos), encode)
  {
    var photos := db.PhotosOf(exerciseId);
    out := [];
    for i := 0 to |photos|
      invariant out == PhotosOut(photos[..i], encode)
    {
      out := out + [ExportPhoto(photos[i].timestamp, encode(photos[i].blob), photos[i].mimeType)];
      assert photos[..i + 1][..i] == photos[..i];
    }
    assert photos[..|photos|] == photos;
  }

  /**
   * An export has version 1 and today's date, lists every routine once, in date
   * order, and lists each routine's exercises by `order`.
   */
  lemma ExportShape(t: Tables, today: Date, encode: seq<int> -> string)
    ensures var d := ExportOf(t, today, encode);
      && d.version == 1 && d.exportDate == ToLocalDateStr(today)
      && |d.routines| == |t.routines|
      && (forall i, j :: 0 <= i < j < |d.routines| ==> LexLeq(d.routines[i].date, d.routines[j].date))
      && (forall i :: 0 <= i < |d.routines| ==>
            forall j, k :: 0 <= j < k < |d.routines[i].exercises| ==>
              d.routines[i].exercises[j].order <= d.routines[i].exercises[k].order)
  {
    var sorted := Seqs.SortBy(ByDate, t.routines);
    DatesTotal(t.routines);
    Seqs.SortSorted(ByDate, t.routines);
    var d := ExportOf(t, today, encode);
    forall i | 0 <= i < |d.routines|
      ensures forall j, k :: 0 <= j < k < |d.routines[i].exercises| ==>
        d.routines[i].exercises[j].order <= d.routines[i].exercises[k].order
    {
      var es := Seqs.Filter(InRoutine(sorted[i].id), t.exercises);
      OrdersTotal(es);
      Seqs.SortSorted(ByOrder, es);
    }
  }

  /** Every routine of the database is exported, once each. */
  lemma ExportListsEveryRoutine(t: Tables, today: Date, encode: seq<int> -> string)
    ensures multiset(Seqs.SortBy(ByDate, t.routines)) == multiset(t.routines)
    ensures forall i :: 0 <= i < |t.routines| ==>
      exists k :: (0 <= k < |ExportOf(t, today, encode).routines|
        && ExportOf(t, today, encode).routines[k] == RoutineOut(t, t.routines[i], encode))
  {
    var sorted := Seqs.SortBy(ByDate, t.routines);
    Seqs.SortPermutes(ByDate, t.routines);
    forall i | 0 <= i < |t.routines|
      ensures exists k :: (0 <= k < |ExportOf(t, today, encode).routines|
        && ExportOf(t, today, encode).routines[k] == RoutineOut(t, t.routines[i], encode))
    {
      assert t.routines[i] in multiset(sorted);
      var k :| 0 <= k < |sorted| && sorted[k] == t.routines[i];
      assert ExportOf(t, today, encode).routines[k] == RoutineOut(t, sorted[k], encode);
    }
  }

  lemma DatesTotal(rs: seq<Routine>)
    ensures Seqs.TotalPreorderOn(ByDate, rs)
  {
    forall a, b | a in rs && b in rs
      ensures ByDate(a, b) || ByDate(b, a)
    {
      LexLeqTotal(a.date, b.date);
    }
    forall a, b, c | a in rs && b in rs && c in rs && ByDate(a, b) && ByDate(b, c)
      ensures ByDate(a, c)
    {
      LexLeqTransitive(a.date, b.date, c.date);
    }
  }

  lemma OrdersTotal(es: seq<Exercise>)
    ensures Seqs.TotalPreorderOn(ByOrder, es)
  {
  }

  // ---------------------------------------------------------------- base64ToBlob

  /** A `Uint8Array` element assignment keeps the low eight bits of the value stored. */
  function Uint8(c: char): (b: int)
    ensures 0 <= b < 256
    ensures (c as int) < 256 ==> b == c as int
  {
    (c as int) % 256
  }

  /** The byte loop of `base64ToBlob`: byte `i` is the code of character `i` of the decoded string. */
  method BytesOf(byteString: string) returns (bytes: array<int>)
    ensures fresh(bytes)
    ensures bytes.Length == |byteString|
    ensures forall i :: 0 <= i < bytes.Length ==> bytes[i] == Uint8(byteString[i])
  {
    bytes := new int[|byteString|];
    for i := 0 to |byteString|
      invariant forall k :: 0 <= k < i ==> bytes[k] == Uint8(byteString[k])
    {
      bytes[i] := Uint8(byteString[i]);
    }
  }

  /** The bytes of a decoded string, as the loop leaves them. */
  function Bytes(byteString: string): (r: seq<int>)
    ensures |r| == |byteString|
    ensures forall i :: 0 <= i < |r| ==> r[i] == Uint8(byteString[i])
  {
    if byteString == [] then [] else Bytes(byteString[..|byteString| - 1]) + [Uint8(byteString[|byteString| - 1])]
  }

  /** `atob` yields characters below 256 only, so no byte is truncated: the blob holds exactly the decoded codes. */
  lemma DecodedBytesExact(byteString: string)
    requires forall i :: 0 <= i < |byteString| ==> (byteString[i] as int) < 256
    ensures forall i :: 0 <= i < |Bytes(byteString)| ==> Bytes(byteString)[i] == byteString[i] as int
  {
  }

  // ---------------------------------------------------------------- import validation

  /**
   * A parsed import document: `version` and `exportDate` may be any JSON value,
   * and `routines` is `None` when it is missing, falsy or not an array.
   */
  datatype ImportData = ImportData(version: JsValue, exportDate: JsValue, routines: Option<seq<ExportRoutine>>)

  /** Why an import failed: a rejected document, or a photo `atob` could not decode, which aborts the transaction. */
  datatype ImportError = Invalid(message: string) | Aborted

  /** The first routine date that fails the format check, if any (the validation loop's `throw`). */
  function FirstBadDate(rs: seq<ExportRoutine>): (r: Option<string>)
    ensures r.None? <==> forall i :: 0 <= i < |rs| ==> MatchesDatePattern(rs[i].date)
    ensures r.Some? ==> exists i :: 0 <= i < |rs| && rs[i].date == r.value && !MatchesDatePattern(r.value)
  {
    if rs == [] then None
    else if !MatchesDatePattern(rs[0].date) then Some(rs[0].date)
    else
      var r := FirstBadDate(rs[1..]);
      assert forall i :: 1 <= i < |rs| ==> rs[i] == rs[1..][i - 1];
      r
  }

  /** The checks `importDatabase` makes, in order, before it opens the transaction. */
  function Validate(data: ImportData): (r: Result<seq<ExportRoutine>, ImportError>)
    ensures r.Success? <==>
      && data.version == Num(ExportVersion)
      && data.routines.Some?
      && MatchesDatePattern(ToStr(data.exportDate))
      && (forall i :: 0 <= i < |data.routines.value| ==> MatchesDatePattern(data.routines.value[i].date))
    ensures r.Success? ==> r.value == data.routines.value
    ensures r.Failure? ==> r.error.Invalid?
  {
    if data.version != Num(ExportVersion) then
      Failure(Invalid("Unsupported export version: " + ToStr(data.version) + ". Expected version 1."))
    else if data.routines.None? then
      Failure(Invalid("Invalid export data: missing or invalid routines array."))
    else if !MatchesDatePattern(ToStr(data.exportDate)) then
      Failure(Invalid("Invalid export data: invalid export date format."))
    else match FirstBadDate(data.routines.value)
      case Some(date) => Failure(Invalid("Invalid date format in routine: " + date))
      case None => Success(data.routines.value)
  }

  /** An export document as import reads it back. */
  function AsImport(d: ExportData): ImportData
  {
    ImportData(Num(d.version), Str(d.exportDate), Some(d.routines))
  }

  /**
   * Export and import agree: an export passes import's checks exactly when its
   * date and every routine's date are `YYYY-MM-DD` strings, that is, when today's
   * year has four digits and every routine's date does.
   */
  lemma ExportValidates(t: Tables, today: Date, encode: seq<int> -> string)
    requires Valid(today)
    ensures var d := ExportOf(t, today, encode);
      Validate(AsImport(d)).Success? <==>
        1000 <= today.year <= 9999 && forall i :: 0 <= i < |t.routines| ==> MatchesDatePattern(t.routines[i].date)
  {
    var d := ExportOf(t, today, encode);
    LocalDateStrMatches(today);
    assert ToStr(Str(d.exportDate)) == ToLocalDateStr(today);
    ExportedDates(t, today, encode);
  }

  /** The exported routines carry exactly the dates of the stored ones. */
  lemma ExportedDates(t: Tables, today: Date, encode: seq<int> -> string)
    ensures (forall i :: 0 <= i < |t.routines| ==> MatchesDatePattern(t.routines[i].date)) <==>
      (forall k :: 0 <= k < |ExportOf(t, today, encode).routines| ==> MatchesDatePattern(ExportOf(t, today, encode).routines[k].date))
  {
    var sorted := Seqs.SortBy(ByDate, t.routines);
    var out := RoutinesOut(t, sorted, encode);
    assert ExportOf(t, today, encode).routines == out;
    assert forall k :: 0 <= k < |out| ==> out[k].date == sorted[k].date;
    Seqs.SortPermutes(ByDate, t.routines);
    PermutedDates(t.routines, sorted);
  }

  /** Reordering the routines neither adds nor removes a date. */
  lemma PermutedDates(rs: seq<Routine>, qs: seq<Routine>)
    requires multiset(rs) == multiset(qs)
    ensures (forall i :: 0 <= i < |rs| ==> MatchesDatePattern(rs[i].date)) <==>
      (forall k :: 0 <= k < |qs| ==> MatchesDatePattern(qs[k].date))
  {
    if forall i :: 0 <= i < |rs| ==> MatchesDatePattern(rs[i].date) {
      forall k | 0 <= k < |qs|
        ensures MatchesDatePattern(qs[k].date)
      {
        assert qs[k] in multiset(rs);
      }
    }
    if forall k :: 0 <= k < |qs| ==> MatchesDatePattern(qs[k].date) {
      forall i | 0 <= i < |rs|
        ensures MatchesDatePattern(rs[i].date)
      {
        assert rs[i] in multiset(qs);
      }
    }
  }

  // ---------------------------------------------------------------- import

  /**
   * Steps run one after another inside the transaction: each sees the tables the
   * previous one left, and the first step that throws ends the run (`None`).
   */
  function Fold<T>(step: (Tables, T) -> Option<Tables>, t: Tables, xs: seq<T>): Option<Tables>
  {
    if xs == [] then Some(t)
    else match Fold(step, t, xs[..|xs| - 1])
      case None => None
      case Some(u) => step(u, xs[|xs| - 1])
  }

  /** One more step of a run over a prefix of `xs`. */
  lemma FoldStep<T>(step: (Tables, T) -> Option<Tables>, t: Tables, xs: seq<T>, i: nat)
    requires i < |xs|
    ensures Fold(step, t, xs[..i + 1]) == match Fold(step, t, xs[..i]) { case None => None case Some(u) => step(u, xs[i]) }
  {
    assert xs[..i + 1][..i] == xs[..i];
  }

  /** A run that throws on a prefix throws on the whole sequence. */
  lemma {:induction false} FoldThrows<T>(step: (Tables, T) -> Option<Tables>, t: Tables, xs: seq<T>, i: nat)
    requires i <= |xs| && Fold(step, t, xs[..i]).None?
    ensures Fold(step, t, xs).None?
    decreases |xs| - i
  {
    if i < |xs| {
      FoldStep(step, t, xs, i);
      FoldThrows(step, t, xs, i + 1);
    } else {
      assert xs[..i] == xs;
    }
  }

  /** The rows in `u` that were not in `t` were added after them; no row was changed or removed. */
  predicate Extends(t: Tables, u: Tables)
  {
    && t.routines <= u.routines && t.exercises <= u.exercises && t.photos <= u.photos
    && t.nextRoutineId <= u.nextRoutineId && t.nextExerciseId <= u.nextExerciseId && t.nextPhotoId <= u.nextPhotoId
  }

  lemma ExtendsTransitive(a: Tables, b: Tables, c: Tables)
    requires Extends(a, b) && Extends(b, c)
    ensures Extends(a, c)
  {
  }

  lemma {:induction false} FoldExtends<T>(step: (Tables, T) -> Option<Tables>, t: Tables, xs: seq<T>)
    requires forall u, x :: step(u, x).Some? ==> Extends(u, step(u, x).value)
    ensures Fold(step, t, xs).Some? ==> Extends(t, Fold(step, t, xs).value)
  {
    if xs != [] {
      FoldExtends(step, t, xs[..|xs| - 1]);
    }
  }

  /** Rows that leave the routines table alone. */
  predicate SameRoutines(t: Tables, u: Tables)
  {
    u.routines == t.routines && u.nextRoutineId == t.nextRoutineId
  }

  lemma {:induction false} FoldSameRoutines<T>(step: (Tables, T) -> Option<Tables>, t: Tables, xs: seq<T>)
    requires forall u, x :: step(u, x).Some? ==> SameRoutines(u, step(u, x).value)
    ensures Fold(step, t, xs).Some? ==> SameRoutines(t, Fold(step, t, xs).value)
  {
    if xs != [] {
      FoldSameRoutines(step, t, xs[..|xs| - 1]);
    }
  }

  /** The largest `order` among routines: `Math.max(...orders)`. */
  function MaxOrder(rs: seq<Routine>): (m: int)
    requires rs != []
    ensures forall i :: 0 <= i < |rs| ==> rs[i].order <= m
    ensures exists i :: 0 <= i < |rs| && rs[i].order == m
  {
    if |rs| == 1 then rs[0].order
    else
      var m := MaxOrder(rs[..|rs| - 1]);
      var last := rs[|rs| - 1].order;
      if m < last then last else m
  }

  /** The order an imported routine gets: one past the largest order on its date, or 1. */
  function NextOrder(t: Tables, date: string): int
  {
    var existing := Seqs.Filter(OnDate(date), t.routines);
    (if |existing| > 0 then MaxOrder(existing) else 0) + 1
  }

  /** Adding one photo, decoded by `atob`: a string `atob` rejects throws. */
  function PhotoStep(exerciseId: nat, atob: string -> Option<string>): (Tables, ExportPhoto) -> Option<Tables>
  {
    (t: Tables, p: ExportPhoto) =>
      match atob(p.base64)
      case None => None
      case Some(byteString) => Some(AddPhoto(t, Photo(0, exerciseId, Bytes(byteString), p.mimeType, p.timestamp)))
  }

  /** Adding one exercise of routine `routineId`, then its photos. */
  function ImportExercise(t: Tables, routineId: nat, x: ExportExercise, atob: string -> Option<string>): Option<Tables>
  {
    var e := Exercise(0, routineId, x.name, x.repetitions, x.weight, x.sets, x.setsCompleted, x.time, x.distance, x.order);
    Fold(PhotoStep(t.nextExerciseId, atob), AddExercise(t, e), x.photos)
  }

  function ExerciseStep(routineId: nat, atob: string -> Option<string>): (Tables, ExportExercise) -> Option<Tables>
  {
    (t: Tables, x: ExportExercise) => ImportExercise(t, routineId, x, atob)
  }

  /** Adding one routine after those already on its date, then its exercises. */
  function ImportRoutine(t: Tables, x: ExportRoutine, atob: string -> Option<string>): Option<Tables>
  {
    Fold(ExerciseStep(t.nextRoutineId, atob), AddRoutine(t, x.date, x.name, NextOrder(t, x.date)), x.exercises)
  }

  function RoutineStep(atob: string -> Option<string>): (Tables, ExportRoutine) -> Option<Tables>
  {
    (t: Tables, x: ExportRoutine) => ImportRoutine(t, x, atob)
  }

  /** The transaction of `importDatabase` on tables `t`: `None` when it aborts. */
  function ImportAll(t: Tables, routines: seq<ExportRoutine>, atob: string -> Option<string>): Option<Tables>
  {
    Fold(RoutineStep(atob), t, routines)
  }

  /** `importDatabase(data)`: every check first, then one transaction that is undone if any write throws. */
  method ImportDatabase(db: PumpDb, data: ImportData, atob: string -> Option<string>) returns (r: Result<(), ImportError>)
    requires db.Valid()
    modifies db
    ensures db.Valid() && db.version == old(db.version)
    ensures Validate(data).Failure? ==> r == Failure(Validate(data).error) && db.State() == old(db.State())
    ensures Validate(data).Success? ==>
      match ImportAll(old(db.State()), data.routines.value, atob)
      case None => r == Failure(Aborted) && db.State() == old(db.State())
      case Some(t) => r == Success(()) && db.State() == t
  {
    var checked := Validate(data);
    if checked.Failure? {
      return Failure(checked.error);
    }
    var snapshot := db.State();
    var ok := ImportRoutines(db, checked.value, atob);
    if !ok {
      db.Restore(snapshot);
      return Failure(Aborted);
    }
    r := Success(());
  }

  /** The routine loop of the transaction; on `false` the tables are left for the caller to roll back. */
  method ImportRoutines(db: PumpDb, xs: seq<ExportRoutine>, atob: string -> Option<string>) returns (ok: bool)
    requires db.Valid()
    modifies db
    ensures db.Valid() && db.version == old(db.version)
    ensures ok <==> ImportAll(old(db.State()), xs, atob).Some?
    ensures ok ==> db.State() == ImportAll(old(db.State()), xs, atob).value
  {
    ghost var t0 := db.State();
    var i := 0;
    while i < |xs|
      invariant i <= |xs|
      invariant db.Valid() && db.version == old(db.version)
      invariant Fold(RoutineStep(atob), t0, xs[..i]) == Some(db.State())
    {
      FoldStep(RoutineStep(atob), t0, xs, i);
      ok := ImportOneRoutine(db, xs[i], atob);
      if !ok {
        FoldThrows(RoutineStep(atob), t0, xs, i + 1);
        return;
      }
      i := i + 1;
    }
    assert xs[..i] == xs;
    ok := true;
  }

  /** One pass of the routine loop: the routine after those on its date, then its exercises. */
  method ImportOneRoutine(db: PumpDb, x: ExportRoutine, atob: string -> Option<string>) returns (ok: bool)
    requires db.Valid()
    modifies db
    ensures db.Valid() && db.version == old(db.version)
    ensures ok <==> ImportRoutine(old(db.State()), x, atob).Some?
    ensures ok ==> db.State() == ImportRoutine(old(db.State()), x, atob).value
  {
    var existing := db.RoutinesOn(x.date);
    var maxOrder := if |existing| > 0 then MaxOrder(existing) else 0;
    var routineId := db.InsertRoutine(x.date, x.name, maxOrder + 1);
    ok := ImportExercises(db, routineId, x.exercises, atob);
  }

  /** One pass of the exercise loop: the exercise, then its photos. */
  method ImportOneExercise(db: PumpDb, routineId: nat, x: ExportExercise, atob: string -> Option<string>) returns (ok: bool)
    requires db.Valid()
    modifies db
    ensures db.Valid() && db.version == old(db.version)
    ensures ok <==> ImportExercise(old(db.State()), routineId, x, atob).Some?
    ensures ok ==> db.State() == ImportExercise(old(db.State()), routineId, x, atob).value
  {
    var exerciseId := db.InsertExercise(Exercise(0, routineId, x.name, x.repetitions, x.weight, x.sets, x.setsCompleted, x.time, x.distance, x.order));
    ok := ImportPhotos(db, exerciseId, x.photos, atob);
  }

  method ImportExercises(db: PumpDb, routineId: nat, xs: seq<ExportExercise>, atob: string -> Option<string>) returns (ok: bool)
    requires db.Valid()
    modifies db
    ensures db.Valid() && db.version == old(db.version)
    ensures ok <==> Fold(ExerciseStep(routineId, atob), old(db.State()), xs).Some?
    ensures ok ==> db.State() == Fold(ExerciseStep(routineId, atob), old(db.State()), xs).value
  {
    ghost var t0 := db.State();
    var i := 0;
    while i < |xs|
      invariant i <= |xs|
      invariant db.Valid() && db.version == old(db.version)
      invariant Fold(ExerciseStep(routineId, atob), t0, xs[..i]) == Some(db.State())
    {
      FoldStep(ExerciseStep(routineId, atob), t0, xs, i);
      ok := ImportOneExercise(db, routineId, xs[i], atob);
      if !ok {
        FoldThrows(ExerciseStep(routineId, atob), t0, xs, i + 1);
        return;
      }
      i := i + 1;
    }
    assert xs[..i] == xs;
    ok := true;
  }

  method ImportPhotos(db: PumpDb, exerciseId: nat, ps: seq<ExportPhoto>, atob: string -> Option<string>) returns (ok: bool)
    requires db.Valid()
    modifies db
    ensures db.Valid() && db.version == old(db.version)
    ensures ok <==> Fold(PhotoStep(exerciseId, atob), old(db.State()), ps).Some?
    ensures ok ==> db.State() == Fold(PhotoStep(exerciseId, atob), old(db.State()), ps).value
  {
    ghost var t0 := db.State();
    var i := 0;
    while i < |ps|
      invariant i <= |ps|
      invariant db.Valid() && db.version == old(db.version)
      invariant Fold(PhotoStep(exerciseId, atob), t0, ps[..i]) == Some(db.State())
    {
      FoldStep(PhotoStep(exerciseId, atob), t0, ps, i);
      var decoded := atob(ps[i].base64);
      if decoded.None? {
        FoldThrows(PhotoStep(exerciseId, atob), t0, ps, i + 1);
        return false;
      }
      var bytes := BytesOf(decoded.value);
      assert bytes[..] == Bytes(decoded.value);
      var _ := db.InsertPhoto(Photo(0, exerciseId, bytes[..], ps[i].mimeType, ps[i].timestamp));
      i := i + 1;
    }
    assert ps[..i] == ps;
    ok := true;
  }

  // ---------------------------------------------------------------- what an import adds

  /** The order given on a date is above every order already on that date, and 1 on an empty date. */
  lemma NextOrderAbove(t: Tables, date: string)
    ensures forall i :: 0 <= i < |t.routines| && t.routines[i].date == date ==> t.routines[i].order < NextOrder(t, date)
    ensures (forall i :: 0 <= i < |t.routines| ==> t.routines[i].date != date) ==> NextOrder(t, date) == 1
  {
    var existing := Seqs.Filter(OnDate(date), t.routines);
    forall i | 0 <= i < |t.routines| && t.routines[i].date == date
      ensures t.routines[i].order < NextOrder(t, date)
    {
      Seqs.FilterMembership(OnDate(date), t.routines, t.routines[i]);
    }
    if |existing| > 0 {
      Seqs.FilterMembership(OnDate(date), t.routines, existing[0]);
    }
  }

  /** A routine added with the next order on its date makes the following one on that date one higher. */
  lemma NextOrderAfterAdd(t: Tables, date: string, name: string)
    ensures NextOrder(AddRoutine(t, date, name, NextOrder(t, date)), date) == NextOrder(t, date) + 1
  {
    var n := NextOrder(t, date);
    var r := Routine(t.nextRoutineId, date, name, n);
    var u := AddRoutine(t, date, name, n);
    var existing := Seqs.Filter(OnDate(date), t.routines);
    assert u.routines[..|t.routines|] == t.routines;
    assert Seqs.Filter(OnDate(date), u.routines) == existing + [r];
    if |existing| > 0 {
      assert (existing + [r])[..|existing|] == existing;
    }
  }

  /** Importing photos adds exactly one decoded photo row per entry, in order, and nothing else. */
  lemma {:induction false} PhotoRows(t: Tables, exerciseId: nat, ps: seq<ExportPhoto>, atob: string -> Option<string>)
    requires Fold(PhotoStep(exerciseId, atob), t, ps).Some?
    ensures var u := Fold(PhotoStep(exerciseId, atob), t, ps).value;
      && SameRoutines(t, u) && u.exercises == t.exercises && u.nextExerciseId == t.nextExerciseId
      && |u.photos| == |t.photos| + |ps| && u.photos[..|t.photos|] == t.photos && u.nextPhotoId == t.nextPhotoId + |ps|
      && forall j :: 0 <= j < |ps| ==>
           atob(ps[j].base64).Some?
           && u.photos[|t.photos| + j] == Photo(t.nextPhotoId + j, exerciseId, Bytes(atob(ps[j].base64).value), ps[j].mimeType, ps[j].timestamp)
  {
    if ps != [] {
      var init := ps[..|ps| - 1];
      PhotoRows(t, exerciseId, init, atob);
      var mid := Fold(PhotoStep(exerciseId, atob), t, init).value;
      var p := ps[|ps| - 1];
      assert Fold(PhotoStep(exerciseId, atob), t, ps) == PhotoStep(exerciseId, atob)(mid, p);
      var u := AddPhoto(mid, Photo(0, exerciseId, Bytes(atob(p.base64).value), p.mimeType, p.timestamp));
      assert Fold(PhotoStep(exerciseId, atob), t, ps) == Some(u);
      assert u.photos[..|t.photos|] == mid.photos[..|t.photos|];
    }
  }

  /** The row an imported exercise becomes: the next key, routine `routineId`, and the exported fields. */
  function ExerciseRow(id: nat, routineId: nat, x: ExportExercise): Exercise
  {
    Exercise(id, routineId, x.name, x.repetitions, x.weight, x.sets, x.setsCompleted, x.time, x.distance, x.order)
  }

  /** Importing a routine's exercises adds one row per entry, all pointing to that routine, and keeps every photo. */
  lemma {:induction false} ExerciseRows(t: Tables, routineId: nat, xs: seq<ExportExercise>, atob: string -> Option<string>)
    requires Fold(ExerciseStep(routineId, atob), t, xs).Some?
    ensures var u := Fold(ExerciseStep(routineId, atob), t, xs).value;
      && SameRoutines(t, u)
      && |u.exercises| == |t.exercises| + |xs| && u.exercises[..|t.exercises|] == t.exercises
      && u.nextExerciseId == t.nextExerciseId + |xs|
      && (forall j :: 0 <= j < |xs| ==> u.exercises[|t.exercises| + j] == ExerciseRow(t.nextExerciseId + j, routineId, xs[j]))
      && t.photos <= u.photos && t.nextPhotoId <= u.nextPhotoId
  {
    if xs != [] {
      var init := xs[..|xs| - 1];
      var x := xs[|xs| - 1];
      ExerciseRows(t, routineId, init, atob);
      var mid := Fold(ExerciseStep(routineId, atob), t, init).value;
      var added := AddExercise(mid, Exercise(0, routineId, x.name, x.repetitions, x.weight, x.sets, x.setsCompleted, x.time, x.distance, x.order));
      PhotoRows(added, mid.nextExerciseId, x.photos, atob);
      var u := Fold(ExerciseStep(routineId, atob), t, xs).value;
      assert u.exercises == mid.exercises + [ExerciseRow(mid.nextExerciseId, routineId, x)];
      assert u.exercises[..|t.exercises|] == mid.exercises[..|t.exercises|];
    }
  }

  /** Importing one routine adds it after the routines on its date, under the next key, and keeps every row. */
  lemma RoutineRow(t: Tables, x: ExportRoutine, atob: string -> Option<string>)
    requires ImportRoutine(t, x, atob).Some?
    ensures var u := ImportRoutine(t, x, atob).value;
      && u.routines == t.routines + [Routine(t.nextRoutineId, x.date, x.name, NextOrder(t, x.date))]
      && u.nextRoutineId == t.nextRoutineId + 1
      && Extends(t, u)
  {
    ExerciseRows(AddRoutine(t, x.date, x.name, NextOrder(t, x.date)), t.nextRoutineId, x.exercises, atob);
  }

  /** The exercises of an imported routine follow the existing ones, in file order, and all point to the new routine. */
  lemma RoutineExercises(t: Tables, x: ExportRoutine, atob: string -> Option<string>)
    requires ImportRoutine(t, x, atob).Some?
    ensures var u := ImportRoutine(t, x, atob).value;
      && |u.exercises| == |t.exercises| + |x.exercises| && u.exercises[..|t.exercises|] == t.exercises
      && forall j :: 0 <= j < |x.exercises| ==>
           u.exercises[|t.exercises| + j] == ExerciseRow(t.nextExerciseId + j, t.nextRoutineId, x.exercises[j])
  {
    ExerciseRows(AddRoutine(t, x.date, x.name, NextOrder(t, x.date)), t.nextRoutineId, x.exercises, atob);
  }

  /**
   * An import keeps every existing row and adds one routine per entry, in file
   * order, each with the next key; on any date, each imported routine's order is
   * above every earlier routine's on that date, existing or imported.
   */
  /** The routines `u` has beyond those of `t` are the entries of `xs`, in order, under consecutive new keys. */
  predicate AddedInFileOrder(t: Tables, u: Tables, xs: seq<ExportRoutine>)
  {
    && |u.routines| == |t.routines| + |xs|
    && forall j :: 0 <= j < |xs| ==>
         && u.routines[|t.routines| + j].id == t.nextRoutineId + j
         && u.routines[|t.routines| + j].date == xs[j].date
         && u.routines[|t.routines| + j].name == xs[j].name
  }

  lemma {:induction false} ImportKeepsExisting(t: Tables, xs: seq<ExportRoutine>, atob: string -> Option<string>)
    requires ImportAll(t, xs, atob).Some?
    ensures var u := ImportAll(t, xs, atob).value;
      && Extends(t, u)
      && |u.routines| == |t.routines| + |xs| && u.nextRoutineId == t.nextRoutineId + |xs|
      && AddedInFileOrder(t, u, xs)
  {
    if xs != [] {
      var init := xs[..|xs| - 1];
      var x := xs[|xs| - 1];
      ImportKeepsExisting(t, init, atob);
      var mid := ImportAll(t, init, atob).value;
      RoutineRow(mid, x, atob);
      assert ImportAll(t, xs, atob) == ImportRoutine(mid, x, atob);
      var u := ImportAll(t, xs, atob).value;
      ExtendsTransitive(t, mid, u);
      forall j | 0 <= j < |xs|
        ensures && u.routines[|t.routines| + j].id == t.nextRoutineId + j
                && u.routines[|t.routines| + j].date == xs[j].date
                && u.routines[|t.routines| + j].name == xs[j].name
      {
        if j < |init| {
          assert u.routines[|t.routines| + j] == mid.routines[|t.routines| + j] && xs[j] == init[j];
        }
      }
    }
  }

  /**
   * On any date, each imported routine's order is above the order of every
   * routine before it on that date, existing or imported earlier in the file.
   */
  lemma {:induction false} ImportOrdersAfterExisting(t: Tables, xs: seq<ExportRoutine>, atob: string -> Option<string>)
    requires ImportAll(t, xs, atob).Some?
    ensures var u := ImportAll(t, xs, atob).value;
      && |u.routines| == |t.routines| + |xs|
      && forall i, j :: 0 <= j < |xs| && 0 <= i < |t.routines| + j && u.routines[i].date == xs[j].date ==>
           u.routines[i].order < u.routines[|t.routines| + j].order
  {
    if xs != [] {
      var init := xs[..|xs| - 1];
      var x := xs[|xs| - 1];
      ImportOrdersAfterExisting(t, init, atob);
      ImportKeepsExisting(t, init, atob);
      var mid := ImportAll(t, init, atob).value;
      RoutineRow(mid, x, atob);
      NextOrderAbove(mid, x.date);
      assert ImportAll(t, xs, atob) == ImportRoutine(mid, x, atob);
      var u := ImportAll(t, xs, atob).value;
      assert u.routines[..|mid.routines|] == mid.routines;
      forall i, j | 0 <= j < |xs| && 0 <= i < |t.routines| + j && u.routines[i].date == xs[j].date
        ensures u.routines[i].order < u.routines[|t.routines| + j].order
      {
        if j < |init| {
          assert xs[j] == init[j];
          assert u.routines[i] == mid.routines[i] && u.routines[|t.routines| + j] == mid.routines[|t.routines| + j];
        } else {
          assert u.routines[i] == mid.routines[i];
        }
      }
    }
  }

  /** Importing two routines is importing the first, then the second into the result. */
  lemma ImportTwo(t: Tables, x: ExportRoutine, y: ExportRoutine, atob: string -> Option<string>)
    ensures ImportAll(t, [x, y], atob) == match ImportRoutine(t, x, atob) { case None => None case Some(m) => ImportRoutine(m, y, atob) }
  {
    FoldStep(RoutineStep(atob), t, [x, y], 0);
    FoldStep(RoutineStep(atob), t, [x, y], 1);
    assert [x, y][..0] == [] && [x, y][..2] == [x, y];
  }

  /** Two routines imported one after the other onto the same date get consecutive orders. */
  lemma SameDateConsecutive(t: Tables, x: ExportRoutine, y: ExportRoutine, atob: string -> Option<string>)
    requires x.date == y.date && ImportAll(t, [x, y], atob).Some?
    ensures var u := ImportAll(t, [x, y], atob).value;
      var n := NextOrder(t, x.date);
      u.routines == t.routines + [Routine(t.nextRoutineId, x.date, x.name, n), Routine(t.nextRoutineId + 1, y.date, y.name, n + 1)]
  {
    ImportTwo(t, x, y, atob);
    var n := NextOrder(t, x.date);
    var added := AddRoutine(t, x.date, x.name, n);
    var mid := ImportRoutine(t, x, atob).value;
    RoutineRow(t, x, atob);
    RoutineRow(mid, y, atob);
    assert NextOrder(mid, y.date) == n + 1 by {
      ExerciseRows(added, t.nextRoutineId, x.exercises, atob);
      assert mid.routines == added.routines;
      NextOrderAfterAdd(t, x.date, x.name);
    }
  }
}
