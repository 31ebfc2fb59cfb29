/**
 * The browser's own IndexedDB database `PumpDB`, as the Dexie wrapper opens it:
 * three tables with auto-incremented primary keys (routines indexed by date,
 * exercises by routine, photos by exercise), the same layout in versions 1 to 3,
 * and two upgrades that fill in fields older records lack.
 *
 * Each table is a sequence in primary-key order; a new row takes the table's next
 * key, and keys are never reused.
 */
module LocalDb {
  import opened Wrappers
  import Seqs

  datatype Routine = Routine(id: nat, date: string, name: string, order: int)

  /** An exercise record; `setsCompleted` and `time` are missing from records written before versions 3 and 2. */
  datatype Exercise = Exercise(
    id: nat, routineId: nat, name: string, repetitions: int, weight: int, sets: int,
    setsCompleted: Option<int>, time: Option<string>, distance: int, order: int)

  datatype Photo = Photo(id: nat, exerciseId: nat, blob: seq<int>, mimeType: string, timestamp: int)

  /** The contents of the three tables and the next key of each. */
  datatype Tables = Tables(
    routines: seq<Routine>, exercises: seq<Exercise>, photos: seq<Photo>,
    nextRoutineId: nat, nextExerciseId: nat, nextPhotoId: nat)

  function RoutineId(r: Routine): nat { r.id }

  function ExerciseId(e: Exercise): nat { e.id }

  function PhotoId(p: Photo): nat { p.id }

  /** Rows in strictly increasing key order, every key below the table's next key. */
  predicate Keyed<T>(key: T -> nat, rows: seq<T>, next: nat)
  {
    && (forall i, j :: 0 <= i < j < |rows| ==> key(rows[i]) < key(rows[j]))
    && (forall i :: 0 <= i < |rows| ==> key(rows[i]) < next)
  }

  predicate WellKeyed(t: Tables)
  {
    && Keyed(RoutineId, t.routines, t.nextRoutineId)
    && Keyed(ExerciseId, t.exercises, t.nextExerciseId)
    && Keyed(PhotoId, t.photos, t.nextPhotoId)
  }

  lemma {:induction false} FilterKeyed<T>(key: T -> nat, rows: seq<T>, next: nat, p: T -> bool)
    requires Keyed(key, rows, next)
    ensures Keyed(key, Seqs.Filter(p, rows), next)
  {
    if rows != [] {
      var init := rows[..|rows| - 1];
      var last := rows[|rows| - 1];
      FilterKeyed(key, init, key(last), p);
      Seqs.FilterStep(p, rows, |rows| - 1);
      assert rows[..|rows|] == rows;
      var f := Seqs.Filter(p, init);
      forall i | 0 <= i < |f|
        ensures key(f[i]) < key(last)
      {
        Seqs.FilterMembership(p, init, f[i]);
      }
    }
  }

  lemma MapKeyed<T>(key: T -> nat, rows: seq<T>, next: nat, f: T -> T)
    requires Keyed(key, rows, next)
    requires forall i :: 0 <= i < |rows| ==> key(f(rows[i])) == key(rows[i])
    ensures Keyed(key, Seqs.Map(f, rows), next)
  {
  }

  /** A key in a keyed table names one row. */
  lemma KeyedUnique<T>(key: T -> nat, rows: seq<T>, next: nat, i: nat, j: nat)
    requires Keyed(key, rows, next) && i < |rows| && j < |rows| && key(rows[i]) == key(rows[j])
    ensures i == j
  {
  }

  // ---------------------------------------------------------------- schema

  /** A table declaration of `this.version(n).stores({...})`: the name and its key and index spec. */
  datatype Store = Store(table: string, keys: string)

  function Stores(version: nat): (s: seq<Store>)
    requires 1 <= version <= 3
    ensures |s| == 3 && s[0].table == "routines" && s[1].table == "exercises" && s[2].table == "exercisePhotos"
  {
    if version == 1 then
      [Store("routines", "++id, date"), Store("exercises", "++id, routineId"), Store("exercisePhotos", "++id, exerciseId")]
    else if version == 2 then
      [Store("routines", "++id, date"), Store("exercises", "++id, routineId"), Store("exercisePhotos", "++id, exerciseId")]
    else
      [Store("routines", "++id, date"), Store("exercises", "++id, routineId"), Store("exercisePhotos", "++id, exerciseId")]
  }

  /** Versions 2 and 3 change no key, index or auto-increment: only the upgrade functions differ. */
  lemma LayoutUnchanged(version: nat)
    requires 1 <= version <= 3
    ensures Stores(version) == Stores(1)
  {
  }

  // ---------------------------------------------------------------- upgrades

  const DefaultTime := "00:00"

  /** The version 2 upgrade of one record: `if (ex.time === undefined) ex.time = '00:00'`. */
  function WithTime(e: Exercise): (r: Exercise)
    ensures r.time.Some?
    ensures e.time.Some? ==> r == e
    ensures e.time.None? ==> r.time == Some(DefaultTime)
    ensures r.(time := e.time) == e
  {
    if e.time.None? then e.(time := Some(DefaultTime)) else e
  }

  /** The version 3 upgrade of one record: `if (ex.setsCompleted === undefined) ex.setsCompleted = 0`. */
  function WithSetsCompleted(e: Exercise): (r: Exercise)
    ensures r.setsCompleted.Some?
    ensures e.setsCompleted.Some? ==> r == e
    ensures e.setsCompleted.None? ==> r.setsCompleted == Some(0)
    ensures r.(setsCompleted := e.setsCompleted) == e
  {
    if e.setsCompleted.None? then e.(setsCompleted := Some(0)) else e
  }

  /** A record with every field the current schema declares. */
  predicate Current(e: Exercise)
  {
    e.time.Some? && e.setsCompleted.Some?
  }

  /** The exercises table after opening a database stored at `version` (0: none existed, nothing runs). */
  function Upgrade(version: nat, es: seq<Exercise>): seq<Exercise>
  {
    if version == 1 then Seqs.Map(WithSetsCompleted, Seqs.Map(WithTime, es))
    else if version == 2 then Seqs.Map(WithSetsCompleted, es)
    else es
  }

  /**
   * Each upgrade is idempotent, and after both every record is current; records
   * already current come through both unchanged.
   */
  lemma UpgradesIdempotent(es: seq<Exercise>)
    ensures Seqs.Map(WithTime, Seqs.Map(WithTime, es)) == Seqs.Map(WithTime, es)
    ensures Seqs.Map(WithSetsCompleted, Seqs.Map(WithSetsCompleted, es)) == Seqs.Map(WithSetsCompleted, es)
    ensures forall i :: 0 <= i < |Upgrade(1, es)| ==> Current(Upgrade(1, es)[i])
    ensures (forall i :: 0 <= i < |es| ==> Current(es[i])) ==> Upgrade(1, es) == es && Upgrade(2, es) == es
  {
    if forall i :: 0 <= i < |es| ==> Current(es[i]) {
      assert Seqs.Map(WithTime, es) == es;
      assert Seqs.Map(WithSetsCompleted, es) == es;
    }
  }

  // ---------------------------------------------------------------- table operations

  /** `db.routines.add({date, name, order})`: the row takes the next key. */
  function AddRoutine(t: Tables, date: string, name: string, order: int): (r: Tables)
    ensures WellKeyed(t) ==> WellKeyed(r)
  {
    t.(routines := t.routines + [Routine(t.nextRoutineId, date, name, order)], nextRoutineId := t.nextRoutineId + 1)
  }

  /** `db.exercises.add(e)`: the row takes the next key. */
  function AddExercise(t: Tables, e: Exercise): (r: Tables)
    ensures WellKeyed(t) ==> WellKeyed(r)
  {
    t.(exercises := t.exercises + [e.(id := t.nextExerciseId)], nextExerciseId := t.nextExerciseId + 1)
  }

  /** `db.exercisePhotos.add(p)`: the row takes the next key. */
  function AddPhoto(t: Tables, p: Photo): (r: Tables)
    ensures WellKeyed(t) ==> WellKeyed(r)
  {
    t.(photos := t.photos + [p.(id := t.nextPhotoId)], nextPhotoId := t.nextPhotoId + 1)
  }

  function RoutineIsNot(id: nat): Routine -> bool
  {
    (r: Routine) => r.id != id
  }

  function OnDate(date: string): Routine -> bool
  {
    (r: Routine) => r.date == date
  }

  function InRoutine(routineId: nat): Exercise -> bool
  {
    (e: Exercise) => e.routineId == routineId
  }

  function NotInRoutine(routineId: nat): Exercise -> bool
  {
    (e: Exercise) => e.routineId != routineId
  }

  function OfExercise(exerciseId: nat): Photo -> bool
  {
    (p: Photo) => p.exerciseId == exerciseId
  }

  function NotOfExercise(exerciseId: nat): Photo -> bool
  {
    (p: Photo) => p.exerciseId != exerciseId
  }

  /** The changes `db.exercises.update(id, {...})` applies: the fields given are set. */
  datatype ExerciseChanges = ExerciseChanges(sets: Option<int>, setsCompleted: Option<int>)

  function Changed(e: Exercise, c: ExerciseChanges): (r: Exercise)
    ensures r.id == e.id && r.routineId == e.routineId && r.order == e.order
  {
    e.(sets := c.sets.GetOr(e.sets), setsCompleted := if c.setsCompleted.Some? then c.setsCompleted else e.setsCompleted)
  }

  function UpdateAt(id: nat, c: ExerciseChanges): Exercise -> Exercise
  {
    (e: Exercise) => if e.id == id then Changed(e, c) else e
  }

  /** The database object: the three tables, their key generators and the schema version on disk. */
  class PumpDb {
    var routines: seq<Routine>
    var exercises: seq<Exercise>
    var photos: seq<Photo>
    var nextRoutineId: nat
    var nextExerciseId: nat
    var nextPhotoId: nat
    var version: nat

    function State(): Tables
      reads this
    {
      Tables(routines, exercises, photos, nextRoutineId, nextExerciseId, nextPhotoId)
    }

    ghost predicate Valid()
      reads this
    {
      WellKeyed(State())
    }

    /** The database as found on disk: its tables and the version that wrote them (0 when there is none). */
    constructor(t: Tables, storedVersion: nat)
      requires WellKeyed(t)
      requires storedVersion == 0 ==> t.routines == [] && t.exercises == [] && t.photos == []
      ensures Valid() && State() == t && version == storedVersion
    {
      routines, exercises, photos := t.routines, t.exercises, t.photos;
      nextRoutineId, nextExerciseId, nextPhotoId := t.nextRoutineId, t.nextExerciseId, t.nextPhotoId;
      version := storedVersion;
    }

    /** Replaces every table, as an aborted transaction restores what it found. */
    method Restore(t: Tables)
      requires WellKeyed(t)
      modifies this
      ensures Valid() && State() == t && version == old(version)
    {
      routines, exercises, photos := t.routines, t.exercises, t.photos;
      nextRoutineId, nextExerciseId, nextPhotoId := t.nextRoutineId, t.nextExerciseId, t.nextPhotoId;
    }

    /** The version 2 upgrade: every exercise record in turn gets its missing time. */
    method UpgradeToV2()
      requires Valid()
      modifies this
      ensures Valid()
      ensures exercises == Seqs.Map(WithTime, old(exercises))
      ensures routines == old(routines) && photos == old(photos) && version == old(version)
      ensures nextRoutineId == old(nextRoutineId) && nextExerciseId == old(nextExerciseId) && nextPhotoId == old(nextPhotoId)
    {
      var i := 0;
      while i < |exercises|
        invariant 0 <= i <= |exercises| == |old(exercises)|
        invariant forall k :: 0 <= k < i ==> exercises[k] == WithTime(old(exercises)[k])
        invariant forall k :: i <= k < |exercises| ==> exercises[k] == old(exercises)[k]
        invariant routines == old(routines) && photos == old(photos) && version == old(version)
        invariant nextRoutineId == old(nextRoutineId) && nextExerciseId == old(nextExerciseId) && nextPhotoId == old(nextPhotoId)
      {
        exercises := exercises[i := WithTime(exercises[i])];
        i := i + 1;
      }
      assert exercises == Seqs.Map(WithTime, old(exercises));
      MapKeyed(ExerciseId, old(exercises), nextExerciseId, WithTime);
    }

    /** The version 3 upgrade: every exercise record in turn gets its missing completed-set count. */
    method UpgradeToV3()
      requires Valid()
      modifies this
      ensures Valid()
      ensures exercises == Seqs.Map(WithSetsCompleted, old(exercises))
      ensures routines == old(routines) && photos == old(photos) && version == old(version)
      ensures nextRoutineId == old(nextRoutineId) && nextExerciseId == old(nextExerciseId) && nextPhotoId == old(nextPhotoId)
    {
      var i := 0;
      while i < |exercises|
        invariant 0 <= i <= |exercises| == |old(exercises)|
        invariant forall k :: 0 <= k < i ==> exercises[k] == WithSetsCompleted(old(exercises)[k])
        invariant forall k :: i <= k < |exercises| ==> exercises[k] == old(exercises)[k]
        invariant routines == old(routines) && photos == old(photos) && version == old(version)
        invariant nextRoutineId == old(nextRoutineId) && nextExerciseId == old(nextExerciseId) && nextPhotoId == old(nextPhotoId)
      {
        exercises := exercises[i := WithSetsCompleted(exercises[i])];
        i := i + 1;
      }
      assert exercises == Seqs.Map(WithSetsCompleted, old(exercises));
      MapKeyed(ExerciseId, old(exercises), nextExerciseId, WithSetsCompleted);
    }

    /**
     * Opening at version 3 runs the upgrade of every version above the stored one,
     * in order; a database written by a later version cannot be opened.
     */
    method Open() returns (ok: bool)
      requires Valid()
      modifies this
      ensures Valid()
      ensures ok <==> old(version) <= 3
      ensures ok ==> version == 3 && exercises == Upgrade(old(version), old(exercises))
      ensures !ok ==> version == old(version) && exercises == old(exercises)
      ensures routines == old(routines) && photos == old(photos)
      ensures nextRoutineId == old(nextRoutineId) && nextExerciseId == old(nextExerciseId) && nextPhotoId == old(nextPhotoId)
    {
      if version > 3 {
        return false;
      }
      if version == 1 {
        UpgradeToV2();
      }
      if 1 <= version <= 2 {
        UpgradeToV3();
      }
      version := 3;
      ok := true;
    }

    /** `db.routines.where('date').equals(date)`, in key order. */
    function RoutinesOn(date: string): (rs: seq<Routine>)
      reads this
    {
      Seqs.Filter(OnDate(date), routines)
    }

    /** `db.exercises.where('routineId').equals(routineId)`, in key order. */
    function ExercisesOf(routineId: nat): seq<Exercise>
      reads this
    {
      Seqs.Filter(InRoutine(routineId), exercises)
    }

    /** `db.exercisePhotos.where('exerciseId').equals(exerciseId)`, in key order. */
    function PhotosOf(exerciseId: nat): seq<Photo>
      reads this
    {
      Seqs.Filter(OfExercise(exerciseId), photos)
    }

    method InsertRoutine(date: string, name: string, order: int) returns (id: nat)
      requires Valid()
      modifies this
      ensures Valid() && version == old(version)
      ensures id == old(nextRoutineId) && State() == AddRoutine(old(State()), date, name, order)
      ensures forall k :: 0 <= k < |old(routines)| ==> old(routines)[k].id != id
    {
      id := nextRoutineId;
      routines := routines + [Routine(id, date, name, order)];
      nextRoutineId := nextRoutineId + 1;
    }

    method InsertExercise(e: Exercise) returns (id: nat)
      requires Valid()
      modifies this
      ensures Valid() && version == old(version)
      ensures id == old(nextExerciseId) && State() == AddExercise(old(State()), e)
      ensures forall k :: 0 <= k < |old(exercises)| ==> old(exercises)[k].id != id
    {
      id := nextExerciseId;
      exercises := exercises + [e.(id := id)];
      nextExerciseId := nextExerciseId + 1;
    }

    method InsertPhoto(p: Photo) returns (id: nat)
      requires Valid()
      modifies this
      ensures Valid() && version == old(version)
      ensures id == old(nextPhotoId) && State() == AddPhoto(old(State()), p)
    {
      id := nextPhotoId;
      photos := photos + [p.(id := id)];
      nextPhotoId := nextPhotoId + 1;
    }

    /** `db.routines.delete(id)`. */
    method DeleteRoutine(id: nat)
      requires Valid()
      modifies this
      ensures Valid() && version == old(version)
      ensures State() == old(State()).(routines := Seqs.Filter(RoutineIsNot(id), old(routines)))
    {
      FilterKeyed(RoutineId, routines, nextRoutineId, RoutineIsNot(id));
      routines := Seqs.Filter(RoutineIsNot(id), routines);
    }

    /** `db.exercises.where('routineId').equals(routineId).delete()`. */
    method DeleteExercisesOf(routineId: nat)
      requires Valid()
      modifies this
      ensures Valid() && version == old(version)
      ensures State() == old(State()).(exercises := Seqs.Filter(NotInRoutine(routineId), old(exercises)))
    {
      FilterKeyed(ExerciseId, exercises, nextExerciseId, NotInRoutine(routineId));
      exercises := Seqs.Filter(NotInRoutine(routineId), exercises);
    }

    /** `db.exercisePhotos.where('exerciseId').equals(exerciseId).delete()`. */
    method DeletePhotosOf(exerciseId: nat)
      requires Valid()
      modifies this
      ensures Valid() && version == old(version)
      ensures State() == old(State()).(photos := Seqs.Filter(NotOfExercise(exerciseId), old(photos)))
    {
      FilterKeyed(PhotoId, photos, nextPhotoId, NotOfExercise(exerciseId));
      photos := Seqs.Filter(NotOfExercise(exerciseId), photos);
    }

    /** `db.exercises.update(id, changes)`: the record with that key, if any, takes the given fields. */
    method UpdateExercise(id: nat, c: ExerciseChanges)
      requires Valid()
      modifies this
      ensures Valid() && version == old(version)
      ensures State() == old(State()).(exercises := Seqs.Map(UpdateAt(id, c), old(exercises)))
    {
      MapKeyed(ExerciseId, exercises, nextExerciseId, UpdateAt(id, c));
      exercises := Seqs.Map(UpdateAt(id, c), exercises);
    }

    /** `clearAllData`: photos, exercises and routines are emptied; the key generators go on counting. */
    method Clear()
      requires Valid()
      modifies this
      ensures Valid()
      ensures routines == [] && exercises == [] && photos == []
      ensures nextRoutineId == old(nextRoutineId) && nextExerciseId == old(nextExerciseId) && nextPhotoId == old(nextPhotoId)
      ensures version == old(version)
    {
      photos := [];
      exercises := [];
      routines := [];
    }
  }
}
