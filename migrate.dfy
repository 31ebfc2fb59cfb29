/**
 * `POST /migrate`: copies a local database (routines, exercises and photos keyed
 * by old numeric ids) into the caller's partition. Every routine and every
 * exercise gets a fresh id; an exercise whose old routine id is unknown is
 * skipped, and so is a photo whose old exercise id is unknown. A failed photo
 * upload is skipped too, while a failed row insert ends the whole request.
 */
module Migrate {
  import opened Wrappers
  import opened Text
  import opened Js
  import opened Http
  import opened TableStore
  import opened Guids
  import GetRoutines
  import GetExercises
  import Seqs

  datatype OldRoutine = OldRoutine(id: JsValue, date: JsValue, name: JsValue, order: JsValue)

  datatype OldExercise = OldExercise(
    id: JsValue,
    routineId: JsValue,
    name: JsValue,
    repetitions: JsValue,
    weight: JsValue,
    sets: JsValue,
    setsCompleted: JsValue,
    time: JsValue,
    distance: JsValue,
    order: JsValue)

  /** A stored photo; `blob` is its content in base64. */
  datatype OldPhoto = OldPhoto(id: JsValue, exerciseId: JsValue, blob: string, timestamp: JsValue)

  datatype MigrationData = MigrationData(routines: seq<OldRoutine>, exercises: seq<OldExercise>, photos: seq<OldPhoto>)

  /** The success answer: the numbers of routines and exercises sent, and the number of photos stored. */
  datatype Migrated = Migrated(routines: nat, exercises: nat, photos: nat)

  /** The final tables and container, and the answer when the request did not fail. */
  datatype Outcome = Outcome(routines: seq<RoutineEntity>, exercises: seq<ExerciseEntity>, blobs: seq<Blob>, result: Option<Migrated>)

  function OldRoutineId(r: OldRoutine): JsValue { r.id }

  function OldExerciseId(e: OldExercise): JsValue { e.id }

  /** The row stored for an old routine under its new id. */
  function RoutineRow(userId: string, r: OldRoutine, id: string): RoutineEntity
  {
    RoutineEntity(userId, ToStr(r.date) + "_" + id, r.date, r.name, r.order, id)
  }

  /** The row stored for an old exercise under its new id, linked to the new id of its routine. */
  function ExerciseRow(userId: string, e: OldExercise, routineId: string, id: string): ExerciseEntity
  {
    ExerciseEntity(userId, routineId + "_" + id, Str(routineId), id, e.name, e.repetitions, e.weight,
      e.sets, e.setsCompleted, e.time, e.distance, e.order)
  }

  /** Every id of `xs` is in `s`. */
  predicate Within(xs: seq<string>, s: set<string>)
  {
    forall k :: 0 <= k < |xs| ==> xs[k] in s
  }

  /** Ids never handed out before, none twice. */
  predicate Fresh(xs: seq<string>, issued: set<string>)
  {
    Seqs.Distinct(xs) && forall k :: 0 <= k < |xs| ==> xs[k] !in issued
  }

  // ---------------------------------------------------------------- id maps

  /** `new Map()` filled by `map.set(keys[k], ids[k])` in order: a later key replaces an earlier one. */
  function IdMap(keys: seq<JsValue>, ids: seq<string>): (m: map<JsValue, string>)
    requires |keys| == |ids|
    ensures forall k :: k in m <==> k in keys
  {
    if keys == [] then map[]
    else IdMap(keys[..|keys| - 1], ids[..|ids| - 1])[keys[|keys| - 1] := ids[|ids| - 1]]
  }

  /** An old id maps to the new id of its last occurrence. */
  lemma {:induction false} IdMapLast(keys: seq<JsValue>, ids: seq<string>, j: nat)
    requires |keys| == |ids| && j < |keys|
    requires forall l :: j < l < |keys| ==> keys[l] != keys[j]
    ensures keys[j] in IdMap(keys, ids) && IdMap(keys, ids)[keys[j]] == ids[j]
  {
    var n := |keys| - 1;
    if j < n {
      IdMapLast(keys[..n], ids[..n], j);
    }
  }

  /** Every value of the map is one of the new ids. */
  lemma {:induction false} IdMapValues(keys: seq<JsValue>, ids: seq<string>, k: JsValue)
    requires |keys| == |ids| && k in keys
    ensures IdMap(keys, ids)[k] in ids
  {
    var n := |keys| - 1;
    if keys[n] != k {
      assert k in keys[..n] by {
        var i :| 0 <= i < |keys| && keys[i] == k;
        assert keys[..n][i] == k;
      }
      IdMapValues(keys[..n], ids[..n], k);
      assert ids[..n] <= ids;
    }
  }

  // ---------------------------------------------------------------- stage 1: routines

  /**
   * The routines table after inserting the rows one by one; the flag is false when
   * an insert was refused (a key character the service refuses, or a key already
   * taken), which ends the request with that row not stored.
   */
  function AddRoutines(rows: seq<RoutineEntity>, userId: string, rs: seq<OldRoutine>, rids: seq<string>): (r: (seq<RoutineEntity>, bool))
    requires |rids| == |rs|
    ensures |rows| <= |r.0| <= |rows| + |rs| && r.0[..|rows|] == rows
    ensures UniqueKeys(RoutineKey, rows) ==> UniqueKeys(RoutineKey, r.0)
  {
    if rs == [] then (rows, true)
    else
      var (t, ok) := AddRoutines(rows, userId, rs[..|rs| - 1], rids[..|rids| - 1]);
      var row := RoutineRow(userId, rs[|rs| - 1], rids[|rids| - 1]);
      if !ok || !Insertable(RoutineKey, t, RoutineKey(row)) then (t, false)
      else
        assert (t + [row])[..|rows|] == t[..|rows|];
        (t + [row], true)
  }

  /** When every insert succeeds, the table gains exactly one row per old routine, in order. */
  lemma {:induction false} AddRoutinesRows(rows: seq<RoutineEntity>, userId: string, rs: seq<OldRoutine>, rids: seq<string>)
    requires |rids| == |rs| && AddRoutines(rows, userId, rs, rids).1
    ensures var t := AddRoutines(rows, userId, rs, rids).0;
      && |t| == |rows| + |rs|
      && forall k :: 0 <= k < |rs| ==> t[|rows| + k] == RoutineRow(userId, rs[k], rids[k])
  {
    if rs != [] {
      var n := |rs| - 1;
      AddRoutinesLast(rows, userId, rs, rids);
      AddRoutinesRows(rows, userId, rs[..n], rids[..n]);
      RoutineRowsStep(|rows|, userId, rs, rids, rs[..n], rids[..n], AddRoutines(rows, userId, rs, rids).0, AddRoutines(rows, userId, rs[..n], rids[..n]).0);
    }
  }

  lemma RoutineRowsStep(base: nat, userId: string, rs: seq<OldRoutine>, rids: seq<string>, prs: seq<OldRoutine>, prids: seq<string>,
                        t: seq<RoutineEntity>, t': seq<RoutineEntity>)
    requires |rids| == |rs| && rs != [] && prs == rs[..|rs| - 1] && prids == rids[..|rs| - 1]
    requires t == t' + [RoutineRow(userId, rs[|rs| - 1], rids[|rs| - 1])]
    requires |t'| == base + |rs| - 1
    requires forall k :: 0 <= k < |prs| ==> t'[base + k] == RoutineRow(userId, prs[k], prids[k])
    ensures |t| == base + |rs|
    ensures forall k :: 0 <= k < |rs| ==> t[base + k] == RoutineRow(userId, rs[k], rids[k])
  {
    var n := |rs| - 1;
    forall k | 0 <= k < |rs|
      ensures t[base + k] == RoutineRow(userId, rs[k], rids[k])
    {
      if k < n {
        assert t[base + k] == t'[base + k];
        assert prs[k] == rs[k] && prids[k] == rids[k];
      }
    }
  }

  /** A successful run ends with the last routine's row appended to a successful run over the others. */
  lemma AddRoutinesLast(rows: seq<RoutineEntity>, userId: string, rs: seq<OldRoutine>, rids: seq<string>)
    requires |rids| == |rs| && rs != [] && AddRoutines(rows, userId, rs, rids).1
    ensures var n := |rs| - 1;
      && AddRoutines(rows, userId, rs[..n], rids[..n]).1
      && AddRoutines(rows, userId, rs, rids).0
         == AddRoutines(rows, userId, rs[..n], rids[..n]).0 + [RoutineRow(userId, rs[n], rids[n])]
  {
  }

  /** A migrated routine with a text date is listed on that day under its new id. */
  lemma MigratedRoutineListed(rows: seq<RoutineEntity>, userId: string, rs: seq<OldRoutine>, rids: seq<string>, k: nat, date: string)
    requires |rids| == |rs| && AddRoutines(rows, userId, rs, rids).1
    requires k < |rs| && rs[k].date == Str(date)
    ensures RoutineJson(rids[k], rs[k].date, rs[k].name, rs[k].order)
      in GetRoutines.Listing(AddRoutines(rows, userId, rs, rids).0, userId, date)
  {
    var t := AddRoutines(rows, userId, rs, rids).0;
    AddRoutinesRows(rows, userId, rs, rids);
    var row := t[|rows| + k];
    assert row in t;
    GetRoutines.ListingContents(t, userId, date);
    assert GetRoutines.ToJson(row) == RoutineJson(rids[k], rs[k].date, rs[k].name, rs[k].order);
  }

  // ---------------------------------------------------------------- stage 2: exercises

  /** Whether an old exercise's routine was migrated. */
  function KnownRoutine(rmap: map<JsValue, string>): OldExercise -> bool
  {
    (e: OldExercise) => e.routineId in rmap
  }

  /**
   * The exercises table after the second loop: an exercise with an unknown routine
   * is skipped, the others are inserted one by one until an insert is refused.
   */
  function AddExercises(rows: seq<ExerciseEntity>, userId: string, es: seq<OldExercise>, eids: seq<string>,
                        rmap: map<JsValue, string>): (r: (seq<ExerciseEntity>, bool))
    requires |eids| == |es|
    ensures |rows| <= |r.0| <= |rows| + |es| && r.0[..|rows|] == rows
    ensures UniqueKeys(ExerciseKey, rows) ==> UniqueKeys(ExerciseKey, r.0)
  {
    if es == [] then (rows, true)
    else
      var (t, ok) := AddExercises(rows, userId, es[..|es| - 1], eids[..|eids| - 1], rmap);
      var e := es[|es| - 1];
      if !ok then (t, false)
      else if e.routineId !in rmap then (t, true)
      else
        var row := ExerciseRow(userId, e, rmap[e.routineId], eids[|eids| - 1]);
        if !Insertable(ExerciseKey, t, ExerciseKey(row)) then (t, false)
        else
          assert (t + [row])[..|rows|] == t[..|rows|];
          (t + [row], true)
  }

  /**
   * When every insert succeeds, the table gains one row per exercise whose routine is
   * known, and each such exercise's row is there, linked to the new id of its routine.
   */
  lemma {:induction false} AddExercisesRows(rows: seq<ExerciseEntity>, userId: string, es: seq<OldExercise>,
                                            eids: seq<string>, rmap: map<JsValue, string>)
    requires |eids| == |es| && AddExercises(rows, userId, es, eids, rmap).1
    ensures var t := AddExercises(rows, userId, es, eids, rmap).0;
      && |t| == |rows| + |Seqs.Filter(KnownRoutine(rmap), es)|
      && forall k :: 0 <= k < |es| && es[k].routineId in rmap ==>
           ExerciseRow(userId, es[k], rmap[es[k].routineId], eids[k]) in t
  {
    if es != [] {
      var n := |es| - 1;
      AddExercisesLast(rows, userId, es, eids, rmap);
      AddExercisesRows(rows, userId, es[..n], eids[..n], rmap);
      KnownCountStep(es, rmap);
      var t := AddExercises(rows, userId, es, eids, rmap).0;
      var t' := AddExercises(rows, userId, es[..n], eids[..n], rmap).0;
      assert t' <= t;
      forall k | 0 <= k < |es| && es[k].routineId in rmap
        ensures ExerciseRow(userId, es[k], rmap[es[k].routineId], eids[k]) in t
      {
        if k < n {
          assert es[..n][k] == es[k] && eids[..n][k] == eids[k];
        }
      }
    }
  }

  /** A successful run ends with the last exercise's row, when its routine is known, appended to a successful run over the others. */
  lemma AddExercisesLast(rows: seq<ExerciseEntity>, userId: string, es: seq<OldExercise>,
                         eids: seq<string>, rmap: map<JsValue, string>)
    requires |eids| == |es| && es != [] && AddExercises(rows, userId, es, eids, rmap).1
    ensures var n := |es| - 1;
      && AddExercises(rows, userId, es[..n], eids[..n], rmap).1
      && AddExercises(rows, userId, es, eids, rmap).0
         == AddExercises(rows, userId, es[..n], eids[..n], rmap).0
            + (if es[n].routineId in rmap then [ExerciseRow(userId, es[n], rmap[es[n].routineId], eids[n])] else [])
  {
  }

  lemma KnownCountStep(es: seq<OldExercise>, rmap: map<JsValue, string>)
    requires es != []
    ensures var n := |es| - 1;
      |Seqs.Filter(KnownRoutine(rmap), es)|
      == |Seqs.Filter(KnownRoutine(rmap), es[..n])| + (if es[n].routineId in rmap then 1 else 0)
  {
    var n := |es| - 1;
    assert es == es[..n] + [es[n]];
    Seqs.FilterAppend(KnownRoutine(rmap), es[..n], [es[n]]);
  }

  /** A migrated exercise is listed for the new id of its routine. */
  lemma MigratedExerciseListed(rows: seq<ExerciseEntity>, userId: string, es: seq<OldExercise>,
                               eids: seq<string>, rmap: map<JsValue, string>, k: nat)
    requires |eids| == |es| && AddExercises(rows, userId, es, eids, rmap).1
    requires k < |es| && es[k].routineId in rmap
    ensures GetExercises.ToJson(ExerciseRow(userId, es[k], rmap[es[k].routineId], eids[k]))
      in GetExercises.Listing(AddExercises(rows, userId, es, eids, rmap).0, userId, rmap[es[k].routineId])
  {
    var t := AddExercises(rows, userId, es, eids, rmap).0;
    AddExercisesRows(rows, userId, es, eids, rmap);
    GetExercises.ListingContents(t, userId, rmap[es[k].routineId]);
  }

  // ---------------------------------------------------------------- stage 3: photos

  /** The name a photo is stored under, given the new id of its exercise. */
  function PhotoBlobName(userId: string, p: OldPhoto, exerciseId: string): string
  {
    PhotoName(userId, exerciseId, ToStr(p.timestamp))
  }

  /** Whether a photo is stored: its exercise has a new id and the container accepts the upload. */
  function Stored(userId: string, emap: map<JsValue, string>, refused: set<string>): OldPhoto -> bool
  {
    (p: OldPhoto) => p.exerciseId in emap && PhotoBlobName(userId, p, emap[p.exerciseId]) !in refused
  }

  /**
   * The container after the third loop, and the number of photos stored. `decode`
   * is the base64 decoding; `refused` holds the names whose upload fails.
   */
  function UploadPhotos(blobs: seq<Blob>, userId: string, ps: seq<OldPhoto>, emap: map<JsValue, string>,
                        decode: string -> seq<int>, refused: set<string>): (r: (seq<Blob>, nat))
    ensures r.1 == |Seqs.Filter(Stored(userId, emap, refused), ps)|
    ensures UniqueNames(blobs) ==> UniqueNames(r.0)
  {
    if ps == [] then (blobs, 0)
    else
      var (t, n) := UploadPhotos(blobs, userId, ps[..|ps| - 1], emap, decode, refused);
      var p := ps[|ps| - 1];
      assert ps == ps[..|ps| - 1] + [p];
      Seqs.FilterAppend(Stored(userId, emap, refused), ps[..|ps| - 1], [p]);
      if p.exerciseId !in emap then (t, n)
      else
        var name := PhotoBlobName(userId, p, emap[p.exerciseId]);
        if name in refused then (t, n)
        else (Upload(t, Blob(name, decode(p.blob), "image/jpeg")), n + 1)
  }

  /** An upload never removes a name. */
  lemma UploadKeepsNames(blobs: seq<Blob>, b: Blob, name: string)
    requires BlobExists(blobs, name)
    ensures BlobExists(Upload(blobs, b), name)
  {
    var i :| 0 <= i < |blobs| && blobs[i].name == name;
    if name != b.name {
      assert blobs[i] in Upload(blobs, b);
    }
  }

  /** Every stored photo is in the container afterwards, under its name. */
  lemma {:induction false} StoredPhotosExist(blobs: seq<Blob>, userId: string, ps: seq<OldPhoto>, emap: map<JsValue, string>,
                                             decode: string -> seq<int>, refused: set<string>, k: nat)
    requires k < |ps| && Stored(userId, emap, refused)(ps[k])
    ensures BlobExists(UploadPhotos(blobs, userId, ps, emap, decode, refused).0, PhotoBlobName(userId, ps[k], emap[ps[k].exerciseId]))
  {
    var n := |ps| - 1;
    var t := UploadPhotos(blobs, userId, ps[..n], emap, decode, refused).0;
    var p := ps[n];
    if k < n {
      assert ps[..n][k] == ps[k];
      StoredPhotosExist(blobs, userId, ps[..n], emap, decode, refused, k);
      if p.exerciseId in emap && PhotoBlobName(userId, p, emap[p.exerciseId]) !in refused {
        UploadKeepsNames(t, Blob(PhotoBlobName(userId, p, emap[p.exerciseId]), decode(p.blob), "image/jpeg"),
          PhotoBlobName(userId, ps[k], emap[ps[k].exerciseId]));
      }
    }
  }

  // ---------------------------------------------------------------- the whole request

  /** What the request does with a body that reads as migration data and the new ids it draws. */
  function Migration(routines: seq<RoutineEntity>, exercises: seq<ExerciseEntity>, blobs: seq<Blob>, userId: string,
                     data: MigrationData, rids: seq<string>, eids: seq<string>,
                     decode: string -> seq<int>, refused: set<string>): (o: Outcome)
    requires |rids| == |data.routines| && |eids| == |data.exercises|
    ensures o.result.Some? ==> o.result.value.routines == |data.routines| && o.result.value.exercises == |data.exercises|
    ensures o.result.None? ==> o.blobs == blobs
  {
    var (rt, ok1) := AddRoutines(routines, userId, data.routines, rids);
    if !ok1 then Outcome(rt, exercises, blobs, None)
    else
      var rmap := IdMap(Seqs.Map(OldRoutineId, data.routines), rids);
      var (et, ok2) := AddExercises(exercises, userId, data.exercises, eids, rmap);
      if !ok2 then Outcome(rt, et, blobs, None)
      else
        var emap := IdMap(Seqs.Map(OldExerciseId, data.exercises), eids);
        var (bt, n) := UploadPhotos(blobs, userId, data.photos, emap, decode, refused);
        Outcome(rt, et, bt, Some(Migrated(|data.routines|, |data.exercises|, n)))
  }

  /** The answer of a request that throws: status 500 with the error `Migration failed`. */
  predicate Failed(r: Response<Migrated>)
  {
    r.FailWithDetails? && r.status == 500 && r.error == "Migration failed"
  }

  /**
   * The outcome `o` is what `Migration` gives for some new ids that were never handed
   * out before `issued0` and are pairwise distinct.
   */
  ghost predicate Explains(routines0: seq<RoutineEntity>, exercises0: seq<ExerciseEntity>, blobs0: seq<Blob>, userId: string,
                           d: MigrationData, decode: string -> seq<int>, refused: set<string>, issued0: set<string>, o: Outcome)
  {
    exists rids: seq<string>, eids: seq<string> ::
      && |rids| == |d.routines| && |eids| == |d.exercises|
      && Fresh(rids + eids, issued0)
      && Migration(routines0, exercises0, blobs0, userId, d, rids, eids, decode, refused) == o
  }

  method Handle(store: Store, ids: GuidSource, userId: string, data: Option<MigrationData>,
                decode: string -> seq<int>, refused: set<string>) returns (r: Response<Migrated>)
    requires store.Valid() && ids.Valid()
    modifies store, ids
    ensures store.Valid() && ids.Valid()
    ensures r.Ok? ==> r.status == 200
    ensures !r.Ok? ==> Failed(r)
    ensures data.None? ==>
      && !r.Ok?
      && store.routines == old(store.routines) && store.exercises == old(store.exercises) && store.blobs == old(store.blobs)
    ensures data.Some? ==>
      Explains(old(store.routines), old(store.exercises), old(store.blobs), userId, data.value, decode, refused, old(ids.issued),
               Outcome(store.routines, store.exercises, store.blobs, if r.Ok? then Some(r.value) else None))
  {
    if data.None? {
      return FailWithDetails(500, "Migration failed", "Unexpected request body");
    }
    r := Run(store, ids, userId, data.value, decode, refused);
  }

  /** The body of the `try` block for data that was read: the three loops and the answer. */
  method Run(store: Store, ids: GuidSource, userId: string, d: MigrationData,
             decode: string -> seq<int>, refused: set<string>) returns (r: Response<Migrated>)
    requires store.Valid() && ids.Valid()
    modifies store, ids
    ensures store.Valid() && ids.Valid()
    ensures r.Ok? ==> r.status == 200
    ensures !r.Ok? ==> Failed(r)
    ensures Explains(old(store.routines), old(store.exercises), old(store.blobs), userId, d, decode, refused, old(ids.issued),
                     Outcome(store.routines, store.exercises, store.blobs, if r.Ok? then Some(r.value) else None))
  {
    ghost var routines0, exercises0, blobs0 := store.routines, store.exercises, store.blobs;
    var ok, rmap, rids := MigrateRoutines(store, ids, userId, d.routines);
    if !ok {
      RoutinesFailed(routines0, exercises0, blobs0, userId, d, decode, refused, old(ids.issued), rids, store.routines, ids.next);
      return FailWithDetails(500, "Migration failed", "The specified entity already exists");
    }
    assert d.routines[..|rids|] == d.routines;
    r := AfterRoutines(store, ids, userId, d, decode, refused, rmap, routines0, exercises0, blobs0, old(ids.issued), rids);
  }

  /** Every routine was stored: the exercise loop, the photo loop and the answer. */
  method AfterRoutines(store: Store, ids: GuidSource, userId: string, d: MigrationData,
                       decode: string -> seq<int>, refused: set<string>, rmap: map<JsValue, string>,
                       ghost routines0: seq<RoutineEntity>, ghost exercises0: seq<ExerciseEntity>, ghost blobs0: seq<Blob>,
                       ghost issued0: set<string>, ghost rids: seq<string>) returns (r: Response<Migrated>)
    requires store.Valid() && ids.Valid()
    requires |rids| == |d.routines| && AddRoutines(routines0, userId, d.routines, rids) == (store.routines, true)
    requires store.exercises == exercises0 && store.blobs == blobs0
    requires rmap == IdMap(Seqs.Map(OldRoutineId, d.routines), rids)
    requires Fresh(rids, issued0) && Within(rids, ids.issued) && issued0 <= ids.issued
    modifies store, ids
    ensures store.Valid() && ids.Valid()
    ensures r.Ok? ==> r.status == 200
    ensures !r.Ok? ==> Failed(r)
    ensures Explains(routines0, exercises0, blobs0, userId, d, decode, refused, issued0,
                     Outcome(store.routines, store.exercises, store.blobs, if r.Ok? then Some(r.value) else None))
  {
    ghost var issued1 := ids.issued;
    var ok2, emap, eids := MigrateExercises(store, ids, userId, d.exercises, rmap);
    FreshAcross(rids, eids, issued0, issued1);
    if !ok2 {
      r := ExercisesStopped(routines0, exercises0, blobs0, userId, d, decode, refused, issued0, rids, eids,
        store.routines, store.exercises, ids.next);
      return;
    }
    assert d.exercises[..|eids|] == d.exercises;
    r := AfterExercises(store, userId, d, decode, refused, emap, routines0, exercises0, blobs0, issued0, rids, eids);
  }

  /** An exercise insert found its key taken: the request fails with the tables as they stand. */
  method ExercisesStopped(ghost routines0: seq<RoutineEntity>, ghost exercises0: seq<ExerciseEntity>, ghost blobs0: seq<Blob>,
                          userId: string, d: MigrationData, decode: string -> seq<int>, refused: set<string>,
                          ghost issued0: set<string>, ghost rids: seq<string>, ghost eids: seq<string>,
                          ghost rt: seq<RoutineEntity>, ghost et: seq<ExerciseEntity>, ghost next: nat)
    returns (r: Response<Migrated>)
    requires |rids| == |d.routines| && AddRoutines(routines0, userId, d.routines, rids) == (rt, true)
    requires |eids| <= |d.exercises|
    requires AddExercises(exercises0, userId, d.exercises[..|eids|], eids, IdMap(Seqs.Map(OldRoutineId, d.routines), rids)) == (et, false)
    requires Fresh(rids + eids, issued0) && issued0 <= IdsBelow(next)
    requires Within(rids + eids, IdsBelow(next))
    ensures !r.Ok? && Failed(r)
    ensures Explains(routines0, exercises0, blobs0, userId, d, decode, refused, issued0, Outcome(rt, et, blobs0, None))
  {
    ExercisesFailed(routines0, exercises0, blobs0, userId, d, decode, refused, issued0, rids, eids, rt, et, next);
    r := FailWithDetails(500, "Migration failed", "The specified entity already exists");
  }

  /** Every routine and exercise was stored: the photo loop, then the counts as the answer. */
  method AfterExercises(store: Store, userId: string, d: MigrationData, decode: string -> seq<int>, refused: set<string>,
                        emap: map<JsValue, string>, ghost routines0: seq<RoutineEntity>, ghost exercises0: seq<ExerciseEntity>,
                        ghost blobs0: seq<Blob>, ghost issued0: set<string>, ghost rids: seq<string>, ghost eids: seq<string>)
    returns (r: Response<Migrated>)
    requires store.Valid() && store.blobs == blobs0
    requires |rids| == |d.routines| && AddRoutines(routines0, userId, d.routines, rids) == (store.routines, true)
    requires |eids| == |d.exercises|
    requires AddExercises(exercises0, userId, d.exercises, eids, IdMap(Seqs.Map(OldRoutineId, d.routines), rids)) == (store.exercises, true)
    requires emap == IdMap(Seqs.Map(OldExerciseId, d.exercises), eids)
    requires Fresh(rids + eids, issued0)
    modifies store
    ensures store.Valid()
    ensures r.Ok? && r.status == 200
    ensures Explains(routines0, exercises0, blobs0, userId, d, decode, refused, issued0,
                     Outcome(store.routines, store.exercises, store.blobs, Some(r.value)))
  {
    ghost var rt, et := store.routines, store.exercises;
    var n := MigratePhotos(store, userId, d.photos, emap, decode, refused);
    r := Ok(200, Migrated(|d.routines|, |d.exercises|, n));
    Succeeded(routines0, exercises0, blobs0, userId, d, decode, refused, issued0, rids, eids, rt, et, store.blobs, n);
  }

  /** A failed routine insert: the ids not drawn can be any the source would hand out next. */
  lemma RoutinesFailed(routines0: seq<RoutineEntity>, exercises0: seq<ExerciseEntity>, blobs0: seq<Blob>, userId: string,
                       d: MigrationData, decode: string -> seq<int>, refused: set<string>, issued0: set<string>,
                       rids: seq<string>, t: seq<RoutineEntity>, next: nat)
    requires |rids| <= |d.routines| && AddRoutines(routines0, userId, d.routines[..|rids|], rids) == (t, false)
    requires Fresh(rids, issued0) && issued0 <= IdsBelow(next)
    requires Within(rids, IdsBelow(next))
    ensures Explains(routines0, exercises0, blobs0, userId, d, decode, refused, issued0, Outcome(t, exercises0, blobs0, None))
  {
    var m := |d.routines| - |rids|;
    var pad := FreshPadding(rids, issued0, next, m + |d.exercises|);
    RoutinesStopPadded(routines0, userId, d.routines, rids, pad, m, t);
    RoutineStageFails(routines0, exercises0, blobs0, userId, d, rids + pad[..m], pad[m..], decode, refused, t);
    PaddedWitness(routines0, exercises0, blobs0, userId, d, decode, refused, issued0, rids, pad, m);
  }

  /** Padding the ids drawn so far with ids not yet handed out gives a witness for `Explains`. */
  lemma PaddedWitness(routines0: seq<RoutineEntity>, exercises0: seq<ExerciseEntity>, blobs0: seq<Blob>, userId: string,
                      d: MigrationData, decode: string -> seq<int>, refused: set<string>, issued0: set<string>,
                      drawn: seq<string>, pad: seq<string>, m: nat)
    requires |drawn| + m == |d.routines| && |pad| == m + |d.exercises|
    requires Fresh(drawn + pad, issued0)
    ensures Explains(routines0, exercises0, blobs0, userId, d, decode, refused, issued0,
                     Migration(routines0, exercises0, blobs0, userId, d, drawn + pad[..m], pad[m..], decode, refused))
  {
    PadSplit(drawn, pad, m);
    Witness(routines0, exercises0, blobs0, userId, d, decode, refused, issued0, drawn + pad[..m], pad[m..],
            Migration(routines0, exercises0, blobs0, userId, d, drawn + pad[..m], pad[m..], decode, refused));
  }

  lemma RoutineStageFails(routines0: seq<RoutineEntity>, exercises0: seq<ExerciseEntity>, blobs0: seq<Blob>, userId: string,
                          d: MigrationData, rids: seq<string>, eids: seq<string>, decode: string -> seq<int>, refused: set<string>,
                          t: seq<RoutineEntity>)
    requires |rids| == |d.routines| && |eids| == |d.exercises|
    requires AddRoutines(routines0, userId, d.routines, rids) == (t, false)
    ensures Migration(routines0, exercises0, blobs0, userId, d, rids, eids, decode, refused) == Outcome(t, exercises0, blobs0, None)
  {
  }

  lemma ExerciseStageFails(routines0: seq<RoutineEntity>, exercises0: seq<ExerciseEntity>, blobs0: seq<Blob>, userId: string,
                           d: MigrationData, rids: seq<string>, eids: seq<string>, decode: string -> seq<int>, refused: set<string>,
                           rt: seq<RoutineEntity>, et: seq<ExerciseEntity>)
    requires |rids| == |d.routines| && |eids| == |d.exercises|
    requires AddRoutines(routines0, userId, d.routines, rids) == (rt, true)
    requires AddExercises(exercises0, userId, d.exercises, eids, IdMap(Seqs.Map(OldRoutineId, d.routines), rids)) == (et, false)
    ensures Migration(routines0, exercises0, blobs0, userId, d, rids, eids, decode, refused) == Outcome(rt, et, blobs0, None)
  {
  }

  /** Padding the exercise ids drawn so far gives a witness for `Explains`. */
  lemma TailPaddedWitness(routines0: seq<RoutineEntity>, exercises0: seq<ExerciseEntity>, blobs0: seq<Blob>, userId: string,
                          d: MigrationData, decode: string -> seq<int>, refused: set<string>, issued0: set<string>,
                          rids: seq<string>, eids: seq<string>, pad: seq<string>)
    requires |rids| == |d.routines| && |eids| + |pad| == |d.exercises|
    requires Fresh((rids + eids) + pad, issued0)
    ensures Explains(routines0, exercises0, blobs0, userId, d, decode, refused, issued0,
                     Migration(routines0, exercises0, blobs0, userId, d, rids, eids + pad, decode, refused))
  {
    assert rids + (eids + pad) == (rids + eids) + pad;
    Witness(routines0, exercises0, blobs0, userId, d, decode, refused, issued0, rids, eids + pad,
            Migration(routines0, exercises0, blobs0, userId, d, rids, eids + pad, decode, refused));
  }

  lemma RoutinesStopPadded(rows: seq<RoutineEntity>, userId: string, rs: seq<OldRoutine>, rids: seq<string>, pad: seq<string>,
                           m: nat, t: seq<RoutineEntity>)
    requires |rids| + m == |rs| && m <= |pad|
    requires AddRoutines(rows, userId, rs[..|rids|], rids) == (t, false)
    ensures AddRoutines(rows, userId, rs, rids + pad[..m]) == (t, false)
  {
    assert (rids + pad[..m])[..|rids|] == rids;
    AddRoutinesStops(rows, userId, rs, rids + pad[..m], |rids|);
  }

  lemma ExercisesStopPadded(rows: seq<ExerciseEntity>, userId: string, es: seq<OldExercise>, eids: seq<string>, pad: seq<string>,
                            rmap: map<JsValue, string>, t: seq<ExerciseEntity>)
    requires |eids| + |pad| == |es|
    requires AddExercises(rows, userId, es[..|eids|], eids, rmap) == (t, false)
    ensures AddExercises(rows, userId, es, eids + pad, rmap) == (t, false)
  {
    assert (eids + pad)[..|eids|] == eids;
    AddExercisesStops(rows, userId, es, eids + pad, rmap, |eids|);
  }

  /** A failed exercise insert after all routines were stored. */
  lemma ExercisesFailed(routines0: seq<RoutineEntity>, exercises0: seq<ExerciseEntity>, blobs0: seq<Blob>, userId: string,
                        d: MigrationData, decode: string -> seq<int>, refused: set<string>, issued0: set<string>,
                        rids: seq<string>, eids: seq<string>, rt: seq<RoutineEntity>, et: seq<ExerciseEntity>, next: nat)
    requires |rids| == |d.routines| && AddRoutines(routines0, userId, d.routines, rids) == (rt, true)
    requires |eids| <= |d.exercises|
    requires AddExercises(exercises0, userId, d.exercises[..|eids|], eids, IdMap(Seqs.Map(OldRoutineId, d.routines), rids)) == (et, false)
    requires Fresh(rids + eids, issued0) && issued0 <= IdsBelow(next)
    requires Within(rids + eids, IdsBelow(next))
    ensures Explains(routines0, exercises0, blobs0, userId, d, decode, refused, issued0, Outcome(rt, et, blobs0, None))
  {
    var pad := FreshPadding(rids + eids, issued0, next, |d.exercises| - |eids|);
    var rmap := IdMap(Seqs.Map(OldRoutineId, d.routines), rids);
    ExercisesStopPadded(exercises0, userId, d.exercises, eids, pad, rmap, et);
    ExerciseStageFails(routines0, exercises0, blobs0, userId, d, rids, eids + pad, decode, refused, rt, et);
    TailPaddedWitness(routines0, exercises0, blobs0, userId, d, decode, refused, issued0, rids, eids, pad);
  }

  /** Every insert succeeded and the photos were uploaded. */
  lemma Succeeded(routines0: seq<RoutineEntity>, exercises0: seq<ExerciseEntity>, blobs0: seq<Blob>, userId: string,
                  d: MigrationData, decode: string -> seq<int>, refused: set<string>, issued0: set<string>,
                  rids: seq<string>, eids: seq<string>, rt: seq<RoutineEntity>, et: seq<ExerciseEntity>, bt: seq<Blob>, n: nat)
    requires |rids| == |d.routines| && AddRoutines(routines0, userId, d.routines, rids) == (rt, true)
    requires |eids| == |d.exercises|
    requires AddExercises(exercises0, userId, d.exercises, eids, IdMap(Seqs.Map(OldRoutineId, d.routines), rids)) == (et, true)
    requires (bt, n) == UploadPhotos(blobs0, userId, d.photos, IdMap(Seqs.Map(OldExerciseId, d.exercises), eids), decode, refused)
    requires Fresh(rids + eids, issued0)
    ensures Explains(routines0, exercises0, blobs0, userId, d, decode, refused, issued0,
                     Outcome(rt, et, bt, Some(Migrated(|d.routines|, |d.exercises|, n))))
  {
    Witness(routines0, exercises0, blobs0, userId, d, decode, refused, issued0, rids, eids,
            Outcome(rt, et, bt, Some(Migrated(|d.routines|, |d.exercises|, n))));
  }

  lemma Witness(routines0: seq<RoutineEntity>, exercises0: seq<ExerciseEntity>, blobs0: seq<Blob>, userId: string,
                d: MigrationData, decode: string -> seq<int>, refused: set<string>, issued0: set<string>,
                rids: seq<string>, eids: seq<string>, o: Outcome)
    requires |rids| == |d.routines| && |eids| == |d.exercises| && Fresh(rids + eids, issued0)
    requires Migration(routines0, exercises0, blobs0, userId, d, rids, eids, decode, refused) == o
    ensures Explains(routines0, exercises0, blobs0, userId, d, decode, refused, issued0, o)
  {
  }

  /** The first loop: each routine draws a fresh id, is recorded in the id map, and is inserted; a taken key ends it. */
  method MigrateRoutines(store: Store, ids: GuidSource, userId: string, rs: seq<OldRoutine>)
    returns (ok: bool, rmap: map<JsValue, string>, ghost rids: seq<string>)
    requires store.Valid() && ids.Valid()
    modifies store, ids
    ensures store.Valid() && ids.Valid()
    ensures store.exercises == old(store.exercises) && store.blobs == old(store.blobs)
    ensures Fresh(rids, old(ids.issued)) && Within(rids, ids.issued)
    ensures old(ids.issued) <= ids.issued
    ensures ok ==> |rids| == |rs| && rmap == IdMap(Seqs.Map(OldRoutineId, rs), rids)
    ensures !ok ==> 0 < |rids| <= |rs|
    ensures AddRoutines(old(store.routines), userId, rs[..|rids|], rids) == (store.routines, ok)
  {
    ok, rmap, rids := true, map[], [];
    var i := 0;
    while i < |rs|
      invariant i <= |rs| && |rids| == i
      invariant store.Valid() && ids.Valid()
      invariant store.exercises == old(store.exercises) && store.blobs == old(store.blobs)
      invariant Fresh(rids, old(ids.issued)) && Within(rids, ids.issued)
      invariant old(ids.issued) <= ids.issued
      invariant rmap == IdMap(Seqs.Map(OldRoutineId, rs[..i]), rids)
      invariant AddRoutines(old(store.routines), userId, rs[..i], rids) == (store.routines, true)
    {
      ghost var before := ids.issued;
      var created, id := RoutineTurn(store, ids, userId, rs, i, old(store.routines), rids);
      FreshStep(rids, id, old(ids.issued), before);
      rmap := rmap[rs[i].id := id];
      KeyedIdMapStep(OldRoutineId, rs, i, rids, id);
      rids := rids + [id];
      if !created {
        ok := false;
        return;
      }
      i := i + 1;
    }
    assert rs[..i] == rs;
  }

  /** One turn of the first loop: draws an id for routine `i` and inserts its row. */
  method RoutineTurn(store: Store, ids: GuidSource, userId: string, rs: seq<OldRoutine>, i: nat,
                     ghost rows0: seq<RoutineEntity>, ghost rids: seq<string>)
    returns (created: bool, id: string)
    requires store.Valid() && ids.Valid() && i < |rs| && |rids| == i
    requires AddRoutines(rows0, userId, rs[..i], rids) == (store.routines, true)
    modifies store, ids
    ensures store.Valid() && ids.Valid()
    ensures store.exercises == old(store.exercises) && store.blobs == old(store.blobs)
    ensures id !in old(ids.issued) && ids.issued == old(ids.issued) + {id}
    ensures AddRoutines(rows0, userId, rs[..i + 1], rids + [id]) == (store.routines, created)
  {
    id := ids.NewId();
    AddRoutinesStep(rows0, userId, rs, rids, id, i);
    created := store.CreateRoutine(RoutineRow(userId, rs[i], id));
  }

  /**
   * The second loop: each exercise draws a fresh id and is recorded in the id map, then
   * it is skipped when its routine is unknown and inserted otherwise; a taken key ends it.
   */
  method MigrateExercises(store: Store, ids: GuidSource, userId: string, es: seq<OldExercise>, rmap: map<JsValue, string>)
    returns (ok: bool, emap: map<JsValue, string>, ghost eids: seq<string>)
    requires store.Valid() && ids.Valid()
    modifies store, ids
    ensures store.Valid() && ids.Valid()
    ensures store.routines == old(store.routines) && store.blobs == old(store.blobs)
    ensures Fresh(eids, old(ids.issued)) && Within(eids, ids.issued)
    ensures old(ids.issued) <= ids.issued
    ensures ok ==> |eids| == |es| && emap == IdMap(Seqs.Map(OldExerciseId, es), eids)
    ensures !ok ==> 0 < |eids| <= |es|
    ensures AddExercises(old(store.exercises), userId, es[..|eids|], eids, rmap) == (store.exercises, ok)
  {
    ok, emap, eids := true, map[], [];
    var i := 0;
    while ok && i < |es|
      invariant i <= |es| && |eids| == i && (!ok ==> 0 < i)
      invariant store.Valid() && ids.Valid()
      invariant store.routines == old(store.routines) && store.blobs == old(store.blobs)
      invariant Fresh(eids, old(ids.issued)) && Within(eids, ids.issued)
      invariant old(ids.issued) <= ids.issued
      invariant emap == IdMap(Seqs.Map(OldExerciseId, es[..i]), eids)
      invariant AddExercises(old(store.exercises), userId, es[..i], eids, rmap) == (store.exercises, ok)
    {
      var id;
      ok, id := ExerciseTurn(store, ids, userId, es, i, rmap, old(store.exercises), eids, old(ids.issued));
      emap := emap[es[i].id := id];
      eids := eids + [id];
      i := i + 1;
    }
    assert ok ==> es[..i] == es;
  }

  /** One turn of the second loop: draws an id for exercise `i`, then skips it or inserts its row. */
  method ExerciseTurn(store: Store, ids: GuidSource, userId: string, es: seq<OldExercise>, i: nat, rmap: map<JsValue, string>,
                      ghost rows0: seq<ExerciseEntity>, ghost eids: seq<string>, ghost issued0: set<string>)
    returns (created: bool, id: string)
    requires store.Valid() && ids.Valid() && i < |es| && |eids| == i
    requires AddExercises(rows0, userId, es[..i], eids, rmap) == (store.exercises, true)
    requires Fresh(eids, issued0) && Within(eids, ids.issued) && issued0 <= ids.issued
    modifies store, ids
    ensures store.Valid() && ids.Valid()
    ensures store.routines == old(store.routines) && store.blobs == old(store.blobs)
    ensures Fresh(eids + [id], issued0) && Within(eids + [id], ids.issued) && issued0 <= ids.issued
    ensures IdMap(Seqs.Map(OldExerciseId, es[..i]), eids)[es[i].id := id] == IdMap(Seqs.Map(OldExerciseId, es[..i + 1]), eids + [id])
    ensures AddExercises(rows0, userId, es[..i + 1], eids + [id], rmap) == (store.exercises, created)
  {
    id := ids.NewId();
    FreshStep(eids, id, issued0, old(ids.issued));
    KeyedIdMapStep(OldExerciseId, es, i, eids, id);
    AddExercisesStep(rows0, userId, es, eids, id, rmap, i);
    created := true;
    if es[i].routineId in rmap {
      created := store.CreateExercise(ExerciseRow(userId, es[i], rmap[es[i].routineId], id));
    }
  }

  /** The third loop: each photo with a known exercise is uploaded; a refused upload is skipped and not counted. */
  method MigratePhotos(store: Store, userId: string, ps: seq<OldPhoto>, emap: map<JsValue, string>,
                       decode: string -> seq<int>, refused: set<string>) returns (n: nat)
    requires store.Valid()
    modifies store
    ensures store.Valid()
    ensures store.routines == old(store.routines) && store.exercises == old(store.exercises)
    ensures (store.blobs, n) == UploadPhotos(old(store.blobs), userId, ps, emap, decode, refused)
  {
    n := 0;
    var i := 0;
    while i < |ps|
      invariant i <= |ps| && store.Valid()
      invariant store.routines == old(store.routines) && store.exercises == old(store.exercises)
      invariant (store.blobs, n) == UploadPhotos(old(store.blobs), userId, ps[..i], emap, decode, refused)
    {
      UploadPhotosStep(old(store.blobs), userId, ps, emap, decode, refused, i);
      var p := ps[i];
      if p.exerciseId in emap {
        var name := PhotoName(userId, emap[p.exerciseId], ToStr(p.timestamp));
        if name !in refused {
          store.UploadBlob(Blob(name, decode(p.blob), "image/jpeg"));
          n := n + 1;
        }
      }
      i := i + 1;
    }
    assert ps[..i] == ps;
  }

  // ---------------------------------------------------------------- loop steps

  lemma MapStep<T, U>(f: T -> U, s: seq<T>, i: nat)
    requires i < |s|
    ensures Seqs.Map(f, s[..i + 1]) == Seqs.Map(f, s[..i]) + [f(s[i])]
  {
    assert s[..i + 1] == s[..i] + [s[i]];
    Seqs.MapAppend(f, s[..i], s[i]);
  }

  /** Recording the id drawn for element `i` extends the id map of the elements before it. */
  lemma KeyedIdMapStep<T>(key: T -> JsValue, s: seq<T>, i: nat, ids: seq<string>, id: string)
    requires i < |s| && |ids| == i
    ensures IdMap(Seqs.Map(key, s[..i]), ids)[key(s[i]) := id] == IdMap(Seqs.Map(key, s[..i + 1]), ids + [id])
  {
    IdMapStep(Seqs.Map(key, s[..i]), ids, key(s[i]), id);
    MapStep(key, s, i);
  }

  lemma IdMapStep(keys: seq<JsValue>, ids: seq<string>, k: JsValue, id: string)
    requires |keys| == |ids|
    ensures IdMap(keys + [k], ids + [id]) == IdMap(keys, ids)[k := id]
  {
    assert (keys + [k])[..|keys|] == keys;
    assert (ids + [id])[..|ids|] == ids;
  }

  lemma AddRoutinesStep(rows: seq<RoutineEntity>, userId: string, rs: seq<OldRoutine>, rids: seq<string>, id: string, i: nat)
    requires i < |rs| && |rids| == i
    ensures var (t, ok) := AddRoutines(rows, userId, rs[..i], rids);
      var row := RoutineRow(userId, rs[i], id);
      AddRoutines(rows, userId, rs[..i + 1], rids + [id])
        == if !ok || !Insertable(RoutineKey, t, RoutineKey(row)) then (t, false) else (t + [row], true)
  {
    assert rs[..i + 1][..i] == rs[..i];
    assert (rids + [id])[..i] == rids;
  }

  lemma AddExercisesStep(rows: seq<ExerciseEntity>, userId: string, es: seq<OldExercise>, eids: seq<string>, id: string,
                         rmap: map<JsValue, string>, i: nat)
    requires i < |es| && |eids| == i
    ensures var (t, ok) := AddExercises(rows, userId, es[..i], eids, rmap);
      AddExercises(rows, userId, es[..i + 1], eids + [id], rmap)
        == if !ok then (t, false)
           else if es[i].routineId !in rmap then (t, true)
           else
             var row := ExerciseRow(userId, es[i], rmap[es[i].routineId], id);
             if !Insertable(ExerciseKey, t, ExerciseKey(row)) then (t, false) else (t + [row], true)
  {
    assert es[..i + 1][..i] == es[..i];
    assert (eids + [id])[..i] == eids;
  }

  lemma UploadPhotosStep(blobs: seq<Blob>, userId: string, ps: seq<OldPhoto>, emap: map<JsValue, string>,
                         decode: string -> seq<int>, refused: set<string>, i: nat)
    requires i < |ps|
    ensures var (t, n) := UploadPhotos(blobs, userId, ps[..i], emap, decode, refused);
      var p := ps[i];
      UploadPhotos(blobs, userId, ps[..i + 1], emap, decode, refused)
        == if p.exerciseId !in emap || PhotoBlobName(userId, p, emap[p.exerciseId]) in refused then (t, n)
           else (Upload(t, Blob(PhotoBlobName(userId, p, emap[p.exerciseId]), decode(p.blob), "image/jpeg")), n + 1)
  {
    var q := ps[..i + 1];
    assert q[..|q| - 1] == ps[..i] && q[|q| - 1] == ps[i];
  }

  /**
   * An old routine whose date holds a character the service refuses in keys
   * (`2024/01/01`, say) has its insert refused, so the routines stage fails.
   */
  lemma RefusedDateStops(rows: seq<RoutineEntity>, userId: string, rs: seq<OldRoutine>, rids: seq<string>,
                         k: nat, date: string, i: nat)
    requires |rids| == |rs| && k < |rs| && rs[k].date == Str(date)
    requires i < |date| && RefusedKeyChar(date[i])
    ensures !AddRoutines(rows, userId, rs, rids).1
  {
    var row := RoutineRow(userId, rs[k], rids[k]);
    assert row.rowKey[i] == date[i];
    assert !KeyAccepted(RoutineKey(row));
    AddRoutinesStep(rows, userId, rs, rids[..k], rids[k], k);
    assert rids[..k] + [rids[k]] == rids[..k + 1];
    AddRoutinesStops(rows, userId, rs, rids, k + 1);
  }

  /** Such a date makes the whole migration fail with no photo uploaded, whatever the ids drawn. */
  lemma RefusedDateFails(routines: seq<RoutineEntity>, exercises: seq<ExerciseEntity>, blobs: seq<Blob>, userId: string,
                         d: MigrationData, rids: seq<string>, eids: seq<string>, decode: string -> seq<int>,
                         refused: set<string>, k: nat, date: string, i: nat)
    requires |rids| == |d.routines| && |eids| == |d.exercises|
    requires k < |d.routines| && d.routines[k].date == Str(date)
    requires i < |date| && RefusedKeyChar(date[i])
    ensures var o := Migration(routines, exercises, blobs, userId, d, rids, eids, decode, refused);
      o.result.None? && o.exercises == exercises && o.blobs == blobs
  {
    RefusedDateStops(routines, userId, d.routines, rids, k, date, i);
  }

  /** Once an insert has failed, the rest of the loop does not run: later ids make no difference. */
  lemma {:induction false} AddRoutinesStops(rows: seq<RoutineEntity>, userId: string, rs: seq<OldRoutine>, rids: seq<string>, m: nat)
    requires |rids| == |rs| && m <= |rs|
    requires !AddRoutines(rows, userId, rs[..m], rids[..m]).1
    ensures AddRoutines(rows, userId, rs, rids) == AddRoutines(rows, userId, rs[..m], rids[..m])
    decreases |rs|
  {
    if m < |rs| {
      var n := |rs| - 1;
      assert rs[..n][..m] == rs[..m] && rids[..n][..m] == rids[..m];
      AddRoutinesStops(rows, userId, rs[..n], rids[..n], m);
      AddRoutinesFailed(rows, userId, rs, rids);
    } else {
      assert rs[..m] == rs && rids[..m] == rids;
    }
  }

  /** Once an insert has failed, the remaining routines leave the table as it is. */
  lemma AddRoutinesFailed(rows: seq<RoutineEntity>, userId: string, rs: seq<OldRoutine>, rids: seq<string>)
    requires |rids| == |rs| && rs != []
    requires !AddRoutines(rows, userId, rs[..|rs| - 1], rids[..|rs| - 1]).1
    ensures AddRoutines(rows, userId, rs, rids) == AddRoutines(rows, userId, rs[..|rs| - 1], rids[..|rs| - 1])
  {
  }

  lemma {:induction false} AddExercisesStops(rows: seq<ExerciseEntity>, userId: string, es: seq<OldExercise>, eids: seq<string>,
                                             rmap: map<JsValue, string>, m: nat)
    requires |eids| == |es| && m <= |es|
    requires !AddExercises(rows, userId, es[..m], eids[..m], rmap).1
    ensures AddExercises(rows, userId, es, eids, rmap) == AddExercises(rows, userId, es[..m], eids[..m], rmap)
    decreases |es|
  {
    if m < |es| {
      var n := |es| - 1;
      assert es[..n][..m] == es[..m] && eids[..n][..m] == eids[..m];
      AddExercisesStops(rows, userId, es[..n], eids[..n], rmap, m);
      AddExercisesFailed(rows, userId, es, eids, rmap);
    } else {
      assert es[..m] == es && eids[..m] == eids;
    }
  }

  /** Once an insert has failed, the remaining exercises leave the table as it is. */
  lemma AddExercisesFailed(rows: seq<ExerciseEntity>, userId: string, es: seq<OldExercise>, eids: seq<string>,
                           rmap: map<JsValue, string>)
    requires |eids| == |es| && es != []
    requires !AddExercises(rows, userId, es[..|es| - 1], eids[..|es| - 1], rmap).1
    ensures AddExercises(rows, userId, es, eids, rmap) == AddExercises(rows, userId, es[..|es| - 1], eids[..|es| - 1], rmap)
  {
  }

  // ---------------------------------------------------------------- fresh ids

  /** The ids the source hands out next, starting at its counter. */
  function Unused(next: nat, n: nat): (xs: seq<string>)
    ensures |xs| == n && forall j :: 0 <= j < n ==> xs[j] == IdText(next + j)
  {
    seq(n, j requires 0 <= j < n => IdText(next + j))
  }

  lemma FreshStep(drawn: seq<string>, id: string, issued0: set<string>, issued: set<string>)
    requires Fresh(drawn, issued0) && issued0 <= issued && id !in issued
    requires Within(drawn, issued)
    ensures Fresh(drawn + [id], issued0) && Within(drawn + [id], issued + {id})
  {
  }

  lemma FreshAcross(a: seq<string>, b: seq<string>, issued0: set<string>, issued1: set<string>)
    requires Fresh(a, issued0) && Fresh(b, issued1) && issued0 <= issued1
    requires Within(a, issued1)
    ensures Fresh(a + b, issued0)
  {
  }

  lemma PadSplit<T>(a: seq<T>, pad: seq<T>, m: nat)
    requires m <= |pad|
    ensures (a + pad[..m]) + pad[m..] == a + pad
  {
    assert pad == pad[..m] + pad[m..];
  }

  /** Ids drawn so far and the ones the source would hand out next are fresh together. */
  lemma FreshPadding(drawn: seq<string>, issued0: set<string>, next: nat, n: nat) returns (pad: seq<string>)
    requires Fresh(drawn, issued0)
    requires issued0 <= IdsBelow(next)
    requires Within(drawn, IdsBelow(next))
    ensures |pad| == n && Fresh(drawn + pad, issued0)
  {
    pad := Unused(next, n);
    forall j | 0 <= j < n
      ensures pad[j] !in IdsBelow(next)
    {
      forall i | 0 <= i < next
        ensures IdText(i) != IdText(next + j)
      {
        if IdText(i) == IdText(next + j) {
          IdTextInjective(i, next + j);
        }
      }
    }
    forall j1, j2 | 0 <= j1 < j2 < n
      ensures pad[j1] != pad[j2]
    {
      if pad[j1] == pad[j2] {
        IdTextInjective(next + j1, next + j2);
      }
    }
  }
}
