/**
 * The remote storage the server handlers work on: the `routines` and
 * `exercises` tables (rows keyed by partition key = user id and row key) and
 * the `exercise-photos` blob container (blobs keyed by name). Rows and blobs
 * are kept in the order they were written; a listing returns them in that order
 * (the service itself lists rows by partition and row key, and blobs by name).
 * A table query sends an OData filter text; which rows it selects is what that
 * text reads as (module OData).
 */
module TableStore {
  import opened Wrappers
  import opened Js
  import opened Text
  import OData
  import Seqs

  /** A row of the `routines` table. */
  datatype RoutineEntity = RoutineEntity(
    partitionKey: string,
    rowKey: string,
    date: JsValue,
    name: JsValue,
    order: JsValue,
    routineId: string)

  /** A row of the `exercises` table. */
  datatype ExerciseEntity = ExerciseEntity(
    partitionKey: string,
    rowKey: string,
    routineId: JsValue,
    exerciseId: string,
    name: JsValue,
    repetitions: JsValue,
    weight: JsValue,
    sets: JsValue,
    setsCompleted: JsValue,
    time: JsValue,
    distance: JsValue,
    order: JsValue)

  /** A blob of the photo container: its name, its bytes and its content type. */
  datatype Blob = Blob(name: string, content: seq<int>, contentType: string)

  type Key = (string, string)

  function RoutineKey(r: RoutineEntity): Key { (r.partitionKey, r.rowKey) }

  function ExerciseKey(e: ExerciseEntity): Key { (e.partitionKey, e.rowKey) }

  /** No two rows share a key. */
  predicate UniqueKeys<T>(key: T -> Key, rows: seq<T>)
  {
    forall i, j :: 0 <= i < j < |rows| ==> key(rows[i]) != key(rows[j])
  }

  predicate HasKey<T>(key: T -> Key, rows: seq<T>, k: Key)
  {
    exists i :: 0 <= i < |rows| && key(rows[i]) == k
  }

  /**
   * A character the table service refuses in a PartitionKey or RowKey value:
   * `/`, `\`, `#`, `?` and the control characters U+0000-U+001F and U+007F-U+009F.
   */
  predicate RefusedKeyChar(c: char)
  {
    c == '/' || c == '\\' || c == '#' || c == '?' || c as int < 0x20 || 0x7F <= c as int <= 0x9F
  }

  /** Whether the service accepts a key: neither of its parts holds a refused character. */
  predicate KeyAccepted(k: Key)
  {
    (forall c :: c in k.0 ==> !RefusedKeyChar(c)) && (forall c :: c in k.1 ==> !RefusedKeyChar(c))
  }

  /** Whether `createEntity` stores a row under `k`: the service accepts the key and no row holds it yet. */
  predicate Insertable<T>(key: T -> Key, rows: seq<T>, k: Key)
  {
    KeyAccepted(k) && !HasKey(key, rows, k)
  }

  /** The listing filter `PartitionKey eq '<userId>' and routineId eq '<routineId>'` on the routines table. */
  function RoutineMatches(userId: string, routineId: string): RoutineEntity -> bool
  {
    (e: RoutineEntity) => e.partitionKey == userId && e.routineId == routineId
  }

  /** The listing filter `PartitionKey eq '<userId>' and exerciseId eq '<exerciseId>'` on the exercises table. */
  function ExerciseMatches(userId: string, exerciseId: string): ExerciseEntity -> bool
  {
    (e: ExerciseEntity) => e.partitionKey == userId && e.exerciseId == exerciseId
  }

  /** The listing filter `PartitionKey eq '<userId>' and routineId eq '<routineId>'` on the exercises table. */
  function InRoutine(userId: string, routineId: string): ExerciseEntity -> bool
  {
    (e: ExerciseEntity) => e.partitionKey == userId && e.routineId == Str(routineId)
  }

  function NotInRoutine(userId: string, routineId: string): ExerciseEntity -> bool
  {
    (e: ExerciseEntity) => !(e.partitionKey == userId && e.routineId == Str(routineId))
  }

  /** A property as a filter's string literal is compared with it: only a string value takes part. */
  function TextOf(v: JsValue): (r: Option<string>)
    ensures forall t :: r == Some(t) <==> v == Str(t)
  {
    if v.Str? then Some(v.s) else None
  }

  /** The properties of a routine row, by the names a filter uses. */
  function RoutineProperty(r: RoutineEntity): string -> Option<string>
  {
    (p: string) =>
      if p == "PartitionKey" then Some(r.partitionKey)
      else if p == "RowKey" then Some(r.rowKey)
      else if p == "routineId" then Some(r.routineId)
      else if p == "date" then TextOf(r.date)
      else if p == "name" then TextOf(r.name)
      else if p == "order" then TextOf(r.order)
      else None
  }

  /** The properties of an exercise row, by the names a filter uses. */
  function ExerciseProperty(e: ExerciseEntity): string -> Option<string>
  {
    (p: string) =>
      if p == "PartitionKey" then Some(e.partitionKey)
      else if p == "RowKey" then Some(e.rowKey)
      else if p == "routineId" then TextOf(e.routineId)
      else if p == "exerciseId" then Some(e.exerciseId)
      else if p == "name" then TextOf(e.name)
      else if p == "repetitions" then TextOf(e.repetitions)
      else if p == "weight" then TextOf(e.weight)
      else if p == "sets" then TextOf(e.sets)
      else if p == "setsCompleted" then TextOf(e.setsCompleted)
      else if p == "time" then TextOf(e.time)
      else if p == "distance" then TextOf(e.distance)
      else if p == "order" then TextOf(e.order)
      else None
  }

  /** The routine rows a query with filter `f` lists. */
  function RoutineSelected(f: OData.Filter): RoutineEntity -> bool
  {
    (r: RoutineEntity) => OData.Holds(f, RoutineProperty(r))
  }

  /** The exercise rows a query with filter `f` lists. */
  function ExerciseSelected(f: OData.Filter): ExerciseEntity -> bool
  {
    (e: ExerciseEntity) => OData.Holds(f, ExerciseProperty(e))
  }

  function ExerciseNotSelected(f: OData.Filter): ExerciseEntity -> bool
  {
    Seqs.Not(ExerciseSelected(f))
  }

  /** On the routines table, the id test selects exactly the rows `RoutineMatches` names. */
  lemma RoutineIdTestExact(userId: string, routineId: string)
    ensures forall r :: RoutineSelected(OData.IdTest(userId, "routineId", routineId))(r)
                    == RoutineMatches(userId, routineId)(r)
  {
    forall r
      ensures RoutineSelected(OData.IdTest(userId, "routineId", routineId))(r) == RoutineMatches(userId, routineId)(r)
    {
      var pr := RoutineProperty(r);
      assert pr("PartitionKey") == Some(r.partitionKey);
      assert pr("routineId") == Some(r.routineId);
      assert OData.Holds(OData.IdTest(userId, "routineId", routineId), pr)
          == (OData.Holds(OData.Compare("PartitionKey", OData.Eq, userId), pr) && OData.Holds(OData.Compare("routineId", OData.Eq, routineId), pr));
    }
  }

  /** On the routines table, the date test selects the caller's rows stored with that date string. */
  lemma DateTestExact(userId: string, date: string)
    ensures forall r :: RoutineSelected(OData.IdTest(userId, "date", date))(r)
                    == (r.partitionKey == userId && r.date == Str(date))
  {
    forall r
      ensures RoutineSelected(OData.IdTest(userId, "date", date))(r) == (r.partitionKey == userId && r.date == Str(date))
    {
      var pr := RoutineProperty(r);
      assert pr("PartitionKey") == Some(r.partitionKey);
      assert pr("date") == TextOf(r.date);
      assert OData.Holds(OData.IdTest(userId, "date", date), pr)
          == (OData.Holds(OData.Compare("PartitionKey", OData.Eq, userId), pr) && OData.Holds(OData.Compare("date", OData.Eq, date), pr));
    }
  }

  /** On the exercises table, the id test selects exactly the rows `ExerciseMatches` names. */
  lemma ExerciseIdTestExact(userId: string, exerciseId: string)
    ensures forall e :: ExerciseSelected(OData.IdTest(userId, "exerciseId", exerciseId))(e)
                    == ExerciseMatches(userId, exerciseId)(e)
  {
    forall e
      ensures ExerciseSelected(OData.IdTest(userId, "exerciseId", exerciseId))(e) == ExerciseMatches(userId, exerciseId)(e)
    {
      var pr := ExerciseProperty(e);
      assert pr("PartitionKey") == Some(e.partitionKey);
      assert pr("exerciseId") == Some(e.exerciseId);
      assert OData.Holds(OData.IdTest(userId, "exerciseId", exerciseId), pr)
          == (OData.Holds(OData.Compare("PartitionKey", OData.Eq, userId), pr) && OData.Holds(OData.Compare("exerciseId", OData.Eq, exerciseId), pr));
    }
  }

  /** On the exercises table, the routine test selects exactly `InRoutine` and leaves exactly `NotInRoutine`. */
  lemma InRoutineTestExact(userId: string, routineId: string)
    ensures forall e :: ExerciseSelected(OData.IdTest(userId, "routineId", routineId))(e)
                    == InRoutine(userId, routineId)(e)
    ensures forall e :: ExerciseNotSelected(OData.IdTest(userId, "routineId", routineId))(e)
                    == NotInRoutine(userId, routineId)(e)
  {
    forall e
      ensures ExerciseSelected(OData.IdTest(userId, "routineId", routineId))(e) == InRoutine(userId, routineId)(e)
        && ExerciseNotSelected(OData.IdTest(userId, "routineId", routineId))(e) == NotInRoutine(userId, routineId)(e)
    {
      var pr := ExerciseProperty(e);
      assert pr("PartitionKey") == Some(e.partitionKey);
      assert pr("routineId") == TextOf(e.routineId);
      assert OData.Holds(OData.IdTest(userId, "routineId", routineId), pr)
          == (OData.Holds(OData.Compare("PartitionKey", OData.Eq, userId), pr) && OData.Holds(OData.Compare("routineId", OData.Eq, routineId), pr));
    }
  }

  /** For ids without a quote, the routine query finds the first row `RoutineMatches` names. */
  lemma RoutineQueryExact(rows: seq<RoutineEntity>, userId: string, routineId: string)
    requires '\'' !in userId && '\'' !in routineId
    ensures OData.Parse(OData.IdFilter(userId, "routineId", routineId)) == Some(OData.IdTest(userId, "routineId", routineId))
    ensures Seqs.Find(RoutineSelected(OData.IdTest(userId, "routineId", routineId)), rows)
         == Seqs.Find(RoutineMatches(userId, routineId), rows)
  {
    OData.KeywordsAreWords();
    OData.IdFilterExact(userId, "routineId", routineId);
    RoutineIdTestExact(userId, routineId);
    Seqs.FindExt(RoutineSelected(OData.IdTest(userId, "routineId", routineId)), RoutineMatches(userId, routineId), rows);
  }

  /** For ids without a quote, the exercise query finds the first row `ExerciseMatches` names. */
  lemma ExerciseQueryExact(rows: seq<ExerciseEntity>, userId: string, exerciseId: string)
    requires '\'' !in userId && '\'' !in exerciseId
    ensures OData.Parse(OData.IdFilter(userId, "exerciseId", exerciseId)) == Some(OData.IdTest(userId, "exerciseId", exerciseId))
    ensures Seqs.Find(ExerciseSelected(OData.IdTest(userId, "exerciseId", exerciseId)), rows)
         == Seqs.Find(ExerciseMatches(userId, exerciseId), rows)
  {
    OData.KeywordsAreWords();
    OData.IdFilterExact(userId, "exerciseId", exerciseId);
    ExerciseIdTestExact(userId, exerciseId);
    Seqs.FindExt(ExerciseSelected(OData.IdTest(userId, "exerciseId", exerciseId)), ExerciseMatches(userId, exerciseId), rows);
  }

  /** For ids without a quote, the routine query on the exercises table lists `InRoutine` and leaves `NotInRoutine`. */
  lemma InRoutineQueryExact(rows: seq<ExerciseEntity>, userId: string, routineId: string)
    requires '\'' !in userId && '\'' !in routineId
    ensures OData.Parse(OData.IdFilter(userId, "routineId", routineId)) == Some(OData.IdTest(userId, "routineId", routineId))
    ensures Seqs.Filter(ExerciseSelected(OData.IdTest(userId, "routineId", routineId)), rows)
         == Seqs.Filter(InRoutine(userId, routineId), rows)
    ensures Seqs.Filter(ExerciseNotSelected(OData.IdTest(userId, "routineId", routineId)), rows)
         == Seqs.Filter(NotInRoutine(userId, routineId), rows)
  {
    OData.KeywordsAreWords();
    OData.IdFilterExact(userId, "routineId", routineId);
    InRoutineTestExact(userId, routineId);
    Seqs.FilterExt(ExerciseSelected(OData.IdTest(userId, "routineId", routineId)), InRoutine(userId, routineId), rows);
    Seqs.FilterExt(ExerciseNotSelected(OData.IdTest(userId, "routineId", routineId)), NotInRoutine(userId, routineId), rows);
  }

  /** No two blobs share a name. */
  predicate UniqueNames(blobs: seq<Blob>)
  {
    forall i, j :: 0 <= i < j < |blobs| ==> blobs[i].name != blobs[j].name
  }

  predicate BlobExists(blobs: seq<Blob>, name: string)
  {
    exists i :: 0 <= i < |blobs| && blobs[i].name == name
  }

  /** The test a row passes when its key is not `k`. */
  function KeyIsNot<T>(key: T -> Key, k: Key): T -> bool
  {
    (x: T) => key(x) != k
  }

  /** The rows left after deleting the row with key `k`. */
  function WithoutKey<T>(key: T -> Key, rows: seq<T>, k: Key): (r: seq<T>)
  {
    Seqs.Filter(KeyIsNot(key, k), rows)
  }

  /** The test a blob passes when it is not named `name`. */
  function NameIsNot(name: string): Blob -> bool
  {
    (b: Blob) => b.name != name
  }

  /** The test a blob passes when its name is none of `names`. */
  function NameNotIn(names: seq<string>): Blob -> bool
  {
    (b: Blob) => b.name !in names
  }

  /** The test a blob passes when its name starts with `prefix`: what `listBlobsFlat({prefix})` lists. */
  function NameStartsWith(prefix: string): Blob -> bool
  {
    (b: Blob) => StartsWith(b.name, prefix)
  }

  function NameNotStartsWith(prefix: string): Blob -> bool
  {
    (b: Blob) => !StartsWith(b.name, prefix)
  }

  /** The blobs left after deleting the blob named `name`. */
  function WithoutBlob(blobs: seq<Blob>, name: string): seq<Blob>
  {
    Seqs.Filter(NameIsNot(name), blobs)
  }

  /** `${userId}/${exerciseId}/`: the folder under which the photos of one exercise are stored. */
  function PhotoPrefix(userId: string, exerciseId: string): string
  {
    userId + "/" + exerciseId + "/"
  }

  /** `${userId}/${exerciseId}/${timestamp}.jpg`: the name a photo is stored under. */
  function PhotoName(userId: string, exerciseId: string, timestamp: string): (name: string)
    ensures StartsWith(name, PhotoPrefix(userId, exerciseId))
  {
    assert (PhotoPrefix(userId, exerciseId) + timestamp + ".jpg")[..|PhotoPrefix(userId, exerciseId)|]
        == PhotoPrefix(userId, exerciseId);
    PhotoPrefix(userId, exerciseId) + timestamp + ".jpg"
  }

  /** An upload: it replaces the blob of the same name, or adds one at the end of the listing. */
  function Upload(blobs: seq<Blob>, b: Blob): (r: seq<Blob>)
    ensures BlobExists(r, b.name)
    ensures forall i :: 0 <= i < |r| && r[i].name != b.name ==> r[i] in blobs
    ensures forall i :: 0 <= i < |blobs| && blobs[i].name != b.name ==> blobs[i] in r
    ensures UniqueNames(blobs) ==> UniqueNames(r)
  {
    if BlobExists(blobs, b.name) then
      Seqs.Map((x: Blob) => if x.name == b.name then b else x, blobs)
    else
      assert forall i :: 0 <= i < |blobs| ==> blobs[i].name != b.name;
      assert (blobs + [b])[|blobs|] == b;
      blobs + [b]
  }

  /** The names of the blobs whose name starts with `prefix`, in listing order (`listBlobsFlat({prefix})`). */
  function ListBlobs(blobs: seq<Blob>, prefix: string): (names: seq<string>)
    ensures forall i :: 0 <= i < |names| ==> StartsWith(names[i], prefix) && BlobExists(blobs, names[i])
    ensures forall i :: 0 <= i < |blobs| && StartsWith(blobs[i].name, prefix) ==> blobs[i].name in names
  {
    if blobs == [] then []
    else
      var rest := ListBlobs(blobs[..|blobs| - 1], prefix);
      var last := blobs[|blobs| - 1];
      assert forall i :: 0 <= i < |rest| ==> BlobExists(blobs, rest[i]) by {
        forall i | 0 <= i < |rest|
          ensures BlobExists(blobs, rest[i])
        {
          var k :| 0 <= k < |blobs| - 1 && blobs[..|blobs| - 1][k].name == rest[i];
          assert blobs[k].name == rest[i];
        }
      }
      rest + (if StartsWith(last.name, prefix) then [last.name] else [])
  }

  /** Unique names stay unique in a listing. */
  lemma {:induction false} ListBlobsUnique(blobs: seq<Blob>, prefix: string)
    requires UniqueNames(blobs)
    ensures Seqs.Distinct(ListBlobs(blobs, prefix))
  {
    if blobs != [] {
      var init := blobs[..|blobs| - 1];
      ListBlobsUnique(init, prefix);
      var rest := ListBlobs(init, prefix);
      var last := blobs[|blobs| - 1];
      forall i | 0 <= i < |rest|
        ensures rest[i] != last.name
      {
        var k :| 0 <= k < |init| && init[k].name == rest[i];
        assert blobs[k].name == rest[i];
      }
    }
  }

  /** A listing holds one name per blob under the prefix. */
  lemma {:induction false} ListBlobsCount(blobs: seq<Blob>, prefix: string)
    ensures |ListBlobs(blobs, prefix)| == |Seqs.Filter(NameStartsWith(prefix), blobs)|
  {
    if blobs != [] {
      ListBlobsCount(blobs[..|blobs| - 1], prefix);
    }
  }

  /** Deleting the row with the key of `x` from a table with unique keys removes `x` alone. */
  lemma WithoutKeyOfUnique<T>(key: T -> Key, a: seq<T>, x: T, b: seq<T>)
    requires UniqueKeys(key, a + [x] + b)
    ensures WithoutKey(key, a + [x] + b, key(x)) == a + b
  {
    var rows := a + [x] + b;
    var p := KeyIsNot(key, key(x));
    forall i | 0 <= i < |a|
      ensures p(a[i])
    {
      assert rows[i] == a[i] && rows[|a|] == x;
    }
    forall i | 0 <= i < |b|
      ensures p(b[i])
    {
      assert rows[|a| + 1 + i] == b[i] && rows[|a|] == x;
    }
    Seqs.FilterAppend(p, a + [x], b);
    Seqs.FilterAppend(p, a, [x]);
    Seqs.FilterAll(p, a);
    Seqs.FilterAll(p, b);
    assert Seqs.Filter(p, [x]) == [] by {
      assert [x][..0] == [];
    }
  }

  /**
   * The remote storage. Its fields change only through the operations below,
   * which are the table and blob calls the handlers make.
   */
  class Store {
    var routines: seq<RoutineEntity>
    var exercises: seq<ExerciseEntity>
    var blobs: seq<Blob>

    /** Keys are unique in each table and names unique in the container. */
    ghost predicate Valid()
      reads this
    {
      UniqueKeys(RoutineKey, routines) && UniqueKeys(ExerciseKey, exercises) && UniqueNames(blobs)
    }

    constructor()
      ensures Valid() && routines == [] && exercises == [] && blobs == []
    {
      routines := [];
      exercises := [];
      blobs := [];
    }

    /**
     * `createEntity` on the routines table: refused when the key holds a character the
     * service refuses or is already taken, otherwise the row is added.
     */
    method CreateRoutine(e: RoutineEntity) returns (ok: bool)
      requires Valid()
      modifies this
      ensures Valid()
      ensures ok <==> Insertable(RoutineKey, old(routines), RoutineKey(e))
      ensures routines == if ok then old(routines) + [e] else old(routines)
      ensures exercises == old(exercises) && blobs == old(blobs)
    {
      ok := Insertable(RoutineKey, routines, RoutineKey(e));
      if ok {
        routines := routines + [e];
      }
    }

    /** `createEntity` on the exercises table, refused in the same cases. */
    method CreateExercise(e: ExerciseEntity) returns (ok: bool)
      requires Valid()
      modifies this
      ensures Valid()
      ensures ok <==> Insertable(ExerciseKey, old(exercises), ExerciseKey(e))
      ensures exercises == if ok then old(exercises) + [e] else old(exercises)
      ensures routines == old(routines) && blobs == old(blobs)
    {
      ok := Insertable(ExerciseKey, exercises, ExerciseKey(e));
      if ok {
        exercises := exercises + [e];
      }
    }

    /** `updateEntity({partitionKey, rowKey, name}, 'Merge')`: only the name of that row changes. */
    method MergeRoutineName(k: Key, name: JsValue)
      requires Valid() && HasKey(RoutineKey, routines, k)
      modifies this
      ensures Valid()
      ensures |routines| == |old(routines)|
      ensures forall i :: 0 <= i < |routines| ==>
        routines[i] == if RoutineKey(old(routines)[i]) == k then old(routines)[i].(name := name) else old(routines)[i]
      ensures exercises == old(exercises) && blobs == old(blobs)
    {
      routines := Seqs.Map((r: RoutineEntity) => if RoutineKey(r) == k then r.(name := name) else r, routines);
      forall i, j | 0 <= i < j < |routines|
        ensures RoutineKey(routines[i]) != RoutineKey(routines[j])
      {
        assert RoutineKey(routines[i]) == RoutineKey(old(routines)[i]);
        assert RoutineKey(routines[j]) == RoutineKey(old(routines)[j]);
      }
    }

    /** `updateEntity(updateData, 'Merge')` on an exercise row: `patch` rewrites the supplied fields. */
    method MergeExercise(k: Key, patch: ExerciseEntity -> ExerciseEntity)
      requires Valid() && HasKey(ExerciseKey, exercises, k)
      requires forall e :: ExerciseKey(patch(e)) == ExerciseKey(e)
      modifies this
      ensures Valid()
      ensures |exercises| == |old(exercises)|
      ensures forall i :: 0 <= i < |exercises| ==>
        exercises[i] == if ExerciseKey(old(exercises)[i]) == k then patch(old(exercises)[i]) else old(exercises)[i]
      ensures routines == old(routines) && blobs == old(blobs)
    {
      exercises := Seqs.Map((e: ExerciseEntity) => if ExerciseKey(e) == k then patch(e) else e, exercises);
      forall i, j | 0 <= i < j < |exercises|
        ensures ExerciseKey(exercises[i]) != ExerciseKey(exercises[j])
      {
        assert ExerciseKey(exercises[i]) == ExerciseKey(old(exercises)[i]);
        assert ExerciseKey(exercises[j]) == ExerciseKey(old(exercises)[j]);
      }
    }

    /** `deleteEntity(partitionKey, rowKey)` on the routines table. */
    method DeleteRoutine(k: Key)
      requires Valid() && HasKey(RoutineKey, routines, k)
      modifies this
      ensures Valid()
      ensures routines == WithoutKey(RoutineKey, old(routines), k)
      ensures exercises == old(exercises) && blobs == old(blobs)
    {
      FilterKeepsUnique(RoutineKey, routines, KeyIsNot(RoutineKey, k));
      routines := WithoutKey(RoutineKey, routines, k);
    }

    /** `deleteEntity(partitionKey, rowKey)` on the exercises table. */
    method DeleteExercise(k: Key)
      requires Valid() && HasKey(ExerciseKey, exercises, k)
      modifies this
      ensures Valid()
      ensures exercises == WithoutKey(ExerciseKey, old(exercises), k)
      ensures routines == old(routines) && blobs == old(blobs)
    {
      FilterKeepsUnique(ExerciseKey, exercises, KeyIsNot(ExerciseKey, k));
      exercises := WithoutKey(ExerciseKey, exercises, k);
    }

    /** `upload` of a block blob, replacing a blob of the same name. */
    method UploadBlob(b: Blob)
      requires Valid()
      modifies this
      ensures Valid()
      ensures blobs == Upload(old(blobs), b)
      ensures routines == old(routines) && exercises == old(exercises)
    {
      blobs := Upload(blobs, b);
    }

    /** `deleteBlob(name)`. */
    method DeleteBlob(name: string)
      requires Valid() && BlobExists(blobs, name)
      modifies this
      ensures Valid()
      ensures blobs == WithoutBlob(old(blobs), name)
      ensures routines == old(routines) && exercises == old(exercises)
    {
      FilterKeepsUniqueNames(blobs, NameIsNot(name));
      blobs := WithoutBlob(blobs, name);
    }
  }

  /** Deleting the row with the key of row `i` from a table with unique keys removes row `i` alone. */
  lemma WithoutKeyAt<T>(key: T -> Key, rows: seq<T>, i: nat)
    requires i < |rows| && UniqueKeys(key, rows)
    ensures WithoutKey(key, rows, key(rows[i])) == rows[..i] + rows[i + 1..]
  {
    assert rows == rows[..i] + [rows[i]] + rows[i + 1..];
    WithoutKeyOfUnique(key, rows[..i], rows[i], rows[i + 1..]);
  }

  lemma {:induction false} FilterKeepsUnique<T>(key: T -> Key, rows: seq<T>, p: T -> bool)
    requires UniqueKeys(key, rows)
    ensures UniqueKeys(key, Seqs.Filter(p, rows))
  {
    if rows != [] {
      var init := rows[..|rows| - 1];
      FilterKeepsUnique(key, init, p);
      var last := rows[|rows| - 1];
      var f := Seqs.Filter(p, init);
      forall i | 0 <= i < |f|
        ensures key(f[i]) != key(last)
      {
        Seqs.FilterMembership(p, init, f[i]);
        assert f[i] in f;
        var k :| 0 <= k < |init| && init[k] == f[i];
        assert rows[k] == f[i];
      }
    }
  }

  lemma {:induction false} FilterKeepsUniqueNames(blobs: seq<Blob>, p: Blob -> bool)
    requires UniqueNames(blobs)
    ensures UniqueNames(Seqs.Filter(p, blobs))
  {
    if blobs != [] {
      var init := blobs[..|blobs| - 1];
      FilterKeepsUniqueNames(init, p);
      var last := blobs[|blobs| - 1];
      var f := Seqs.Filter(p, init);
      forall i | 0 <= i < |f|
        ensures f[i].name != last.name
      {
        assert f[i] in f;
        Seqs.FilterMembership(p, init, f[i]);
        var k :| 0 <= k < |init| && init[k] == f[i];
        assert blobs[k] == f[i];
      }
    }
  }

  /**
   * The trailing `/` of a photo folder keeps exercises apart: a photo of another
   * exercise, even one whose id starts with this one's, is not under its folder.
   */
  lemma {:induction false} PhotoPrefixSeparates(userId: string, exerciseId: string, other: string, timestamp: string)
    requires other != exerciseId && '/' !in exerciseId && '/' !in other
    ensures !StartsWith(PhotoName(userId, other, timestamp), PhotoPrefix(userId, exerciseId))
  {
    var name := PhotoName(userId, other, timestamp);
    var prefix := PhotoPrefix(userId, exerciseId);
    var n := |userId| + 1;
    assert name == userId + "/" + other + "/" + timestamp + ".jpg";
    assert prefix == userId + "/" + exerciseId + "/";
    if |other| < |exerciseId| {
      assert name[n + |other|] == '/';
      assert prefix[n + |other|] == exerciseId[|other|];
      assert exerciseId[|other|] in exerciseId;
      DiffersAt(name, prefix, n + |other|);
    } else if |other| > |exerciseId| {
      assert prefix[n + |exerciseId|] == '/';
      assert name[n + |exerciseId|] == other[|exerciseId|];
      assert other[|exerciseId|] in other;
      DiffersAt(name, prefix, n + |exerciseId|);
    } else {
      var k :| 0 <= k < |other| && other[k] != exerciseId[k];
      assert name[n + k] == other[k];
      assert prefix[n + k] == exerciseId[k];
      DiffersAt(name, prefix, n + k);
    }
  }

  /** With unique names, deleting a blob that exists removes that one blob and keeps the rest in order. */
  lemma WithoutBlobAt(blobs: seq<Blob>, i: nat)
    requires i < |blobs| && UniqueNames(blobs)
    ensures WithoutBlob(blobs, blobs[i].name) == blobs[..i] + blobs[i + 1..]
  {
    var p := NameIsNot(blobs[i].name);
    var a, x, b := blobs[..i], blobs[i], blobs[i + 1..];
    assert blobs == a + [x] + b;
    forall k | 0 <= k < |a|
      ensures p(a[k])
    {
      assert blobs[k] == a[k];
    }
    forall k | 0 <= k < |b|
      ensures p(b[k])
    {
      assert blobs[i + 1 + k] == b[k];
    }
    Seqs.FilterAppend(p, a + [x], b);
    Seqs.FilterAppend(p, a, [x]);
    Seqs.FilterAll(p, a);
    Seqs.FilterAll(p, b);
    assert Seqs.Filter(p, [x]) == [] by {
      assert [x][..0] == [];
    }
  }
}
