# Pump, modelled in Dafny

Pump is a workout tracker. A day holds routines, a routine holds exercises
(repetitions, weight, sets, sets completed, time, distance, order), and an
exercise holds photos. The repository has two halves, and both are modelled
here:

- **The cloud API.** Eleven HTTP handlers store routines and exercises as rows
  of two tables (`routines`, `exercises`), partitioned by user id. They store
  photos as blobs named `<userId>/<exerciseId>/<timestamp>.jpg` in the
  `exercise-photos` container. The browser reaches them through `apiFetch` and
  the SWR hooks, whose cache the mutations invalidate.
- **The local app.** A Dexie database (`PumpDB`, version 3) holds the same
  entities with numeric auto-increment keys. The day view, the routine card,
  the exercise row and the week and month calendars read and write it.
  Export and import move it to and from a JSON document.

Each source file has a module of its own: `CreateRoutine`, `GetPhotos`,
`Migrate`, `Storage`, `Client`, `UseApi`, `LocalDb`, `Export`, `DayView`,
`RoutineCard`, `ExerciseRow`, `WeekCalendar`, `MonthCalendar` and the rest.
A few modules hold what the source takes from JavaScript and its platform:

- `Js`: values, truthiness, `Number()`.
- `Text`: `split`, `join`, `trim`, `parseInt`.
- `Uri`: `encodeURIComponent` and `decodeURIComponent` over UTF-8.
- `Calendar`: `new Date(y, m, d)` with month and day roll-over and two-digit years.
- `Dates`: the `YYYY-MM-DD` pattern and `toLocalDateStr`.
- `TableStore`: the table and blob service.
- `OData`: the filter text a table query sends, and how the service reads it back.
- `Guids`: `randomUUID`.

Code that changes state in place takes an imperative form:

- The handlers' listing loops, the export and import loops and the grid loops
  are methods with loop invariants.
- The table store, the SWR cache, the Dexie database, the lazily built storage
  clients and the component states are classes.
- Each method is proved against a function that specifies it.

Pure code, such as URL building, the multipart parser, connection-string
parsing and the date arithmetic, is written as functions with lemmas.

The clock, the network and the storage SDK are parameters:

- "now" is a parameter.
- A request's outcome is a `Client.Exchange` value.
- Fresh ids come from a `Guids.GuidSource`.
- The base64 codec and the SAS signer are function parameters.
- A failed photo upload is a set of refused names.

## Model

| member | source | states |
|---|---|---|
| CreateRoutine.NewRow | api/src/functions/createRoutine.ts:28-41 | The stored row has key `<date>_<id>` in the caller's partition and `order` as `Number(order)`; the other fields are as sent |
| CreateRoutine.Handle | api/src/functions/createRoutine.ts:6-68 | An unreadable or `null` body gives 500. A falsy date or name, or an undefined order, gives 400 "Missing required fields". A date failing `\d{4}-\d{2}-\d{2}` gives 400 "Invalid date format". Otherwise a fresh id is drawn: a key the service refuses (a refused character in the user id, or a key already taken) gives 500, else the row is appended and 201 echoes id, date, name and order. Exercises and blobs are unchanged |
| CreateRoutine.CreatedIsListed | api/src/functions/createRoutine.ts:28-43 | A created routine appears in `GET /routines?date=` for its date |
| CreateRoutine.StoredOrderIsCoerced | api/src/functions/createRoutine.ts:39-51 | For `order: "2"` the row stores the number 2 while the answer echoes the string "2" |
| CreateExercise.Metric | api/src/functions/createExercise.ts:32-37 | `Number(v \|\| 0)`: a falsy metric becomes 0, a number stays, and the result is always a number or NaN |
| CreateExercise.NewRow | api/src/functions/createExercise.ts:20-39 | Row key `<routineId>_<id>` in the caller's partition; routineId and name as sent; order is `Number(order)`; a falsy time becomes `00:00`; every metric is a number or NaN |
| CreateExercise.Handle | api/src/functions/createExercise.ts:6-72 | A missing routineId or name (falsy), or an undefined order, gives 400. Otherwise a fresh id is drawn: a key the service refuses (a `/`, `\`, `#`, `?` or control character in the user id or routineId, or a key already taken) gives 500, else the row is appended and 201 answers it exactly as the listing shows it. Routines and blobs are unchanged |
| CreateExercise.CreatedIsListed | api/src/functions/createExercise.ts:41-57 | A created exercise appears in its routine's listing, as the creation answered it |
| CreateExercise.Defaults | api/src/functions/createExercise.ts:32-37 | A body with only the required fields gets zero metrics and time `00:00` |
| CreateExercise.RefusedRoutineId | api/src/functions/createExercise.ts:13-41 | A routineId holding `/`, `\`, `#`, `?` or a control character (`a/b`) passes the truthiness check but gives a row key the service refuses, so the answer is 500 whatever the table holds |
| DeleteExercise.Handle | api/src/functions/deleteExercise.ts:6-67 | An empty id gives 400 and nothing changes. Otherwise every blob under `<userId>/<exerciseId>/` is deleted first. Then a filter text the service refuses gives 500 "Failed to delete exercise" with the table unchanged (the photos are already gone). Otherwise the first row the query lists is removed, with 200 and the number of photos deleted; with no row listed the answer is 404 |
| DeleteExercise.DeleteFirst | api/src/functions/deleteExercise.ts:35-40 | Removes the first row the query lists, by its own key, and reports whether there was one; nothing else changes |
| Cascade.DeletePhotosUnder | api/src/functions/deleteExercise.ts:21-28 | The blobs left are exactly those not under the prefix, in order; the count is the number that were under it |
| Cascade.ListingCoversPrefix | api/src/functions/deleteExercise.ts:21-28 | Deleting the listed names is the same as deleting the blobs under the prefix |
| DeletePhoto.Handle | api/src/functions/deletePhoto.ts:6-47 | An empty id gives 400. A name that does not decode gives 500. A name not starting with `<userId>/` gives 403. A missing blob gives 404. Otherwise exactly that blob is deleted, with 200 |
| DeletePhoto.OwnerPrefixSeparates | api/src/functions/deletePhoto.ts:21 | Because the slash is part of the check, a photo of another user never passes the caller's owner check, even when one id is a prefix of the other |
| DeletePhoto.ClientIdDecodes | api/src/functions/deletePhoto.ts:18-21 | The id the client sends for one of the caller's photos decodes to the blob name and passes the owner check |
| DeletePhoto.DeletesOnlyThatBlob | api/src/functions/deletePhoto.ts:42 | Deleting a present name removes that blob alone and keeps the rest in order |
| DeleteRoutine.Handle | api/src/functions/deleteRoutine.ts:6-83 | An empty id gives 400. A filter text the service refuses gives 500 "Failed to delete routine" with nothing changed. Otherwise the exercise rows the query lists are deleted, then the photos of their ids, then the first routine row the query lists. The answer is 200 with the number of exercises deleted, or 404 when no routine row is listed, after the cascade has already run |
| DeleteRoutine.RunCascade | api/src/functions/deleteRoutine.ts:21-67 | For the parsed filter: the listed exercise rows go, then the photos under their ids, then the first listed routine row; 200 with the count, or 404 with the routines unchanged |
| DeleteRoutine.DeleteExercisesOf | api/src/functions/deleteRoutine.ts:21-32 | Removes exactly the rows the query lists and returns their exercise ids in listing order; for quote-free ids these are the caller's rows of that routine (ExercisesAfterCascade) |
| DeleteRoutine.DeletePhotosOf | api/src/functions/deleteRoutine.ts:34-44 | Removes exactly the blobs under the folder of one of the ids |
| DeleteRoutine.DeleteRoutineRow | api/src/functions/deleteRoutine.ts:46-56 | Removes the first routine row the query lists and reports whether there was one |
| DeleteRoutine.VisitExercise | api/src/functions/deleteRoutine.ts:24-31 | One turn of the loop: the row is deleted and its id recorded exactly when the query lists it |
| DeleteRoutine.DeleteNext | api/src/functions/deleteRoutine.ts:30 | Deleting the next row of the listing removes it and keeps the rest |
| DeleteRoutine.ExercisesAfterCascade | api/src/functions/deleteRoutine.ts:21-32 | For ids without a quote the filter reads as the exact test, and afterwards no exercise of the routine remains in the caller's partition while every other row is kept |
| DeleteRoutine.CountIsRowsRemoved | api/src/functions/deleteRoutine.ts:65-67 | `deletedExercises` equals the number of rows stage 1 removed |
| DeleteRoutine.PhotosAfterCascade | api/src/functions/deleteRoutine.ts:34-44 | No photo of a removed exercise remains; every other photo is kept |
| DeleteRoutine.OtherUsersPhotosKept | api/src/functions/deleteRoutine.ts:36 | Another user's photos survive the cascade when user ids hold no `/` |
| DeleteRoutine.OtherUsersRowsKept | api/src/functions/deleteRoutine.ts:23 | For ids without a quote, exercise and routine rows of other partitions survive the cascade |
| DeleteRoutine.OwnersAgree | api/src/functions/deleteRoutine.ts:36 | A blob under the caller's exercise folder belongs to no other user, when user ids hold no `/` |
| DeleteRoutine.InjectionReachesOtherUsers | api/src/functions/deleteRoutine.ts:22-56 | With the routine id `x' or routineId ne '`, stage 1 deletes another user's exercise whose routineId is a non-empty string, and stage 3 deletes another user's routine when it is the first row |
| DeleteRoutine.InjectedListsExercise | api/src/functions/deleteRoutine.ts:23 | The injected filter lists every exercise row whose routineId is a non-empty string, in any partition |
| DeleteRoutine.InjectedListsRoutine | api/src/functions/deleteRoutine.ts:48 | The injected filter lists every routine row whose routineId is not empty, in any partition |
| GetExercises.Handle | api/src/functions/getExercises.ts:6-61 | A missing or empty routineId gives 400. A filter text the service refuses gives 500 "Failed to fetch exercises". Otherwise 200 with the rows the query lists, as items sorted by `order` |
| GetExercises.Collect | api/src/functions/getExercises.ts:25-41 | Pushes one item per listed row in listing order, then sorts: the result is the selection the answer promises |
| GetExercises.QuoteFreeListing | api/src/functions/getExercises.ts:22 | For ids without a quote the filter reads as the exact test, and the answer is the listing of the caller's rows of that routine |
| GetExercises.ListingContents | api/src/functions/getExercises.ts:19-38 | The listing of the exact test holds exactly the caller's rows of that routine, each once per row |
| GetExercises.ListingSorted | api/src/functions/getExercises.ts:41 | When every order is a number the listing ascends by order |
| GetRoutines.Handle | api/src/functions/getRoutines.ts:6-62 | A missing date gives 400. A date failing the pattern gives 400 "Invalid date format". A filter text the service refuses gives 500 "Failed to fetch routines". Otherwise 200 with the rows the query lists, sorted by order |
| GetRoutines.Collect | api/src/functions/getRoutines.ts:33-43 | Pushes one item per listed row in listing order, then sorts: the result is the selection the answer promises |
| GetRoutines.DateHasNoQuote | api/src/functions/getRoutines.ts:18 | A date that passed the pattern check holds no quote |
| GetRoutines.QuoteFreeListing | api/src/functions/getRoutines.ts:30 | For a user id without a quote the filter reads as the exact test, and the answer is the listing of the caller's rows of that day |
| GetRoutines.ListingContents | api/src/functions/getRoutines.ts:27-40 | The listing of the exact test holds exactly the caller's rows of that day |
| GetRoutines.ListingSorted | api/src/functions/getRoutines.ts:43 | When every order is a number the listing ascends by order |
| GetPhotos.TimestampOf | api/src/functions/getPhotos.ts:29-31 | The timestamp is never 0 unless `now` is, because a NaN or 0 parse falls back to `now` |
| GetPhotos.Handle | api/src/functions/getPhotos.ts:6-62 | A missing id gives 400. When there is a photo and the connection string cannot sign, 500. Otherwise 200 with `count` equal to the number of blobs under the folder and the items of those blobs, newest first |
| GetPhotos.Photo | api/src/functions/getPhotos.ts:24-37 | Succeeds exactly when the connection string can sign, and then gives the item: id is the blob name, url is the signed URL, timestamp is read from the name |
| GetPhotos.ListingNewestFirst | api/src/functions/getPhotos.ts:41 | The listing descends by timestamp |
| GetPhotos.ListingContents | api/src/functions/getPhotos.ts:17-38 | The items listed are exactly the items of the caller's blobs under `<userId>/<exerciseId>/`, and there are as many as such blobs |
| GetPhotos.UploadTimeReadBack | api/src/functions/getPhotos.ts:31 | A photo stored under upload time t > 0 lists with timestamp t; t = 0 lists as `now` |
| GetPhotos.OtherExerciseNotListed | api/src/functions/getPhotos.ts:18-21 | A photo of another exercise is never listed, even when that exercise's id starts with this one's |
| GetPhotos.ItemOfListed | api/src/functions/getPhotos.ts:21-37 | An item is listed exactly when it is the item of a blob under the prefix |
| GetPhotos.FileNameOfPhoto | api/src/functions/getPhotos.ts:29-30 | The last `/` piece of a photo name is `<digits>.jpg` |
| GetPhotos.StripJpg | api/src/functions/getPhotos.ts:31 | Removing `.jpg` leaves the digits |
| UpdateRoutine.Renamed | api/src/functions/updateRoutine.ts:37-41 | Row i gets the new name; every other field of it, and every other row, is unchanged |
| UpdateRoutine.Handle | api/src/functions/updateRoutine.ts:6-72 | An unreadable body gives 500. An empty id gives 400. A null body gives 500. A falsy name gives 400. A filter text the service refuses gives 500. Otherwise the first row the query lists is renamed, with 200, or none is listed and the answer is 404. Only a rename changes the table |
| UpdateRoutine.RenameFirst | api/src/functions/updateRoutine.ts:34-45 | Renames the first row the query lists and reports whether there was one; every other row is kept |
| UpdateRoutine.RenameByKey | api/src/functions/updateRoutine.ts:37-41 | A merge by the key of row i renames row i alone |
| UpdateRoutine.RenameIsListed | api/src/functions/updateRoutine.ts:37-41 | After a rename the day listing shows the routine under the new name, with its id, date and order |
| UpdateExercise.UpdateOf | api/src/functions/updateExercise.ts:28-41 | Every field that is not `undefined` is supplied; the numeric ones go through `Number` |
| UpdateExercise.BuildUpdate | api/src/functions/updateExercise.ts:28-41 | The field-by-field construction equals `UpdateOf` |
| UpdateExercise.Apply | api/src/functions/updateExercise.ts:43 | A merge never changes the row's keys, its routine or its exercise id |
| UpdateExercise.Handle | api/src/functions/updateExercise.ts:6-74 | An unreadable body gives 500. An empty id gives 400. A filter text the service refuses gives 500. No listed row gives 404. A null body gives 500. Otherwise the first row the query lists is merged with the update, with 200 |
| UpdateExercise.UpdateFirst | api/src/functions/updateExercise.ts:25-54 | Merges the update into the first row the query lists, or answers 404 when none is, or 500 for a `null` body; only that row changes |
| UpdateExercise.MergeByKey | api/src/functions/updateExercise.ts:43 | A merge by the key of row i changes row i alone |
| UpdateExercise.ApplyFields | api/src/functions/updateExercise.ts:28-41 | Each of the eight fields the body supplies is written (the six numeric ones through `Number`); an undefined one keeps its value; keys, routine id and exercise id are kept |
| UpdateExercise.ApplyIdempotent | api/src/functions/updateExercise.ts:43 | Applying the same update twice gives the same row as applying it once |
| UpdateExercise.EmptyUpdate | api/src/functions/updateExercise.ts:33-41 | A body with no updatable field leaves the row unchanged |
| UpdateExercise.NullFields | api/src/functions/updateExercise.ts:34-38 | An explicit `null` weight is stored as 0, while an explicit `null` name is stored as `null` |
| Multipart.Boundary | api/src/functions/uploadPhoto.ts:14-19 | The capture of `boundary=([^;]+)`: when there is one it is non-empty and holds no `;` |
| Multipart.Quoted | api/src/functions/uploadPhoto.ts:32-33 | The capture `([^"]+)"`: a non-empty run without quotes, followed by a quote |
| Multipart.BoundarySkip | api/src/functions/uploadPhoto.ts:14 | Text without `b` before the parameter does not change the boundary found |
| Multipart.BoundaryAt | api/src/functions/uploadPhoto.ts:14-19 | `boundary=<b>` followed by the end or `;` gives `b` |
| Multipart.Bytes | api/src/functions/uploadPhoto.ts:40 | `Buffer.from(s, 'binary')`: one byte per character, the low eight bits |
| Multipart.Latin1 | api/src/functions/uploadPhoto.ts:20 | `toString('binary')`: one character per byte, with that code |
| Multipart.BytesLatin1 | api/src/functions/uploadPhoto.ts:20-40 | Reading bytes as binary text and back loses nothing |
| Multipart.ParseMultipartFormData | api/src/functions/uploadPhoto.ts:9-48 | A content type without a boundary fails; otherwise the result is `Parse`, whose meaning the lemmas below state |
| Multipart.ReadParts | api/src/functions/uploadPhoto.ts:22-45 | The loop over the pieces between delimiters fills the two maps exactly as `FormOf` reads the pieces |
| Multipart.AddEntry | api/src/functions/uploadPhoto.ts:38-44 | One turn of the loop: a file entry sets `files`, a field entry sets `fields`, a piece without a name changes neither |
| Multipart.NoBoundaryParameter | api/src/functions/uploadPhoto.ts:14-17 | A content type without `boundary=` makes the parse fail |
| Multipart.BoundaryOfContentType | api/src/functions/uploadPhoto.ts:14-19 | `multipart/form-data; boundary=<b>` followed by further `;` parameters gives boundary `b` |
| Multipart.ParseEncoded | api/src/functions/uploadPhoto.ts:9-48 | Round trip: parsing an encoded form whose boundary occurs within no part gives back its fields and files, contents trimmed |
| Multipart.ParseFieldAndFile | api/src/functions/uploadPhoto.ts:9-48 | A form with one text field and one file reads back as that field and that file |
| Multipart.TrimmedDashesIgnored | api/src/functions/uploadPhoto.ts:23 | A piece that trims to `--` contributes nothing |
| Multipart.CloseIgnored | api/src/functions/uploadPhoto.ts:23 | The closing `--` piece contributes nothing |
| Multipart.FormOfTexts | api/src/functions/uploadPhoto.ts:22-45 | Reading the pieces of an encoded form, the empty preamble included, collects its parts |
| Multipart.ReadPartText | api/src/functions/uploadPhoto.ts:22-44 | One encoded part reads back as its entry |
| Multipart.ReadPartShape | api/src/functions/uploadPhoto.ts:26-44 | A part is read by its disposition: a file when it has a filename, a field otherwise, with trimmed content; no disposition means it is skipped |
| Multipart.HeaderOnlyAtEnd | api/src/functions/uploadPhoto.ts:26 | The blank line occurs in a part's header only at its end, so the split finds the header's own end |
| Multipart.HeaderDisposition | api/src/functions/uploadPhoto.ts:32-38 | The regular expressions read back a part's name and, for a file, its filename |
| Multipart.EdgeWhitespaceLost | api/src/functions/uploadPhoto.ts:29 | Two files differing only in white space at their edges are stored the same |
| Multipart.EmptyFilenameIsField | api/src/functions/uploadPhoto.ts:32-43 | A file part with an empty file name is read as a text field |
| UploadPhoto.Contents | api/src/functions/uploadPhoto.ts:84 | The stored content is the file's bytes |
| UploadPhoto.PhotoBlob | api/src/functions/uploadPhoto.ts:78-88 | The blob is named `<userId>/<exerciseId>/<now>.jpg` with type `image/jpeg` |
| UploadPhoto.Handle | api/src/functions/uploadPhoto.ts:50-112 | A content type lacking `multipart/form-data` gives 400. A parse failure gives 500 with the details. A missing exerciseId field or photo file gives 400. Otherwise the blob is uploaded (replacing a same-named one) and 201 answers its name and timestamp |
| UploadPhoto.ClientFormAccepted | api/src/functions/uploadPhoto.ts:66-76 | The form the client builds, with field `exerciseId` and file `photo` named `photo.jpg`, is accepted and its content kept |
| UploadPhoto.NamesWellFormed | api/src/functions/uploadPhoto.ts:68-76 | The client's `exerciseId` field and `photo` file are parts the parser reads back |
| UploadPhoto.MissingBoundaryFails | api/src/functions/uploadPhoto.ts:14-17 | A form content type without a boundary fails the upload |
| UploadPhoto.UploadIsListed | api/src/functions/uploadPhoto.ts:78-96 | An uploaded photo is listed for its exercise, with its name as id and the upload time as timestamp |
| Migrate.IdMap | api/src/functions/migrate.ts:52-57 | `Map.set` in order: the map's keys are exactly the old ids |
| Migrate.IdMapValues | api/src/functions/migrate.ts:57 | Every old id maps to one of the new ids |
| Migrate.IdMapLast | api/src/functions/migrate.ts:57 | An old id that occurs more than once maps to the new id of its last occurrence |
| Migrate.AddRoutines | api/src/functions/migrate.ts:55-68 | Inserts in order until the service refuses a key, and keeps every existing row as a prefix, adding at most one row per routine; unique keys stay unique |
| Migrate.AddRoutinesRows | api/src/functions/migrate.ts:55-68 | When every insert succeeds the table gains exactly one row per old routine, in order |
| Migrate.MigratedRoutineListed | api/src/functions/migrate.ts:59-67 | A migrated routine is listed on its day under its new id |
| Migrate.AddExercises | api/src/functions/migrate.ts:74-100 | The same for exercises: existing rows stay a prefix, at most one row per exercise, unique keys stay unique |
| Migrate.AddExercisesRows | api/src/functions/migrate.ts:74-100 | When every insert succeeds, each exercise with a known routine has its row, linked to the routine's new id |
| Migrate.MigratedExerciseListed | api/src/functions/migrate.ts:85-99 | A migrated exercise is listed for its routine's new id |
| Migrate.UploadPhotos | api/src/functions/migrate.ts:103-128 | The count is the number of photos stored: those with a known exercise whose upload was not refused. Unique blob names stay unique |
| Migrate.UploadKeepsNames | api/src/functions/migrate.ts:118-122 | An upload never removes another name from the container |
| Migrate.StoredPhotosExist | api/src/functions/migrate.ts:104-124 | Every stored photo is in the container afterwards, under its name |
| Migrate.Migration | api/src/functions/migrate.ts:39-140 | The three stages in order. On success the routine and exercise counts are the input lengths, skipped exercises included; on failure the container is unchanged |
| Migrate.Handle | api/src/functions/migrate.ts:39-155 | An unreadable body gives 500 "Migration failed" with nothing changed. Otherwise the new tables, container and answer are what `Migration` gives for some fresh, distinct ids. Any failure is 500 "Migration failed" |
| Migrate.Run | api/src/functions/migrate.ts:51-140 | The three loops and the answer: 200 with the counts, or 500 "Migration failed"; the state left is one that `Migration` explains |
| Migrate.AfterRoutines | api/src/functions/migrate.ts:70-140 | After every routine was stored: the exercise loop and the rest; a failed exercise insert gives 500 and a state `Migration` explains |
| Migrate.AfterExercises | api/src/functions/migrate.ts:102-140 | After every routine and exercise was stored: the photo loop, then 200 with the input counts and the number of photos stored |
| Migrate.Succeeded | api/src/functions/migrate.ts:102-140 | A run in which every insert succeeds ends in the outcome `Migration` gives for the ids it drew |
| Migrate.RoutinesFailed | api/src/functions/migrate.ts:55-68 | When a routine insert fails, the state left is still one that `Migration` explains |
| Migrate.ExercisesFailed | api/src/functions/migrate.ts:74-100 | When an exercise insert fails, the state left is still one that `Migration` explains |
| Migrate.MigrateRoutines | api/src/functions/migrate.ts:54-68 | The first loop matches `AddRoutines` and `IdMap` for the fresh ids it draws |
| Migrate.RoutineTurn | api/src/functions/migrate.ts:56-67 | One turn: one fresh id is drawn and `AddRoutines` advances by that routine |
| Migrate.MigrateExercises | api/src/functions/migrate.ts:70-100 | The second loop matches `AddExercises` and `IdMap` for the fresh ids it draws, one per exercise, skipped ones included |
| Migrate.ExerciseTurn | api/src/functions/migrate.ts:74-99 | One turn: one fresh id is drawn and mapped from the old id, and `AddExercises` advances by that exercise (a row only when its routine is known) |
| Migrate.ExercisesStopped | api/src/functions/migrate.ts:141-154 | A failed exercise insert answers 500 "Migration failed", and the tables left are ones `Migration` explains |
| Migrate.MigratePhotos | api/src/functions/migrate.ts:102-128 | The third loop matches `UploadPhotos` |
| Migrate.AddRoutinesStops | api/src/functions/migrate.ts:60 | Once an insert has failed, later ids make no difference |
| Migrate.RefusedDateStops | api/src/functions/migrate.ts:55-68 | An old routine whose date holds a refused key character (`2024/01/01`, never validated) has its insert refused, so the routines stage fails |
| Migrate.RefusedDateFails | api/src/functions/migrate.ts:55-68 | Such a date makes the whole migration answer 500 "Migration failed", with no exercise inserted and no photo uploaded |
| Migrate.AddExercisesStops | api/src/functions/migrate.ts:85 | The same for the exercise loop |
| Storage.ConnectionString | api/src/lib/storage.ts:4 | The environment's string when it is set and non-empty, otherwise `UseDevelopmentStorage=true` |
| Storage.Clients.constructor | api/src/lib/storage.ts:7-12 | No client is built yet and the container has not been created |
| Storage.Clients.GetRoutinesTable | api/src/lib/storage.ts:17-22 | The first call builds the client; later calls return the same one |
| Storage.Clients.GetExercisesTable | api/src/lib/storage.ts:27-32 | The same, for the exercises table |
| Storage.Clients.GetBlobServiceClient | api/src/lib/storage.ts:37-42 | The same, for the blob service client |
| Storage.Clients.GetPhotoContainer | api/src/lib/storage.ts:47-56 | Builds the container client once and runs `createIfNotExists` on the first call only. A failed creation is not retried: later calls return the client |
| Storage.Segment | api/src/lib/storage.ts:69-73 | A segment that is read has a non-empty key without `=`; `SegmentOfPair` and `SegmentIgnored` give which segments are read |
| Storage.ParseConnectionString | api/src/lib/storage.ts:67-74 | The `forEach` loop builds `PartsOf` of the `;` pieces; every key is non-empty and free of `=` |
| Storage.SegmentOfPair | api/src/lib/storage.ts:70-72 | `key=value` reads back as that pair, `=` inside the value included |
| Storage.ParseRender | api/src/lib/storage.ts:67-74 | Round trip: parsing a rendered list of pairs gives their dictionary |
| Storage.SegmentIgnored | api/src/lib/storage.ts:70-71 | A segment without `=`, or starting with `=`, is ignored |
| Storage.PartsOfPairs | api/src/lib/storage.ts:69-73 | Reading the rendered pairs gives their dictionary, a later key winning |
| Storage.MapOfKeys | api/src/lib/storage.ts:69-73 | The dictionary's keys are exactly the pairs' keys |
| Storage.SasUrlOf | api/src/lib/storage.ts:63-102 | Succeeds exactly when the string can sign. Development storage gives the plain URL. A failure is the missing-credentials error |
| Storage.GenerateSasUrl | api/src/lib/storage.ts:63-102 | Equals `SasUrlOf` |
| Storage.DefaultIsUnsigned | api/src/lib/storage.ts:4 | Without a configured connection string, URLs carry no token |
| Storage.SignedWithCredentials | api/src/lib/storage.ts:81-101 | A production string with both credentials signs with them, a base64-padded key kept whole |
| Storage.MissingKeyFails | api/src/lib/storage.ts:84-86 | A production string without an account key fails |
| TableStore.Store.CreateRoutine | api/src/functions/createRoutine.ts:43 | `createEntity`: refused exactly when the partition or row key holds `/`, `\`, `#`, `?` or a control character, or the key is taken; otherwise the row is appended |
| TableStore.Store.CreateExercise | api/src/functions/createExercise.ts:41 | The same on the exercises table: refused exactly when a key part holds `/`, `\`, `#`, `?` or a control character, or the key is taken; otherwise appended |
| TableStore.Store.MergeRoutineName | api/src/functions/updateRoutine.ts:37-41 | Only the name of the row with that key changes |
| TableStore.Store.MergeExercise | api/src/functions/updateExercise.ts:43 | Only the row with that key changes, by the patch |
| TableStore.Store.DeleteRoutine | api/src/functions/deleteRoutine.ts:53 | Removes the row with that key |
| TableStore.Store.DeleteExercise | api/src/functions/deleteExercise.ts:37 | Removes the row with that key |
| TableStore.Store.UploadBlob | api/src/functions/uploadPhoto.ts:83-88 | Replaces a blob of the same name, or appends one |
| TableStore.Store.DeleteBlob | api/src/functions/deletePhoto.ts:42 | Removes the blob with that name |
| TableStore.Store.constructor | api/src/lib/storage.ts:17-56 | The tables and the container start empty |
| TableStore.Upload | api/src/functions/uploadPhoto.ts:84 | `uploadData` leaves the name present, drops no other blob and adds none, and keeps names unique |
| TableStore.ListBlobs | api/src/functions/getPhotos.ts:21 | `listBlobsFlat({prefix})`: every name listed is under the prefix and exists, and every blob under the prefix is listed |
| TableStore.ListBlobsUnique | api/src/functions/getPhotos.ts:21 | With unique names the listing has no repeats |
| TableStore.ListBlobsCount | api/src/functions/getPhotos.ts:21 | The listing has one name per blob under the prefix |
| TableStore.WithoutBlobAt | api/src/functions/deletePhoto.ts:42 | Deleting a blob by its unique name removes exactly that entry |
| TableStore.PhotoName | api/src/functions/uploadPhoto.ts:80 | `<userId>/<exerciseId>/<timestamp>.jpg` starts with the exercise's folder |
| TableStore.PhotoPrefixSeparates | api/src/functions/getPhotos.ts:18 | The trailing `/` keeps exercises apart: a photo of another exercise is not under this one's folder |
| TableStore.TextOf | api/src/functions/getRoutines.ts:30 | A filter's string literal equals a property exactly when the property holds that string |
| TableStore.RoutineIdTestExact | api/src/functions/updateRoutine.ts:31 | On the routines table the id test selects exactly the caller's rows with that routine id |
| TableStore.DateTestExact | api/src/functions/getRoutines.ts:30 | On the routines table the date test selects exactly the caller's rows stored with that date string |
| TableStore.ExerciseIdTestExact | api/src/functions/updateExercise.ts:22 | On the exercises table the id test selects exactly the caller's rows with that exercise id |
| TableStore.InRoutineTestExact | api/src/functions/getExercises.ts:22 | On the exercises table the routine test selects exactly the caller's rows of that routine, and its negation keeps exactly the rest |
| TableStore.RoutineQueryExact | api/src/functions/updateRoutine.ts:30-32 | For quote-free ids the filter text reads as the id test, and the first row it lists is the caller's first with that id |
| TableStore.ExerciseQueryExact | api/src/functions/deleteExercise.ts:31-33 | For quote-free ids the filter text reads as the id test, and the first row it lists is the caller's first with that id |
| TableStore.InRoutineQueryExact | api/src/functions/deleteRoutine.ts:22-24 | For quote-free ids the filter text reads as the routine test: the rows listed and the rows left are the caller's rows of that routine and all the others |
| OData.Escape | api/src/functions/deleteRoutine.ts:23 | OData string-literal escaping (every quote doubled) leaves quote-free text unchanged |
| OData.ReadEscaped | api/src/functions/deleteRoutine.ts:23 | An escaped value followed by a closing quote reads back as that value, whatever quotes it holds |
| OData.LexEscaped | api/src/functions/deleteRoutine.ts:23 | A quoted escaped value is one literal token holding that value |
| OData.LexIdFilter | api/src/functions/deleteRoutine.ts:23 | Up to the second id, `PartitionKey eq '<userId>' and <property> eq ` reads as the same six tokens whatever the second id is |
| OData.EscapedIdFilterExact | api/src/functions/deleteRoutine.ts:23 | With both ids escaped the filter reads as the exact test `PartitionKey eq userId and property eq id` for every pair of ids |
| OData.IdFilterExact | api/src/functions/deleteRoutine.ts:23 | With ids as pasted, the filter reads as the exact test when neither id holds a quote |
| OData.QuoteBreaksFilter | api/src/functions/deleteRoutine.ts:23 | The id `a'b` leaves an unterminated literal: the filter is refused, so the query throws and the handler answers 500 |
| OData.InjectionReadsAsOr | api/src/functions/deleteRoutine.ts:23 | The routine id `x' or routineId ne '` makes the filter read as `(PartitionKey eq userId and routineId eq x) or routineId ne ''` |
| OData.InjectedTokensParse | api/src/functions/deleteRoutine.ts:23 | The eleven tokens of the injected filter parse as that disjunction, with `and` binding tighter than `or` |
| OData.ParseIdTokens | api/src/functions/deleteRoutine.ts:23 | The seven tokens of an id filter parse as the exact conjunction |
| Guids.GuidSource.NewId | api/src/functions/createRoutine.ts:28 | `randomUUID()`: an id never handed out before, remembered from then on |
| Guids.GuidSource.constructor | api/src/functions/createRoutine.ts:28 | No id has been handed out yet |
| Guids.IdTextInjective | api/src/functions/createRoutine.ts:28 | Distinct draws give distinct ids |
| Client.ErrorMessage | src/api/client.ts:28 | `error.error \|\| 'HTTP <status>'` converted to a string, never empty |
| Client.TruthyText | src/api/client.ts:28 | A truthy error value becomes its non-empty string |
| Client.Translate | src/api/client.ts:32-37 | An `ApiError` passes through; anything else becomes `ApiError(0, message or 'Network error')` |
| Client.ApiFetch | src/api/client.ts:16-38 | Whatever happens, the result is the answer or an `ApiError` |
| Client.ApiFetchOutcomes | src/api/client.ts:16-38 | Success exactly for an ok response with a JSON body. An error response keeps its own status and a non-empty message. A failed fetch gives status 0 |
| Client.UploadPhotoOutcomes | src/api/client.ts:151-168 | `uploadPhoto` agrees with `apiFetch` whenever a response was read; a failed fetch escapes unmapped |
| Client.EncodingCarries | src/api/client.ts:50 | `encodeURIComponent(v)` holds no `/ ? # & =` and decodes back to `v` |
| Client.QueryValueCarried | src/api/client.ts:49-51 | Every query URL carries its whole value, which decodes back to what the caller passed |
| Client.PhotoIdIsOneSegment | src/api/client.ts:170-175 | A photo id, slashes included, travels as one path segment that decodes back to the blob name |
| Client.IdPathsUnencoded | src/api/client.ts:60-71 | A routine id holding `/` is split into more than one path segment; an id of unreserved characters gives the same path encoded or not |
| Uri.EncodedHasNoSlash | src/api/client.ts:171-172 | An encoded name contains no `/` |
| Uri.EncodeUnreserved | src/api/client.ts:50 | `encodeURIComponent` leaves a string of unreserved characters unchanged |
| UseApi.ExercisesReadKey | src/hooks/useApi.ts:55-56 | A null or empty id gives the null key; otherwise `/exercises?routineId=<id>` |
| UseApi.PhotosReadKey | src/hooks/useApi.ts:127-128 | The same, for photos |
| UseApi.PhotoView | src/hooks/useApi.ts:138-140 | Before an answer arrives there are no photos and the count is 0. An answer's photos are shown as sent, and when its `count` is its list length (as `GET /photos` sends it) the count shown is the number of photos shown |
| UseApi.KeyFamilies | src/hooks/useApi.ts:7-128 | The three key families never meet, and distinct values give distinct keys |
| UseApi.DeleteRoutineSparesPhotos | src/hooks/useApi.ts:43-50 | After a routine delete no exercise list stays cached, only its day is dropped, and photo lists keep their data |
| UseApi.OtherKeysStay | src/hooks/useApi.ts:38 | Dropping one key keeps the others of its family, so a wrong caller-supplied date leaves the real day stale |
| UseApi.RoutinesKeyIsPath | src/hooks/useApi.ts:7-10 | For a `YYYY-MM-DD` date the cache key equals the request path |
| UseApi.IdKeysArePaths | src/hooks/useApi.ts:56-128 | For an id of unreserved characters the exercise and photo keys equal their request paths |
| UseApi.Cache.Read | src/hooks/useApi.ts:8-18 | The data under the key, or none for the null key |
| UseApi.Cache.constructor | src/hooks/useApi.ts:8 | The cache starts empty |
| UseApi.Cache.Store | src/hooks/useApi.ts:8 | A fetched answer is cached under its key; nothing else changes |
| UseApi.Cache.Invalidate | src/hooks/useApi.ts:21 | `mutate(key)` drops that key only |
| UseApi.Cache.CreateRoutine | src/hooks/useApi.ts:25-32 | The result is `apiFetch`'s. On success the new routine's day is dropped; on failure nothing is |
| UseApi.Cache.UpdateRoutine | src/hooks/useApi.ts:34-41 | On success the day the caller names is dropped |
| UseApi.Cache.DeleteRoutine | src/hooks/useApi.ts:43-51 | On success the caller's day and every exercise-list key are dropped |
| UseApi.Cache.CreateExercise | src/hooks/useApi.ts:74-91 | On success that routine's exercise list is dropped |
| UseApi.Cache.UpdateExercise | src/hooks/useApi.ts:93-113 | On success the list of the routine the caller names is dropped |
| UseApi.Cache.DeleteExercise | src/hooks/useApi.ts:115-123 | On success its routine's list and its photo list are dropped |
| UseApi.Cache.UploadPhoto | src/hooks/useApi.ts:147-154 | The result is `uploadPhoto`'s; on success the exercise's photo list is dropped |
| UseApi.Cache.DeletePhoto | src/hooks/useApi.ts:156-163 | On success the named exercise's photo list is dropped |
| LocalDb.Stores | src/db.ts:11-33 | Every version declares the three stores `routines`, `exercises` and `exercisePhotos` |
| LocalDb.LayoutUnchanged | src/db.ts:16-28 | Versions 2 and 3 change no key or index |
| LocalDb.WithTime | src/db.ts:21-23 | A missing time becomes `00:00`; a present one stays |
| LocalDb.WithSetsCompleted | src/db.ts:30-32 | A missing completed-set count becomes 0; a present one stays |
| LocalDb.UpgradesIdempotent | src/db.ts:20-33 | Each upgrade is idempotent, both together make every record current, and current records pass unchanged |
| LocalDb.AddRoutine | src/db.ts:12 | `add` under the next key keeps the tables well keyed |
| LocalDb.AddExercise | src/db.ts:13 | `add` keeps the tables well keyed |
| LocalDb.AddPhoto | src/db.ts:14 | `add` keeps the tables well keyed |
| LocalDb.Changed | src/components/ExerciseRow.tsx:26-37 | `update` never changes a record's key, routine or order |
| LocalDb.FilterKeyed | src/components/DayView.tsx:40-46 | Deleting rows keeps the keys distinct and below the counter |
| LocalDb.KeyedUnique | src/db.ts:12-14 | Two rows with the same key are the same row |
| LocalDb.PumpDb.constructor | src/db.ts:9-34 | The database holds the given tables at the stored version; a new one is empty |
| LocalDb.PumpDb.Restore | src/db.ts:9-34 | The database holds the given well-keyed tables |
| LocalDb.PumpDb.UpgradeToV2 | src/db.ts:20-24 | Every exercise record in turn gets its missing time; nothing else changes |
| LocalDb.PumpDb.UpgradeToV3 | src/db.ts:29-33 | Every exercise record in turn gets its missing completed-set count |
| LocalDb.PumpDb.Open | src/db.ts:9-34 | A database from a later version fails to open. Otherwise the upgrades above the stored version run in order and the version becomes 3 |
| LocalDb.PumpDb.InsertRoutine | src/components/DayView.tsx:36 | The routine is added under the next key, which is returned |
| LocalDb.PumpDb.InsertExercise | src/utils/export.ts:158-168 | The exercise is added under the next key, which is returned and used by no other row |
| LocalDb.PumpDb.InsertPhoto | src/utils/export.ts:172-177 | The photo is added under the next key |
| LocalDb.PumpDb.DeleteRoutine | src/components/DayView.tsx:46 | Removes exactly the routine with that key |
| LocalDb.PumpDb.DeleteExercisesOf | src/components/DayView.tsx:45 | Removes exactly the exercises of that routine |
| LocalDb.PumpDb.DeletePhotosOf | src/components/DayView.tsx:43 | Removes exactly the photos of that exercise |
| LocalDb.PumpDb.UpdateExercise | src/components/ExerciseRow.tsx:26-37 | The record with that key, if any, takes the given fields |
| LocalDb.PumpDb.Clear | src/utils/export.ts:204-210 | Every table is emptied and the key counters go on |
| Dates.LocalDateStrMatches | src/utils/export.ts:51-53 | A date's string passes `isValidDate` exactly when its year has four digits |
| Dates.PadTwo | src/utils/export.ts:43-44 | `padStart(2, '0')`: a short string is padded at the front to two characters, a longer one is kept |
| Dates.PadTwoDigits | src/utils/export.ts:43-44 | A padded month or day has two digits and reads back as its number |
| Dates.SplitLocalDateStr | src/components/WeekCalendar.tsx:29 | Splitting a date's string on `-` gives its year, month and day texts |
| Dates.DateFieldsOfLocalDateStr | src/components/WeekCalendar.tsx:29 | `.map(Number)` of those pieces gives year, month + 1 and day |
| Dates.DateOfLocalDateStr | src/components/WeekCalendar.tsx:28-31 | Splitting a date's string on `-` and rebuilding the date gives the same date, for years after 99 |
| Export.PhotosOut | src/utils/export.ts:76-85 | One item per photo: timestamp, encoded bytes, MIME type |
| Export.ExercisesOut | src/utils/export.ts:87-98 | One item per exercise, in the given order |
| Export.RoutinesOut | src/utils/export.ts:100-105 | One item per routine, in the given order |
| Export.ExportDatabase | src/utils/export.ts:58-113 | The nested loops give `ExportOf` of the tables, dated today |
| Export.ExportExercises | src/utils/export.ts:63-98 | The routine's exercises by order, each with its photos |
| Export.ExportPhotos | src/utils/export.ts:71-85 | The exercise's photos in key order |
| Export.ExportShape | src/utils/export.ts:58-113 | Version 1, today's date, every routine once in date order, each routine's exercises by order |
| Export.ExportListsEveryRoutine | src/utils/export.ts:59-106 | Every stored routine is exported once |
| Export.Uint8 | src/utils/export.ts:32 | A `Uint8Array` store keeps the low eight bits |
| Export.BytesOf | src/utils/export.ts:26-36 | The byte loop gives byte i = code of character i, truncated to eight bits |
| Export.Bytes | src/utils/export.ts:26-36 | The bytes of the decoded string, one per character |
| Export.DecodedBytesExact | src/utils/export.ts:27-33 | `atob` yields codes below 256, so the blob holds the decoded codes exactly |
| Export.FirstBadDate | src/utils/export.ts:133-138 | The first routine date failing the format, if any |
| Export.Validate | src/utils/export.ts:118-138 | The checks in order: version 1, a routines array, a valid export date, every routine date valid |
| Export.ExportValidates | src/utils/export.ts:108-138 | An export passes import's checks exactly when today's year and every routine's date have four-digit years |
| Export.ExportedDates | src/utils/export.ts:100-105 | The exported routines carry exactly the stored routines' dates |
| Export.MaxOrder | src/utils/export.ts:145-147 | `Math.max(...orders)`: at least every order and equal to one of them |
| Export.ImportDatabase | src/utils/export.ts:118-182 | A rejected document changes nothing. Otherwise the tables become `ImportAll` of the old ones; when a photo fails to decode, everything is rolled back |
| Export.ImportRoutines | src/utils/export.ts:142-180 | The routine loop follows `Fold` of the routine step |
| Export.ImportOneRoutine | src/utils/export.ts:144-155 | A routine is added after those on its date, then its exercises |
| Export.ImportOneExercise | src/utils/export.ts:158-178 | An exercise is added, then its photos |
| Export.ImportExercises | src/utils/export.ts:157-179 | The exercise loop follows `Fold` of the exercise step |
| Export.ImportPhotos | src/utils/export.ts:171-178 | The photo loop adds one decoded photo per entry |
| Export.NextOrderAbove | src/utils/export.ts:144-153 | The order given is above every order on that date, and 1 on an empty date |
| Export.NextOrderAfterAdd | src/utils/export.ts:144-153 | After such an add, the next order on that date is one higher |
| Export.PhotoRows | src/utils/export.ts:171-178 | Importing photos adds exactly one row per entry, in order |
| Export.ExerciseRows | src/utils/export.ts:157-168 | Importing exercises adds one row per entry, all pointing at the routine |
| Export.RoutineRow | src/utils/export.ts:150-154 | Importing a routine adds it under the next key and keeps every row |
| Export.RoutineExercises | src/utils/export.ts:156-179 | The imported exercises follow the existing ones, in file order |
| Export.ImportKeepsExisting | src/utils/export.ts:141-181 | An import keeps every existing row and adds one routine per entry, in file order, under consecutive keys |
| Export.ImportOrdersAfterExisting | src/utils/export.ts:143-153 | On any date, each imported routine's order is above every earlier routine's on that date |
| Export.SameDateConsecutive | src/utils/export.ts:143-153 | Two routines imported one after the other onto the same date get consecutive orders |
| Export.FoldThrows | src/utils/export.ts:141-181 | A step that throws partway through aborts the whole transaction |
| Export.FoldStep | src/utils/export.ts:141-181 | A fold over one more item takes one more step, unless it has already thrown |
| Export.FoldExtends | src/utils/export.ts:141-181 | Steps that only add rows give a fold that only adds rows |
| Export.FoldSameRoutines | src/utils/export.ts:157-179 | Steps that keep the routines give a fold that keeps them |
| Export.ImportTwo | src/utils/export.ts:142-180 | Importing two routines is importing the first, then the second |
| DayView.FormatDateOfDay | src/components/DayView.tsx:15-19 | The heading of a day's own string names its weekday, short month and day |
| DayView.DisplayedDescending | src/components/DayView.tsx:24-30 | Every routine of the day is shown once, in descending order |
| DayView.AddedRoutineShownFirst | src/components/DayView.tsx:34-38 | When every order on the day is below the new order, the added routine shows first |
| DayView.CascadeKeepsLinked | src/components/DayView.tsx:40-46 | The delete leaves nothing that pointed at the routine, and a linked database stays linked |
| DayView.CascadeRoutines | src/components/DayView.tsx:46 | The routines left are old ones, and the deleted one is gone |
| DayView.CascadeExercises | src/components/DayView.tsx:45 | No exercise of the routine remains, and every remaining exercise still has its routine |
| DayView.CascadePhotos | src/components/DayView.tsx:41-45 | Every remaining photo still has its exercise |
| DayView.IdListed | src/components/DayView.tsx:41-42 | Every exercise of the routine is visited by the photo loop |
| DayView.NewestNeverAutoExpanded | src/components/DayView.tsx:22-32 | The slot starts `null`, never `undefined`, so the newest routine is never auto-expanded |
| DayView.ToggleTwice | src/components/DayView.tsx:50-52 | The tapped card becomes active exactly when it was not; tapping twice restores the expansion unless another card was open |
| DayView.DayScreen.constructor | src/components/DayView.tsx:22 | A new screen shows its date with no card chosen |
| DayView.DayScreen.AddRoutine | src/components/DayView.tsx:34-38 | Adds `Routine <n>` with order n, one past the number of routines on the day, and expands it (the day's routines as loaded; see "Left out") |
| DayView.DayScreen.DeleteRoutine | src/components/DayView.tsx:40-48 | The database becomes `Cascade`; the card collapses if it was active |
| DayView.DayScreen.Toggle | src/components/DayView.tsx:50-52 | The slot becomes `Toggled` of the active card |
| ExerciseRow.DetailParts | src/components/ExerciseRow.tsx:16-20 | At most three non-empty parts, and none exactly when there are no repetitions, no weight and no time (or `00:00`) |
| ExerciseRow.DetailsEmpty | src/components/ExerciseRow.tsx:16-22 | The line is empty exactly when there are no repetitions, no weight and no time to show |
| ExerciseRow.DetailsSplit | src/components/ExerciseRow.tsx:16-22 | Splitting the line on ` / ` gives back its parts |
| ExerciseRow.IntToStringNoSpace | src/components/ExerciseRow.tsx:18-19 | A number's text holds no space, so the separator cannot occur inside it |
| ExerciseRow.Icons | src/components/ExerciseRow.tsx:48-55 | One icon per set; the first `setsCompleted` are completed |
| ExerciseRow.ToggleFlipsIcon | src/components/ExerciseRow.tsx:32-38 | The tapped icon flips, completed icons stay a prefix, and the count stays in 0..sets |
| ExerciseRow.AddSetKeepsRemaining | src/components/ExerciseRow.tsx:24-30 | Adding a set keeps the sets still to do |
| ExerciseRow.RemainingIs | src/components/ExerciseRow.tsx:48-55 | The sets still to do are `sets - setsCompleted`, or 0 |
| ExerciseRow.ToggleWrites | src/components/ExerciseRow.tsx:32-38 | After a toggle the record keeps its sets, shows the tapped icon flipped and changes nothing else |
| ExerciseRow.AddSetWrites | src/components/ExerciseRow.tsx:24-30 | One more set and one more done, nothing else |
| ExerciseRow.ToggleSet | src/components/ExerciseRow.tsx:32-38 | One update of that record with the toggled count |
| ExerciseRow.AddSet | src/components/ExerciseRow.tsx:24-30 | One update of that record with both counts raised |
| RoutineCard.CollapsedReadsNothing | src/components/RoutineCard.tsx:21 | A collapsed card reads no exercise list, so it has none to copy |
| RoutineCard.NewExerciseFor | src/components/RoutineCard.tsx:30-41 | Order is the count plus one; empty name, zero metrics, time `00:00` |
| RoutineCard.ExerciseBody | src/components/RoutineCard.tsx:31-41 | The posted JSON carries routineId, name and order as the handler reads them |
| RoutineCard.AddExerciseRejected | src/components/RoutineCard.tsx:31-41 | The body `addExercise` posts always fails the server's required-field check, because its empty name is falsy |
| RoutineCard.RenameRule | src/components/RoutineCard.tsx:58-62 | A fired rename has a non-blank, changed name. The current name never fires. The current name plus white space fires, and trims back to the current name |
| RoutineCard.MaxOrder | src/components/RoutineCard.tsx:75 | The reduce gives a value at least the start and every order, and equal to one of them |
| RoutineCard.CopyOrder | src/components/RoutineCard.tsx:75-81 | The copy's order is above every order on the target date, and 1 or one past an existing order |
| RoutineCard.CopyOrderEmpty | src/components/RoutineCard.tsx:75 | With no routines on the date, or none loaded, the order is 1 |
| RoutineCard.CopiedExercise | src/components/RoutineCard.tsx:87-97 | Every field is copied under the new routine, except `setsCompleted`, which is 0 |
| RoutineCard.FirstFailing | src/components/RoutineCard.tsx:85-98 | Every request before k succeeds, and the one at k fails |
| RoutineCard.Card.AddExercise | src/components/RoutineCard.tsx:28-47 | On success the new exercise opens in the editor and the list is dropped; on failure nothing changes |
| RoutineCard.Card.DeleteExercise | src/components/RoutineCard.tsx:49-56 | The routine's list and the exercise's photo list are dropped on success |
| RoutineCard.Card.Rename | src/components/RoutineCard.tsx:58-68 | The input closes. The trimmed name is sent exactly when `RenameFires`; the day is dropped when the send succeeds |
| RoutineCard.CopyExercises | src/components/RoutineCard.tsx:85-98 | The copies are sent in list order up to and including the first failing request, whose error is returned |
| RoutineCard.Card.HandleCopy | src/components/RoutineCard.tsx:70-108 | No date means no-op. A routine failure changes nothing and leaves the dialog open. Otherwise the copies go in order until one fails. The dialog closes and the date clears only when all succeed |
| WeekCalendar.DaysSinceMonday | src/components/WeekCalendar.tsx:18 | `(dow + 6) % 7` lies in 0..6 |
| WeekCalendar.WeekDates | src/components/WeekCalendar.tsx:15-24 | Seven dates |
| WeekCalendar.FormatDay | src/components/WeekCalendar.tsx:28-31 | The day of the month, or NaN for an invalid date |
| WeekCalendar.FormatDayOfDate | src/components/WeekCalendar.tsx:28-31 | A day's own string shows its day of the month |
| WeekCalendar.MondayStartsWeek | src/components/WeekCalendar.tsx:15-18 | For years after 100 the week starts `off` days back, on a Monday, in a year of at least 100 |
| WeekCalendar.WeekFromMonday | src/components/WeekCalendar.tsx:20-23 | Cell i is the day i days after Monday; its weekday is Monday + i and it shows its own day |
| WeekCalendar.DayAfterMonday | src/components/WeekCalendar.tsx:21-22 | `new Date(y, m, d + i)` is the day i after Monday; cell i holds that day's string, falls on weekday Monday + i and shows its own day of the month |
| WeekCalendar.MakeDateBack | src/components/WeekCalendar.tsx:18 | `setDate(getDate() - off)` steps back `off` days |
| WeekCalendar.LabelsFromMonday | src/components/WeekCalendar.tsx:26 | Label i is the first three letters of weekday i + 1's name |
| WeekCalendar.TodayInWeek | src/components/WeekCalendar.tsx:34-49 | Today is in the week at its weekday's cell, and no other cell is today |
| WeekCalendar.DaysWithDataMarks | src/components/WeekCalendar.tsx:37-40 | A shown date is marked exactly when some routine is logged on it |
| Calendar.DayOfWeek | src/components/WeekCalendar.tsx:17 | `getDay()` lies in 0..6 |
| Calendar.MakeDate | src/components/MonthCalendar.tsx:30 | `new Date(y, m, d)` gives a valid date, d - 1 days after the first of month m, rolled over |
| Calendar.FullYear | src/components/WeekCalendar.tsx:30 | `new Date` reads years 0..99 as 1900..1999 |
| Calendar.MakeDateShift | src/components/WeekCalendar.tsx:21 | Adding k to the day argument moves k days |
| Calendar.DayOfWeekShift | src/components/WeekCalendar.tsx:18-21 | k days later the weekday is k further on |
| Calendar.LastDayOfMonth | src/components/MonthCalendar.tsx:24 | `new Date(y, m + 1, 0)` is the last day of month m |
| Calendar.MakeDateInMonth | src/components/MonthCalendar.tsx:30 | Within the month `new Date(y, m, d)` is day d |
| Js.ToNumber | api/src/functions/createRoutine.ts:39 | `Number(v)`: a number stays, null and false give 0, undefined gives NaN |
| Js.Or | api/src/functions/createExercise.ts:32-37 | `a \|\| b`: a when truthy, else b |
| Js.SortByNumber | api/src/functions/getRoutines.ts:43 | `sort((a, b) => a.order - b.order)` permutes the rows and orders them ascending |
| Text.ParseIntOfDecimal | api/src/functions/getPhotos.ts:31 | `parseInt` reads back a decimal number followed by a non-digit |
| Text.TrimAppendSpace | src/components/RoutineCard.tsx:60 | Trailing white space does not change `trim()` |
| Uri.DecodeEncode | api/src/functions/deletePhoto.ts:18 | `decodeURIComponent(encodeURIComponent(s)) == s` |
| MonthCalendar.StartDow | src/components/MonthCalendar.tsx:25 | The blank count lies in 0..6 |
| MonthCalendar.LastDay | src/components/MonthCalendar.tsx:24 | The last day is at least 1 |
| MonthCalendar.GetMonthGrid | src/components/MonthCalendar.tsx:22-33 | The cells are `StartDow` blanks, then the date strings of days 1 to the last day |
| MonthCalendar.FillGrid | src/components/MonthCalendar.tsx:27-32 | The two loops: blanks, then the cells of days 1 to lastDay |
| MonthCalendar.GridIsMonth | src/components/MonthCalendar.tsx:22-33 | The last day is the month's length, and day d is day d of that month |
| MonthCalendar.GridColumns | src/components/MonthCalendar.tsx:25-30 | Each day sits in the column of its own weekday, counted from Monday |
| MonthCalendar.DayColumn | src/components/MonthCalendar.tsx:25-30 | Day d sits in the column of its weekday |
| MonthCalendar.DayFromFirst | src/components/MonthCalendar.tsx:30 | Day d of the month is d - 1 days after the first |
| MonthCalendar.CellDay | src/components/MonthCalendar.tsx:80 | A number or NaN |
| MonthCalendar.CellDayOfDate | src/components/MonthCalendar.tsx:80 | A four-digit-year date's cell shows its day of the month |
| MonthCalendar.GridShowsDays | src/components/MonthCalendar.tsx:73-80 | In a four-digit year the cell of day d shows d |
| MonthCalendar.AllDates | src/components/MonthCalendar.tsx:43 | A date is listed exactly when it is a cell |
| MonthCalendar.CellMarked | src/components/MonthCalendar.tsx:45-49 | A day cell is marked exactly when a routine is logged on it |
| MonthCalendar.PrevOf | src/components/MonthCalendar.tsx:51-54 | One month back, with the month kept in 0..11 |
| MonthCalendar.NextOf | src/components/MonthCalendar.tsx:56-59 | One month on, with the month kept in 0..11 |
| MonthCalendar.PrevNextInverse | src/components/MonthCalendar.tsx:51-59 | `prevMonth` and `nextMonth` undo each other |
| MonthCalendar.NextMonthFollows | src/components/MonthCalendar.tsx:56-59 | Outside the two-digit years the next month starts the day after this month's last |
| MonthCalendar.MonthView.PrevMonth | src/components/MonthCalendar.tsx:51-54 | January goes to December of the year before; otherwise the month goes down by one |
| MonthCalendar.MonthView.NextMonth | src/components/MonthCalendar.tsx:56-59 | December goes to January of the year after |
| MonthCalendar.MonthView.constructor | src/components/MonthCalendar.tsx:36-38 | The view starts at the current month |
| MonthCalendar.MonthView.Cells | src/components/MonthCalendar.tsx:41 | The grid of the month on show |

## Findings

| source | as written | input that shows it | evidently intended | confidence | as-written member | corrected member |
|---|---|---|---|---|---|---|
| api/src/functions/deleteRoutine.ts:23 | The ids are pasted between quotes into the OData filter without escaping (the same at deleteRoutine.ts:48, updateRoutine.ts:31, getExercises.ts:22, updateExercise.ts:22, deleteExercise.ts:32, getRoutines.ts:30) | routine id `a'b` (the filter is refused and the handler answers 500 where 404 is meant); routine id `x' or routineId ne '` (the filter selects rows of every partition, and the cascade deletes other users' exercises and possibly a routine) | Each id is escaped as an OData string literal (quotes doubled), so the filter always reads as `PartitionKey eq userId and routineId eq id` | not executed | OData.IdFilter, OData.QuoteBreaksFilter, OData.InjectionReadsAsOr, DeleteRoutine.InjectionReachesOtherUsers | OData.EscapedIdFilter, OData.EscapedIdFilterExact |

## Left out

- GetRoutines.Handle: rows are listed in the order they were written, while the table service lists them by partition key and row key; after the stable sort by order, rows with equal orders may come in a different order than the service would give.
- GetExercises.Handle: the same listing order as GetRoutines.Handle, so ties in order may be broken differently.
- GetPhotos.Handle: blobs are listed in the order they were written, while the blob service lists them by name.
- UpdateRoutine.Handle, UpdateExercise.Handle, DeleteRoutine.Handle and DeleteExercise.Handle: "the first row the query lists" is first in write order, not in row-key order; with several listed rows the model may pick a different one than the service.
- Js.JsValue has no object or array values. A body field holding an object or an array is not modelled; such values are truthy and `Number()` of them is mostly NaN.
- OData.Parse reads only what the handlers send: comparisons with `eq` or `ne` against string literals, joined by `and` and `or`. Parentheses, `not`, other operators and typed literals are read as malformed. Keywords are matched case-sensitively.
- TableStore.TextOf: a typed property (a number or a boolean) compared with a string literal is treated as not matching, for `eq` and `ne` alike.
- Authentication: `getUserIdWithDevFallback` and its 401 answers. The user id is a parameter. auth.ts is not part of this model.
- TableStore.Store.CreateRoutine and TableStore.Store.CreateExercise: the service's 1 KiB size limit on a PartitionKey or RowKey value is not modelled; only the refused characters and taken keys are.
- The storage SDK itself. Table and blob calls act on `TableStore.Store`. `ensureTablesExist` and container creation are modelled only as the lazy client state in `Storage.Clients`.
- I/O, time and randomness. The HTTP body, `Date.now()`, `new Date()` and `randomUUID()` are parameters or a `GuidSource`.
- base64 encoding and decoding, `FileReader` and `atob` are function parameters. `blobToBase64` is not modelled beyond that.
- The SAS token is a function parameter, and its expiry time is not modelled.
- Migrate.UploadPhotos: a photo upload's failure is a set of refused names, not a cause.
- Migrate.Handle: the `details` text of a 500 answer is not modelled.
- Numbers are integers plus NaN. Fractional weights and distances, and `Number()` of strings with fractions or exponents, are not modelled.
- SWR internals are not modelled: revalidation, deduplication, focus and reconnect options, and `isLoading`. The cache is a map that reads fill and mutations empty.
- Client.Exchange: the text of a thrown non-`Error` value, and a response's own error body, are parameters.
- The rendering of every component. JSX, the modal, CSS classes, the month label and the "Untitled" titles are not modelled.
- The photo indicator and the exercise count on a card are not modelled.
- The editor, rename-input and dialog toggles that only set a flag are not modelled.
- `downloadJSON` is not modelled, because it only touches the DOM.
- Export.ExportPhotos: the MIME type of a blob is exported as stored. The browser's normalisation of `Blob.type` is not modelled.
- Export.ExportShape: date order is stated as sorted. The tie order among routines with equal dates is left to the key order of the model.
- ExerciseRow.Details: the model assumes a stored record has `setsCompleted` and `time`, as version 3 guarantees after `Open`.
- WeekCalendar.DaysWithData, MonthCalendar.CellMarked and DayView.DayScreen.AddRoutine: the loading state of `useLiveQuery` (`undefined` before the first answer) is not modelled. While it lasts, `addRoutine` uses `(routines?.length ?? 0) + 1` = 1 and adds "Routine 1" with order 1 even on a day that already has routines.
- WeekCalendar.MondayStartsWeek: the week is proved for years after 100. Dates near the two-digit years, where `new Date` reinterprets the year, are left out.
- MonthCalendar.NextMonthFollows: navigation is proved only outside the two-digit years.
- MonthCalendar.LastDay: its own contract says only that the last day is at least 1. Its exact value comes from `MonthCalendar.GridIsMonth`.
- The `toLocalDateStr` copies in WeekCalendar.tsx and MonthCalendar.tsx are the same function as in export.ts. All three are `Dates.ToLocalDateStr`.
- Alerts and console logging are not modelled.
- The context files (SettingsMenu, DataMigration, ExerciseForm, PhotoManager, DraggableExerciseList, App and the hooks other than useApi) are not part of this model.
