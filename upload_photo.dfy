/**
 * `POST /photos`: reads a `multipart/form-data` body, and stores the `photo` file
 * as the blob `<userId>/<exerciseId>/<now>.jpg` with content type `image/jpeg`.
 */
module UploadPhoto {
  import opened Wrappers
  import opened Text
  import opened Http
  import opened TableStore
  import opened Multipart
  import GetPhotos
  import Storage
  import Seqs

  /** The answer of a successful upload: the blob name as id and the upload time (`success: true` is constant). */
  datatype Uploaded = Uploaded(id: string, timestamp: int)

  const ExerciseField := "exerciseId"
  const PhotoFile := "photo"

  /** `!exerciseId || !photoBuffer`: the field must be present and non-empty; any file under `photo`, even empty, is enough. */
  predicate Accepts(form: Form)
  {
    ExerciseField in form.fields && form.fields[ExerciseField] != "" && PhotoFile in form.files
  }

  /** The stored content: the file's bytes. */
  function Contents(bs: seq<byte>): (r: seq<int>)
    ensures |r| == |bs|
    ensures forall i :: 0 <= i < |bs| ==> r[i] == bs[i] as int && 0 <= r[i] < 256
  {
    seq(|bs|, i requires 0 <= i < |bs| => bs[i] as int)
  }

  /** The blob an accepted form is stored as. */
  function PhotoBlob(userId: string, form: Form, now: nat): (b: Blob)
    requires Accepts(form)
    ensures b.name == PhotoName(userId, form.fields[ExerciseField], NatToString(now))
    ensures b.contentType == "image/jpeg" && |b.content| == |form.files[PhotoFile]|
  {
    Blob(PhotoName(userId, form.fields[ExerciseField], NatToString(now)), Contents(form.files[PhotoFile]), "image/jpeg")
  }

  method Handle(store: Store, userId: string, contentType: Option<string>, body: seq<byte>, now: nat)
    returns (r: Response<Uploaded>)
    requires store.Valid()
    modifies store
    ensures store.Valid()
    ensures store.routines == old(store.routines) && store.exercises == old(store.exercises)
    ensures var ct := contentType.GetOr("");
      && (!Includes(ct, "multipart/form-data") ==>
            r == Fail(400, "Content-Type must be multipart/form-data") && store.blobs == old(store.blobs))
      && (Includes(ct, "multipart/form-data") ==>
            match Parse(Latin1(body), ct)
            case Failure(e) => r == FailWithDetails(500, "Failed to upload photo", e) && store.blobs == old(store.blobs)
            case Success(form) =>
              if !Accepts(form) then
                r == Fail(400, "Missing required fields: exerciseId and photo") && store.blobs == old(store.blobs)
              else
                && r == Ok(201, Uploaded(PhotoBlob(userId, form, now).name, now))
                && store.blobs == Upload(old(store.blobs), PhotoBlob(userId, form, now)))
  {
    var ct := contentType.GetOr("");
    if !Includes(ct, "multipart/form-data") {
      return Fail(400, "Content-Type must be multipart/form-data");
    }
    var parsed := ParseMultipartFormData(Latin1(body), ct);
    if parsed.Failure? {
      return FailWithDetails(500, "Failed to upload photo", parsed.error);
    }
    var form := parsed.value;
    if !(ExerciseField in form.fields && form.fields[ExerciseField] != "" && PhotoFile in form.files) {
      return Fail(400, "Missing required fields: exerciseId and photo");
    }
    var blob := PhotoBlob(userId, form, now);
    store.UploadBlob(blob);
    r := Ok(201, Uploaded(blob.name, now));
  }

  /**
   * The form a client sends, with the exercise id and a photo file, is accepted:
   * the parse finds both, trimmed as the parser trims them.
   */
  lemma ClientFormAccepted(b: string, exerciseId: string, filename: string, content: string)
    requires b != "" && ';' !in b && NoLineBreak(b)
    requires filename != "" && '"' !in filename && NoLineBreak(filename)
    requires Stripped(exerciseId) != ""
    requires OnlyAtEnd(PartText(TextPart(ExerciseField, exerciseId)), "--" + b)
    requires OnlyAtEnd(PartText(FilePart(PhotoFile, filename, "image/jpeg", content)), "--" + b)
    ensures var form := Form(map[ExerciseField := Stripped(exerciseId)], map[PhotoFile := Bytes(Stripped(content))]);
      && Parse(Encode(b, [TextPart(ExerciseField, exerciseId), FilePart(PhotoFile, filename, "image/jpeg", content)]),
               "multipart/form-data; boundary=" + b) == Success(form)
      && Accepts(form)
  {
    var field := TextPart(ExerciseField, exerciseId);
    var file := FilePart(PhotoFile, filename, "image/jpeg", content);
    var ct := "multipart/form-data; boundary=" + b;
    BoundaryOfContentType(b, "");
    assert ct + "" == ct;
    NamesWellFormed(exerciseId, filename, content);
    ParseFieldAndFile(b, ct, field, file);
  }

  lemma NamesWellFormed(exerciseId: string, filename: string, content: string)
    requires filename != "" && '"' !in filename && NoLineBreak(filename)
    ensures WellFormed(TextPart(ExerciseField, exerciseId))
    ensures WellFormed(FilePart(PhotoFile, filename, "image/jpeg", content))
  {
    assert '"' !in ExerciseField && NoLineBreak(ExerciseField);
    assert '"' !in PhotoFile && NoLineBreak(PhotoFile) && NoLineBreak("image/jpeg");
  }

  /** A content type that names the form type but gives no boundary makes the parse, and so the upload, fail. */
  lemma MissingBoundaryFails(ct: string, body: seq<byte>)
    requires Includes(ct, "multipart/form-data") && !Includes(ct, "boundary=")
    ensures Parse(Latin1(body), ct) == Failure(NoBoundary)
  {
    NoBoundaryParameter(ct);
  }

  /** An uploaded photo is listed for its exercise, with its name as id and the upload time as timestamp. */
  lemma UploadIsListed(blobs: seq<Blob>, userId: string, form: Form, now: nat, cs: string,
                       blobUrl: string -> string, sign: (string, string, string) -> string, later: nat)
    requires Accepts(form) && now != 0
    ensures var b := PhotoBlob(userId, form, now);
      var names := ListBlobs(Upload(blobs, b), PhotoPrefix(userId, form.fields[ExerciseField]));
      exists x :: x in GetPhotos.Listing(names, cs, blobUrl, sign, later) && x.id == b.name && x.timestamp == now
  {
    var b := PhotoBlob(userId, form, now);
    var ex := form.fields[ExerciseField];
    var after := Upload(blobs, b);
    GetPhotos.ListingContents(after, userId, ex, cs, blobUrl, sign, later);
    var k :| 0 <= k < |after| && after[k].name == b.name;
    var x := GetPhotos.ItemFor(cs, blobUrl, sign, later)(b.name);
    assert after[k] in after && StartsWith(after[k].name, PhotoPrefix(userId, ex));
    GetPhotos.UploadTimeReadBack(userId, ex, now, later);
    assert x.id == b.name && x.timestamp == now;
  }
}
