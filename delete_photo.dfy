/**
 * `DELETE /photos/{photoId}`: the id is the URL-encoded blob name. After decoding,
 * the name must lie under the caller's folder `<userId>/` and the blob must exist;
 * then that one blob is deleted.
 */
module DeletePhoto {
  import opened Wrappers
  import opened Text
  import opened Http
  import opened TableStore
  import Uri

  method Handle(store: Store, userId: string, photoId: string) returns (r: Response<()>)
    requires store.Valid()
    modifies store
    ensures store.Valid()
    ensures store.routines == old(store.routines) && store.exercises == old(store.exercises)
    ensures photoId == "" ==> r == Fail(400, "Missing photoId parameter") && store.blobs == old(store.blobs)
    ensures photoId != "" ==>
      match Uri.DecodeURIComponent(photoId)
      case Failure(_) => r == Fail(500, "Failed to delete photo") && store.blobs == old(store.blobs)
      case Success(name) =>
        if !StartsWith(name, userId + "/") then
          r == Fail(403, "Forbidden: You can only delete your own photos") && store.blobs == old(store.blobs)
        else if !BlobExists(old(store.blobs), name) then
          r == Fail(404, "Photo not found") && store.blobs == old(store.blobs)
        else
          r == Ok(200, ()) && store.blobs == WithoutBlob(old(store.blobs), name)
  {
    if photoId == "" {
      return Fail(400, "Missing photoId parameter");
    }
    var decoded := Uri.DecodeURIComponent(photoId);
    if decoded.Failure? {
      return Fail(500, "Failed to delete photo");
    }
    var blobName := decoded.value;
    if !StartsWith(blobName, userId + "/") {
      return Fail(403, "Forbidden: You can only delete your own photos");
    }
    var found := BlobExists(store.blobs, blobName);
    if !found {
      return Fail(404, "Photo not found");
    }
    store.DeleteBlob(blobName);
    r := Ok(200, ());
  }

  /** The owner check includes the slash: a user whose id is a proper prefix of another's cannot reach that user's photos. */
  lemma {:induction false} OwnerPrefixSeparates(userId: string, owner: string, rest: string)
    requires userId != owner && '/' !in userId && '/' !in owner
    ensures !StartsWith(owner + "/" + rest, userId + "/")
  {
    var name := owner + "/" + rest;
    var prefix := userId + "/";
    if |owner| < |userId| {
      assert name[|owner|] == '/';
      assert userId[|owner|] in userId;
      DiffersAt(name, prefix, |owner|);
    } else if |owner| > |userId| {
      assert owner[|userId|] in owner;
      DiffersAt(name, prefix, |userId|);
    } else {
      var k :| 0 <= k < |owner| && owner[k] != userId[k];
      DiffersAt(name, prefix, k);
    }
  }

  /**
   * The id the client sends for one of the caller's photos, its name passed through
   * `encodeURIComponent`, is one non-empty path segment that decodes back to the name,
   * and that name passes the owner check.
   */
  lemma ClientIdDecodes(userId: string, exerciseId: string, timestamp: string)
    ensures var name := PhotoName(userId, exerciseId, timestamp);
      && Uri.EncodeURIComponent(name) != ""
      && '/' !in Uri.EncodeURIComponent(name)
      && Uri.DecodeURIComponent(Uri.EncodeURIComponent(name)) == Success(name)
      && StartsWith(name, userId + "/")
  {
    var name := PhotoName(userId, exerciseId, timestamp);
    Uri.DecodeEncode(name);
    Uri.EncodedHasNoSlash(name);
    assert name == (userId + "/") + (exerciseId + "/" + timestamp + ".jpg");
    assert name[..|userId + "/"|] == userId + "/";
  }

  /** A successful delete removes exactly the named blob; every other photo stays, in order. */
  lemma DeletesOnlyThatBlob(blobs: seq<Blob>, name: string)
    requires UniqueNames(blobs) && BlobExists(blobs, name)
    ensures exists i :: 0 <= i < |blobs| && blobs[i].name == name && WithoutBlob(blobs, name) == blobs[..i] + blobs[i + 1..]
  {
    var i :| 0 <= i < |blobs| && blobs[i].name == name;
    WithoutBlobAt(blobs, i);
  }
}
