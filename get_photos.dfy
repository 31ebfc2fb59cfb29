/**
 * `GET /photos?exerciseId=…`: the caller's photos of one exercise, each with a
 * read-only URL and the timestamp read from its name, newest first.
 */
module GetPhotos {
  import opened Wrappers
  import opened Text
  import opened Js
  import opened Http
  import opened TableStore
  import Storage
  import Seqs

  /**
   * `parseInt(<last path segment>.replace('.jpg', '')) || Date.now()`: a name that
   * does not start with a number, or reads as 0, gets the current time.
   */
  function TimestampOf(name: string, now: nat): (t: int)
    ensures t != 0 || now == 0
  {
    var parts := SplitOn(name, "/");
    var parsed := ParseInt(ReplaceFirst(parts[|parts| - 1], ".jpg", ""));
    if parsed.None? || parsed.value == 0 then now else parsed.value
  }

  /** The item for a blob; its URL is the signed URL, which exists whenever `CanSign(cs)` holds. */
  function ItemOf(name: string, cs: string, blobUrl: string -> string, sign: (string, string, string) -> string, now: nat): PhotoJson
  {
    var url := match Storage.SasUrlOf(cs, blobUrl(name), name, sign)
               case Success(u) => u
               case Failure(_) => "";
    PhotoJson(name, url, TimestampOf(name, now))
  }

  function ItemFor(cs: string, blobUrl: string -> string, sign: (string, string, string) -> string, now: nat): string -> PhotoJson
  {
    (name: string) => ItemOf(name, cs, blobUrl, sign, now)
  }

  /** `b.timestamp - a.timestamp <= 0`: `a` may stay before `b` when it is not older. */
  function Newer(a: PhotoJson, b: PhotoJson): bool
  {
    a.timestamp >= b.timestamp
  }

  /** What a successful request lists: one item per blob name, sorted newest first. */
  function Listing(names: seq<string>, cs: string, blobUrl: string -> string,
                   sign: (string, string, string) -> string, now: nat): seq<PhotoJson>
  {
    Seqs.SortBy(Newer, Seqs.Map(ItemFor(cs, blobUrl, sign, now), names))
  }

  method Handle(store: Store, userId: string, exerciseId: Option<string>, cs: string,
                blobUrl: string -> string, sign: (string, string, string) -> string, now: nat)
    returns (r: Response<PhotoList>)
    ensures !TruthyText(exerciseId) ==> r == Fail(400, "Missing required query parameter: exerciseId")
    ensures TruthyText(exerciseId) ==>
      var names := ListBlobs(store.blobs, PhotoPrefix(userId, exerciseId.value));
      if names != [] && !Storage.CanSign(cs) then r == Fail(500, "Failed to fetch photos")
      else r == Ok(200, PhotoList(|names|, Listing(names, cs, blobUrl, sign, now)))
  {
    if !TruthyText(exerciseId) {
      return Fail(400, "Missing required query parameter: exerciseId");
    }
    var names := ListBlobs(store.blobs, PhotoPrefix(userId, exerciseId.value));
    var photos: seq<PhotoJson> := [];
    var i := 0;
    while i < |names|
      invariant i <= |names|
      invariant Storage.CanSign(cs) || i == 0
      invariant photos == Seqs.Map(ItemFor(cs, blobUrl, sign, now), names[..i])
    {
      var item := Photo(names[i], cs, blobUrl, sign, now);
      if item.Failure? {
        return Fail(500, "Failed to fetch photos");
      }
      AppendItem(ItemFor(cs, blobUrl, sign, now), names, i);
      photos := photos + [item.value];
      i := i + 1;
    }
    assert names[..i] == names;
    photos := Seqs.SortBy(Newer, photos);
    r := Ok(200, PhotoList(|photos|, photos));
  }

  /** One turn of the loop: the signed URL, then the timestamp read from the last path segment. */
  method Photo(name: string, cs: string, blobUrl: string -> string,
               sign: (string, string, string) -> string, now: nat) returns (r: Result<PhotoJson, string>)
    ensures r.Success? <==> Storage.CanSign(cs)
    ensures r.Success? ==> r.value == ItemOf(name, cs, blobUrl, sign, now)
  {
    var url := Storage.GenerateSasUrl(cs, blobUrl(name), name, sign);
    if url.Failure? {
      return Failure(url.error);
    }
    r := Success(PhotoJson(name, url.value, TimestampOf(name, now)));
  }

  lemma AppendItem<T, U>(f: T -> U, s: seq<T>, i: nat)
    requires i < |s|
    ensures Seqs.Map(f, s[..i + 1]) == Seqs.Map(f, s[..i]) + [f(s[i])]
  {
    assert s[..i + 1] == s[..i] + [s[i]];
    Seqs.MapAppend(f, s[..i], s[i]);
  }

  /** The listing is newest first. */
  lemma ListingNewestFirst(names: seq<string>, cs: string, blobUrl: string -> string,
                           sign: (string, string, string) -> string, now: nat)
    ensures var l := Listing(names, cs, blobUrl, sign, now);
      forall i, j :: 0 <= i < j < |l| ==> l[i].timestamp >= l[j].timestamp
  {
    var items := Seqs.Map(ItemFor(cs, blobUrl, sign, now), names);
    assert Seqs.TotalPreorderOn(Newer, items);
    Seqs.SortSorted(Newer, items);
  }

  /**
   * The listing holds one item per photo of the exercise, identified by its blob
   * name, and nothing else; `count` is the number of such blobs.
   */
  lemma ListingContents(blobs: seq<Blob>, userId: string, exerciseId: string, cs: string,
                        blobUrl: string -> string, sign: (string, string, string) -> string, now: nat)
    ensures var names := ListBlobs(blobs, PhotoPrefix(userId, exerciseId));
      && |names| == |Seqs.Filter(NameStartsWith(PhotoPrefix(userId, exerciseId)), blobs)|
      && forall x :: x in Listing(names, cs, blobUrl, sign, now) <==>
           exists b :: b in blobs && StartsWith(b.name, PhotoPrefix(userId, exerciseId))
                       && x == ItemFor(cs, blobUrl, sign, now)(b.name)
  {
    var prefix := PhotoPrefix(userId, exerciseId);
    var names := ListBlobs(blobs, prefix);
    ListBlobsCount(blobs, prefix);
    var f := ItemFor(cs, blobUrl, sign, now);
    Seqs.SortPermutes(Newer, Seqs.Map(f, names));
    forall x
      ensures x in Listing(names, cs, blobUrl, sign, now) <==>
        exists b :: b in blobs && StartsWith(b.name, prefix) && x == f(b.name)
    {
      assert x in Listing(names, cs, blobUrl, sign, now) <==> x in Seqs.Map(f, names) by {
        assert x in multiset(Listing(names, cs, blobUrl, sign, now)) <==> x in multiset(Seqs.Map(f, names));
      }
      ItemOfListed(blobs, prefix, f, x);
    }
  }

  /** An item is among those made from the listed names exactly when it is made from a blob under the prefix. */
  lemma ItemOfListed(blobs: seq<Blob>, prefix: string, f: string -> PhotoJson, x: PhotoJson)
    ensures x in Seqs.Map(f, ListBlobs(blobs, prefix)) <==>
      exists b :: b in blobs && StartsWith(b.name, prefix) && x == f(b.name)
  {
    if x in Seqs.Map(f, ListBlobs(blobs, prefix)) {
      ListedItemFromBlob(blobs, prefix, f, x);
    }
    if exists b :: b in blobs && StartsWith(b.name, prefix) && x == f(b.name) {
      var b :| b in blobs && StartsWith(b.name, prefix) && x == f(b.name);
      BlobItemListed(blobs, prefix, f, b);
    }
  }

  lemma ListedItemFromBlob(blobs: seq<Blob>, prefix: string, f: string -> PhotoJson, x: PhotoJson)
    requires x in Seqs.Map(f, ListBlobs(blobs, prefix))
    ensures exists b :: b in blobs && StartsWith(b.name, prefix) && x == f(b.name)
  {
    var names := ListBlobs(blobs, prefix);
    var k :| 0 <= k < |names| && Seqs.Map(f, names)[k] == x;
    var j :| 0 <= j < |blobs| && blobs[j].name == names[k];
    assert blobs[j] in blobs && StartsWith(blobs[j].name, prefix) && x == f(blobs[j].name);
  }

  lemma BlobItemListed(blobs: seq<Blob>, prefix: string, f: string -> PhotoJson, b: Blob)
    requires b in blobs && StartsWith(b.name, prefix)
    ensures f(b.name) in Seqs.Map(f, ListBlobs(blobs, prefix))
  {
    var names := ListBlobs(blobs, prefix);
    var j :| 0 <= j < |blobs| && blobs[j] == b;
    var k :| 0 <= k < |names| && names[k] == b.name;
    assert Seqs.Map(f, names)[k] == f(b.name);
  }

  /** A photo stored under a non-zero upload time reads back with that time; time 0 reads as `now`. */
  lemma UploadTimeReadBack(userId: string, exerciseId: string, time: nat, now: nat)
    ensures TimestampOf(PhotoName(userId, exerciseId, NatToString(time)), now) == if time == 0 then now else time
  {
    var digits := NatToString(time);
    var name := PhotoName(userId, exerciseId, digits);
    var parts := SplitOn(name, "/");
    FileNameOfPhoto(userId, exerciseId, digits);
    var last := parts[|parts| - 1];
    assert last == digits + ".jpg";
    StripJpg(digits);
    var stripped := ReplaceFirst(last, ".jpg", "");
    assert stripped == digits;
    ParseIntOfNat(time);
    assert ParseInt(stripped) == Some(time);
    TimestampOfValue(name, now, time);
  }

  lemma TimestampOfValue(name: string, now: nat, v: int)
    requires var parts := SplitOn(name, "/"); ParseInt(ReplaceFirst(parts[|parts| - 1], ".jpg", "")) == Some(v)
    ensures TimestampOf(name, now) == if v == 0 then now else v
  {
  }

  /** The last path segment of a photo name is `<timestamp>.jpg`. */
  lemma FileNameOfPhoto(userId: string, exerciseId: string, digits: string)
    requires AllDigits(digits)
    ensures var parts := SplitOn(PhotoName(userId, exerciseId, digits), "/");
      parts[|parts| - 1] == digits + ".jpg"
  {
    var name := PhotoName(userId, exerciseId, digits);
    assert name == (userId + "/" + exerciseId) + ['/'] + (digits + ".jpg");
    assert '/' !in digits + ".jpg" by {
      assert (digits + ".jpg")[|digits|..] == ".jpg";
    }
    LastPiece(userId + "/" + exerciseId, '/', digits + ".jpg");
  }

  /** Removing the first `.jpg` from `<digits>.jpg` leaves the digits. */
  lemma StripJpg(digits: string)
    requires AllDigits(digits)
    ensures ReplaceFirst(digits + ".jpg", ".jpg", "") == digits
  {
    ReplaceFirstAfter(digits, ".jpg", "", "");
    assert digits + ".jpg" + "" == digits + ".jpg";
    assert digits + "" + "" == digits;
  }

  /** Another exercise's photos never appear, even when its id starts with this one's. */
  lemma OtherExerciseNotListed(blobs: seq<Blob>, userId: string, exerciseId: string, other: string, timestamp: string)
    requires other != exerciseId && '/' !in exerciseId && '/' !in other
    ensures PhotoName(userId, other, timestamp) !in ListBlobs(blobs, PhotoPrefix(userId, exerciseId))
  {
    PhotoPrefixSeparates(userId, exerciseId, other, timestamp);
  }
}
