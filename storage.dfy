/**
 * The storage module of the functions app: lazily built, memoised clients for the
 * two tables and the photo container, and the read-only URL of a photo, whose
 * credentials come from the `key=value;…` connection string.
 */
module Storage {
  import opened Wrappers
  import opened Text
  import Seqs

  /** The connection string used when the environment supplies none. */
  const DevelopmentStorage := "UseDevelopmentStorage=true"

  /** `process.env.AZURE_STORAGE_CONNECTION_STRING || 'UseDevelopmentStorage=true'`. */
  function ConnectionString(env: Option<string>): (cs: string)
    ensures cs != ""
    ensures env.Some? && env.value != "" ==> cs == env.value
  {
    if env.Some? && env.value != "" then env.value else DevelopmentStorage
  }

  // ---------------------------------------------------------------- lazy clients

  /** A client object; `serial` tells apart clients built at different times. */
  datatype Client =
    | TableClient(table: string, serial: nat)
    | BlobServiceClient(serial: nat)
    | ContainerClient(container: string, serial: nat)

  /**
   * The module-level client variables, each `null` until its getter first runs.
   * `built` counts the client objects constructed so far and `containerCreations`
   * the `createIfNotExists` calls made on the photo container.
   */
  class Clients {
    var routinesTable: Option<Client>
    var exercisesTable: Option<Client>
    var blobService: Option<Client>
    var photoContainer: Option<Client>
    var built: nat
    var containerCreations: nat

    /** Each variable holds a client of its kind built earlier; the container was created at most once, when it was built. */
    ghost predicate Valid()
      reads this
    {
      && (routinesTable.Some? ==> routinesTable.value.TableClient? && routinesTable.value.table == "routines"
                                   && routinesTable.value.serial < built)
      && (exercisesTable.Some? ==> exercisesTable.value.TableClient? && exercisesTable.value.table == "exercises"
                                    && exercisesTable.value.serial < built)
      && (blobService.Some? ==> blobService.value.BlobServiceClient? && blobService.value.serial < built)
      && (photoContainer.Some? ==> photoContainer.value.ContainerClient?
                                    && photoContainer.value.container == "exercise-photos"
                                    && photoContainer.value.serial < built && blobService.Some?)
      && containerCreations == (if photoContainer.Some? then 1 else 0)
    }

    constructor()
      ensures Valid()
      ensures routinesTable == None && exercisesTable == None && blobService == None && photoContainer == None
      ensures built == 0 && containerCreations == 0
    {
      routinesTable, exercisesTable, blobService, photoContainer := None, None, None, None;
      built, containerCreations := 0, 0;
    }

    /** `getRoutinesTable`: the first call builds the client, every later call returns that same client. */
    method GetRoutinesTable() returns (c: Client)
      requires Valid()
      modifies this
      ensures Valid()
      ensures routinesTable == Some(c) && c.TableClient? && c.table == "routines"
      ensures old(routinesTable).Some? ==> c == old(routinesTable).value && built == old(built)
      ensures old(routinesTable).None? ==> c.serial == old(built) && built == old(built) + 1
      ensures exercisesTable == old(exercisesTable) && blobService == old(blobService)
      ensures photoContainer == old(photoContainer) && containerCreations == old(containerCreations)
    {
      if routinesTable.None? {
        routinesTable := Some(TableClient("routines", built));
        built := built + 1;
      }
      c := routinesTable.value;
    }

    /** `getExercisesTable`: the first call builds the client, every later call returns that same client. */
    method GetExercisesTable() returns (c: Client)
      requires Valid()
      modifies this
      ensures Valid()
      ensures exercisesTable == Some(c) && c.TableClient? && c.table == "exercises"
      ensures old(exercisesTable).Some? ==> c == old(exercisesTable).value && built == old(built)
      ensures old(exercisesTable).None? ==> c.serial == old(built) && built == old(built) + 1
      ensures routinesTable == old(routinesTable) && blobService == old(blobService)
      ensures photoContainer == old(photoContainer) && containerCreations == old(containerCreations)
    {
      if exercisesTable.None? {
        exercisesTable := Some(TableClient("exercises", built));
        built := built + 1;
      }
      c := exercisesTable.value;
    }

    /** `getBlobServiceClient`: the first call builds the client, every later call returns that same client. */
    method GetBlobServiceClient() returns (c: Client)
      requires Valid()
      modifies this
      ensures Valid()
      ensures blobService == Some(c) && c.BlobServiceClient?
      ensures old(blobService).Some? ==> c == old(blobService).value && built == old(built)
      ensures old(blobService).None? ==> c.serial == old(built) && built == old(built) + 1
      ensures routinesTable == old(routinesTable) && exercisesTable == old(exercisesTable)
      ensures photoContainer == old(photoContainer) && containerCreations == old(containerCreations)
    {
      if blobService.None? {
        blobService := Some(BlobServiceClient(built));
        built := built + 1;
      }
      c := blobService.value;
    }

    /**
     * `getPhotoContainer`. On the first call the container client is stored and then
     * `createIfNotExists` runs, failing with `createError` when that is `Some`. The
     * variable is already set by then, so a failed creation is never retried: every
     * later call returns the stored client without creating anything.
     */
    method GetPhotoContainer(createError: Option<string>) returns (r: Result<Client, string>)
      requires Valid()
      modifies this
      ensures Valid()
      ensures photoContainer.Some? && containerCreations == 1
      ensures old(photoContainer).Some? ==>
        r == Success(old(photoContainer).value) && built == old(built) && blobService == old(blobService)
      ensures old(photoContainer).None? ==>
        && photoContainer.value.serial >= old(built)
        && r == (if createError.Some? then Failure(createError.value) else Success(photoContainer.value))
      ensures routinesTable == old(routinesTable) && exercisesTable == old(exercisesTable)
    {
      if photoContainer.None? {
        var service := GetBlobServiceClient();
        photoContainer := Some(ContainerClient("exercise-photos", built));
        built := built + 1;
        containerCreations := containerCreations + 1;
        if createError.Some? {
          return Failure(createError.value);
        }
      }
      r := Success(photoContainer.value);
    }
  }

  // ---------------------------------------------------------------- connection string

  /**
   * One `;`-separated segment: the key is the text before the first `=` and the value
   * the remaining pieces joined with `=`. A segment with an empty key or no `=` is ignored.
   */
  function Segment(part: string): (r: Option<(string, string)>)
    ensures r.Some? ==> r.value.0 != "" && '=' !in r.value.0
  {
    var pieces := SplitOn(part, "=");
    SplitPiecesFree(part, "=");
    assert '=' !in pieces[0] by {
      if '=' in pieces[0] {
        var i :| 0 <= i < |pieces[0]| && pieces[0][i] == '=';
        IncludesAt(pieces[0], "=", i);
      }
    }
    if pieces[0] != "" && |pieces| > 1 then Some((pieces[0], Join(pieces[1..], "="))) else None
  }

  /** The dictionary the segments fill, in order: a later segment with the same key wins. */
  function PartsOf(segments: seq<string>): map<string, string>
  {
    if segments == [] then map[]
    else
      var parts := PartsOf(segments[..|segments| - 1]);
      match Segment(segments[|segments| - 1])
      case Some(kv) => parts[kv.0 := kv.1]
      case None => parts
  }

  /** The `forEach` over the segments of the connection string, filling `connStrParts`. */
  method ParseConnectionString(cs: string) returns (parts: map<string, string>)
    ensures parts == PartsOf(SplitOn(cs, ";"))
    ensures forall k :: k in parts ==> k != "" && '=' !in k
  {
    var segments := SplitOn(cs, ";");
    parts := map[];
    var i := 0;
    while i < |segments|
      invariant i <= |segments|
      invariant parts == PartsOf(segments[..i])
      invariant forall k :: k in parts ==> k != "" && '=' !in k
    {
      assert segments[..i + 1][..i] == segments[..i];
      var pieces := SplitOn(segments[i], "=");
      var key := pieces[0];
      if key != "" && |pieces| > 1 {
        parts := parts[key := Join(pieces[1..], "=")];
      }
      i := i + 1;
    }
    assert segments[..i] == segments;
  }

  /** A segment `key=value` reads back as that pair, `=` signs inside the value included. */
  lemma SegmentOfPair(key: string, value: string)
    requires key != "" && '=' !in key
    ensures Segment(key + "=" + value) == Some((key, value))
  {
    SplitAtFirst(key, '=', value);
    var rest := SplitOn(value, "=");
    assert SplitOn(key + "=" + value, "=") == [key] + rest;
    JoinSplit(value, "=");
    assert ([key] + rest)[1..] == rest;
  }

  /** A segment without `=`, or whose key is empty, is ignored. */
  lemma SegmentIgnored(part: string)
    requires '=' !in part || (|part| > 0 && part[0] == '=')
    ensures Segment(part) == None
  {
    if '=' !in part {
      SplitWithoutChar(part, '=');
    } else {
      assert part == [] + ['='] + part[1..];
      SplitAtFirst([], '=', part[1..]);
    }
  }

  function PairText(kv: (string, string)): string
  {
    kv.0 + "=" + kv.1
  }

  /** A connection string written from pairs, `key=value` joined with `;`. */
  function Render(pairs: seq<(string, string)>): string
  {
    Join(Seqs.Map(PairText, pairs), ";")
  }

  /** The dictionary of a list of pairs when a later pair overrides an earlier one. */
  function MapOf(pairs: seq<(string, string)>): map<string, string>
  {
    if pairs == [] then map[]
    else MapOf(pairs[..|pairs| - 1])[pairs[|pairs| - 1].0 := pairs[|pairs| - 1].1]
  }

  predicate WellFormedPair(kv: (string, string))
  {
    kv.0 != "" && '=' !in kv.0 && ';' !in kv.0 && ';' !in kv.1
  }

  /** Parsing a rendered connection string gives back its pairs: the parser and `Render` are inverse. */
  lemma ParseRender(pairs: seq<(string, string)>)
    requires |pairs| >= 1
    requires forall i :: 0 <= i < |pairs| ==> WellFormedPair(pairs[i])
    ensures PartsOf(SplitOn(Render(pairs), ";")) == MapOf(pairs)
  {
    var texts := Seqs.Map(PairText, pairs);
    forall k | 0 <= k < |texts|
      ensures ';' !in texts[k]
    {
      assert texts[k] == pairs[k].0 + "=" + pairs[k].1;
    }
    SplitJoinChar(texts, ';');
    PartsOfPairs(pairs);
  }

  lemma {:induction false} PartsOfPairs(pairs: seq<(string, string)>)
    requires forall i :: 0 <= i < |pairs| ==> WellFormedPair(pairs[i])
    ensures PartsOf(Seqs.Map(PairText, pairs)) == MapOf(pairs)
  {
    if pairs != [] {
      var init := pairs[..|pairs| - 1];
      PartsOfPairs(init);
      var texts := Seqs.Map(PairText, pairs);
      assert texts[..|texts| - 1] == Seqs.Map(PairText, init);
      SegmentOfPair(pairs[|pairs| - 1].0, pairs[|pairs| - 1].1);
    }
  }

  // ---------------------------------------------------------------- read-only URLs

  const CredentialsError := "Could not extract account credentials from connection string"

  /** Whether the connection string points at the local storage emulator. */
  predicate IsDevelopment(cs: string)
  {
    Includes(cs, "UseDevelopmentStorage=true") || Includes(cs, "127.0.0.1")
  }

  /** A present, non-empty entry of the parsed connection string. */
  predicate HasEntry(parts: map<string, string>, key: string)
  {
    key in parts && parts[key] != ""
  }

  /** Whether `generateSasUrl` succeeds: whatever the blob, only the connection string decides. */
  predicate CanSign(cs: string)
  {
    var parts := PartsOf(SplitOn(cs, ";"));
    IsDevelopment(cs) || (HasEntry(parts, "AccountName") && HasEntry(parts, "AccountKey"))
  }

  /**
   * The URL `generateSasUrl` answers for a blob whose plain URL is `blobUrl`. `sign`
   * stands for the SAS token the storage SDK computes from the account name, the
   * account key and the blob name (read permission, expiry from the clock).
   */
  function SasUrlOf(cs: string, blobUrl: string, blobName: string, sign: (string, string, string) -> string): (r: Result<string, string>)
    ensures r.Success? <==> CanSign(cs)
    ensures IsDevelopment(cs) ==> r == Success(blobUrl)
    ensures r.Failure? ==> r.error == CredentialsError
  {
    var parts := PartsOf(SplitOn(cs, ";"));
    if IsDevelopment(cs) then Success(blobUrl)
    else if !HasEntry(parts, "AccountName") || !HasEntry(parts, "AccountKey") then Failure(CredentialsError)
    else Success(blobUrl + "?" + sign(parts["AccountName"], parts["AccountKey"], blobName))
  }

  /** `generateSasUrl`: parse the connection string, then choose between the plain URL, an error and a signed URL. */
  method GenerateSasUrl(cs: string, blobUrl: string, blobName: string, sign: (string, string, string) -> string)
    returns (r: Result<string, string>)
    ensures r == SasUrlOf(cs, blobUrl, blobName, sign)
  {
    var parts := ParseConnectionString(cs);
    if Includes(cs, "UseDevelopmentStorage=true") || Includes(cs, "127.0.0.1") {
      return Success(blobUrl);
    }
    if "AccountName" !in parts || parts["AccountName"] == "" || "AccountKey" !in parts || parts["AccountKey"] == "" {
      return Failure(CredentialsError);
    }
    r := Success(blobUrl + "?" + sign(parts["AccountName"], parts["AccountKey"], blobName));
  }

  /** Without a configured connection string the emulator is used and URLs carry no token. */
  lemma DefaultIsUnsigned(blobUrl: string, blobName: string, sign: (string, string, string) -> string)
    ensures SasUrlOf(ConnectionString(None), blobUrl, blobName, sign) == Success(blobUrl)
  {
    IncludesAt(DevelopmentStorage, "UseDevelopmentStorage=true", 0);
  }

  /**
   * A production connection string carrying both credentials signs with them, the
   * account key kept whole even when it ends in base64 padding.
   */
  lemma SignedWithCredentials(pairs: seq<(string, string)>, name: string, key: string,
                              blobUrl: string, blobName: string, sign: (string, string, string) -> string)
    requires |pairs| >= 1
    requires forall i :: 0 <= i < |pairs| ==> WellFormedPair(pairs[i])
    requires !IsDevelopment(Render(pairs))
    requires name != "" && key != ""
    requires MapOf(pairs)["AccountName" := name]["AccountKey" := key] == MapOf(pairs)
    ensures SasUrlOf(Render(pairs), blobUrl, blobName, sign) == Success(blobUrl + "?" + sign(name, key, blobName))
  {
    ParseRender(pairs);
    UpdatedEntries(MapOf(pairs), name, key);
    SignedWithEntries(Render(pairs), MapOf(pairs), blobUrl, blobName, sign);
  }

  /** A map that setting the two entries leaves unchanged already holds them. */
  lemma UpdatedEntries(m: map<string, string>, name: string, key: string)
    requires m["AccountName" := name]["AccountKey" := key] == m
    ensures "AccountName" in m && m["AccountName"] == name
    ensures "AccountKey" in m && m["AccountKey"] == key
  {
    assert m["AccountName"] == m["AccountName" := name]["AccountKey" := key]["AccountName"];
    assert m["AccountKey"] == m["AccountName" := name]["AccountKey" := key]["AccountKey"];
  }

  /** With both entries present, the URL is the blob URL with the signature as its query. */
  lemma SignedWithEntries(cs: string, parts: map<string, string>, blobUrl: string, blobName: string,
                          sign: (string, string, string) -> string)
    requires PartsOf(SplitOn(cs, ";")) == parts && !IsDevelopment(cs)
    requires HasEntry(parts, "AccountName") && HasEntry(parts, "AccountKey")
    ensures SasUrlOf(cs, blobUrl, blobName, sign) == Success(blobUrl + "?" + sign(parts["AccountName"], parts["AccountKey"], blobName))
  {
  }

  /** A production connection string without an account key fails, whatever else it holds. */
  lemma MissingKeyFails(pairs: seq<(string, string)>, blobUrl: string, blobName: string,
                        sign: (string, string, string) -> string)
    requires |pairs| >= 1
    requires forall i :: 0 <= i < |pairs| ==> WellFormedPair(pairs[i])
    requires !IsDevelopment(Render(pairs))
    requires forall i :: 0 <= i < |pairs| ==> pairs[i].0 != "AccountKey"
    ensures SasUrlOf(Render(pairs), blobUrl, blobName, sign) == Failure(CredentialsError)
  {
    ParseRender(pairs);
    MapOfKeys(pairs);
  }

  lemma {:induction false} MapOfKeys(pairs: seq<(string, string)>)
    ensures forall k :: k in MapOf(pairs) <==> exists i :: 0 <= i < |pairs| && pairs[i].0 == k
  {
    if pairs != [] {
      var init := pairs[..|pairs| - 1];
      MapOfKeys(init);
      forall k
        ensures k in MapOf(pairs) <==> exists i :: 0 <= i < |pairs| && pairs[i].0 == k
      {
        if exists i :: 0 <= i < |pairs| && pairs[i].0 == k {
          var i :| 0 <= i < |pairs| && pairs[i].0 == k;
          if i < |pairs| - 1 {
            assert init[i].0 == k;
          }
        }
        if k in MapOf(init) {
          var i :| 0 <= i < |init| && init[i].0 == k;
          assert pairs[i].0 == k;
        }
      }
    }
  }
}
