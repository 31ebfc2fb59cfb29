/**
 * The photo cascade that `deleteExercise` and `deleteRoutine` both run: list the
 * blobs under a prefix and delete them one by one, counting them.
 */
module Cascade {
  import opened Text
  import opened TableStore
  import Seqs

  /** Deletes every blob whose name starts with `prefix` and counts them; nothing else changes. */
  method DeletePhotosUnder(store: Store, prefix: string) returns (deleted: nat)
    requires store.Valid()
    modifies store
    ensures store.Valid()
    ensures store.blobs == Seqs.Filter(NameNotStartsWith(prefix), old(store.blobs))
    ensures deleted == |Seqs.Filter(NameStartsWith(prefix), old(store.blobs))|
    ensures store.routines == old(store.routines) && store.exercises == old(store.exercises)
  {
    ghost var before := store.blobs;
    var names := ListBlobs(store.blobs, prefix);
    ListBlobsUnique(before, prefix);
    deleted := 0;
    Seqs.FilterAll(NameNotIn(names[..0]), before);
    while deleted < |names|
      invariant deleted <= |names|
      invariant store.Valid()
      invariant store.blobs == Seqs.Filter(NameNotIn(names[..deleted]), before)
      invariant store.routines == old(store.routines) && store.exercises == old(store.exercises)
    {
      var name := names[deleted];
      ListedNotYetDeleted(before, names, deleted);
      store.DeleteBlob(name);
      DeleteOneMore(before, names, deleted);
      deleted := deleted + 1;
    }
    assert names[..deleted] == names;
    ListingCoversPrefix(before, prefix);
    ListBlobsCount(before, prefix);
  }

  /** A listed name not deleted yet still names a blob. */
  lemma ListedNotYetDeleted(before: seq<Blob>, names: seq<string>, j: nat)
    requires Seqs.Distinct(names) && j < |names|
    requires forall i :: 0 <= i < |names| ==> BlobExists(before, names[i])
    ensures BlobExists(Seqs.Filter(NameNotIn(names[..j]), before), names[j])
  {
    assert BlobExists(before, names[j]);
    var k :| 0 <= k < |before| && before[k].name == names[j];
    assert names[j] !in names[..j];
    Seqs.FilterMembership(NameNotIn(names[..j]), before, before[k]);
    var rest := Seqs.Filter(NameNotIn(names[..j]), before);
    var m :| 0 <= m < |rest| && rest[m] == before[k];
  }

  lemma DeleteOneMore(before: seq<Blob>, names: seq<string>, j: nat)
    requires j < |names|
    ensures WithoutBlob(Seqs.Filter(NameNotIn(names[..j]), before), names[j])
         == Seqs.Filter(NameNotIn(names[..j + 1]), before)
  {
    assert names[..j + 1] == names[..j] + [names[j]];
    Seqs.FilterCompose(NameNotIn(names[..j]), NameIsNot(names[j]), NameNotIn(names[..j + 1]), before);
  }

  /** Deleting the listed names is deleting the blobs under the prefix. */
  lemma ListingCoversPrefix(before: seq<Blob>, prefix: string)
    ensures Seqs.Filter(NameNotIn(ListBlobs(before, prefix)), before)
         == Seqs.Filter(NameNotStartsWith(prefix), before)
  {
    Seqs.FilterExt(NameNotIn(ListBlobs(before, prefix)), NameNotStartsWith(prefix), before);
  }
}
