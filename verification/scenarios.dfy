/** End-to-end behaviour of the upload and query paths on small examples. */
module Scenarios {
  import opened FrameFiles
  import opened Naming
  import opened Store
  import opened Wrappers
  import opened Indexer
  import opened Query

  /** Uploading "Test Film" with five stills into a fresh backend creates the one
      collection `movie_test_film`, holding five records numbered 0 to 4, each
      naming the movie "Test Film". */
  lemma UploadTestFilm(tmpDir: string, listing: seq<string>, newId: nat -> string)
    requires IsListingOf(listing, 5)
    ensures var r := Ingest(Empty, true, "Test Film", tmpDir, listing, newId);
      && r.names == ["movie_test_film"]
      && |r.items["movie_test_film"]| == 5
      && forall i :: 0 <= i < 5 ==> r.items["movie_test_film"][i].meta == Metadata("Test Film", i)
  {
    TestFilmName();
    IngestFramesFollowTime("Test Film", tmpDir, listing, newId, 5);
    NewRecordsInTimeOrder("Test Film", tmpDir, 5, newId);
  }

  /** A first upload into a fresh backend lists exactly its own collection. */
  lemma FirstUploadListing(title: string, tmpDir: string, listing: seq<string>, newId: nat -> string)
    requires title != ""
    ensures Ingest(Empty, true, title, tmpDir, listing, newId).names == [CollectionName(title)]
  {
    EmptyIsValid();
    IngestListing(Empty, title, tmpDir, listing, newId);
  }

  /** After uploading two movies whose names differ into a fresh backend,
      compare-all gives exactly two groups, the earlier upload first. */
  lemma TwoMoviesTwoGroups(titleA: string, titleB: string, tmpA: string, tmpB: string,
                           listingA: seq<string>, listingB: seq<string>,
                           idsA: nat -> string, idsB: nat -> string,
                           once: Backend, twice: Backend,
                           prompt: string, k: nat, search: Search)
    requires titleA != "" && titleB != "" && prompt != ""
    requires CollectionName(titleA) != CollectionName(titleB)
    requires once == Ingest(Empty, true, titleA, tmpA, listingA, idsA)
    requires twice == Ingest(once, true, titleB, tmpB, listingB, idsB)
    ensures Valid(twice)
    ensures var groups := CompareAll(twice, prompt, k, search);
      && |groups| == 2
      && groups[0].collection == CollectionName(titleA)
      && groups[1].collection == CollectionName(titleB)
  {
    FirstUploadListing(titleA, tmpA, listingA, idsA);
    IngestListing(once, titleB, tmpB, listingB, idsB);
  }

  /** Querying `movie_test_film` after uploading "Test Film" into a fresh
      backend gives one group, and every hit in it names the movie "Test Film". */
  lemma QueryTestFilm(tmpDir: string, listing: seq<string>, newId: nat -> string,
                      prompt: string, k: nat, search: Search)
    requires HitsFromRecords(search)
    requires prompt != ""
    ensures var r := SingleMovie(Ingest(Empty, true, "Test Film", tmpDir, listing, newId), prompt, k, Some("movie_test_film"), search);
      && r.Success? && |r.value| == 1
      && r.value[0].collection == "movie_test_film"
      && forall h :: h in r.value[0].hits ==> h.movie == "Test Film"
  {
    var after := Ingest(Empty, true, "Test Film", tmpDir, listing, newId);
    TestFilmName();
    EmptyIsValid();
    IngestRecordsNameMovie(Empty, "Test Film", tmpDir, listing, newId);
    SingleMovieHitsFromCollection(after, prompt, k, Some("movie_test_film"), search);
  }
}
