/** The upload path: after ffmpeg has written the stills, the movie's collection
    is fetched or created, and every still is added to it in one batch with a fresh
    id and the metadata {movie: title, frame: i}. */
module Indexer {
  import opened Text
  import Sorting
  import opened FrameFiles
  import opened Naming
  import opened Store

  /** `os.path.join(dir, name)` on POSIX. */
  function JoinPath(dir: string, name: string): (path: string)
    ensures |name| <= |path| && path[|path| - |name|..] == name
    ensures !StartsWith(name, "/") ==> StartsWith(path, dir)
  {
    if StartsWith(name, "/") then name
    else if |dir| == 0 || dir[|dir| - 1] == '/' then dir + name
    else dir + "/" + name
  }

  /** Under one directory, different relative names give different paths. */
  lemma JoinPathInjective(dir: string, x: string, y: string)
    requires !StartsWith(x, "/") && !StartsWith(y, "/")
    requires JoinPath(dir, x) == JoinPath(dir, y)
    ensures x == y
  {
    var sep := if |dir| == 0 || dir[|dir| - 1] == '/' then dir else dir + "/";
    assert JoinPath(dir, x) == sep + x && JoinPath(dir, y) == sep + y;
    assert x == (sep + x)[|sep|..];
    assert y == (sep + y)[|sep|..];
  }

  /** The stills directory inside the upload's scratch directory. */
  function FrameDir(tmpDir: string): string {
    JoinPath(tmpDir, "frames")
  }

  /** The three parallel lists handed to `collection.add`. */
  datatype Batch = Batch(ids: seq<string>, images: seq<string>, metadatas: seq<Metadata>)

  predicate WellFormed(batch: Batch) {
    |batch.ids| == |batch.images| == |batch.metadatas|
  }

  /** The batch for the still files `files`, taken in the order given: the i-th
      file gets the i-th fresh id `newId(i)`, its path under `frameDir`, and
      metadata naming the movie and frame number i. */
  function BuildBatch(title: string, frameDir: string, files: seq<string>, newId: nat -> string): (batch: Batch)
    ensures WellFormed(batch) && |batch.images| == |files|
    ensures forall i :: 0 <= i < |files| ==> batch.images[i] == JoinPath(frameDir, files[i])
    ensures forall i :: 0 <= i < |files| ==> batch.metadatas[i].movie == title
    ensures Sorting.Distinct(files) && (forall f :: f in files ==> !StartsWith(f, "/")) ==>
      Sorting.Distinct(batch.images)
  {
    var images := seq(|files|, i requires 0 <= i < |files| => JoinPath(frameDir, files[i]));
    assert Sorting.Distinct(files) && (forall f :: f in files ==> !StartsWith(f, "/")) ==>
      Sorting.Distinct(images) by {
      if Sorting.Distinct(files) && (forall f :: f in files ==> !StartsWith(f, "/")) {
        forall i, j | 0 <= i < j < |files|
          ensures images[i] != images[j]
        {
          if images[i] == images[j] {
            JoinPathInjective(frameDir, files[i], files[j]);
          }
        }
      }
    }
    Batch(
      seq(|files|, i requires 0 <= i < |files| => newId(i)),
      images,
      seq(|files|, i requires 0 <= i < |files| => Metadata(title, i)))
  }

  /** The frame numbers of one batch of n files are 0, 1, ..., n-1 in list
      order: number k sits at position k, no number repeats and none reaches n. */
  lemma BatchFrameNumbers(title: string, frameDir: string, files: seq<string>, newId: nat -> string)
    ensures var ms := BuildBatch(title, frameDir, files, newId).metadatas;
      && (forall i :: 0 <= i < |ms| ==> ms[i].frame == i)
      && |ms| == |files|
      && (forall i :: 0 <= i < |ms| ==> ms[i].frame < |files|)
      && (forall i, j :: 0 <= i < j < |ms| ==> ms[i].frame != ms[j].frame)
  {
  }

  /** When the id source never repeats, the ids of one batch are distinct. */
  lemma BatchIdsDistinct(title: string, frameDir: string, files: seq<string>, newId: nat -> string)
    requires forall i, j :: i != j ==> newId(i) != newId(j)
    ensures Sorting.Distinct(BuildBatch(title, frameDir, files, newId).ids)
  {
  }

  /** What the backend stores for a batch: one record per position. */
  function Records(batch: Batch): (records: seq<FrameRecord>)
    requires WellFormed(batch)
    ensures |records| == |batch.ids|
    ensures forall i :: 0 <= i < |records| ==>
      records[i].id == batch.ids[i] && records[i].image == batch.images[i] && records[i].meta == batch.metadatas[i]
  {
    seq(|batch.ids|, i requires 0 <= i < |batch.ids| => FrameRecord(batch.ids[i], batch.images[i], batch.metadatas[i]))
  }

  /** The records one upload adds, for still files taken in the order given. */
  function NewRecords(title: string, tmpDir: string, files: seq<string>, newId: nat -> string): seq<FrameRecord> {
    Records(BuildBatch(title, FrameDir(tmpDir), files, newId))
  }

  /** Whatever order the files come in, the record at position i is numbered i
      and names the movie: frame numbers come from the position alone. */
  lemma NewRecordsNumbered(title: string, tmpDir: string, files: seq<string>, newId: nat -> string)
    ensures |NewRecords(title, tmpDir, files, newId)| == |files|
    ensures forall i :: 0 <= i < |files| ==> NewRecords(title, tmpDir, files, newId)[i].meta == Metadata(title, i)
  {
    BatchFrameNumbers(title, FrameDir(tmpDir), files, newId);
  }

  /** Get-or-create the title's collection, then add the batch for `files`. */
  function AddFrames(b: Backend, title: string, tmpDir: string, files: seq<string>, newId: nat -> string): (r: Backend)
    requires Valid(b)
    ensures Valid(r)
    ensures r.items.Keys == b.items.Keys + {CollectionName(title)}
    ensures |b.names| <= |r.names| && r.names[..|b.names|] == b.names
    ensures r.items[CollectionName(title)]
      == (if CollectionName(title) in b.items then b.items[CollectionName(title)] else [])
         + NewRecords(title, tmpDir, files, newId)
    ensures forall n :: n in b.items && n != CollectionName(title) ==> r.items[n] == b.items[n]
  {
    var name := CollectionName(title);
    var (withCollection, _) := GetOrCreate(b, name);
    Add(withCollection, name, NewRecords(title, tmpDir, files, newId))
  }

  /** The upload handler. Nothing happens until both a video and a non-empty
      title are given; then the directory listing of the stills is sorted as
      strings and added under the title's collection. */
  function Ingest(b: Backend, uploaded: bool, title: string, tmpDir: string, listing: seq<string>, newId: nat -> string): (r: Backend)
    requires Valid(b)
    ensures Valid(r)
    ensures !uploaded || title == "" ==> r == b
  {
    if uploaded && title != "" then AddFrames(b, title, tmpDir, Sorting.Sort(listing, LexLess), newId)
    else b
  }

  /** An upload lists its title's collection after the existing ones, unless it
      is listed already, in which case the listing does not change. */
  lemma IngestListing(b: Backend, title: string, tmpDir: string, listing: seq<string>, newId: nat -> string)
    requires Valid(b)
    requires title != ""
    ensures Ingest(b, true, title, tmpDir, listing, newId).names
      == if CollectionName(title) in b.items then b.names else b.names + [CollectionName(title)]
  {
  }

  /** Ingesting one title twice reuses its collection: no second collection is
      created, and both batches are kept, the earlier first. */
  lemma IngestTwiceAppends(b: Backend, title: string, tmpDir1: string, listing1: seq<string>, newId1: nat -> string,
                           tmpDir2: string, listing2: seq<string>, newId2: nat -> string)
    requires Valid(b)
    requires title != ""
    ensures var once := Ingest(b, true, title, tmpDir1, listing1, newId1);
      var twice := Ingest(once, true, title, tmpDir2, listing2, newId2);
      var name := CollectionName(title);
      && twice.names == once.names
      && twice.items[name] == once.items[name]
         + NewRecords(title, tmpDir2, Sorting.Sort(listing2, LexLess), newId2)
  {
    var once := Ingest(b, true, title, tmpDir1, listing1, newId1);
    GetOrCreateExisting(once, CollectionName(title));
  }

  /** After an upload, every record of the title's collection either was there
      before or names the uploaded movie. */
  lemma IngestRecordsNameMovie(b: Backend, title: string, tmpDir: string, listing: seq<string>, newId: nat -> string)
    requires Valid(b)
    requires title != ""
    ensures var after := Ingest(b, true, title, tmpDir, listing, newId);
      var name := CollectionName(title);
      forall r :: r in after.items[name] ==> (name in b.items && r in b.items[name]) || r.meta.movie == title
  {
    var name := CollectionName(title);
    var before := if name in b.items then b.items[name] else [];
    var added := NewRecords(title, tmpDir, Sorting.Sort(listing, LexLess), newId);
    NewRecordsNumbered(title, tmpDir, Sorting.Sort(listing, LexLess), newId);
    forall r | r in before + added
      ensures (name in b.items && r in b.items[name]) || r.meta.movie == title
    {
      if r !in before {
        var i :| 0 <= i < |added| && added[i] == r;
      }
    }
  }

  /** The records added for the stills taken in time order: the one at position
      i is numbered i and shows the still of second i. */
  lemma NewRecordsInTimeOrder(title: string, tmpDir: string, n: nat, newId: nat -> string)
    ensures |NewRecords(title, tmpDir, FrameNames(n), newId)| == n
    ensures forall i :: 0 <= i < n ==>
      NewRecords(title, tmpDir, FrameNames(n), newId)[i].meta == Metadata(title, i)
      && NewRecords(title, tmpDir, FrameNames(n), newId)[i].image == JoinPath(FrameDir(tmpDir), FrameName(i))
  {
  }

  /** Up to 10000 stills, the record numbered i shows the still taken at second i. */
  lemma IngestFramesFollowTime(title: string, tmpDir: string, listing: seq<string>, newId: nat -> string, n: nat)
    requires n <= Pow10(MinDigits)
    requires IsListingOf(listing, n)
    ensures NewRecords(title, tmpDir, Sorting.Sort(listing, LexLess), newId) == NewRecords(title, tmpDir, FrameNames(n), newId)
  {
    SortedListingInTimeOrder(listing, n);
  }

  /** Up to 10000 stills, an upload appends the records of the stills in time
      order to its collection, and lists the collection only if it is new. */
  lemma IngestAppendsInTimeOrder(b: Backend, title: string, tmpDir: string, listing: seq<string>, newId: nat -> string,
                                 n: nat, after: Backend)
    requires Valid(b)
    requires title != ""
    requires n <= Pow10(MinDigits)
    requires IsListingOf(listing, n)
    requires after == Ingest(b, true, title, tmpDir, listing, newId)
    ensures CollectionName(title) in after.items
    ensures after.items[CollectionName(title)]
      == (if CollectionName(title) in b.items then b.items[CollectionName(title)] else [])
         + NewRecords(title, tmpDir, FrameNames(n), newId)
    ensures CollectionName(title) in b.items ==> after.names == b.names
  {
    IngestFramesFollowTime(title, tmpDir, listing, newId, n);
    IngestListing(b, title, tmpDir, listing, newId);
  }

  /** Beyond 10000 stills some record is numbered i but shows a still taken at
      another second. */
  lemma IngestFramesOutOfTime(title: string, tmpDir: string, listing: seq<string>, newId: nat -> string, n: nat)
    requires n > Pow10(MinDigits)
    requires IsListingOf(listing, n)
    ensures var added := NewRecords(title, tmpDir, Sorting.Sort(listing, LexLess), newId);
      exists i :: 0 <= i < |added| && added[i].meta.frame == i
        && added[i].image != JoinPath(FrameDir(tmpDir), FrameName(i))
  {
    var sorted := Sorting.Sort(listing, LexLess);
    SortedListingOutOfTimeOrder(listing, n);
    var i := MisplacedStill(sorted, n);
    var added := NewRecords(title, tmpDir, sorted, newId);
    assert added[i].meta.frame == i;
    if added[i].image == JoinPath(FrameDir(tmpDir), FrameName(i)) {
      FrameNameIsRelative(i);
      JoinPathInjective(FrameDir(tmpDir), sorted[i], FrameName(i));
    }
  }

  lemma FrameNameIsRelative(i: nat)
    ensures !StartsWith(FrameName(i), "/")
  {
    assert FrameName(i)[0] == 'f';
  }

  /** A listing of the stills that is not in time order has a position holding
      a still other than the one of that second, and that still is relative. */
  lemma MisplacedStill(sorted: seq<string>, n: nat) returns (i: nat)
    requires multiset(sorted) == multiset(FrameNames(n))
    requires sorted != FrameNames(n)
    ensures i < |sorted| == n
    ensures sorted[i] != FrameName(i)
    ensures !StartsWith(sorted[i], "/")
  {
    assert |sorted| == |multiset(sorted)| == |multiset(FrameNames(n))| == n;
    i :| 0 <= i < n && sorted[i] != FrameNames(n)[i];
    assert sorted[i] in multiset(FrameNames(n));
    var j :| 0 <= j < n && FrameNames(n)[j] == sorted[i];
    FrameNameIsRelative(j);
  }

  /** The upload handler with the listing ordered by length first, so that frame
      numbers follow time order for any number of stills. */
  function IngestInTimeOrder(b: Backend, uploaded: bool, title: string, tmpDir: string, listing: seq<string>, newId: nat -> string): (r: Backend)
    requires Valid(b)
    ensures Valid(r)
    ensures !uploaded || title == "" ==> r == b
  {
    if uploaded && title != "" then AddFrames(b, title, tmpDir, Sorting.Sort(listing, ShortLexLess), newId)
    else b
  }

  /** For every number of stills, the records added are those of the stills in
      time order: the one numbered i shows the still taken at second i. */
  lemma IngestInTimeOrderFollowsTime(b: Backend, title: string, tmpDir: string, listing: seq<string>, newId: nat -> string, n: nat)
    requires Valid(b)
    requires title != ""
    requires IsListingOf(listing, n)
    ensures var name := CollectionName(title);
      IngestInTimeOrder(b, true, title, tmpDir, listing, newId).items[name]
      == (if name in b.items then b.items[name] else []) + NewRecords(title, tmpDir, FrameNames(n), newId)
  {
    ShortLexSortedListingInTimeOrder(listing, n);
  }
}
