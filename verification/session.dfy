/** One run of the whole script. Streamlit runs the script from the top after
    every widget change, and the file uploader and the title box keep their
    values, so a run that only changes the prompt still passes the upload
    guard and ingests the movie again before answering the query. */
module Session {
  import opened Wrappers
  import Sorting
  import opened Text
  import opened FrameFiles
  import opened Naming
  import opened Store
  import opened Indexer
  import opened Query

  /** The search mode radio button, with the select box's value in
      single-movie mode. */
  datatype Mode = SingleMovieMode(selected: Option<string>) | CompareAllMode

  /** The query part of a run, against the backend as the upload part left it. */
  function Answer(b: Backend, prompt: string, k: nat, mode: Mode, search: Search): Result<seq<Group>, QueryError>
    requires Valid(b)
  {
    match mode
    case SingleMovieMode(selected) => SingleMovie(b, prompt, k, selected, search)
    case CompareAllMode => Success(CompareAll(b, prompt, k, search))
  }

  /** One run: the upload handler, then the query section on the resulting
      backend. */
  function Run(b: Backend, uploaded: bool, title: string, tmpDir: string, listing: seq<string>, newId: nat -> string,
               prompt: string, k: nat, mode: Mode, search: Search): (r: (Backend, Result<seq<Group>, QueryError>))
    requires Valid(b)
    ensures Valid(r.0)
    ensures !uploaded || title == "" ==> r.0 == b
    ensures uploaded && title != "" ==> CollectionName(title) in r.0.items
    ensures mode.CompareAllMode? && prompt != "" ==> r.1.Success? && |r.1.value| == |r.0.names|
  {
    var after := Ingest(b, uploaded, title, tmpDir, listing, newId);
    (after, Answer(after, prompt, k, mode, search))
  }

  /** A second run with the upload still in the widgets, for instance because
      only the prompt changed, adds every still again: the collection ends with
      two copies of frames 0..n-1 and the listing gains nothing. This holds for
      any number of stills, since frame numbers come from list positions. */
  lemma RerunDuplicatesFrames(b: Backend, title: string, n: nat,
                              tmp1: string, listing1: seq<string>, ids1: nat -> string,
                              tmp2: string, listing2: seq<string>, ids2: nat -> string,
                              prompt1: string, k1: nat, mode1: Mode,
                              prompt2: string, k2: nat, mode2: Mode, search: Search,
                              first: Backend, second: Backend)
    requires Valid(b)
    requires title != ""
    requires IsListingOf(listing1, n) && IsListingOf(listing2, n)
    requires first == Run(b, true, title, tmp1, listing1, ids1, prompt1, k1, mode1, search).0
    requires second == Run(first, true, title, tmp2, listing2, ids2, prompt2, k2, mode2, search).0
    ensures second.names == first.names
    ensures CollectionName(title) in second.items
    ensures HoldsTwoCopies(second.items[CollectionName(title)],
      if CollectionName(title) in b.items then b.items[CollectionName(title)] else [], title, n)
  {
    var name := CollectionName(title);
    var before := if name in b.items then b.items[name] else [];
    assert first == Ingest(b, true, title, tmp1, listing1, ids1);
    assert second == Ingest(first, true, title, tmp2, listing2, ids2);
    var sorted1 := Sorting.Sort(listing1, LexLess);
    var sorted2 := Sorting.Sort(listing2, LexLess);
    ListingSize(listing1, n);
    ListingSize(listing2, n);
    var added1 := NewRecords(title, tmp1, sorted1, ids1);
    var added2 := NewRecords(title, tmp2, sorted2, ids2);
    NewRecordsNumbered(title, tmp1, sorted1, ids1);
    NewRecordsNumbered(title, tmp2, sorted2, ids2);
    assert first.items[name] == before + added1;
    IngestTwiceAppends(b, title, tmp1, listing1, ids1, tmp2, listing2, ids2);
    assert second.items[name] == before + added1 + added2;
    NumberedTwice(before, added1, added2, title, n);
  }

  /** A listing of n stills sorts to n names. */
  lemma ListingSize(listing: seq<string>, n: nat)
    requires IsListingOf(listing, n)
    ensures |Sorting.Sort(listing, LexLess)| == n
  {
    assert |multiset(Sorting.Sort(listing, LexLess))| == |multiset(FrameNames(n))|;
  }

  /** `all` is `before` followed by two runs of n records numbered 0..n-1 for
      the movie `title`. */
  predicate HoldsTwoCopies(all: seq<FrameRecord>, before: seq<FrameRecord>, title: string, n: nat) {
    && |all| == |before| + 2 * n
    && all[..|before|] == before
    && forall i :: 0 <= i < n ==>
         all[|before| + i].meta == Metadata(title, i) && all[|before| + n + i].meta == Metadata(title, i)
  }

  lemma NumberedTwice(before: seq<FrameRecord>, added1: seq<FrameRecord>, added2: seq<FrameRecord>, title: string, n: nat)
    requires |added1| == n && |added2| == n
    requires forall i :: 0 <= i < n ==> added1[i].meta == Metadata(title, i)
    requires forall i :: 0 <= i < n ==> added2[i].meta == Metadata(title, i)
    ensures HoldsTwoCopies(before + added1 + added2, before, title, n)
  {
    var all := before + added1 + added2;
    forall i | 0 <= i < n
      ensures all[|before| + i].meta == Metadata(title, i) && all[|before| + n + i].meta == Metadata(title, i)
    {
      assert all[|before| + i] == added1[i];
      assert all[|before| + n + i] == added2[i];
    }
  }

  /** The backend together with the keys of the uploads already ingested in
      this browser session (Streamlit's `session_state`). */
  datatype SessionState = SessionState(backend: Backend, ingested: set<string>)

  /** One run that ingests an upload only the first time its key is seen. The
      key identifies the upload, for example the uploaded file's id together
      with the title. */
  function RunOnce(s: SessionState, uploadKey: string, uploaded: bool, title: string, tmpDir: string,
                   listing: seq<string>, newId: nat -> string,
                   prompt: string, k: nat, mode: Mode, search: Search): (r: (SessionState, Result<seq<Group>, QueryError>))
    requires Valid(s.backend)
    ensures Valid(r.0.backend)
    ensures uploadKey in s.ingested ==> r.0.backend == s.backend
    ensures uploaded && title != "" ==> uploadKey in r.0.ingested
    ensures uploadKey !in s.ingested ==>
      r == (SessionState(Run(s.backend, uploaded, title, tmpDir, listing, newId, prompt, k, mode, search).0,
                         if uploaded && title != "" then s.ingested + {uploadKey} else s.ingested),
            Run(s.backend, uploaded, title, tmpDir, listing, newId, prompt, k, mode, search).1)
  {
    if uploaded && title != "" && uploadKey !in s.ingested then
      var after := Ingest(s.backend, uploaded, title, tmpDir, listing, newId);
      (SessionState(after, s.ingested + {uploadKey}), Answer(after, prompt, k, mode, search))
    else
      (s, Answer(s.backend, prompt, k, mode, search))
  }

  /** With the guard, any later run for the same upload leaves the backend as
      the first run left it, whatever the query asks. */
  lemma RerunOnceAddsNothing(s: SessionState, uploadKey: string, title: string,
                             tmp1: string, listing1: seq<string>, ids1: nat -> string,
                             tmp2: string, listing2: seq<string>, ids2: nat -> string,
                             prompt1: string, k1: nat, mode1: Mode,
                             prompt2: string, k2: nat, mode2: Mode, search: Search)
    requires Valid(s.backend)
    requires title != ""
    ensures var first := RunOnce(s, uploadKey, true, title, tmp1, listing1, ids1, prompt1, k1, mode1, search).0;
      && RunOnce(first, uploadKey, true, title, tmp2, listing2, ids2, prompt2, k2, mode2, search).0.backend == first.backend
      && (uploadKey !in s.ingested ==> first.backend == Ingest(s.backend, true, title, tmp1, listing1, ids1))
  {
  }
}
