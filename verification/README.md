# Movie frame indexer: a Dafny model

The system is a single Streamlit script, `app.py`. A user uploads a movie and gives it a title. ffmpeg writes one still per second. The stills go into a ChromaDB collection named after the title, and the collection embeds them with OpenCLIP. Later the user types a text prompt and gets the best-matching frames, either from one movie or from every movie.

Most of the script is glue around those libraries. This project models the small pieces of sequential logic inside it and proves what they do:

- **Collection names** (`Naming`). A title becomes `movie_` followed by the title lower-cased, with each space replaced by an underscore. A collection name becomes a heading shown above the results.
- **Registry** (`Store`). The backend is an immutable value: a list of collection names in listing order, plus the records each collection holds. Get-or-create is a transition on that value, and so is `collection.add`.
- **Frame files** (`FrameFiles`). These are the names ffmpeg writes for the output pattern `frame_%04d.jpg`, numbered from 0. The script sorts the directory listing as strings (`Sorting`, `Text.LexLess`), and this module proves when that order is time order.
- **Indexing** (`Indexer`). This builds the three parallel lists (ids, image paths, metadata `{movie, frame}`) and runs the whole upload handler.
- **Querying** (`Query`). Single-movie mode and compare-all mode run over an abstract nearest-neighbour search.
- **Scenarios** (`Scenarios`). These are end-to-end examples: a five-still upload, and compare-all over two movies.
- **Runs** (`Session`). Streamlit runs the whole script again after every widget change. One run is the upload handler followed by the query section. This module shows what repeated runs do to the backend.

Python's `sorted` is modelled as an insertion sort. Directory listings never contain duplicates, and on distinct elements every correct sort gives the same result (`Sorting.SortedUnique`), so this choice loses nothing. Case mapping (`str.lower`, `str.title`) is modelled for ASCII letters only.

Two facts about the code shape the model:

- Sorting the generated names as strings gives time order only up to 10000 stills (see Findings).
- `get_collection` raises for an unknown name. The select box offers only listed names, so the UI never reaches that case. `Query.SingleMovie` models it as a NotFound failure.

## Model

| member | source | states |
|---|---|---|
| `Naming.CollectionName` | app.py:49 | The collection name always starts with `movie_` and never contains a space. |
| `Naming.CollectionNameChars` | app.py:49 | The name is the title's length plus six. Character i of the title becomes character 6+i of the name: lower-cased, or `_` if it was a space. |
| `Naming.CollectionNameLength` | app.py:49 | For an ASCII title, the name is exactly six characters longer than the title. |
| `Naming.CollectionNameCollision` | app.py:49 | Two ASCII titles get the same collection exactly when they differ only in letter case or in spaces against underscores. |
| `Naming.TestFilmName` | app.py:49 | "Test Film" is stored under `movie_test_film`. |
| `Text.ReplaceChar` | app.py:49 | `replace` with one-character arguments keeps the length. Every occurrence of the old character becomes the new one, every other character stays, and none of the old character is left. |
| `Text.ReplaceCharInverse` | app.py:49 | When the new character did not occur in the string, replacing back gives the original string. |
| `Text.Lower` | app.py:49 | `lower()` keeps the length and leaves no upper-case letter. Each character keeps its letter ignoring case, and characters that were not upper-case stay unchanged. |
| `Store.GetOrCreate` | app.py:50-57 | Afterwards the name is present. Existing collections keep their records and their listing positions. A collection is created exactly when the name was absent, and it starts empty. Exactly that one name is added to the set of names. |
| `Store.GetOrCreateExisting` | app.py:50-51 | If the collection already exists, get-or-create leaves the backend unchanged. |
| `Store.GetOrCreateIdempotent` | app.py:50-57 | Running get-or-create twice for the same name gives the same backend as running it once. |
| `Store.Add` | app.py:73-77 | Adding a batch appends its records after the collection's existing ones. No other collection changes, and neither does the name listing. |
| `Sorting.Sort` | app.py:60 | Sorting keeps exactly the elements of the listing (same multiset). |
| `Sorting.SortSorted` | app.py:60 | On a listing without duplicates, the result is strictly ascending under any strict total order. |
| `Sorting.SortedUnique` | app.py:60 | Two strictly ascending lists with the same elements are identical. |
| `Sorting.SortIsSortedPermutation` | app.py:60 | Whatever order the listing arrives in, sorting gives the one ascending arrangement of its names. |
| `Text.LexLessIsStrictTotalOrder` | app.py:60 | Python's string comparison (first differing code point, prefix first) is a strict total order. |
| `Text.ShortLexLessIsStrictTotalOrder` | app.py:60 | Ordering by length first and then as strings is a strict total order. |
| `FrameFiles.Width` | app.py:44 | The digit count of n is at least 1, and n lies between 10^(w-1) and 10^w. |
| `FrameFiles.Pad` | app.py:44 | Zero-filling to width w gives exactly w decimal digits. |
| `FrameFiles.Format04Value` | app.py:44 | The digits `%04d` writes read back as the number. The text is four characters long exactly when the number is below 10000. |
| `FrameFiles.PadOrder` | app.py:44 | For numbers with the same number of digits, string order of the zero-filled digits is numeric order. |
| `FrameFiles.FrameNameLexOrder` | app.py:44 | Below 10000, a still taken earlier has a file name that sorts earlier as a string. |
| `FrameFiles.FrameNameLexOrderBreaks` | app.py:44 | `frame_10000.jpg` sorts before `frame_1001.jpg` as a string. |
| `FrameFiles.FrameNameShortLexOrder` | app.py:44 | For every index, a still taken earlier has a name that comes first when ordering by length and then as a string. |
| `FrameFiles.FrameNamesDistinct` | app.py:44 | No two stills get the same file name. |
| `FrameFiles.FrameNamesNotLexSorted` | app.py:44 | Beyond 10000 stills, the names in time order are not in string order. |
| `FrameFiles.SortedListingInTimeOrder` | app.py:60 | Up to 10000 stills, the sorted directory listing is the stills in time order. |
| `FrameFiles.SortedListingOutOfTimeOrder` | app.py:60 | Beyond 10000 stills, the sorted directory listing is not in time order. |
| `FrameFiles.ShortLexSortedListingInTimeOrder` | app.py:60 | Ordering the listing by length first gives time order for any number of stills. |
| `Indexer.JoinPath` | app.py:64 | `os.path.join` ends with the joined name. For a relative name, it starts with the directory. |
| `Indexer.JoinPathInjective` | app.py:64 | Under one directory, different relative file names give different paths. |
| `Indexer.BuildBatch` | app.py:60-71 | The three lists have one entry per frame file, and every metadata entry names the movie. Distinct relative file names in the listing give distinct image paths, so no still is stored twice under one path. |
| `Indexer.BatchFrameNumbers` | app.py:63-71 | The frame numbers of a batch of n files are 0..n-1 by position: no number repeats and none reaches n. |
| `Indexer.BatchIdsDistinct` | app.py:65-66 | If the id source never repeats, the ids in a batch are distinct. |
| `Indexer.AddFrames` | app.py:49-77 | Uploading lists the title's collection after the existing ones. That collection ends with its old records followed by the new batch. Every other collection is unchanged. |
| `Indexer.Ingest` | app.py:29-77 | The upload handler keeps the backend valid. It changes nothing until both a video and a non-empty title are given. |
| `Indexer.IngestListing` | app.py:50-57 | An upload adds its collection to the listing only when that collection did not exist yet. |
| `Indexer.IngestTwiceAppends` | app.py:49-77 | Uploading the same title twice creates no second collection. Both batches are kept, the earlier one first. |
| `Indexer.NewRecordsNumbered` | app.py:63-71 | Whatever order the files come in, there is one record per file and the record at position i is numbered i and names the movie. |
| `Indexer.IngestRecordsNameMovie` | app.py:49-77 | After an upload, every record of the title's collection either was there before or names the uploaded movie. |
| `Indexer.NewRecordsInTimeOrder` | app.py:60-71 | For stills in time order, record i is numbered i, names the movie, and shows the still of second i. |
| `Indexer.IngestFramesFollowTime` | app.py:60-71 | Up to 10000 stills, the upload adds exactly the records of the stills in time order. |
| `Indexer.IngestFramesOutOfTime` | app.py:60-71 | Beyond 10000 stills, some record numbered i shows the still of a different second. |
| `Indexer.IngestInTimeOrder` | app.py:60 | The upload handler with the listing ordered by length first keeps the backend valid. It changes nothing without both a video and a title. |
| `Indexer.IngestInTimeOrderFollowsTime` | app.py:60-71 | With the length-first ordering, the upload adds the stills in time order for any number of stills. |
| `Text.RemoveAll` | app.py:95 | `replace(pattern, '')` never lengthens the string. It leaves a string without the pattern unchanged and drops a leading occurrence. |
| `Text.RemoveAllLeftmost` | app.py:95 | The scan deletes the leftmost occurrence of the pattern: the text before it is kept unchanged, and removal continues on the text after it. |
| `Text.NoOccurrenceBeforeMeans` | app.py:95 | "No occurrence starts in the first m positions" holds exactly when none of the first m suffixes starts with the pattern. |
| `Text.TitleAfter` | app.py:95 | `title()` keeps the length. A character is upper-cased when it is the first one or follows an uncased character, and lower-cased when it follows a cased letter. |
| `Text.TitleOfLower` | app.py:95 | Title-casing gives the same result whether or not the string was lower-cased first. |
| `Naming.Heading` | app.py:104 | The rendered heading never contains an underscore. |
| `Naming.HeadingRoundTrip` | app.py:104 | The heading gives back a title-cased ASCII title with no underscore, provided `movie_` does not occur inside its name body. |
| `Naming.HeadingDropsInnerPrefix` | app.py:104 | "Movie Night" is stored as `movie_movie_night`, whose heading is "Night". |
| `Naming.StripCollectionPrefix` | app.py:95 | Removing only the leading `movie_` gives the rest of the name. A name without that prefix is unchanged. |
| `Naming.IntendedHeading` | app.py:95 | The heading built by removing only the prefix never contains an underscore. |
| `Naming.IntendedHeadingRoundTrip` | app.py:95 | Removing only the prefix gives back every title-cased ASCII title that has no underscore. |
| `Query.SingleMovie` | app.py:87-97 | With no prompt or no selection, nothing is queried. A non-empty selection fails with NotFound exactly when the collection is unknown. A known selection gives exactly one group: that collection with its search hits. |
| `Query.QueryEach` | app.py:100-102 | There is one query per name, in the given order, each against that collection's records. |
| `Query.CompareAll` | app.py:98-106 | With a prompt there is one group per listed collection, in listing order. With no prompt there are no groups. |
| `Query.CompareAllOnEmpty` | app.py:100-106 | With no collections, compare-all gives no groups rather than an error. |
| `Query.CompareAllAgreesWithSingle` | app.py:88-106 | Each compare-all group is exactly what single-movie mode shows for that collection. |
| `Query.CompareAllCapped` | app.py:100-106 | If the search honours the requested count, every group has at most that many hits. |
| `Query.CompareAllHitsFromCollection` | app.py:100-106 | If the search returns only metadata of the records it is given, every hit of a compare-all group belongs to a record of that group's collection. |
| `Query.SingleMovieHitsFromCollection` | app.py:91-97 | If the search returns only metadata of the records it is given, every hit single-movie mode shows belongs to a record of the selected collection. |
| `Query.CompareAllCoversListing` | app.py:100-106 | A collection exists exactly when some compare-all group belongs to it. |
| `Scenarios.UploadTestFilm` | app.py:29-77 | Five stills of "Test Film" in a fresh backend give the single collection `movie_test_film`, with records numbered 0..4 naming "Test Film". |
| `Scenarios.FirstUploadListing` | app.py:50-57 | The first upload into a fresh backend lists only its own collection. |
| `Scenarios.QueryTestFilm` | app.py:29-97 | After uploading "Test Film" into a fresh backend, querying `movie_test_film` gives one group, and every hit names the movie "Test Film". |
| `Scenarios.TwoMoviesTwoGroups` | app.py:100-106 | After two uploads with different names, compare-all gives exactly two groups, in upload order. |
| `Indexer.IngestAppendsInTimeOrder` | app.py:49-77 | Up to 10000 stills, an upload leaves the title's collection holding its old records followed by the new stills in time order. An existing collection keeps the listing unchanged. |
| `Session.Run` | app.py:29-106 | A run keeps the backend valid and changes nothing without a video and a title. After an upload the title's collection exists. Compare-all with a prompt answers with one group per listed collection. |
| `Session.RerunDuplicatesFrames` | app.py:29-77 | For any number of stills, a second run with the same upload still in the widgets adds every still again: the listing is unchanged, and the collection holds its old records followed by two copies of frames 0..n-1. |
| `Session.RunOnce` | app.py:29-77 | With an ingested-uploads guard, a run whose upload key was already seen leaves the backend unchanged. A run with a new key behaves as the plain run and records the key. |
| `Session.RerunOnceAddsNothing` | app.py:29-77 | With the guard, a second run for the same upload leaves the backend exactly as the first run left it, whatever the query asks. |

## Left out

- Streamlit widgets and output (app.py:11-12, 24-27, 38, 79, 81-85, 90, 96-97, 99, 105-106) are presentation only. Query groups carry the collection name and the hits. The heading is modelled separately in `Naming`.
- ffmpeg extraction (app.py:40-46) is an external decoder process. Only the file names it writes are modelled. How many stills a video of a given length yields is not modelled.
- The ChromaDB client, the OpenCLIP embedding function and the image loader (app.py:14-22) are foreign libraries. The backend is a value holding names and records. Embeddings are not modelled. The nearest-neighbour search is the `Query.Search` parameter.
- Result counts (for example K=3 giving exactly 3 hits) depend on the backend's search and are not stated. Only the cap in `Query.CompareAllCapped` is stated, under an assumption about the search.
- Which records a search returns, and in what order, is the backend's ranking and is not modelled. The model states only where hits come from, under `Query.HitsFromRecords`: a search returns the metadata of records it was given.
- `uuid.uuid4()` (app.py:65) is random. Ids come from a caller-supplied `newId` function.
- The temporary directory, the video file write, `makedirs` and cleanup (app.py:30-36) are filesystem I/O. The scratch directory is a string parameter.
- Exceptions from ffmpeg, the backend or `collection.add` are not handled by the script; they propagate. The model does not represent those failures, except the unknown-name case of `get_collection`.
- Backend listing order is not modelled. The model lists a new collection after the existing ones; ChromaDB's real `list_collections` order is its own.
- Two sessions creating the same new collection at once is a concurrency case and is not modelled.
- Duplicate ids in one `collection.add` call are not modelled. With a non-repeating id source they cannot occur (`Indexer.BatchIdsDistinct`).
- Streamlit's rerun scheduling and widget state are not modelled. `Session` takes each run's widget values as parameters, and `Session.RunOnce` takes the upload's identity as an abstract key.
- The Streamlit bound of 1 to 10 on the result count (app.py:84) is a widget setting. The query functions accept any count.
- Naming.CollectionName: lower-cases ASCII letters only. Python's `str.lower` also maps non-ASCII letters, and some of them change length; the model leaves them unchanged. `CollectionNameChars`, the length lemma and the collision lemma therefore require ASCII titles.
- Text.TitleAfter: treats only ASCII letters as cased. Python's `str.title` also cases non-ASCII letters.
- Query.CompareAllCapped: holds only when the backend's search returns no more hits than requested. That is the backend's contract, not the script's.

## Findings

| source | as written | input that shows it | evidently intended | confidence | as-written member | corrected member |
|---|---|---|---|---|---|---|
| app.py:60 | `sorted(os.listdir(frame_dir))` orders the `frame_%04d.jpg` names as strings | a video giving 10001 stills: `frame_10000.jpg` sorts between `frame_1000.jpg` and `frame_1001.jpg`, so it is stored as frame 1001 | frame numbers follow the order the stills were taken (numeric order of the index), for example by sorting by length first | high (not executed) | `Indexer.IngestFramesOutOfTime` | `Indexer.IngestInTimeOrderFollowsTime` |
| app.py:29 | `if uploaded_video and movie_title:` guards the upload handler, but Streamlit re-runs the script after every widget change and the uploader and title box keep their values | upload "Test Film" with 5 stills, then type a prompt: the second run ingests again, so `movie_test_film` holds 10 records, frames 0..4 twice | ingest each upload once, for example by remembering ingested uploads in `st.session_state` | high (not executed) | `Session.RerunDuplicatesFrames` | `Session.RerunOnceAddsNothing` |
| app.py:104 | `replace('movie_', '')` removes every occurrence of `movie_`, not only the prefix | title "Movie Night": collection `movie_movie_night`, heading "Night" | remove only the leading `movie_`, so the heading is "Movie Night" | medium (not executed) | `Naming.HeadingDropsInnerPrefix` | `Naming.IntendedHeadingRoundTrip` |
