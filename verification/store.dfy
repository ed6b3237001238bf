/** The part of the vector-database backend the script relies on: a list of named
    collections, each holding the frame records added to it. Embeddings and the
    similarity index are the backend's business and are not modelled. */
module Store {
  import Sorting

  /** The metadata map `{"movie": title, "frame": i}` stored with each frame. */
  datatype Metadata = Metadata(movie: string, frame: nat)

  /** One stored item: its id, the image file it was embedded from, and metadata. */
  datatype FrameRecord = FrameRecord(id: string, image: string, meta: Metadata)

  /** `names` is what `list_collections()` returns, in listing order. */
  datatype Backend = Backend(names: seq<string>, items: map<string, seq<FrameRecord>>)

  /** Collection names are unique and each listed collection has its contents. */
  predicate Valid(b: Backend) {
    && Sorting.Distinct(b.names)
    && (forall n :: n in b.names ==> n in b.items)
    && (forall n :: n in b.items ==> n in b.names)
  }

  /** A fresh backend session with no collections. */
  const Empty := Backend([], map[])

  lemma EmptyIsValid()
    ensures Valid(Empty)
  {
  }

  /** Get-or-create: if a collection of this name is listed it is used as is;
      otherwise an empty one is created and listed after the existing ones. The
      flag says whether a collection was created. */
  function GetOrCreate(b: Backend, name: string): (r: (Backend, bool))
    requires Valid(b)
    ensures Valid(r.0)
    ensures name in r.0.items
    ensures r.1 <==> name !in b.items
    ensures r.0.items.Keys == b.items.Keys + {name}
    ensures |r.0.names| == |b.names| + (if r.1 then 1 else 0)
    ensures r.0.names[..|b.names|] == b.names
    ensures forall n :: n in b.items ==> r.0.items[n] == b.items[n]
    ensures r.1 ==> r.0.items[name] == []
  {
    if name in b.names then (b, false)
    else (Backend(b.names + [name], b.items[name := []]), true)
  }

  /** Asking for a collection that exists changes nothing. */
  lemma GetOrCreateExisting(b: Backend, name: string)
    requires Valid(b)
    requires name in b.items
    ensures GetOrCreate(b, name) == (b, false)
  {
  }

  /** Get-or-create twice is get-or-create once. */
  lemma GetOrCreateIdempotent(b: Backend, name: string)
    requires Valid(b)
    ensures GetOrCreate(GetOrCreate(b, name).0, name) == (GetOrCreate(b, name).0, false)
  {
    GetOrCreateExisting(GetOrCreate(b, name).0, name);
  }

  /** `collection.add(...)`: the new records go after the collection's existing
      ones; no other collection and no name changes. */
  function Add(b: Backend, name: string, records: seq<FrameRecord>): (r: Backend)
    requires Valid(b)
    requires name in b.items
    ensures Valid(r)
    ensures r.names == b.names
    ensures r.items[name] == b.items[name] + records
    ensures forall n :: n in b.items && n != name ==> r.items[n] == b.items[n]
  {
    Backend(b.names, b.items[name := b.items[name] + records])
  }
}
