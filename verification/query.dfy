/** The query path: a text prompt is run against one chosen collection, or
    against every listed collection in turn. The nearest-neighbour search itself
    belongs to the backend and is a parameter here. */
module Query {
  import opened Wrappers
  import opened Store

  /** The backend's search: given a collection's records, the prompt and the
      number of results asked for, the metadata of the matches, best first. */
  type Search = (seq<FrameRecord>, string, nat) -> seq<Metadata>

  /** A search that only returns the metadata of records it was given, as a
      nearest-neighbour query over a collection does. */
  ghost predicate HitsFromRecords(search: Search) {
    forall records: seq<FrameRecord>, p: string, n: nat, h: Metadata ::
      h in search(records, p, n) ==> exists r :: r in records && r.meta == h
  }

  /** The results shown under one collection's heading. */
  datatype Group = Group(collection: string, hits: seq<Metadata>)

  /** `get_collection` raises for a name the backend does not hold. */
  datatype QueryError = NotFound(name: string)

  /** Single-movie mode. `selected` is the select box's value, absent when no
      collection is listed. Nothing is asked until the prompt is non-empty and a
      non-empty name is selected; an unknown name raises. */
  function SingleMovie(b: Backend, prompt: string, k: nat, selected: Option<string>, search: Search): (r: Result<seq<Group>, QueryError>)
    requires Valid(b)
    ensures prompt == "" || selected == None ==> r == Success([])
    ensures r.Failure? <==> prompt != "" && selected.Some? && selected.value != "" && selected.value !in b.items
    ensures r.Failure? ==> r.error == NotFound(selected.value)
    ensures prompt != "" && selected.Some? && selected.value != "" && selected.value in b.items ==>
      r == Success([Group(selected.value, search(b.items[selected.value], prompt, k))])
    ensures r.Success? && r.value != [] ==>
      selected.Some? && selected.value in b.items && r.value == [Group(selected.value, search(b.items[selected.value], prompt, k))]
  {
    if prompt == "" then Success([])
    else match selected
      case None => Success([])
      case Some(name) =>
        if name == "" then Success([])
        else if name in b.items then Success([Group(name, search(b.items[name], prompt, k))])
        else Failure(NotFound(name))
  }

  /** One query per name, in the order given. */
  function QueryEach(b: Backend, names: seq<string>, prompt: string, k: nat, search: Search): (groups: seq<Group>)
    requires forall n :: n in names ==> n in b.items
    ensures |groups| == |names|
    ensures forall i :: 0 <= i < |names| ==>
      groups[i] == Group(names[i], search(b.items[names[i]], prompt, k))
  {
    if |names| == 0 then []
    else [Group(names[0], search(b.items[names[0]], prompt, k))] + QueryEach(b, names[1..], prompt, k, search)
  }

  /** Compare-all mode: with a non-empty prompt, every listed collection is
      queried with the same prompt and count, in listing order. */
  function CompareAll(b: Backend, prompt: string, k: nat, search: Search): (groups: seq<Group>)
    requires Valid(b)
    ensures prompt == "" ==> groups == []
    ensures prompt != "" ==> |groups| == |b.names|
    ensures prompt != "" ==> forall i :: 0 <= i < |groups| ==> groups[i].collection == b.names[i]
  {
    if prompt == "" then [] else QueryEach(b, b.names, prompt, k, search)
  }

  /** With no collections, compare-all gives no groups rather than an error. */
  lemma CompareAllOnEmpty(prompt: string, k: nat, search: Search)
    ensures CompareAll(Empty, prompt, k, search) == []
  {
  }

  /** Each compare-all group is exactly what single-movie mode shows for that
      collection. */
  lemma CompareAllAgreesWithSingle(b: Backend, prompt: string, k: nat, search: Search, i: nat)
    requires Valid(b)
    requires prompt != ""
    requires i < |b.names|
    ensures b.names[i] != "" ==>
      SingleMovie(b, prompt, k, Some(b.names[i]), search) == Success([CompareAll(b, prompt, k, search)[i]])
  {
  }

  /** When the search never returns more than it is asked for, every group is
      capped at the count independently of the others. */
  lemma CompareAllCapped(b: Backend, prompt: string, k: nat, search: Search)
    requires Valid(b)
    requires forall records, p, n :: |search(records, p, n)| <= n
    ensures forall g :: g in CompareAll(b, prompt, k, search) ==> |g.hits| <= k
  {
  }

  /** Any collection groups come from is one the backend lists. */
  lemma CompareAllCoversListing(b: Backend, prompt: string, k: nat, search: Search)
    requires Valid(b)
    requires prompt != ""
    ensures forall n :: n in b.items <==> exists g :: g in CompareAll(b, prompt, k, search) && g.collection == n
  {
    var groups := CompareAll(b, prompt, k, search);
    forall n | n in b.items
      ensures exists g :: g in groups && g.collection == n
    {
      var i :| 0 <= i < |b.names| && b.names[i] == n;
      assert groups[i] in groups;
    }
  }

  /** With such a search, every hit of a compare-all group is the metadata of
      a record stored in that group's collection. */
  lemma CompareAllHitsFromCollection(b: Backend, prompt: string, k: nat, search: Search)
    requires Valid(b)
    requires HitsFromRecords(search)
    ensures var groups := CompareAll(b, prompt, k, search);
      forall i :: 0 <= i < |groups| ==>
        && groups[i].collection in b.items
        && forall h :: h in groups[i].hits ==> exists r :: r in b.items[groups[i].collection] && r.meta == h
  {
  }

  /** With such a search, every hit single-movie mode shows is the metadata of
      a record stored in the selected collection. */
  lemma SingleMovieHitsFromCollection(b: Backend, prompt: string, k: nat, selected: Option<string>, search: Search)
    requires Valid(b)
    requires HitsFromRecords(search)
    ensures var r := SingleMovie(b, prompt, k, selected, search);
      r.Success? ==> forall g :: g in r.value ==>
        && g.collection in b.items
        && forall h :: h in g.hits ==> exists rec :: rec in b.items[g.collection] && rec.meta == h
  {
  }
}
