/** The persisted snapshot (the browser storage key `"pokemons"`) and the cache-or-hydrate
    load both list screens run on start-up. The remote API is not called: what its responses
    were is an input. */
module Storage {
  import opened Wrappers
  import opened Pokemon

  /** The storage key: absent (`None`) or holding the whole record array. */
  class Store {
    var pokemons: Option<seq<Record>>

    constructor (initial: Option<seq<Record>>)
      ensures pokemons == initial
    {
      pokemons := initial;
    }
  }

  /** An element of the index response's `results`. */
  datatype IndexEntry = IndexEntry(name: string, url: string)

  /** The parts of a detail response the catalogue keeps: `id`, `sprites.front_default`
      (a string or `null`) and `types`. */
  datatype Detail = Detail(id: int, frontDefault: Field<string>, types: seq<TypeEntry>)

  /** An index entry together with the outcome of its detail request (`None`: not ok). */
  datatype Fetched = Fetched(entry: IndexEntry, detail: Option<Detail>)

  /** What the remote answered during one load: `None` when the index request was not ok,
      otherwise every index entry with the answer to its detail request. */
  datatype Remote = Remote(index: Option<seq<Fetched>>)

  datatype LoadError = IndexRequestFailed | DetailRequestFailed

  /** `{...pokemon, id, sprite, types}`: the index entry with the detail's fields merged in. */
  function Merge(e: IndexEntry, d: Detail): (r: Record)
    ensures r.name == e.name && r.url == Present(e.url)
    ensures r.id == d.id && r.sprite == d.frontDefault && r.types == d.types
    ensures r.abilities == Absent && r.height == Absent && r.weight == Absent
  {
    Record(d.id, e.name, Present(e.url), d.frontDefault, d.types, Absent, Absent, Absent)
  }

  /** `Promise.all` over the detail requests followed by the merge: all or nothing, in
      index order. */
  function Hydrate(fetched: seq<Fetched>): (r: Option<seq<Record>>)
    ensures r.Some? <==> forall i :: 0 <= i < |fetched| ==> fetched[i].detail.Some?
    ensures r.Some? ==> |r.value| == |fetched|
    ensures r.Some? ==> forall i :: 0 <= i < |fetched| ==>
                          r.value[i] == Merge(fetched[i].entry, fetched[i].detail.value)
  {
    if fetched == [] then Some([])
    else
      var rest := Hydrate(fetched[1..]);
      assert forall i :: 1 <= i < |fetched| ==> fetched[i] == fetched[1..][i - 1];
      match fetched[0].detail
      case None => None
      case Some(d) =>
        if rest.None? then None else Some([Merge(fetched[0].entry, d)] + rest.value)
  }

  /** `getPokemonsFromStorage` as a value: the snapshot when there is one, otherwise the
      hydrated list or the error that aborted hydration. */
  function LoadFrom(stored: Option<seq<Record>>, remote: Remote): (r: Result<seq<Record>, LoadError>)
    ensures stored.Some? ==> r == Success(stored.value)
    ensures stored.None? && remote.index.None? ==> r == Failure(IndexRequestFailed)
    ensures stored.None? && remote.index.Some? ==>
              (r.Success? <==> forall i :: 0 <= i < |remote.index.value| ==> remote.index.value[i].detail.Some?)
    ensures stored.None? && r.Success? ==>
              remote.index.Some? && |r.value| == |remote.index.value| &&
              forall i :: 0 <= i < |r.value| ==>
                r.value[i].id == remote.index.value[i].detail.value.id &&
                r.value[i].name == remote.index.value[i].entry.name &&
                r.value[i].sprite == remote.index.value[i].detail.value.frontDefault &&
                r.value[i].types == remote.index.value[i].detail.value.types
  {
    if stored.Some? then Success(stored.value)
    else if remote.index.None? then Failure(IndexRequestFailed)
    else
      match Hydrate(remote.index.value)
      case None => Failure(DetailRequestFailed)
      case Some(records) => Success(records)
  }

  /** The snapshot after a load: written only on a cache miss that hydrated successfully. */
  function StoredAfterLoad(stored: Option<seq<Record>>, remote: Remote): (s: Option<seq<Record>>)
    ensures stored.Some? ==> s == stored
    ensures LoadFrom(stored, remote).Failure? ==> s == stored
    ensures LoadFrom(stored, remote).Success? ==> s == Some(LoadFrom(stored, remote).value)
  {
    if stored.None? && LoadFrom(stored, remote).Success? then Some(LoadFrom(stored, remote).value)
    else stored
  }

  /** A second load, whatever the remote would answer this time, returns what the first
      successful load returned and writes nothing. */
  lemma LoadIsIdempotent(stored: Option<seq<Record>>, first: Remote, second: Remote)
    requires LoadFrom(stored, first).Success?
    ensures LoadFrom(StoredAfterLoad(stored, first), second) == LoadFrom(stored, first)
    ensures StoredAfterLoad(StoredAfterLoad(stored, first), second) == StoredAfterLoad(stored, first)
  {
  }

  /** Writing back what a load returned leaves the snapshot as it was. */
  lemma SaveOfLoadIsNoOp(stored: Option<seq<Record>>, remote: Remote)
    requires LoadFrom(stored, remote).Success?
    ensures Some(LoadFrom(stored, remote).value) == StoredAfterLoad(stored, remote)
  {
  }
}
