/** The list screen: its state (the record list, the type filter, the search text, the page
    and the load flags) and the handlers that change it. `src/Home.tsx` and the inner `Home`
    of `src/App.tsx` hold the same state and the same load, filter, paging, toggle and
    random-pick logic; both are this class (the second has no rename, delete or restore). */
module Home {
  import opened Wrappers
  import opened Pokemon
  import opened Storage
  import Seqs
  import Query
  import Mutations

  /** The message shown when the load fails. */
  const LoadFailedMessage: string := "No se pudieron cargar los Pokémon"

  class Catalog {
    /** The browser storage the screen reads and writes. */
    const store: Store
    /** `pokemonList`. */
    var records: seq<Record>
    var filteredType: Option<string>
    var search: string
    var page: nat
    var loading: bool
    var error: Option<string>

    constructor (store: Store)
      ensures this.store == store
      ensures records == [] && filteredType == None && search == "" && page == 0
      ensures loading && error == None
    {
      this.store := store;
      records := [];
      filteredType := None;
      search := "";
      page := 0;
      loading := true;
      error := None;
    }

    /** `filteredPokemon`. */
    function Filtered(): (r: seq<Record>)
      reads this
      ensures forall x :: x in r <==> x in records && Query.Shown(x, filteredType, search)
      ensures forall x :: multiset(r)[x] == if Query.Shown(x, filteredType, search) then multiset(records)[x] else 0
      ensures Seqs.IsSubsequence(r, records)
    {
      Query.Filtered(records, filteredType, search)
    }

    /** `pageCount`. */
    function PageCount(): (c: nat)
      reads this
      ensures |Filtered()| <= c * Query.ItemsPerPage && (c == 0 <==> Filtered() == [])
      ensures c == 0 || (c - 1) * Query.ItemsPerPage < |Filtered()|
    {
      Query.PageCount(|Filtered()|)
    }

    /** `paginatedPokemon`: the cards on screen. */
    function Paginated(): (r: seq<Record>)
      reads this
      ensures |r| <= Query.ItemsPerPage && (r == [] <==> page >= PageCount())
      ensures forall k :: 0 <= k < |r| ==>
                page * Query.ItemsPerPage + k < |Filtered()| && r[k] == Filtered()[page * Query.ItemsPerPage + k]
    {
      Query.Page(Filtered(), page)
    }

    /** `allTypes`: what the filter bar is given. */
    function AllTypes(): (r: seq<string>)
      reads this
      ensures forall x :: x in r <==> x != "" && exists k :: 0 <= k < |records| && HasType(records[k], x)
      ensures Seqs.NoDuplicates(r)
      ensures Query.NamesInFirstAppearanceOrder(r, Query.TypeNames(records))
    {
      Query.Vocabulary(records)
    }

    /** `getPokemonsFromStorage`: the snapshot if there is one; otherwise hydrate from what
        the remote answered and write the result, or fail and write nothing. */
    method GetPokemonsFromStorage(remote: Remote) returns (r: Result<seq<Record>, LoadError>)
      modifies store
      ensures r == LoadFrom(old(store.pokemons), remote)
      ensures store.pokemons == StoredAfterLoad(old(store.pokemons), remote)
    {
      var stored := store.pokemons;
      if stored.Some? {
        return Success(stored.value);
      }
      if remote.index.None? {
        return Failure(IndexRequestFailed);
      }
      var hydrated := Hydrate(remote.index.value);
      if hydrated.None? {
        return Failure(DetailRequestFailed);
      }
      store.pokemons := hydrated;
      r := Success(hydrated.value);
    }

    /** `loadPokemons`: show the loaded list, or keep the current one and show the error. */
    method LoadPokemons(remote: Remote)
      modifies this, store
      ensures var loaded := LoadFrom(old(store.pokemons), remote);
              (loaded.Success? ==> records == loaded.value && error == old(error)) &&
              (loaded.Failure? ==> records == old(records) && error == Some(LoadFailedMessage))
      ensures store.pokemons == StoredAfterLoad(old(store.pokemons), remote)
      ensures !loading
      ensures filteredType == old(filteredType) && search == old(search) && page == old(page)
    {
      loading := true;
      var r := GetPokemonsFromStorage(remote);
      if r.Success? {
        records := r.value;
      } else {
        error := Some(LoadFailedMessage);
      }
      loading := false;
    }

    /** `handleRestoreOriginals`: when confirmed, drop the snapshot and load again, so the
        list comes from the remote whatever the snapshot held. A failed reload leaves the
        snapshot absent and keeps the old list in state, while the screen shows the error. */
    method HandleRestoreOriginals(confirmed: bool, remote: Remote)
      modifies this, store
      ensures !confirmed ==> store.pokemons == old(store.pokemons) && records == old(records) &&
                             error == old(error) && loading == old(loading)
      ensures confirmed ==> store.pokemons == StoredAfterLoad(None, remote) && !loading
      ensures confirmed && LoadFrom(None, remote).Success? ==> records == LoadFrom(None, remote).value && error == old(error)
      ensures confirmed && LoadFrom(None, remote).Failure? ==>
                store.pokemons == None && records == old(records) && error == Some(LoadFailedMessage)
      ensures filteredType == old(filteredType) && search == old(search) && page == old(page)
    {
      if !confirmed {
        return;
      }
      store.pokemons := None;
      LoadPokemons(remote);
    }

    /** `handleTypeFilter`: toggle the filter and go back to the first page. */
    method HandleTypeFilter(t: string)
      modifies this
      ensures filteredType == Query.ToggleFilter(old(filteredType), t)
      ensures page == 0
      ensures records == old(records) && search == old(search)
      ensures loading == old(loading) && error == old(error)
    {
      filteredType := Query.ToggleFilter(filteredType, t);
      page := 0;
    }

    /** `setSearch` from the search bar: the page is NOT reset. */
    method SetSearch(s: string)
      modifies this
      ensures search == s
      ensures page == old(page) && records == old(records) && filteredType == old(filteredType)
      ensures loading == old(loading) && error == old(error)
    {
      search := s;
    }

    /** `handlePageChange`: move only to a page that exists. */
    method HandlePageChange(newPage: int)
      modifies this
      ensures page == Query.ChangePage(old(page), newPage, old(PageCount()))
      ensures records == old(records) && filteredType == old(filteredType) && search == old(search)
      ensures loading == old(loading) && error == old(error)
    {
      if 0 <= newPage < PageCount() {
        page := newPage;
      }
    }

    /** `getRandomPokemon` with `Math.random()` given as `u`: the id of the detail page it
        navigates to, drawn from the filtered list only; `None` (no navigation) exactly when
        nothing passes the filters. */
    method GetRandomPokemon(u: real) returns (target: Option<int>)
      requires 0.0 <= u < 1.0
      ensures target.Some? <==> Filtered() != []
      ensures target.Some? ==> exists p :: p in Filtered() && p.id == target.value
      ensures target.Some? ==> exists p :: p in records && Query.Shown(p, filteredType, search) && p.id == target.value
    {
      var filtered := Filtered();
      var randomIndex := Query.RandomIndex(u, |filtered|);
      if 0 <= randomIndex < |filtered| {
        var randomPokemon := filtered[randomIndex];
        target := Some(randomPokemon.id);
      } else {
        target := None;
      }
    }

    /** The card's `onEdit` with the answer of the name prompt (`None` when cancelled): a
        non-empty name renames every record with that id, in the list and in the snapshot. */
    method OnEdit(id: int, answer: Option<string>)
      modifies this, store
      ensures answer.Some? && answer.value != "" ==>
                records == Mutations.Renamed(old(records), id, answer.value) && store.pokemons == Some(records)
      ensures answer == None || answer == Some("") ==>
                records == old(records) && store.pokemons == old(store.pokemons)
      ensures filteredType == old(filteredType) && search == old(search) && page == old(page)
      ensures loading == old(loading) && error == old(error)
    {
      if answer.Some? && answer.value != "" {
        var updatedList := Mutations.Renamed(records, id, answer.value);
        records := updatedList;
        store.pokemons := Some(updatedList);
      }
    }

    /** The card's `onDelete` with the answer of the confirmation dialog. */
    method OnDelete(id: int, confirmed: bool)
      modifies this, store
      ensures confirmed ==> records == Mutations.Deleted(old(records), id) && store.pokemons == Some(records)
      ensures !confirmed ==> records == old(records) && store.pokemons == old(store.pokemons)
      ensures filteredType == old(filteredType) && search == old(search) && page == old(page)
      ensures loading == old(loading) && error == old(error)
    {
      if confirmed {
        var updatedList := Mutations.Deleted(records, id);
        records := updatedList;
        store.pokemons := Some(updatedList);
      }
    }
  }
}
