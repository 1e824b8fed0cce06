# Pokémon catalogue: the local state manager

This project models the part of the Pokémon catalogue web application that actually decides
anything: the local catalogue that the screens keep in the browser's storage under the key
`"pokemons"`, and the rules the screens apply to it.

- **Load.** On start-up the list screen returns the stored snapshot when there is one. Otherwise
  it fetches the index of the remote API and one detail per entry. It merges each detail's
  `id`, `sprite` and `types` into its entry and writes the merged list. Any failed response
  aborts the load before anything is written. A confirmed "restore" drops the snapshot and
  loads again.
- **Query.** The list screen shows the records that pass an optional type filter and a
  case-insensitive search. It shows them in pages of 20. Page changes are bounded, and choosing
  a type toggles the filter and goes back to the first page. The filter bar is offered the
  distinct type names of the whole list. "Random" picks from the filtered records only.
- **Mutations.**
  - The list screen renames and deletes records.
  - The add screen appends a record with the next free id, a bare-string type, parsed
    abilities and parsed height and weight.
  - The edit screen creates a record with a nested type, or updates the name, type and sprite
    of every record with the route's id.
  - Every mutation writes the whole list back.
- **Filter bar and pager.** The filter bar offers only the 19 type names it has styles for.
  Its "ALL" button sends `""`. The pager asks for the page before or after.

## Modules

| file | module | what it holds |
|---|---|---|
| `wrappers.dfy` | `Wrappers` | `Option`, `Result`, and `Field` (absent, `null` or a value) for the record properties that not every record carries |
| `seqs.dfy` | `Seqs` | `filter` (`Select`), `map`, subsequences, `Set`-style de-duplication in first-appearance order |
| `text.dfy` | `Text` | the string operations the screens use: `toLowerCase`/`toUpperCase`, `includes`, `trim`, `split(",")`, `parseInt(…, 10)`, `Number(…)` and integer formatting |
| `pokemon.dfy` | `Pokemon` | the `Record` datatype, the two shapes of a type entry, id uniqueness, the fallback sprite address |
| `storage.dfy` | `Storage` | the storage key as the class `Store`, what the remote answered, the cache-or-hydrate load as a function |
| `query.dfy` | `Query` | filter, paging, page-change rule, toggle, type vocabulary, random pick |
| `mutations.dfy` | `Mutations` | rename, delete, next id, the add and edit screens' records, update by id, any sequence of mutations |
| `home.dfy` | `Home` | the list screen as the class `Catalog`, whose methods are its handlers |
| `add_pokemon.dfy` | `AddPokemon` | the add screen as the class `Form` |
| `edit_pokemon.dfy` | `EditPokemon` | the edit screen as the class `Form` |
| `type_filter.dfy` | `TypeFilter` | the buttons of the filter bar |
| `pagination.dfy` | `Pagination` | the pager's requests, and sequences of clicks |

`src/App.tsx` contains a second list screen, its inner `Home`. Its state (`src/App.tsx:17-22`)
and most of its logic repeat `src/Home.tsx` with the same meaning:

- the filter at `src/App.tsx:39-46`;
- the slice and page count at `src/App.tsx:48-50`;
- the page change at `src/App.tsx:52-56`;
- the load at `src/App.tsx:58-96`;
- the toggle at `src/App.tsx:98-101`;
- the vocabulary at `src/App.tsx:103-107`;
- the random pick at `src/App.tsx:109-115`.

Both screens are therefore the one class `Home.Catalog`; the rows below cite `src/Home.tsx`. The
inner screen has no rename, delete or restore. Its load in `src/App.tsx:26-37` does what
`Home.Catalog.LoadPokemons` does.

## Model

| member | source | states |
|---|---|---|
| Storage.Merge | src/Home.tsx:59-64 | the merged record has the index entry's name and url and the detail's id, sprite and types, and no abilities, height or weight |
| Storage.Hydrate | src/Home.tsx:50-64 | all or nothing: a list exactly when every detail request succeeded; then it has the index's length and order, and element i is index entry i with the id, sprite and types of detail i |
| Storage.LoadFrom | src/Home.tsx:38-73 | a present snapshot is returned unchanged whatever the remote would say; otherwise a failed index is an error, the load succeeds exactly when every detail succeeded, and the result carries each entry's name and its detail's id, sprite and types in index order |
| Storage.StoredAfterLoad | src/Home.tsx:66-67 | the snapshot is written only on a cache miss that hydrated, with exactly the list returned; any failure leaves it as it was (absent) |
| Storage.LoadIsIdempotent | src/Home.tsx:40-43 | after a successful load, a second load returns the same list and writes nothing, whatever the remote answers the second time |
| Storage.SaveOfLoadIsNoOp | src/Home.tsx:66-67 | what is persisted is exactly what is returned |
| Home.Catalog.Filtered | src/Home.tsx:88-95 | exactly the records of the list that pass the type filter and the search, each as often as in the list, in list order |
| Home.Catalog.PageCount | src/Home.tsx:98 | the fewest 20-record pages that hold the filtered list; none exactly when it is empty |
| Home.Catalog.Paginated | src/Home.tsx:97 | at most 20 cards, the filtered records from position 20·page on; none exactly when the page is past the last one |
| Home.Catalog.AllTypes | src/Home.tsx:122-126 | every non-empty type name of the whole list, once each, in order of first appearance |
| Home.Catalog.constructor | src/Home.tsx:12-17 | the screen starts with an empty list, no filter, empty search, page 0, loading and no error |
| Home.Catalog.GetPokemonsFromStorage | src/Home.tsx:38-73 | returns the load result and leaves the snapshot as the load function says |
| Home.Catalog.LoadPokemons | src/Home.tsx:25-36 | a successful load replaces the list; a failed one keeps it and sets the error message; loading ends false; filter, search and page unchanged |
| Home.Catalog.HandleRestoreOriginals | src/Home.tsx:75-81 | unconfirmed: nothing changes; confirmed: the list comes from the remote whatever the snapshot held and the error is left as it was; a failed reload leaves the snapshot absent and the old list in state, and sets the error, so the screen shows the error |
| Home.Catalog.HandleTypeFilter | src/Home.tsx:83-86 | the filter toggles and the page goes back to 0; list and search unchanged |
| Home.Catalog.SetSearch | src/Home.tsx:134 | a new search does not reset the page |
| Home.Catalog.HandlePageChange | src/Home.tsx:100-104 | the page becomes the requested one exactly when it is below the page count, otherwise stays; nothing else changes |
| Home.Catalog.GetRandomPokemon | src/Home.tsx:106-112 | navigates exactly when the filtered list is non-empty, to the id of a record that passes both filters |
| Home.Catalog.OnEdit | src/Home.tsx:142-149 | a non-empty answer renames the records with that id in the list and writes that list; a cancelled or empty answer changes nothing |
| Home.Catalog.OnDelete | src/Home.tsx:150-157 | a confirmed delete removes the records with that id in the list and writes that list; an unconfirmed one changes nothing |
| Pokemon.TypeName | src/Home.tsx:91-92 | a bare entry and a nested entry both give their name; only an entry without a name gives none |
| Query.MatchesType | src/Home.tsx:90-93 | no filter (`null` or `""`) lets every record through; otherwise a record passes iff one of its type entries, bare or nested, is named exactly like the filter |
| Query.MatchesSearch | src/Home.tsx:94 | the empty search matches every record; a record matches iff the lower-cased search occurs somewhere in its lower-cased name |
| Query.Filtered | src/Home.tsx:88-95 | a record is kept iff (no filter, or some type entry is named exactly like the filter) and its lower-cased name contains the lower-cased search; the result is an order-preserving subsequence, each kept record kept as often as it occurs |
| Query.NoFilterShowsAll | src/Home.tsx:88-95 | with no filter, or the filter `""`, and an empty search, the whole list is shown in order |
| Query.PageCount | src/Home.tsx:98 | the least number of 20-record pages that holds the list; 0 exactly for an empty list |
| Query.Page | src/Home.tsx:97 | at most 20 records, the ones at positions 20·page onwards in order; empty exactly from page `pageCount` on; full before the last page |
| Query.PagesCoverList | src/Home.tsx:97-98 | pages 0 to pageCount−1 laid end to end are exactly the filtered list |
| Query.ChangePage | src/Home.tsx:101-103 | the new page is the request when it lies in [0, pageCount), and the current page otherwise, even a current page already past the end; so an existing page stays existing |
| Query.ToggleFilter | src/Home.tsx:84 | choosing the active type clears the filter, any other type becomes the filter |
| Query.TypeNames | src/Home.tsx:123 | a name is among the listed type names iff some record has a type entry with that name; a single record lists its entries' names in entry order |
| Query.TypeNamesConcat | src/Home.tsx:123 | the names of two lists laid end to end are the names of the first followed by those of the second, which with the one-record case is `flatMap`'s record-then-entry order |
| Seqs.Distinct | src/Home.tsx:123 | `new Set`: exactly the elements of the input, each once |
| Seqs.DistinctInFirstAppearanceOrder | src/Home.tsx:123 | `new Set` keeps the order in which elements first appear |
| Query.Truthy | src/Home.tsx:125 | keeps exactly the present, non-empty names |
| Query.Vocabulary | src/Home.tsx:122-126 | the vocabulary holds each non-empty type name of the whole list (not only the filtered records) exactly once, in order of first appearance |
| Query.RandomIndex | src/Home.tsx:107 | the floor of the draw times the length is a valid index of a non-empty list |
| Query.RandomPick | src/Home.tsx:107-109 | a record exactly when the filtered list is non-empty, and it is a member of that list |
| Text.Lower | src/Home.tsx:94 | lower-casing keeps the length and lower-cases each character |
| Text.ContainsIffOccurs | src/Home.tsx:94 | `includes` holds iff the needle occurs at some offset |
| Text.Contains | src/Home.tsx:94 | the empty needle is contained in every text, and a contained needle is no longer than the text |
| Mutations.Renamed | src/Home.tsx:145 | same length; each record with the id has the new name, all other records and all other fields unchanged |
| Mutations.RenamedKeepsUniqueIds | src/Home.tsx:145 | renaming keeps ids unique |
| Mutations.Deleted | src/Home.tsx:153 | exactly the records without that id are kept, in order, each as often as before |
| Mutations.DeletedKeepsUniqueIds | src/Home.tsx:153 | deleting keeps ids unique |
| Mutations.DeleteRemovesOne | src/Home.tsx:153 | with unique ids, deleting a present id shortens the list by exactly one |
| Mutations.DeleteRecount | src/Home.tsx:150-157 | deleting one of 21 records takes the page count from 2 to 1 |
| Mutations.MaxId | src/components/AddPokemon.tsx:22 | at least 0 and every id, and either 0 or an existing id |
| Mutations.NextId | src/components/AddPokemon.tsx:22 | at least 1, above every existing id, and either 1 or one more than an existing id (exact integers; the double rounding from 2^53 on is left out) |
| Mutations.NextIdExample | src/components/AddPokemon.tsx:22 | ids 3, 7 and 9 give 10 |
| Mutations.AppendNextIdKeepsUniqueIds | src/components/AddPokemon.tsx:30-41 | appending a record with the next id keeps ids unique |
| Mutations.ParseAbilities | src/components/AddPokemon.tsx:25-27 | empty text gives no abilities; otherwise one ability per comma-separated piece, in order, each named by its trimmed piece |
| Mutations.ParseAbilitiesRoundTrip | src/components/AddPokemon.tsx:25-27 | names without commas or outer spaces, written comma-separated, come back as exactly those abilities in order |
| Mutations.ParseStat | src/components/AddPokemon.tsx:38-39 | always stored (a number or `null`), and the text of an integer is stored as that integer |
| Mutations.AddedRecord | src/components/AddPokemon.tsx:32-40 | the new record has the id, the name, the single bare type, the sprite or the id's fallback address, the parsed abilities and the parsed height and weight, and no url |
| Pokemon.SpriteUrlNamesId | src/components/AddPokemon.tsx:36 | the fallback address is the API's sprite prefix, a file name that reads back as the id, and `.png` |
| Text.IntToStringShape | src/components/AddPokemon.tsx:36 | an integer is written as a minus sign exactly when negative, then at least one decimal digit and nothing else (the exponent form from 10^21 on is left out) |
| Text.Trim | src/components/AddPokemon.tsx:26 | the result has no white space at either end and is what lies between white-space runs at both ends |
| Text.TrimPadded | src/components/AddPokemon.tsx:26 | trimming removes exactly the surrounding white space |
| Text.Split | src/components/AddPokemon.tsx:26 | at least one piece, and no piece contains a comma |
| Text.JoinSplit | src/components/AddPokemon.tsx:26 | joining the pieces with commas gives the text back |
| Text.SplitJoin | src/components/AddPokemon.tsx:26 | comma-free pieces joined with commas split back into the same pieces |
| Text.ParseInt | src/components/AddPokemon.tsx:38-39 | `NaN` exactly when no digit follows the leading white space and sign |
| Text.ParseIntReadsIntToString | src/components/AddPokemon.tsx:38-39 | parsing a formatted integer, whatever non-digit text follows, gives the integer |
| Text.Decimal | src/components/AddPokemon.tsx:36 | the formatted digits of a number read back as that number |
| AddPokemon.Form.Complete | src/components/AddPokemon.tsx:16 | the form is complete iff none of name, type, height and weight is empty |
| AddPokemon.Form.constructor | src/components/AddPokemon.tsx:7-13 | all inputs and the error start empty |
| AddPokemon.Form.HandleSubmit | src/components/AddPokemon.tsx:15-47 | a missing name, type, height or weight sets the error, writes nothing and does not navigate; otherwise the stored list (absent: empty) gets exactly one record appended with the next id, and the screen navigates to that id |
| AddPokemon.SubmitAppendsFreshRecord | src/components/AddPokemon.tsx:21-41 | the submitted list is the old list plus one record whose id no record had, so ids stay unique |
| EditPokemon.NewRouteNamesNoId | src/components/EditPokemon.tsx:7 | the create route `new` reads as `NaN`, so create mode never targets a stored id |
| EditPokemon.Form.Target | src/components/EditPokemon.tsx:17 | a route written from an id targets that id |
| EditPokemon.RecordRouteIsNotNew | src/components/EditPokemon.tsx:7 | a record's id never reads as `"new"`, so create mode is only the literal route `new` |
| EditPokemon.Form.constructor | src/components/EditPokemon.tsx:9-12 | inputs and error start empty |
| Text.NumberOf | src/components/EditPokemon.tsx:17 | blank text reads as 0 |
| Text.NumberOfIntToString | src/components/EditPokemon.tsx:17 | a formatted id reads back as that id |
| Mutations.FindById | src/components/EditPokemon.tsx:17 | nothing exactly when no record has the id; otherwise the first record with it |
| Mutations.PrefillType | src/components/EditPokemon.tsx:20 | a nested first type entry gives its name; a bare or missing first entry gives `""` |
| EditPokemon.Form.Prefill | src/components/EditPokemon.tsx:14-24 | in edit mode with a stored record of that id, the name, first nested type and sprite are copied from it; otherwise the inputs stay |
| EditPokemon.Form.HandleSubmit | src/components/EditPokemon.tsx:26-61 | without name or type: error, no write, no navigation; otherwise the stored list (absent: empty) is written with one created record appended in create mode, or updated by the route id in edit mode, and the screen navigates back |
| Mutations.SpriteOrDefault | src/components/EditPokemon.tsx:43 | an empty, missing or `null` sprite falls back on the id's address; any other is kept |
| Mutations.CreatedRecord | src/components/EditPokemon.tsx:39-44 | the created record has the id, the name, the single nested type and the defaulted sprite, and nothing else |
| Mutations.Updated | src/components/EditPokemon.tsx:47-56 | same length and ids; each record with the target id gets the new name, nested type and sprite as given (no default) with its other fields kept; other records unchanged |
| Mutations.UpdateOfUnknownIdIsIdentity | src/components/EditPokemon.tsx:47-59 | an update for an id no record has gives the list back unchanged |
| Mutations.UpdatedKeepsUniqueIds | src/components/EditPokemon.tsx:47-56 | updating keeps ids unique |
| EditPokemon.EditRouteUpdatesThatRecord | src/components/EditPokemon.tsx:47-56 | editing the route of a stored id changes exactly that record's name, types and sprite |
| Mutations.EditNewIdAsWritten | src/components/EditPokemon.tsx:36 | as written: no integer id exactly for an empty list; otherwise one more than the largest id |
| Mutations.EditNewIdEmptyList | src/components/EditPokemon.tsx:36 | on an empty list the written formula gives no id where the add screen's gives 1 |
| Mutations.EditNewIdAgreesOnNonEmpty | src/components/EditPokemon.tsx:36 | on non-empty lists of non-negative ids the two formulas agree |
| Mutations.MutationKeepsUniqueIds | src/components/EditPokemon.tsx:35-56 | a single rename, delete, add, create or update keeps ids unique |
| Mutations.MutationsKeepUniqueIds | src/components/EditPokemon.tsx:35-56 | any sequence of renames, deletes, adds, creates and updates keeps ids unique |
| TypeFilter.ValidTypesFacts | src/components/TypeFilter.tsx:9-32 | the known names are 19 distinct names, including `stellar` |
| TypeFilter.Offered | src/components/TypeFilter.tsx:54-55 | a name is offered iff it is given and known, as often as it is given; offered names keep the given order |
| TypeFilter.AllButton | src/components/TypeFilter.tsx:45-51 | "ALL" sends `""` and is active exactly when there is no filter |
| TypeFilter.TypeButton | src/components/TypeFilter.tsx:60-76 | a type button sends its name and is active exactly when the filter is that name |
| Text.Upper | src/components/TypeFilter.tsx:75 | upper-casing keeps the length and upper-cases each character |
| TypeFilter.Buttons | src/components/TypeFilter.tsx:43-79 | "ALL" first, then one button per offered name in order |
| TypeFilter.AtMostOneHighlighted | src/components/TypeFilter.tsx:62 | with distinct names at most one button is active |
| TypeFilter.ScreenBarHighlightsAtMostOne | src/components/TypeFilter.tsx:62 | the bar drawn from the list screen's vocabulary has at most one active button |
| TypeFilter.AllClickCycle | src/components/TypeFilter.tsx:46-47 | from no filter, "ALL" sets the filter `""`, which filters nothing but un-highlights "ALL", and a second click clears it |
| Pagination.PrevDisabled | src/components/Pagination.tsx:12 | Prev is disabled exactly when its request would be for a negative page |
| Pagination.PrevRequest | src/components/Pagination.tsx:12 | Prev asks for the page just before |
| Pagination.NextRequest | src/components/Pagination.tsx:15 | Next asks for the page just after |
| Pagination.Step | src/components/Pagination.tsx:12-15 | one click moves at most one page in its direction, keeps an existing page existing, and moves nothing without pages |
| Pagination.PrevDisabledIsRedundant | src/components/Pagination.tsx:12 | Prev's request on page 0 would be refused anyway |
| Pagination.RunStaysInRange | src/components/Pagination.tsx:12-15 | any sequence of clicks from an existing page stays on an existing page |
| Pagination.RunWithoutPages | src/components/Pagination.tsx:12-15 | with no pages every click is refused |
| Pagination.NextsReachLastPage | src/components/Pagination.tsx:15 | k Next clicks move k pages forward, stopping at the last page |

## Left out

- The network. What the index and detail requests answered is an input (`Storage.Remote`). The requests' concurrency, status codes and JSON bodies are not modelled.
- Browser storage and JSON. The storage key is the field `Storage.Store.pokemons`. Serialisation is not modelled, except that `NaN` is stored as `null` (`Field.Null`). A stored value that is not a record array is not modelled.
- Storage.Hydrate: a merged record keeps only the index entry's `name` and `url`. The spread of any other index property is not modelled.
- React. Rendering, hooks and effect timing are left out. The `loading` and `error` flags are kept as fields; what they display is left out.
- Routing. The route table (`src/App.tsx:151-162`) and `src/main.tsx` are not part of this model. Navigation is a returned target, or a returned flag for "back to the list". The route table never reaches `src/Home.tsx`, the add screen or the edit screen; the model treats each as reachable.
- Dialogs. `confirm` and `prompt` are inputs: a `bool`, and an `Option<string>` that is `None` when cancelled.
- Home.Catalog.GetRandomPokemon: `Math.random()` is an input `u` in [0, 1). Its distribution is not modelled.
- Text.Lower: ASCII letters only. Full Unicode case mapping and UTF-16 code units are not modelled.
- Text.Upper: ASCII letters only, like `Text.Lower`.
- Text.ParseInt: exact integers. The loss of precision above 2^53 is not modelled.
- Mutations.NextId: ids are exact, unbounded integers. JavaScript numbers are doubles, so from 2^53 = 9007199254740992 on, `Math.max(...ids, 0) + 1` can round back to the largest id itself. The model gives the exact successor there, so it does not capture the repeated id the source would then store.
- Mutations.MaxId: exact integers, like `Mutations.NextId`. Ids of 2^53 and more are not rounded.
- Mutations.AppendNextIdKeepsUniqueIds: holds for the model's exact ids. In the source it holds only while every id stays below 2^53 (see `Mutations.NextId`).
- Mutations.MutationKeepsUniqueIds: the add case rests on `Mutations.NextId`, so the same 2^53 limit applies.
- Mutations.MutationsKeepUniqueIds: the same 2^53 limit as `Mutations.MutationKeepsUniqueIds`.
- AddPokemon.SubmitAppendsFreshRecord: the freshness of the new id holds for exact ids. The source's double arithmetic only keeps it below 2^53.
- Text.IntToString: writes every integer in decimal digits. JavaScript's `${n}` writes numbers of magnitude 10^21 and more in exponent form (`1e+21`), and rounds digits beyond 2^53. Those forms are not modelled.
- Text.IntToStringShape: states the digits-only form for every integer. For the source's numbers it holds only below 10^21 in magnitude (see `Text.IntToString`).
- Text.NumberOf: reads blank text and optionally signed decimal integers. The other forms `Number()` accepts are read as `NaN`: hexadecimal, binary and octal literals, exponents, fractions and `Infinity`.
- `handleCardClick` (`src/Home.tsx:114-120`) only navigates, so it is left out.
- `src/components/PokemonCard.tsx` never calls the `onEdit` and `onDelete` it is given. Those handlers are modelled anyway, as `Home.Catalog.OnEdit` and `Home.Catalog.OnDelete`.
- Left out as presentation only:
  - `src/components/PokemonDetail.tsx` (a remote fetch and a style table);
  - `src/components/Carga.tsx` (a timer);
  - `src/components/SearchBar.tsx` (passes the text through to `Home.Catalog.SetSearch`);
  - the style and icon tables of `src/components/TypeFilter.tsx`.
- EditPokemon.Form.HandleSubmit: the create mode uses the corrected next id, not the formula as written. See Findings.

## Findings

| source | as written | input that shows it | evidently intended | confidence | as-written member | corrected member |
|---|---|---|---|---|---|---|
| src/components/EditPokemon.tsx:36 | `Math.max(...ids) + 1` with no `0` seed | create from `/edit/new` while the stored list is empty or absent: `Math.max()` is `-Infinity`, so the record's id is `-Infinity`, stored as `null`, and no route can find it | the next free id, 1 on an empty list, as `src/components/AddPokemon.tsx:22` computes | high; not executed | Mutations.EditNewIdAsWritten (counterexample: Mutations.EditNewIdEmptyList) | Mutations.NextId (used by EditPokemon.Form.HandleSubmit; Mutations.EditNewIdAgreesOnNonEmpty shows the two agree on every other list of non-negative ids) |
