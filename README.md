# Interactive Data Explorer — a Dafny model of `App.js`

The explorer is a single React component. It fetches a list of Pokémon once, when it mounts. The user can then narrow the list with a free-text name search and a type selector. This project models the component's logic:

- **`filteredPokemons`** (module `Pokedex`). A record is kept when two tests pass:
  - its name, exactly as fetched, includes the lower-cased search term;
  - no type is selected (the empty string is falsy), or one of its type slots has that name.

  The result is `Array.prototype.filter`, which the model writes as the generic `FilterBy` over a callback.
- **`allTypes`** (module `Pokedex`). Every record's type names are flattened and passed through a `Set`. A `Set` keeps the first insertion of a value and iterates in insertion order. The result therefore lists each name once, in order of first appearance (ECMA-262, section 24.2, Set Objects).
- **The load lifecycle and the render** (module `Shell`). The class `App` holds the component's five state variables:
  - it starts with no records, empty filters, `loading` set and no error;
  - `GetData` stores the data on success, or sets the fixed message "Failed to fetch Pokémon" on failure;
  - `GetData` clears `loading` whichever way the fetch settled, as the `finally` does;
  - `Render` chooses what to show, in this order: the loading indicator, then the error text, then the cards or the empty-results placeholder.
- **String primitives** (module `Text`). `String.prototype.toLowerCase` is modelled on ASCII letters. `String.prototype.includes` is modelled as substring containment.
- **A worked example** (module `Scenarios`). It applies the above to a two-record sample.

A record is `Pokemon(id, name, types)`. Each nested `t.type.name` of the fetched JSON is flattened into the string list `types`.

Three facts about the code are worth stating up front:
- Only the search term is lower-cased, never the name (App.js:42). A term that covers a capital of the name never matches it: "MEW" and "mew" both miss "Mew" (`Pokedex.NameIsNotCaseFolded`). A term that covers only lower-case letters of the name still matches: "ew" is found in "Mew".
- A record with no type slots passes the type test when no type is selected and fails it when one is (App.js:43-45). The search test still applies to it.
- The `Set` fixes the order of `allTypes` to the order of first occurrence (App.js:49-53), and the model proves that order.

## Model

| member | source | states |
|---|---|---|
| `Text.LowerChar` | App.js:42 | the result is never an ASCII capital; a capital maps to the matching small letter and every other character is unchanged |
| `Text.ToLower` | App.js:42 | `toLowerCase` keeps the length, lower-cases each character in place, and leaves no ASCII capital |
| `Text.ToLowerIdempotent` | App.js:42 | lower-casing an already lower-cased term changes nothing |
| `Text.Includes` | App.js:42 | `includes` holds exactly when some position of the name starts an occurrence of the term |
| `Text.IncludesEmpty` | App.js:42 | every name includes the empty search term |
| `Text.LacksFirstChar` | App.js:42 | a name that lacks the term's first character does not include the term |
| `Pokedex.MatchesSearch` | App.js:42 | an empty search term matches every name; a name lacking the first letter of the lower-cased term does not match |
| `Pokedex.MatchesType` | App.js:43-45 | with no type selected every record passes the type test; once a type is selected a record without slots fails it. `FilterMembership` states the `some` test for every record, and `SelectedTypeNeedsASlot` states what it means for the shown list |
| `Pokedex.Keep` | App.js:42-46 | the callback accepts every record when both criteria are empty; it never accepts a record without slots once a type is selected, nor a record whose name lacks the first letter of the lower-cased term; `FilterMembership` gives it in full |
| `Pokedex.FilterBy` | App.js:40 | `filter` never lengthens its input; `FilterByPositions` and `FilterByMembership` state exactly what it returns |
| `Pokedex.FilterByPositions` | App.js:40-47 | `filter` returns the elements at exactly the positions whose element the callback accepts, in increasing position order: nothing is added or reordered |
| `Pokedex.FilterByMembership` | App.js:40-47 | `filter` keeps a value exactly when it occurs in the input and the callback accepts it |
| `Pokedex.FilterByAcceptAll` | App.js:40-47 | a callback that accepts everything makes `filter` return its input unchanged |
| `Pokedex.FilterByAgreeing` | App.js:40-47 | two callbacks that agree on every element filter alike |
| `Pokedex.Filter` | App.js:40-47 | `filteredPokemons` is never longer than `pokemons` and is empty when there are no records; `FilterPositions` and `FilterMembership` state exactly which records it holds |
| `Pokedex.FilterPositions` | App.js:40-47 | `filteredPokemons` is the order-preserving subsequence of `pokemons` at exactly the positions whose record passes both tests |
| `Pokedex.FilterMembership` | App.js:42-46 | a record is shown exactly when it was fetched, its name includes the lower-cased term, and, when a type is selected, one of its slots names that type |
| `Pokedex.FilterWithoutCriteria` | App.js:40-47 | with an empty search term and no selected type every record is shown, in order |
| `Pokedex.FilterIgnoresTermCase` | App.js:42 | search terms that lower-case to the same string select the same records |
| `Pokedex.NameIsNotCaseFolded` | App.js:42 | the name is compared as fetched: "MEW" and "mew" both miss "Mew", while "MEW" finds "mew" |
| `Pokedex.SelectedTypeNeedsASlot` | App.js:43-45 | with a type selected, a record without type slots is never shown |
| `Pokedex.TypeNames` | App.js:51 | the flattened list holds exactly the type names of the records' slots |
| `Pokedex.TypeNamesAppend` | App.js:51 | flattening one more record appends its type names, slot by slot, so the flattened list runs record by record |
| `Pokedex.Distinct` | App.js:49-53 | the `Set` round trip holds exactly the input's values, each once, and is no longer than its input |
| `Pokedex.FirstIndex` | App.js:49-53 | the position of a value's first occurrence: the value is there and not earlier |
| `Pokedex.DistinctFirstOccurrenceOrder` | App.js:49-53 | the distinct values are listed in the order of their first occurrence in the input |
| `Pokedex.AllTypes` | App.js:49-53 | `allTypes` has no duplicates, holds exactly the type names of some record, and is empty when there are no records |
| `Pokedex.AllTypesOrder` | App.js:49-53 | `allTypes` follows the order of first occurrence, record by record and slot by slot |
| `Shell.Render` | App.js:55-81 | the error text is shown only when not loading and it is the non-empty error; the cards and the placeholder are shown only when neither loading nor failed, and they carry `allTypes`; the cards are never empty and show exactly `filteredPokemons`; no records give the placeholder. `RenderPriority` states the priority |
| `Shell.RenderPriority` | App.js:55-81 | loading wins over an error, and an error wins over the results; otherwise the placeholder shows exactly when no record passes and the cards show exactly when one does |
| `Shell.App.View` | App.js:55-81 | while loading the view is the loading indicator; in a reachable state the only error text is the fixed message; the cards are never empty, come with `allTypes`, and show exactly `filteredPokemons` for the current search term and selected type |
| `Shell.App.Valid` | App.js:12-35 | the reachable lifecycle states: while loading nothing is stored; the only error text is the fixed message, and a failed load stores no records |
| `Shell.App.constructor` | App.js:12-16 | initial state: no records, empty search term and type, loading, no error |
| `Shell.App.GetData` | App.js:20-35 | `loading` is false on both paths; success stores the data and leaves the error as it was; failure sets the fixed message and leaves the records as they were; the filters are untouched; a pending load settles into a reachable state |
| `Shell.App.SetSearchTerm` | App.js:13 | sets the search term and nothing else |
| `Shell.App.SetSelectedType` | App.js:14 | sets the selected type and nothing else |
| `Shell.MountAndLoad` | App.js:12-81 | a mount first shows the loading indicator; a failed fetch then shows exactly the fixed message; a successful one shows the filtered records with `allTypes`, or the placeholder when none pass |
| `Scenarios.FilterTwo` | App.js:40-47 | filtering two records keeps each one that passes, in order |
| `Scenarios.SampleTypes` | App.js:49-53 | bulbasaur (grass) and charmander (fire) offer the types ["grass", "fire"] |
| `Scenarios.SampleWithoutCriteria` | App.js:40-47 | with no criteria both sample records are shown |
| `Scenarios.SampleSearch` | App.js:42 | searching "char" or "CHAR" shows only charmander |
| `Scenarios.SampleTypeSelection` | App.js:43-45 | selecting "fire" shows only charmander; selecting "water" shows nothing |
| `Scenarios.SampleSearchWithoutMatch` | App.js:42 | searching "zzz" shows neither sample record |
| `Scenarios.SampleNoMatch` | App.js:75-81 | a search that matches no name, or a type no record has, renders the placeholder and not an error |

## Left out

- JSX markup and the child components (`PokemonCard`, `SearchBar`, `TypeFilter`, `Loading`, `NoResults`) are presentational, and their source is not part of this model. A render is modelled as the `View` value that names which branch is drawn and with what data.
- `fetchPokemons` in `./services/api` is not part of this model, and neither is the HTTP transport. Its settlement is the parameter `FetchOutcome`: either data or a failure, whose detail the component drops anyway.
- React's `useState`/`useEffect` scheduling, the `async`/`await` suspension and re-render timing are not modelled. Each setter is a field assignment, and `getData` runs as one step once the fetch settles. A second run of the effect, as React's development mode may do, is allowed by `GetData`. Its `Valid()` guarantee covers only a load that was still pending.
- `Text.ToLower`: does not model the full Unicode case mapping of `toLowerCase`, only the ASCII capitals A–Z.
- The stylesheet import is not modelled.
- The `key={pokemon.id}` prop is not modelled. The model does not check that ids are unique, and the component does not either.
- `Filter` and `AllTypes` are deterministic functions of their arguments, so recomputing them on unchanged inputs gives the same result; no separate lemma states this.
- A fetched record whose `name` or `types` is missing is not modelled: the `Pokemon` datatype always has both. In JavaScript such a record makes the render throw (App.js:42, 44, 51).
