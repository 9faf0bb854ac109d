# poke-app catalog logic in Dafny

A model of the logic behind the poke-app Pokémon catalog viewer, with
proofs of what that logic promises. It covers the data client in
`src/lib/pokemon-api.ts` and the state logic of the grid component in
`src/components/pokemon-grid.tsx`.

Four modules:

- `Wrappers` (wrappers.dfy): `Option`, and `Result` carrying the message
  of the error the source throws. `All` is `Promise.all` over settled
  results: positional values, or the error of the first failure.
- `Strings` (strings.dfy): the string operations the code relies on,
  restricted to ASCII: `toLowerCase`, `includes`, `join`, decimal
  rendering and `parseInt`, and a one-character `String.replace`, whose
  first match the helper `IndexOf` finds.
- `PokemonApi` (pokemon_api.dfy): the API records, including the
  evolution condition, the raw chain link and the resolved tree node.
  - Request wrappers over the remote API.
  - `getPokemonIdFromUrl`, as a scanner proved equal to its regular
    expression.
  - `getTypeColor`.
  - `formatEvolutionTrigger`, as a method that pushes clauses one at a
    time. It is proved equal to the function `DescribeAsWritten`, which
    follows the code exactly. The description properties are proved about
    `Describe`, the intended description, which treats a `null`
    physical-stats comparison as absent (see Findings). `AsWrittenIsDescribe`
    shows that the code computes `Describe` of the same condition with
    `null` read as 0, and `Describe` itself without a `null` comparison.
  - The evolution-tree resolver behind `getPokemonEvolutionChain`.
- `PokemonGrid` (pokemon_grid.dfy):
  - the local search filter, with its order, count, concatenation,
    case and idempotence lemmas;
  - the page fetch of `loadPokemon`;
  - a `Grid` class whose fields are the component's state hooks, and
    whose methods are its handlers.

The remote API is the datatype `Remote`. For each kind of resource it
has a function from request URL to the decoded body, or `None` when the
HTTP response is not ok. Every fetch is a lookup in it, so what the network
returns is a parameter of each operation.

Each handler runs atomically to its end, its awaits included. The one
exception is `loadMore`: its synchronous start (`BeginLoadMore`) is a
method of its own, so the span during which `loadingMore` is set can be
seen.

## Model

| member | source | states |
|---|---|---|
| Wrappers.All | src/lib/pokemon-api.ts:175-177 | `Promise.all`: succeeds exactly when every element does, with the values in the same positions; otherwise fails with the error of a failing position preceded only by successes |
| Strings.Contains | src/components/pokemon-grid.tsx:60-61 | `includes` holds exactly when the substring occurs at some position |
| Strings.Lower | src/components/pokemon-grid.tsx:60-61 | `toLowerCase` keeps the length and lowers each upper-case ASCII letter by 32 code points, keeping every other character |
| Strings.JoinSnoc | src/lib/pokemon-api.ts:230 | `join` of one more part is the previous join, the separator and that part |
| Strings.JoinStartsWithFirst | src/lib/pokemon-api.ts:230 | `join` begins with the first part |
| Strings.JoinEndsWithLast | src/lib/pokemon-api.ts:230 | `join` ends with the last part |
| Strings.ReplaceFirst | src/lib/pokemon-api.ts:247 | the length is kept; the first occurrence of the character is replaced and every other position, later occurrences included, is kept |
| Strings.ReplaceFirstSplit | src/lib/pokemon-api.ts:247 | replacing in `a + [from] + b`, where `a` has no `from`, gives `a + [to] + b` |
| Strings.ParseNatToString | src/lib/pokemon-api.ts:149 | `parseInt` of the decimal rendering of a number is that number |
| PokemonApi.MatchAtIsPattern | src/lib/pokemon-api.ts:148 | the scanner matches at a position exactly when the regular expression `/pokemon/`, digits, `/` matches there, with the same captured digits |
| PokemonApi.FindFromIsLeftmost | src/lib/pokemon-api.ts:148 | the scan finds the leftmost match, or reports that there is none anywhere |
| PokemonApi.IdFromUrlSpec | src/lib/pokemon-api.ts:147-150 | the id is the decimal value of the leftmost match's digits, and 0 when there is no match |
| PokemonApi.IdFromResourceUrl | src/lib/pokemon-api.ts:147-150 | the resource URL of record `n` (`…/pokemon/n/`) yields `n` |
| PokemonApi.GetTypeColor | src/lib/pokemon-api.ts:250-271 | always a colour of the palette: the table's colour for the 18 known types, and for any other type the colour of "normal" |
| PokemonApi.CollectLevelUpParts | src/lib/pokemon-api.ts:199-229 | the pushed clauses are those of the qualifying fields, in the fixed order level, time, location, happiness, affection, held item, party species, party type, and last physical stats whenever it is not `undefined`, `null` included |
| PokemonApi.FormatEvolutionTrigger | src/lib/pokemon-api.ts:193-248 | the result is `DescribeAsWritten`, the code's description, `null` comparison included; by `AsWrittenIsDescribe` it is the intended `Describe` with `null` read as 0, and `Describe` itself whenever the comparison is not `null` |
| PokemonApi.AsWrittenIsDescribe | src/lib/pokemon-api.ts:193-248 | for every condition, what the code computes is the intended `Describe` of the same condition with a `null` comparison read as 0; off level-up, or without a `null` comparison, it is `Describe` of the condition itself, so the lemmas about `Describe` carry over to `FormatEvolutionTrigger` |
| PokemonApi.AsWrittenFalsyFieldsAreAbsent | src/lib/pokemon-api.ts:200-214 | in the code as written, `null` comparison included, level 0, time of day "", happiness 0 and affection 0 describe exactly as an absent field |
| PokemonApi.StatsPhrase | src/lib/pokemon-api.ts:226-228 | positive gives "when Attack > Defense", negative gives "when Defense > Attack", zero gives "when Attack = Defense" |
| PokemonApi.ClausesEmpty | src/lib/pokemon-api.ts:199-230 | no clause is collected exactly when no slot qualifies |
| PokemonApi.ClausesFromSlots | src/lib/pokemon-api.ts:199-229 | every collected clause is the phrase of some qualifying slot |
| PokemonApi.NoClauseIsNoSlot | src/lib/pokemon-api.ts:200-229 | the truthiness tests of the first eight fields and the intended number test of the physical stats all fail exactly when every slot is empty |
| PokemonApi.SlotIsNotFallbackPrefix | src/lib/pokemon-api.ts:200-229 | no clause phrase is a prefix of "Level up" |
| PokemonApi.LevelUpFallback | src/lib/pokemon-api.ts:199-230 | a level-up is described as "Level up" if and only if no field qualifies; otherwise it is its clauses joined by ", " |
| PokemonApi.SameClausesSameDescription | src/lib/pokemon-api.ts:193-248 | the description depends only on the trigger, the item fields and the nine clauses |
| PokemonApi.ClausesAgree | src/lib/pokemon-api.ts:199-229 | conditions whose slots agree collect the same clauses |
| PokemonApi.FalsyFieldsAreAbsent | src/lib/pokemon-api.ts:200-214 | level 0, time of day "", happiness 0 and affection 0 describe exactly as an absent field |
| PokemonApi.ThresholdsAreNotShown | src/lib/pokemon-api.ts:209-214 | any two non-zero happiness thresholds, or affection thresholds, give the same description |
| PokemonApi.IgnoredFields | src/lib/pokemon-api.ts:193-248 | beauty, overworld rain and turning upside down never change the description |
| PokemonApi.StatsClause | src/lib/pokemon-api.ts:224-229 | the physical-stats clause exists exactly for a number, and is the phrase for its sign |
| PokemonApi.StatsClauseAsWritten | src/lib/pokemon-api.ts:224-229 | the clause as the code computes it: present for anything but a missing field; "when Attack = Defense" for `null`, the phrase for its sign for a number |
| PokemonApi.PhysicalStatsClauseIsLast | src/lib/pokemon-api.ts:224-230 | a numeric physical-stats comparison ends the level-up description with the phrase for its sign |
| PokemonApi.ZeroStatsIsNotAbsent | src/lib/pokemon-api.ts:224-229 | a comparison of 0 gives a different description from an absent one |
| PokemonApi.NullStatsIsAbsent | src/lib/pokemon-api.ts:200-229 | a `null` comparison describes exactly as a missing one, as `null` does for every other field |
| PokemonApi.AsWrittenDiffersOnlyOnNull | src/lib/pokemon-api.ts:224-229 | the clauses the code collects equal the model's, except that a `null` comparison adds "when Attack = Defense" |
| PokemonApi.NullStatsAsWritten | src/lib/pokemon-api.ts:224-230 | as written, every level-up with a `null` comparison ends with "when Attack = Defense" and differs from the intended description: it is "when Attack = Defense" alone when no other clause qualifies, and otherwise the intended description followed by ", when Attack = Defense" |
| PokemonApi.NullStatsExample | src/lib/pokemon-api.ts:200-230 | a level-16 evolution with a `null` comparison is intended as "Level 16" |
| PokemonApi.NullStatsAsWrittenExample | src/lib/pokemon-api.ts:200-230 | the code as written describes that evolution as "Level 16, when Attack = Defense" |
| PokemonApi.AbsentTriggerAndItemUse | src/lib/pokemon-api.ts:194-234 | for every condition: no trigger gives "", and use-item with an item gives "Use " and the item |
| PokemonApi.TradeDescription | src/lib/pokemon-api.ts:237-245 | for a trade: held item first, then trade species, then "Trade"; no other field matters, and neither does the trade species once there is a held item |
| PokemonApi.GenericFallback | src/lib/pokemon-api.ts:233-247 | any other trigger, including use-item without an item, keeps its length, with only its first '-' turned into a space |
| PokemonApi.OnlyFirstDashReplaced | src/lib/pokemon-api.ts:247 | for a trigger `a-b` where `a` has no '-', the description is `a b`, and `b` keeps its own dashes |
| PokemonApi.PlainLevelUpExample | src/lib/pokemon-api.ts:230 | a level-up without conditions is "Level up" |
| PokemonApi.MinLevelExample | src/lib/pokemon-api.ts:200-202 | a level-up at level 16 is "Level 16" |
| PokemonApi.LevelAndTimeExample | src/lib/pokemon-api.ts:200-205 | level 7 during the day is "Level 7, during day" |
| PokemonApi.ItemAndTradeExamples | src/lib/pokemon-api.ts:194-245 | "Use thunder-stone", "Trade while holding metal-coat" (with a trade species present), "Trade", and "" without a trigger |
| PokemonApi.BuildEvolutionTreeSpec | src/lib/pokemon-api.ts:173-184 | building succeeds exactly when every species' record can be fetched. The result is the unique tree with the same shape whose nodes hold the fetched records and the links' own conditions. A failure carries "Failed to fetch Pokemon" |
| PokemonApi.EvolutionChainOutcome | src/lib/pokemon-api.ts:168-191 | a missing species fails with "Failed to fetch Pokemon species" and a missing chain with "Failed to fetch evolution chain"; otherwise the result is the resolution of the chain |
| PokemonGrid.SearchFilter | src/components/pokemon-grid.tsx:59-62 | a record is in the result exactly when it is in the list and its lowercased name or some lowercased type name contains the lowercased query |
| PokemonGrid.SearchFilterKeepsOrder | src/components/pokemon-grid.tsx:59-62 | the result is a subsequence of the loaded list |
| PokemonGrid.SearchFilterCounts | src/components/pokemon-grid.tsx:59-62 | each matching record is kept as often as it occurs, and each other record is dropped |
| PokemonGrid.SearchFilterConcat | src/components/pokemon-grid.tsx:59-62 | searching a concatenation is concatenating the searches |
| PokemonGrid.SearchFilterCaseInsensitive | src/components/pokemon-grid.tsx:60-61 | queries that agree when lowercased give the same result |
| PokemonGrid.SearchFilterIdempotent | src/components/pokemon-grid.tsx:59-62 | searching the result again with the same query changes nothing |
| PokemonGrid.FetchPageSpec | src/components/pokemon-grid.tsx:25-28 | a missing listing fails with "Failed to fetch Pokemon list". Otherwise the page loads exactly when every summary's record can be fetched. Its records are those of the summaries, in order, and it has a successor exactly when `next` is not null |
| PokemonGrid.Grid.constructor | src/components/pokemon-grid.tsx:11-19 | the initial state: nothing loaded, loading, offset 0, more available, no search |
| PokemonGrid.Grid.LoadPokemon | src/components/pokemon-grid.tsx:23-43 | on success the page replaces the list or is appended to it, and `hasMore` follows `next`; on failure the list and `hasMore` are kept; afterwards neither flag is loading; nothing else changes |
| PokemonGrid.Grid.Mount | src/components/pokemon-grid.tsx:45-47 | the first page replaces the list |
| PokemonGrid.Grid.BeginLoadMore | src/components/pokemon-grid.tsx:95-99 | nothing changes while a page is loading or none is left; otherwise `loadingMore` is set and the offset advances by exactly 20 |
| PokemonGrid.Grid.LoadMore | src/components/pokemon-grid.tsx:94-101 | no effect while loading or when none is left. Otherwise the page after the advanced offset is appended, and on failure the list is kept and the advanced offset stays |
| PokemonGrid.LoadMoreTwiceFetchesOnce | src/components/pokemon-grid.tsx:94-101 | a second `loadMore` before the first page arrives advances nothing |
| PokemonGrid.Grid.ShouldAutoLoad | src/components/pokemon-grid.tsx:107 | the next page is requested exactly when the sentinel is visible, more pages exist, none is loading and the search term is empty |
| PokemonGrid.Grid.SetSearchTerm | src/components/pokemon-grid.tsx:161 | only the search term changes |
| PokemonGrid.Grid.SearchPokemon | src/components/pokemon-grid.tsx:49-84 | an empty query shows the whole list. Local matches, when any, are shown with no lookup. Otherwise the lowercased query is looked up and shown alone, or nothing is shown. The search ends not loading |
| PokemonGrid.Grid.RunSearchEffect | src/components/pokemon-grid.tsx:86-92 | searching for the current term has the outcomes of `searchPokemon` |

Every method of `Grid` that requires `Valid()` also preserves it.
`Valid()` says three things:

- the offset is a whole number of pages;
- a looked-up record is never shown next to local results;
- no search is left loading.

## Left out

- Network I/O and JSON decoding: the remote API is the oracle `Remote`. A body that does not decode is not modelled.
- The request wrappers (`getPokemonList`, `getPokemon`, `getPokemonByUrl`, `getPokemonSpecies`, `getEvolutionChain`): modelled as lookups that map a non-ok response to the source's error message. They have no contract of their own; the lemmas about their callers state their outcomes.
- `Promise.all` concurrency: modelled as a positional map. The error is that of the first failing position. In the source it is the first to fail in time. Every fetch in one fan-out fails with the same message, so the outcome is the same.
- A numeric `nameOrId`: passed as its decimal string, as the template literal renders it.
- Numbers are unbounded integers. Floating point, `NaN` and non-integral levels or stats are not modelled.
- `toLowerCase` lowers ASCII letters only. Other Unicode case mappings are not modelled.
- Sprites and the other presentation-only record fields: not modelled; stats, types and abilities are given by their names and values.
- The 300 ms debounce of the search effect (`setTimeout`/`clearTimeout`): the effect is modelled as running the search at once.
- The `IntersectionObserver` wiring: only the predicate it tests is modelled.
- All JSX rendering, and the evolution-chain component's effect.
- `console.error` logging.
- React's scheduling and state closures. Each handler reads the current state and runs to its end without interruption, its awaits included; only `loadMore` is split, at its await. Handlers that read a stale closure of the hooks are not modelled.
- PokemonGrid.Grid.SearchPokemon runs atomically through its lookup (pokemon-grid.tsx:74). So `searchLoading` set to true is never seen between handlers, and that is why `!searchLoading` is part of `Valid()`. A lookup that resolves after a newer search, or after the term is cleared, is not modelled. Example: "xyz" has no local match, the term is then cleared (filtered list = whole list, :52), and the failed "xyz" lookup then empties the list (:79-80) while the term is "".
- PokemonGrid.Grid.LoadPokemon and PokemonGrid.Grid.Mount run atomically through their two awaits (pokemon-grid.tsx:25-26). A search or `loadMore` that runs while a page is still being fetched is not modelled.
- PokemonGrid.LoadMoreTwiceFetchesOnce holds when the second `loadMore` sees the state the first one set, that is, after a re-render. A second call through a stale closure would still see `loadingMore` false.
- The error messages of PokemonApi.EvolutionChainOutcome and PokemonGrid.FetchPageSpec hold for HTTP failures. A transport failure rejects `fetch` itself with the browser's error instead of the wrapper's message. Those messages are only logged, so this is not modelled.
- PokemonApi.GetTypeColor: an inherited object property such as `constructor`, which the source's lookup would also find, is treated as an unknown type.
- PokemonApi.CollectLevelUpParts makes the first eight pushes as `parts + (if c then [x] else [])` rather than as separate `if` statements. This keeps the source's behaviour and keeps the proof small.
- PokemonApi.LevelUpFallback and the other description lemmas are stated about the intended `Describe`. `AsWrittenIsDescribe` carries them over to `FormatEvolutionTrigger`. The one difference is on level-up with a `null` comparison: the code's description gets a trailing "when Attack = Defense" (`NullStatsAsWritten`), so with no other field it is not "Level up".
- PokemonApi.GenericFallback: `String.replace` with a string pattern (pokemon-api.ts:247) replaces only the first '-', so "tower-of-darkness" becomes "tower of-darkness".

## Findings

| source | as written | input that shows it | evidently intended | confidence | as-written member | corrected member |
|---|---|---|---|---|---|---|
| src/lib/pokemon-api.ts:224-229 | the stats clause is guarded by `!== undefined`, so a `null` `relative_physical_stats` passes; `null` is neither `> 0` nor `< 0`, so "when Attack = Defense" is pushed | a level-up with `min_level: 16` and `relative_physical_stats: null`, the form in which the API sends evolutions without a stats comparison | `null` treated as absent, as the truthiness guards at :200-222 treat it for every other field: "Level 16" | medium, not executed | PokemonApi.NullStatsAsWritten | PokemonApi.NullStatsIsAbsent |

The model represents the field as `JsonNumber`, which is missing, `null`
or a number. `StatsClauseAsWritten`, `LevelUpClausesAsWritten`,
`DescribeAsWritten` and the method `FormatEvolutionTrigger` follow the code.
The description properties use the corrected `StatsClause` through
`Describe`. `AsWrittenDiffersOnlyOnNull` and `AsWrittenIsDescribe` show
that the two agree on every input except a `null` comparison.
