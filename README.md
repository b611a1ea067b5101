# Pokedex dashboard: chart shaping, string helpers and the auth reducer

This project models, in Dafny, the deterministic core of the Pokedex
dashboard, an Angular single-page app that charts data from PokeAPI:

- the shaping stages of the three dashboard charts in
  `src/app/dashboard/components/poke-dashboard.component.ts`. The
  **types chart** drops empty types and sorts by population, most populous
  first. The **generations chart** does the same, least populous first, and
  formats its labels. The **gender × generation chart** cross-tabulates
  the species lists of genders and generations;
- `generateColors`, which spreads `count` hues evenly around the colour wheel;
- the string helpers `upperCaseFirstLetter` and `formatGenerationString`
  (`src/app/shared/misc.functions.ts`, repeated verbatim in the component);
- the authentication reducer (`src/app/auth/store/auth.reducers.ts`): its
  initial state and its `login` transition.

Each chart stage is a pure function. Its input is the value the RxJS join
emits. A failed request that a `catchError` turned into `null` is `None`. In
the gender chart every detail request has its own `catchError`, so the input
lists hold `Option`s. `generateColors` loops and pushes onto two arrays, so
it is a method with a loop. The method is proved equal to the function
`PaletteOf`, and the charts use that function.

Modules: `Wrappers` (Option), `MiscFunctions` (ASCII case mapping, split and
join on one character, the two helpers), `ChartTypes` (the shapes of
`charts.type.ts`), `Palette` (`generateColors`), `Ranking` (the stable
comparator sort), `PopulationCharts` (types and generations charts),
`GenderCharts` (the cross-tabulation) and `AuthReducer`.

Behaviour of the code worth noting:

- A failed **gender listing** does not null the gender chart. The stage at
  poke-dashboard.component.ts:145-153 replaces the failure with no gender
  names and empty lists, and the pipeline goes on. The chart keeps its
  generation labels and has no datasets (`GenderListingFailure`).
- The gender chart's labels are the **raw** generation names, such as
  `generation-i`. `formatGenerationString` is not applied to them (:297-299).
- The gender chart is not all-or-nothing. A failed generation detail still
  gets a data entry of 0 in every dataset, but no label. So `labels` and
  `data` have the same length only when no generation request failed
  (`GenderChartShape`).
- A gender name other than `female`, `male` and `genderless` is not
  excluded. It gets its own dataset, with zero counts and an `undefined`
  colour. The one exception is the name `generation`: the row object has a
  key of that name, so `generation[gender]?.length` reads the length of the
  generation's name (`Cell`).
- `formatGenerationString` does not reject a name with two or more hyphens.
  It keeps the first two segments and drops the rest
  (`FormatGenerationStringSegments`). A name with no hyphen throws, and the
  generations chart's `catchError` turns that into a null chart
  (`GenerationsChartSpec`).

## Model

| member | source | states |
|---|---|---|
| `PopulationCharts.TypesChartSpec` | src/app/dashboard/components/poke-dashboard.component.ts:78-107 | Specifies `TypesChart`. The types chart is null exactly when the join failed. Otherwise it has one dataset, and labels, data and both colour lists all have the kept types' length. Data is non-increasing. The (label, count) bars are a permutation of the kept types' (capitalised name, count) pairs. Bars with equal counts keep listing order. |
| `PopulationCharts.GenerationsChartSpec` | src/app/dashboard/components/poke-dashboard.component.ts:337-366 | Specifies `GenerationsChart`. The generations chart is null exactly when the join failed or some non-empty generation's name has no `-`. Otherwise it has the same alignment as the types chart, with data non-decreasing and labels from `formatGenerationString`. Equal counts keep listing order. |
| `PopulationCharts.SeriesPresents` | src/app/dashboard/components/poke-dashboard.component.ts:81-98 | A series built from a ranking of the kept records meets every clause above: ordered data, permuted (label, count) bars, stable ties, one colour pair per bar, border width 2. |
| `PopulationCharts.NonEmptyKeepsMembers` | src/app/dashboard/components/poke-dashboard.component.ts:79-80 | The filter drops every record with no members and keeps every other record as often as it occurs. |
| `PopulationCharts.NonEmptyKeepsOrder` | src/app/dashboard/components/poke-dashboard.component.ts:338-339 | The filter keeps listing order: for each count > 0 the kept records are the listed ones in order, and none is kept for count 0. |
| `PopulationCharts.FormatAll` | src/app/dashboard/components/poke-dashboard.component.ts:342-344 | Labelling succeeds exactly when every name has a `-`. The labels are then index-aligned with the records, each the formatted name. |
| `PopulationCharts.EntriesSortBy` | src/app/dashboard/components/poke-dashboard.component.ts:81-85 | Sorting permutes the (label, count) pairs the bars show. |
| `PopulationCharts.EntriesWithCount` | src/app/dashboard/components/poke-dashboard.component.ts:82-85 | Projecting records to bars commutes with selecting one count. |
| `PopulationCharts.TypesChartExample` | src/app/dashboard/components/poke-dashboard.component.ts:79-85 | fire (52), water (105), bug (0) gives labels `Water, Fire` and data `105, 52`. |
| `Ranking.SortByPermutes` | src/app/dashboard/components/poke-dashboard.component.ts:81 | The comparator sort returns a permutation of its input. |
| `Ranking.SortBySorted` | src/app/dashboard/components/poke-dashboard.component.ts:340 | The sort returns no pair out of comparator order: descending for types, ascending for generations. |
| `Ranking.SortByStable` | src/app/dashboard/components/poke-dashboard.component.ts:340 | The sort is stable: records with the same member count come out in input order, as with `Array.prototype.sort`. |
| `Ranking.InsertPermutes` | src/app/dashboard/components/poke-dashboard.component.ts:81 | One insertion step adds exactly the inserted record. |
| `Ranking.InsertSorted` | src/app/dashboard/components/poke-dashboard.component.ts:81 | One insertion step keeps a sorted list sorted. |
| `Ranking.InsertKeepsTies` | src/app/dashboard/components/poke-dashboard.component.ts:340 | An inserted record goes ahead of every record with its count and behind none. |
| `Ranking.CompareInOrder` | src/app/dashboard/components/poke-dashboard.component.ts:340 | A comparator value that is not positive means the two counts are in chart order. |
| `Palette.GenerateColors` | src/app/dashboard/components/poke-dashboard.component.ts:384-398 | The loop returns exactly `count` background and `count` border colours. Entry `i` of each has hue `Hue(i, count)`, at 70%/50%/0.5 and at 50%/50%, and the result equals `PaletteOf(count)`. |
| `Palette.PaletteOf` | src/app/dashboard/components/poke-dashboard.component.ts:388-397 | The palette has `count` colours in each list. |
| `Palette.PaletteOfZero` | src/app/dashboard/components/poke-dashboard.component.ts:391 | For count 0 both lists are empty and no hue (no division) is computed. |
| `Palette.HueExact` | src/app/dashboard/components/poke-dashboard.component.ts:392 | Specifies `Hue`. For `i < count` the hue is exactly `i*360/count` and lies in [0, 360), so the `% 360` never changes it. |
| `Palette.HueIncreasing` | src/app/dashboard/components/poke-dashboard.component.ts:391-392 | Hues strictly increase with the index. |
| `Palette.HueEvenlySpaced` | src/app/dashboard/components/poke-dashboard.component.ts:392 | Neighbouring hues are `360/count` apart. |
| `Palette.PaletteDistinct` | src/app/dashboard/components/poke-dashboard.component.ts:391-395 | Distinct indices get distinct background and distinct border colours. |
| `GenderCharts.GenderChartShape` | src/app/dashboard/components/poke-dashboard.component.ts:277-303 | Specifies `GenderChart` and `GenderBuckets`. The gender chart is null exactly when the generation listing failed. Its datasets are named by `GenderNames` of the gender details, in order, and none is built when the gender listing failed. Each dataset has one entry per generation response. The labels are the successful generations; when every generation request succeeded they are exactly the generation names in order, so labels and data have the same length exactly when no generation request failed. |
| `GenderCharts.GenderChartCounts` | src/app/dashboard/components/poke-dashboard.component.ts:257-293 | Specifies `GenderChart` through `Cell`. For female, male and genderless, entry `i` is the number of generation `i`'s species names found in that gender's list. It is at most the generation's species count. A failed generation gets 0. The name `generation` reads the length of the generation's name (0 for a failed one). Any other name gets 0. |
| `GenderCharts.GenderChartColors` | src/app/dashboard/components/poke-dashboard.component.ts:283-294 | Specifies `GenderColor`. Female is pink `hsla(330,100%,70%,1)`, male blue `hsla(240,100%,50%,1)` and genderless grey `hsla(0,0%,50%,1)`. Any other name gets `undefined`. |
| `GenderCharts.GenderListingFailure` | src/app/dashboard/components/poke-dashboard.component.ts:145-153 | A failed gender listing keeps the generation labels and gives no datasets. |
| `GenderCharts.GenderChartExample` | src/app/dashboard/components/poke-dashboard.component.ts:253-304 | Example: genders female {bulbasaur}, male {ivysaur, chikorita}, genderless {}; generation-i {bulbasaur, ivysaur}, generation-ii {chikorita}. The result is female `[1,0]`, male `[1,1]`, genderless `[0,0]`, labels `generation-i, generation-ii`. |
| `GenderCharts.AmongCounts` | src/app/dashboard/components/poke-dashboard.component.ts:260-268 | The `includes` filter keeps each generation name that is in the gender's list, as often as it occurs, and no other. |
| `GenderCharts.Among` | src/app/dashboard/components/poke-dashboard.component.ts:260-268 | A gender's count for a generation never exceeds the generation's species count. |
| `GenderCharts.AmongDisjointBound` | src/app/dashboard/components/poke-dashboard.component.ts:257-270 | If no species is in two gender lists, the three counts add up to at most the species count. |
| `GenderCharts.RowCellsBound` | src/app/dashboard/components/poke-dashboard.component.ts:257-270 | The same bound, stated for one generation's row of cells. |
| `GenderCharts.GenderNames` | src/app/dashboard/components/poke-dashboard.component.ts:154-156 | Every gender name kept is non-empty. |
| `GenderCharts.GenderNamesAllSucceeded` | src/app/dashboard/components/poke-dashboard.component.ts:154-156 | When every detail succeeded with a non-empty name, the names are exactly the details' names, in order. |
| `GenderCharts.GenderNamesAppend` | src/app/dashboard/components/poke-dashboard.component.ts:154-156 | The `filter`/`map` over a concatenation is the concatenation of the two results: order is kept. |
| `GenderCharts.GenderNamesSingle` | src/app/dashboard/components/poke-dashboard.component.ts:154-156 | One detail contributes its name exactly when it succeeded with a non-empty name, and nothing otherwise. |
| `GenderCharts.FindGender` | src/app/dashboard/components/poke-dashboard.component.ts:157-165 | `find` returns the first successful detail with that name, and null exactly when there is none. |
| `GenderCharts.SuccessfulNames` | src/app/dashboard/components/poke-dashboard.component.ts:216-218 | The labels are at most as many as the generation responses, and just as many exactly when every response succeeded. |
| `GenderCharts.SuccessfulNamesAllSucceeded` | src/app/dashboard/components/poke-dashboard.component.ts:216-218 | When every generation response succeeded, the labels are exactly their names, in order. |
| `GenderCharts.SuccessfulNamesAppend` | src/app/dashboard/components/poke-dashboard.component.ts:216-218 | The labels of a concatenation are the labels of each part, in order. |
| `GenderCharts.SuccessfulNamesSingle` | src/app/dashboard/components/poke-dashboard.component.ts:216-218 | One response contributes its generation name exactly when it succeeded, and nothing otherwise. |
| `GenderCharts.CrossTab` | src/app/dashboard/components/poke-dashboard.component.ts:257-270 | One row per generation response, failed ones included. |
| `MiscFunctions.UpperCaseFirstLetterShape` | src/app/shared/misc.functions.ts:6-8 | Specifies `UpperCaseFirstLetter`. Same length. The first character is upper-cased and every other one lower-cased. `""` maps to `""`. |
| `MiscFunctions.UpperCaseFirstLetterIdempotent` | src/app/shared/misc.functions.ts:7 | Applying it twice is applying it once. |
| `MiscFunctions.FormatGenerationStringFailsIffNoHyphen` | src/app/shared/misc.functions.ts:16-19 | It fails (throws) exactly when the input has no `-`. |
| `MiscFunctions.FormatGenerationStringSegments` | src/app/shared/misc.functions.ts:16-20 | Specifies `FormatGenerationString`. The result is the first segment capitalised, `-`, then the second segment upper-cased. Everything from a second `-` on is dropped. |
| `MiscFunctions.FormatGenerationOne` | src/app/shared/misc.functions.ts:15-21 | `generation-i` becomes `Generation-I`. |
| `MiscFunctions.FormatGenerationThree` | src/app/shared/misc.functions.ts:15-21 | `generation-iii` becomes `Generation-III`. |
| `MiscFunctions.FormatGenerationStringIdempotent` | src/app/shared/misc.functions.ts:15-21 | On an input with a `-`, formatting the result again changes nothing. |
| `MiscFunctions.JoinSplit` | src/app/shared/misc.functions.ts:16 | Joining the parts of `split('-')` with `-` gives back the input. |
| `MiscFunctions.SplitJoin` | src/app/shared/misc.functions.ts:16 | Splitting a join of `-`-free parts gives back the parts. |
| `MiscFunctions.SplitCount` | src/app/shared/misc.functions.ts:16 | `split` returns one more part than there are separators. |
| `MiscFunctions.Split` | src/app/shared/misc.functions.ts:16 | `split` returns at least one part, and no part holds the separator. |
| `MiscFunctions.IndexOf` | src/app/shared/misc.functions.ts:16 | Finds the first occurrence of the separator, and none exactly when it is absent. |
| `MiscFunctions.CaseRoundTrip` | src/app/shared/misc.functions.ts:6-8 | Upper- then lower-casing a character is lower-casing it, and the other way round: case mapping forgets the case it started from. |
| `AuthReducer.InitialStateValues` | src/app/auth/store/auth.reducers.ts:5-12 | The initial state is logged out, with a user whose email and password are empty, and a token that is not expired. The reducer starts from it. |
| `AuthReducer.LoginSetsRequest` | src/app/auth/store/auth.reducers.ts:16-21 | Specifies `Reduce` and `OnLogin` on `login`. `login` sets `isLoggedIn`, `user` and `isTokenExpired` to exactly the request's values. |
| `AuthReducer.LoginForgetsPriorState` | src/app/auth/store/auth.reducers.ts:16-21 | The state after `login` does not depend on the state before it. |
| `AuthReducer.LoginIdempotent` | src/app/auth/store/auth.reducers.ts:16-21 | Dispatching the same `login` twice gives the state of dispatching it once. |
| `AuthReducer.UnhandledKeepsState` | src/app/auth/store/auth.reducers.ts:14-22 | Specifies `Reduce` on other actions. An action whose type is not `[Auth] Login`, so that no case matches it, leaves the state unchanged. |

## Left out

- The RxJS orchestration is not modelled: `take`, `switchMap`, `forkJoin`, and when each `catchError` fires. The HTTP services and request fan-out are left out too. Only the joined values each shaping stage receives are modelled, as `Option` and lists of `Option`.
- A listing with no results is left out. There `forkJoin([])` completes without emitting, so no chart value, not even null, is produced.
- Toasts and `console` logging are left out. They are fire-and-forget side effects with no effect on the chart values.
- Hues are exact reals. JavaScript's floating-point rounding of `i*360/count` and the `hsla(...)`/`hsl(...)` string rendering are left out; a colour is kept as its components.
- Case mapping covers ASCII only. Non-ASCII letters pass through unchanged, whereas `toUpperCase`, `toLocaleUpperCase` and `toLowerCase` would map them, sometimes changing the length.
- `Cell` and `GenderColor` model only the row's own keys and the colour table's own keys. Keys inherited from `Object.prototype`, such as `constructor` or `toString`, are not modelled.
- A type or generation record is reduced to its name and the length of its member list, the only parts the charts read.
- `src/app/auth/types/user.interface.ts` is not part of this model. The user is taken to have the `email` and `password` of `initialState`.
- Auth selectors, actions and state files, the login component, guard, routes and app configuration are not part of this model. They are framework glue or UI.
