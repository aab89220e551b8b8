# UniSearch search-and-filter logic in Dafny

This project models the part of the `UniSearch` React component that does
real work:

- how it stores the result of a university search by country;
- how it derives the state/province dropdown from the fetched records;
- how it narrows the visible records to the selected province.

The rest of the component is JSX markup, a `fetch` call and an image export.
Those parts are left out (see below).

Files:

- `records.dfy` (module `Records`): a university record (`name`,
  `"state-province"` as `Option<string>`, `web_pages`). It also defines
  JavaScript truthiness of a province: null, undefined and `""` are falsy.
- `province_index.dfy` (module `ProvinceIndex`): the province list.
  - `UniqueProvinces` and `DeriveProvinces` specify it.
  - `ComputeProvinces` is the component's loop (map, push-if-not-included,
    `unshift("All")`), proved equal to `DeriveProvinces`.
  - Lemmas prove that the list starts with "All", that its membership is
    exact, that it has no duplicates and that it keeps first-seen order. A
    further lemma proves that those properties pin the list down uniquely.
- `result_filter.dfy` (module `ResultFilter`): the `filter` expression and
  the lemmas about it.
- `search_session.dfy` (module `SearchSession`): the class `UniSearch`. It
  has one field per state hook (`country`, `universities`, `loading`,
  `provinces`, `selectedProvince`) and one method per handler that changes
  them. The network request is a parameter: `Fetched(data)` or `Failed`. A
  ghost field `loadingTrace` records every value `loading` is set to, so that
  the contracts can say that a search shows the loading indicator before it
  hides it.

Behaviour of the code as written that the model keeps (some of it differs
from what one might expect of a search widget):

- A search does not clear the previous records when it starts. After a failed
  search, `universities`, `provinces` and `selectedProvince` keep their
  values from before the search, so they are not reset to empty.
- The automatic search runs on `if (country)`. A whitespace-only query is
  truthy, so it does start a search. The search button calls the handler
  directly, even with an empty query.
- The automatic search runs only when the query's value actually changes,
  because `country` is the effect's only dependency.
- The component has no separate Succeeded/Failed status and no
  "search performed" flag, only `loading`. The model has the same fields.
- The initial selection is `""`, not "All". A record whose province is `""`
  would match `""`. But while the selection is still `""` no records have
  been stored, so `UniSearch.Valid` holds and nothing is shown.

## Model

| member | source | states |
|---|---|---|
| `ProvinceIndex.DeriveProvinces` | src/Components/UniSearch.jsx:29-37 | the province list is never empty and its first entry is the "All" sentinel, whatever the data |
| `ProvinceIndex.ComputeProvinces` | src/Components/UniSearch.jsx:27-37 | the loop that maps records to provinces, appends each truthy province not already included, then unshifts "All", yields exactly `DeriveProvinces(data)` |
| `ProvinceIndex.UniqueProvincesMembership` | src/Components/UniSearch.jsx:31-34 | a value is listed after "All" if and only if it is a non-empty province of some record; null, undefined and `""` never appear |
| `ProvinceIndex.UniqueProvincesDistinct` | src/Components/UniSearch.jsx:32-34 | the `includes` check keeps the entries after "All" free of duplicates |
| `ProvinceIndex.UniqueProvincesOrder` | src/Components/UniSearch.jsx:31-35 | every entry after "All" occurs in the data, and the entries follow the order of their first occurrence in the data |
| `ProvinceIndex.UniqueProvincesCharacterized` | src/Components/UniSearch.jsx:27-35 | the entries after "All" are the one sequence that holds exactly the non-empty provinces of the data in first-seen order (both directions) |
| `ProvinceIndex.DeriveProvincesOnlyAll` | src/Components/UniSearch.jsx:29-37 | the list is exactly `["All"]` if and only if no record has a truthy province, in particular for an empty result set |
| `ProvinceIndex.DeriveProvincesDistinct` | src/Components/UniSearch.jsx:32-37 | the whole list, "All" included, is duplicate-free if and only if no record's province is literally "All" |
| `ResultFilter.Filter` | src/Components/UniSearch.jsx:48-51 | the filtered list is no longer than the records, and every record in it is one of the records and passes the callback (selection "All" or province `===` selection) |
| `ResultFilter.FilterAll` | src/Components/UniSearch.jsx:48-51 | with the selection "All" the records come back unchanged |
| `ResultFilter.FilterIsSubsequence` | src/Components/UniSearch.jsx:48-51 | the filtered list is a subsequence of the records: relative order is kept |
| `ResultFilter.FilterCounts` | src/Components/UniSearch.jsx:48-51 | each record occurs in the result as often as in the input if it matches the selection, and not at all otherwise (exactly the matching records) |
| `ResultFilter.FilterEmpty` | src/Components/UniSearch.jsx:48-51 | the filtered list is empty if and only if no record matches the selection |
| `ResultFilter.FilterIdempotent` | src/Components/UniSearch.jsx:48-51 | filtering an already filtered list with the same selection changes nothing |
| `ResultFilter.FilterByListedProvince` | src/Components/UniSearch.jsx:48-51 | any entry of the derived dropdown list, used as the selection, gives an empty view if and only if there are no records |
| `ResultFilter.FilterByUnlistedProvince` | src/Components/UniSearch.jsx:48-51 | a non-empty selection absent from the derived list gives an empty view |
| `ResultFilter.ThreeRecordScenario` | src/Components/UniSearch.jsx:27-51 | records from Sindh, Punjab and with a null province give `["All", "Sindh", "Punjab"]`, and selecting "Punjab" shows just the Punjab record |
| `SearchSession.UniSearch.constructor` | src/Components/UniSearch.jsx:6-10 | initial state: empty query, no records, not loading, no provinces, selection `""` |
| `SearchSession.UniSearch.BeginSearch` | src/Components/UniSearch.jsx:20 | a search first sets `loading`, appends `true` to the loading history, changes nothing else and keeps the state invariant |
| `SearchSession.UniSearch.FinishSearch` | src/Components/UniSearch.jsx:21-45 | on success: records = data, provinces = derived list, selection = "All" whatever it was before; on failure: the three are unchanged; loading false in both cases (`false` appended to the loading history), and the state invariant kept |
| `SearchSession.UniSearch.SearchUniversities` | src/Components/UniSearch.jsx:19-46 | the whole handler: the loading history gains exactly `true` then `false` (the indicator is shown, then hidden), loading ends false, and the outcome is applied as in `FinishSearch` |
| `SearchSession.UniSearch.ChangeCountry` | src/Components/UniSearch.jsx:13-17 | typing sets the query; an empty or unchanged query changes nothing else (loading history included), and any other query runs a search with the given outcome, showing then hiding the loading indicator |
| `SearchSession.UniSearch.SelectProvince` | src/Components/UniSearch.jsx:83-92 | picking a dropdown entry sets the selection to it and keeps the state invariant |
| `SearchSession.UniSearch.FilteredUniversities` | src/Components/UniSearch.jsx:48-51 | the shown records are exactly the matching records, each as often as it occurs, in their original order (subsequence); all records under "All"; in a valid state empty only when there are no records |

## Left out

- The `fetch` request and `response.json()` (lines 22-25) are network I/O. Their result is the parameter `FetchOutcome`, and the request URL built from `country` is not modelled.
- A JSON body that parses but is not an array of objects is not modelled. The component stores it with `setUniversities` before `data.map` throws, so `universities` would hold a non-array. The model's `universities` is always a sequence of records, so `FinishSearch` treats only `Fetched` (an array) and `Failed` (an error thrown before `setUniversities`).
- `downloadCard` (lines 53-63) is left out. It rasterises the card with `html2canvas`, encodes a JPEG and clicks a DOM link, all of which are foreign library and browser calls. Its only logic is the guard that returns when no card is mounted at that index.
- JSX rendering, `cardRefs`, the loading indicator and CSS (lines 65-131) are presentation.
- React's scheduling is left out. State setters are batched and applied asynchronously; the model applies each handler's updates in program order.
- Overlapping searches are left out. Two searches in flight can finish in either order, and the later one overwrites the earlier; that is concurrency and is not modelled.
- The dropdown's `onChange` can only deliver values that are listed in `provinces`, so `SelectProvince` requires its argument to be one of them.
