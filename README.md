# GitHub profile and repository viewer — a Dafny model

This project models the client-side data pipeline of a static GitHub Pages
site, `assets/app.js`. The script loads a user's public repositories from
the GitHub API and keeps them in one mutable `state` record. From that record
it draws three things:

- a grid of repository cards;
- a bar of language filter chips;
- a search box and a fork toggle that narrow the grid.

The model is split into one module per part of the script:

- `Types`: the repository record, `Option` and `Result`.
- `Text`: ASCII lower-casing, JavaScript's `trim` with its full white-space set, `includes`, `startsWith` and `join`.
- `Format`: `trimDesc` and the profile's location label.
- `Cards`: `repoCard`, reduced to what a card shows:
  - its title and description;
  - its language, star and fork badges;
  - its first three topics;
  - its link target.
- `Filtering`: the `applyFilters` predicate and the filtered view.
- `Languages`: `indexLanguages`. The JavaScript `Map` becomes an insertion-ordered sequence of `(language, count)` entries with distinct keys. The `forEach` that fills it becomes a loop, proved against a recursive specification.
- `Sorting`: `Array.prototype.sort` with a comparator, modelled once as a stable insertion sort over any total preorder. Both sorts of the page use it.
- `Chips`: the ordering and active marking done by `renderChips`, with the count comparator of its `sort` call.
- `Ordering`: the star/update-time comparator of the sort in `loadRepos`.
- `Pagination`: the `while (more && page <= 3)` loop of `loadRepos`. The network is modelled as an oracle from page number to either a batch or a failure. The loop is a method proved against a recursive specification, and lemmas prove what that specification guarantees.
- `Viewer`: the `state` record as the class `Session`. Its fields are the five state fields plus what the page shows: the chip bar, the card grid, and the empty-state and error-state flags. Its methods model the render steps, the three event handlers and `loadRepos`.

Three behaviours of the code that are easy to misread, and that the model keeps as written:

- A card links to the homepage whenever the homepage string starts with `http`. Nothing checks that it is a well-formed absolute URL.
- The empty-state and error-state flags are independent. A failed load does not touch the empty state, and a later successful load does not hide the error.
- Ties on both sort keys keep the order in which records arrived, because JavaScript's `Array.prototype.sort` is stable.

## Model

| member | source | states |
|---|---|---|
| Format.TrimDesc | assets/app.js:37-41 | an absent or empty description gives `""`; one of at most 180 characters is returned unchanged; a longer one becomes its first 177 characters followed by `…` (178 characters); the result never exceeds 180 |
| Format.TrimDescIdempotent | assets/app.js:37-41 | truncating an already truncated description changes nothing |
| Format.LocationLabel | assets/app.js:125-128 | the location list joined with `" • "` is `location • Philippines` when the account has a location and `Philippines` otherwise |
| Cards.RepoCard | assets/app.js:53-66 | title is the name; body is the truncated description; link is the homepage exactly when it is set and starts with `http`, otherwise `html_url`; language badge iff a language is set; star badge iff stars > 0; fork badge iff forks > 0, each carrying its value; the topics are the first min(3, n) topics |
| Cards.CardGrid | assets/app.js:79 | one card per repository, in list order |
| Text.TrimEmptyIffAllSpace | assets/app.js:70 | `trim` yields the empty string exactly when every character is white space |
| Filtering.Filter | assets/app.js:71-77 | the view is an order-preserving subsequence of the list |
| Filtering.FilterSelects | assets/app.js:71-77 | a record appears in the view iff it is in the list and passes all three checks, and each passing record appears as often as in the list |
| Filtering.NoForkUnlessIncluded | assets/app.js:72 | with forks excluded, no fork is in the view |
| Filtering.IncludeForksMonotone | assets/app.js:72 | the view with forks excluded is a subsequence of the view with forks included |
| Filtering.DefaultShowsNonForks | assets/app.js:69-77 | with the initial filter state, the view is exactly the non-fork records in order |
| Filtering.BlankSearchNoRestriction | assets/app.js:70-74 | an empty or white-space-only search imposes no text restriction |
| Filtering.NonBlankSearchRestricts | assets/app.js:74-76 | any other search passes exactly the records whose lower-cased `name description topics` text contains the lower-cased, trimmed query |
| Filtering.FilterIdempotent | assets/app.js:71-77 | filtering the view again with the same state changes nothing |
| Filtering.SearchScenario | assets/app.js:75-76 | the query `pro` matches a repository named `proxy-tool` and one whose description is `reverse proxy` |
| Languages.Bump | assets/app.js:103 | `map.set(l, (map.get(l) \|\| 0) + 1)`: the count of `l` grows by one, every other count is unchanged, a new key is appended at the end, and the total grows by one |
| Languages.IndexWellFormed | assets/app.js:101-105 | the index has distinct keys, no empty key, and counts of at least one |
| Languages.LanguageIndexCounts | assets/app.js:101-105 | each language's count is its number of occurrences in the list; repositories without a language are not counted; a language is a key iff its count is positive; the counts sum to the number of repositories that have a language; the keys come in order of first occurrence |
| Languages.KeysInFirstOccurrenceOrder | assets/app.js:101-105 | the keys of the `Map` are exactly the non-empty languages that occur, ordered by the position of the first repository in each language |
| Languages.IndexLanguages | assets/app.js:101-105 | the loop builds the index of the whole list, so the properties above hold for its result |
| Sorting.SortBy | assets/app.js:85 | sorting with a comparator that is a total preorder yields a permutation of the input in which every element may precede every later one |
| Sorting.SortStable | assets/app.js:85 | the sort is stable: the elements that tie with any given element keep their relative order |
| Chips.SortByCount | assets/app.js:85 | the entries come out in non-increasing count order and are a permutation of the input |
| Chips.SortByCountStable | assets/app.js:85 | entries with equal counts keep their order in the index, which is the order of first occurrence |
| Chips.ChipBarShape | assets/app.js:83-89 | the bar is the "All" chip labelled with the total, followed by one chip per index entry (the same multiset of entries, the same sum) in non-increasing count order; a language chip is active iff its language is the filter |
| Chips.ExactlyOneActive | assets/app.js:87-88 | exactly one chip is active when the filter is unset or names an indexed language, and none when it names a language the index lacks |
| Chips.IndexOneActive | assets/app.js:87-88 | for the index of any list, exactly one chip is active when the filter is unset or names a language of that list |
| Ordering.SortRepos | assets/app.js:150-153 | the sorted list is a permutation of the fetched list, ordered by stars and then by update time |
| Ordering.TiedIsSameKeys | assets/app.js:150-153 | the comparator ties two repositories exactly when their stars and update times are both equal |
| Ordering.SortReposStable | assets/app.js:150-153 | repositories with the same stars and update time keep their arrival order |
| Ordering.SortOrder | assets/app.js:150-153 | more stars always comes first; with equal stars, the later update comes first |
| Ordering.SortScenario | assets/app.js:150-153 | two five-star repositories end up with the more recently updated one first, from either arrival order |
| Ordering.TieScenario | assets/app.js:150-153 | two repositories with equal stars and equal update time keep their arrival order |
| Pagination.FetchAll | assets/app.js:140-147 | the loop's outcome and the pages it requested are those of the recursive specification |
| Pagination.RequestedPages | assets/app.js:141-147 | pages 1, 2, … are requested in order, one to three of them; every page but the last came back full; fewer than three means the last one failed or was short |
| Pagination.LoadIsConcat | assets/app.js:143-144 | the load fails exactly when the last requested page failed; on success every requested page succeeded and the result is their batches concatenated in page order |
| Pagination.AtMostThreeHundred | assets/app.js:140-147 | if no batch holds more than 100 records, a successful load holds at most 300 |
| Pagination.TwoFullPagesThenEmpty | assets/app.js:141-147 | two full pages followed by an empty one give three requests and 200 records |
| Pagination.ThreeFullPages | assets/app.js:141-147 | three full pages give three requests and 300 records: the page limit stops the loop |
| Viewer.Session.constructor | assets/app.js:24-30 | the initial state: no repositories, an empty index, no language filter, forks excluded, an empty search |
| Viewer.Session.ApplyFilters | assets/app.js:69-81 | the grid shows the cards of the filtered view, and the empty state is shown iff the view is empty |
| Viewer.Session.RenderChips | assets/app.js:83-90 | the chip bar is rebuilt from the index, the filter and the total; when the index describes the list and the filter is unset or indexed, exactly one chip is active |
| Viewer.Session.SelectLanguage | assets/app.js:92-97 | a chip click sets the filter (the empty label clears it), redraws chips and grid, keeps the state valid, and leaves exactly one chip active for "All" or an indexed language |
| Viewer.Session.SetSearch | assets/app.js:166-169 | typing stores the text and redraws the grid; the index and the chip bar stay valid |
| Viewer.Session.SetIncludeForks | assets/app.js:171-174 | the toggle stores its value and redraws the grid; turning it on keeps every previously visible repository, in order |
| Viewer.Session.Commit | assets/app.js:150-158 | on success the list becomes the sorted fetched records, the index is rebuilt from them, and chips and grid are redrawn |
| Viewer.Session.LoadRepos | assets/app.js:137-163 | on success the state is replaced as `Commit` says; on failure the error state is shown and the list, index, chips, grid and empty state are untouched; the error state is never cleared |

## Left out

- Markup and the DOM are not modelled: `innerHTML`, element lookups, and listener registration (`addEventListener` on chips, the search box and the toggle). Only what the markup shows is kept, and each handler is reduced to the state update it performs.
- `langColor` is not modelled. It is a presentation-only colour table.
- `num` is not modelled. It is `Intl.NumberFormat` locale formatting. Badges carry the raw integer. Star and fork counts are never null in the model, so `num(null) = "0"` has no counterpart.
- `fetchJSON` is not modelled: `fetch`, the request headers, the HTTP status check and `res.json()`. The network is a parameter, `fetch: nat -> PageResult`: page number to batch or failure. A non-OK status, a network error and a JSON error all become the same failure.
- Async scheduling is not modelled. This includes the race between the profile load and the repository load.
- `loadProfile` is not modelled except for its location label. The rest is DOM assignment, and its failure is swallowed.
- `updated_at` is an integer timestamp, so `new Date(...)` parsing is left out.
- Viewer.Session.constructor: the page's initial display flags (`hidden` attributes in the markup) are taken to be hidden.
- The footer year and the `data-username` configuration are left out. They touch no state.
- Filtering.Filter: `toLowerCase` is modelled for ASCII letters only. Other characters are left as they are, so Unicode case mappings are not captured.
- Format.TrimDesc: lengths are counted in Unicode characters rather than UTF-16 code units, so a description with characters outside the Basic Multilingual Plane is measured differently from the browser.
- Cards.RepoCard: `r.topics || []` is modelled with topics always present, an absent list being the empty sequence.
- Ordering.SortRepos: `all.sort` works in place, but the model sorts a value. In-place update of the array is not captured.
- Languages.IndexLanguages: `map.set` updates a `Map` in place, but the model builds a new sequence value each step.
- Viewer.Session.LoadRepos: an exception thrown by rendering inside the `try` would also set the error state; rendering cannot fail in the model, so that path is not captured.
