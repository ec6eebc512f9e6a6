# Podcast browser data layer in Dafny

A model of the in-memory data layer of a small podcast browser. The page shows a
grid of podcast shows that the user can filter by genre and sort. Behind the grid
sit two pieces of JavaScript, and this project models both:

- `Podcast` (js/Podcast.js) wraps one raw catalog entry. It trims the image URL,
  looks up the show's season details, resolves its genre ids against the genre
  table, and turns the time since the last update into a label such as
  "Updated yesterday" or "Updated 2 weeks ago".
- `PodcastManager` (js/PodcastManager.js) builds the list of podcasts from the
  catalog. It answers `filterByGenre` (every show, or the shows listing one genre
  id) and `sortBy` ("recent", "popular" or "newest"; any other key returns the
  list as it is).

The files:

- `wrappers.dfy`: `Option`, standing for "an object or `undefined`".
- `sequences.dfy`: the array built-ins the code uses (`filter`, `find`,
  `filter(Boolean)`) and their properties: soundness, completeness with
  multiplicity, order preservation, interaction with concatenation and reversal.
- `js_strings.dfy`: `String.prototype.trim` with ECMAScript's whitespace set, and
  the decimal rendering of an integer in a template literal, with its inverse.
- `last_updated.dfy`: the day difference, the five-way label choice, the label
  text, and a parser proving that the label text determines the bucket.
- `podcast.dfy`: the podcast record, its constructor, `getGenres`,
  `getSeasonDetails` and `getFormattedLastUpdated`.
- `sorting.dfy`: the three comparators, and a stable in-place insertion sort on an
  array. It also proves that a stable sort has exactly one possible result, so the
  model agrees with whatever stable algorithm the JavaScript engine uses.
- `manager.dfy`: the `PodcastManager` class. Its `podcasts` field is assigned by
  `InitializePodcasts`, read by the `FilterByGenre` function, and copied into a
  fresh array and sorted by the `SortBy` method.

Inputs that the source reads from globals or the environment are parameters
here. The catalog (`window.podcastData`) is a `Catalog` value, its podcast entries and season records, given to the
constructor. The genre and season tables are passed to `Genres` and
`SeasonDetailsFor`. The current time (`new Date()`) is the `now` parameter.
Timestamps are integers counting milliseconds.

A sort result is specified by two predicates. `Ordered(c, r)` says `r` ascends by
`Rank(c, ·)`: `-updated` for "recent", `updated` for "newest", `-seasons` for
"popular". Each comparator equals the difference of the two ranks it compares.
`KeepsTieOrder(c, s, r)` says that for every rank value `k`, the podcasts of rank
`k` appear in `r` exactly as they do in `s`, same podcasts in the same order.
That is stability. Together the two predicates imply that `r` is a permutation
of `s`, and they fix `r` uniquely.

## Model

| member | source | states |
|---|---|---|
| `Sequences.Filter` | js/PodcastManager.js:29-31 | `filter` returns no more elements than it was given, and only elements of the input that satisfy the predicate |
| `Sequences.FilterCount` | js/PodcastManager.js:29-31 | each value occurs in a filter's result as often as in the input if the predicate holds of it, and not at all otherwise (sound and complete) |
| `Sequences.FilterMembership` | js/PodcastManager.js:29-31 | a value is in a filter's result exactly when it is in the input and satisfies the predicate |
| `Sequences.FilterIsSubsequence` | js/PodcastManager.js:29-31 | a filter's result is a subsequence of its input, so the input order is kept |
| `Sequences.FilterReverse` | js/PodcastManager.js:42-46 | filtering a reversed list gives the reversed filtered list |
| `Sequences.Find` | js/Podcast.js:24 | `find` returns nothing exactly when no element matches, and otherwise returns the element at the first matching position |
| `Sequences.Somes` | js/Podcast.js:33-35 | `filter(Boolean)` over found-or-undefined values keeps only found values, and no more of them than there were entries |
| `JsStrings.Trim` | js/Podcast.js:12 | `trim` returns a contiguous slice of its input, everything cut off on either side is whitespace, and the result neither starts nor ends with whitespace |
| `JsStrings.TrimIdempotent` | js/Podcast.js:12 | trimming twice gives the same string as trimming once |
| `JsStrings.IntToString` | js/Podcast.js:49-51 | the text a template literal makes of an integer is never empty and starts with a minus sign exactly when the integer is negative |
| `JsStrings.IntToStringRoundTrip` | js/Podcast.js:49-51 | the decimal text that a template literal makes of an integer, negative ones included, reads back as that integer |
| `LastUpdated.DiffDays` | js/Podcast.js:44-45 | the day difference is the floor of elapsed milliseconds over 86400000, also for negative differences |
| `LastUpdated.Bucket` | js/Podcast.js:47-51 | a day count is shown unchanged; a week count is floor(days/7) and always between 1 and 4 |
| `LastUpdated.LabelText` | js/Podcast.js:47-51 | every label starts with "Updated " and says more after it |
| `LastUpdated.BucketCases` | js/Podcast.js:47-51 | "today" exactly at 0 days; "yesterday" exactly at 1; weeks exactly for 7 to 29 days, counting floor(days/7) weeks, which is always 1 to 4; "N days ago" with N the day count exactly for negative counts, 2 to 6, and 30 or more |
| `LastUpdated.LabelRoundTrip` | js/Podcast.js:47-51 | every label text reads back as the bucket it was made from |
| `LastUpdated.LabelTextInjective` | js/Podcast.js:47-51 | two buckets have the same label text only if they are the same bucket |
| `LastUpdated.LabelExamplesFirstWeek` | js/Podcast.js:47-49 | 0, 1 and 6 days give "Updated today", "Updated yesterday" and "Updated 6 days ago" |
| `LastUpdated.LabelExamplesLater` | js/Podcast.js:50-51 | 7, 29 and 30 days give "Updated 1 weeks ago", "Updated 4 weeks ago" and "Updated 30 days ago" |
| `Podcasts.NewPodcast` | js/Podcast.js:7-16 | the constructor copies the raw fields, stores the trimmed image URL, and stores the season details found for the podcast's id |
| `Podcasts.ImageIsTrimmed` | js/Podcast.js:12 | the stored image URL needs no further trimming |
| `Podcasts.SeasonDetailsFor` | js/Podcast.js:23-26 | `getSeasonDetails` returns the season list of the first season record with the requested id, and the empty list when no record has it |
| `Podcasts.FindGenre` | js/Podcast.js:34 | the genre lookup finds nothing exactly when no genre record has the id, and otherwise returns the first record with that id |
| `Podcasts.Lookups` | js/Podcast.js:33-34 | the map gives one lookup result per genre id: the same length, and entry i is the find result for the i-th id |
| `Podcasts.Podcast.Genres` | js/Podcast.js:32-36 | `getGenres` returns no more records than there are genre ids, each one a record of the genre table whose id is among the podcast's ids |
| `Podcasts.GenresFollowResolvedIds` | js/Podcast.js:32-36 | `getGenres` has one entry per genre id that resolves, in `genreIds` order, and entry k is the first record for the k-th resolving id; ids with no record are dropped |
| `Podcasts.Podcast.FormattedLastUpdated` | js/Podcast.js:42-52 | with d the whole days since the update: "Updated today" at d = 0, "Updated yesterday" at d = 1, "Updated N weeks ago" with N = floor(d/7) for 7 to 29 days, "Updated d days ago" for every other d (negative, 2 to 6, 30 or more); the text reads back as exactly that bucket |
| `Podcasts.FutureUpdateSaysDaysAgo` | js/Podcast.js:44-49 | an update time in the future gives a negative day count and the label "Updated -N days ago" |
| `Podcasts.GenresDropUnresolved` | js/Podcast.js:33-35 | ids [a, missing, b] with a and b resolvable and `missing` not resolvable give exactly the records of a and b, in that order |
| `Sorting.Compare` | js/PodcastManager.js:42-46 | each of the three comparators ("recent" at line 42, "popular" at 44, "newest" at 46) is the difference of the ranks it compares, so sorting by the comparator means ascending by rank |
| `Sorting.InsertAt` | js/PodcastManager.js:42-46 | one insertion pass turns an ordered prefix of length i into an ordered prefix of length i+1 holding the same podcasts, leaves the rest of the array as it was, and reorders no tied podcasts |
| `Sorting.SortInPlace` | js/PodcastManager.js:42-46 | sorting an array in place leaves it ordered by the comparator, with every tie class in its original order |
| `Sorting.KeepsTieOrderIsPermutation` | js/PodcastManager.js:42-46 | a result that keeps every tie class is a permutation of the input |
| `Sorting.SortedUnique` | js/PodcastManager.js:42-46 | two results that are both ordered and both keep the tie classes are equal, so every stable sort gives the same answer |
| `Sorting.RecentReversesNewest` | js/PodcastManager.js:41-46 | when no two update times are equal, the "recent" result is the "newest" result reversed |
| `Sorting.PopularExample` | js/PodcastManager.js:43-44 | shows with 3, 5, 2 and 4 seasons are sorted by "popular" into the order 5, 4, 3, 2 |
| `Manager.PodcastManager.constructor` | js/PodcastManager.js:6-9 | a new manager holds one podcast record per catalog entry, in catalog order |
| `Manager.PodcastManager.InitializePodcasts` | js/PodcastManager.js:14-19 | the list becomes one podcast record per catalog entry, each built by the `Podcast` constructor, in catalog order |
| `Manager.HoldsGenre` | js/PodcastManager.js:30 | the filter predicate holds of a podcast exactly when some position of its genre ids holds the selected id |
| `Manager.PodcastManager.FilterByGenre` | js/PodcastManager.js:26-32 | `All` returns the list itself. A genre id returns a subsequence of the list holding a podcast exactly when it lists the id, with the same multiplicity as in the list. An id that no podcast lists gives the empty list |
| `Manager.PodcastManager.SortBy` | js/PodcastManager.js:39-50 | the result is a permutation of the list. "recent", "popular" and "newest" give a list ordered by that comparator, with ties in list order. Any other key returns the list itself. The method modifies nothing, so the list is unchanged after every call |

## Left out

- js/main.js and js/Modal.js are not part of this model. They hold DOM rendering, event wiring and the start-up poll for the catalog. Note that the change handlers in main.js compute a sorted list and then discard it, rendering the filtered but unsorted list. So "sort, then filter" is not what the code does, and it is not modelled.
- `getFormattedDate` is not modelled. It depends on the locale formatting of `toLocaleDateString`.
- Parsing `updated` with `new Date(...)` is not modelled. Timestamps are already integers. An unparseable date does not throw in the source: it becomes an invalid date, and the label becomes "Updated NaN days ago". The model cannot express that case.
- Timestamps are unbounded integers, and the day difference is exact integer floor division. The source subtracts and divides in double precision. The two agree whenever the two timestamps are at most 2^53 ms apart (about 285,000 years), which always holds when `now` is the present time. For larger differences the double subtraction and division can round across a day boundary, which the model does not capture. Dates outside the JavaScript range (8.64e15 ms either side of 1970) become invalid dates, which the model does not capture either.
- Parsing the genre selector with `parseInt` is not modelled. The selector is `All` or an integer id. A selector that parses to `NaN` is therefore outside the model.
- `getAllGenres` is not modelled. It only returns the global genre table.
- Reads of `window.podcastData` and `new Date()` are parameters, as described above.
- Aliasing is not modelled. `filterByGenre('all')` and `sortBy` with an unknown key return the manager's own array, so a caller that mutated it would change the manager. The model works with sequence values.
- `Manager.PodcastManager.SortBy` models `Array.prototype.sort` with an insertion sort. That is not the engine's algorithm. `Sorting.SortedUnique` shows that any stable sort with these comparators returns the same list.
- Missing fields and non-numeric values (`image` absent, `seasons` not a number) are not modelled. Every raw entry has all fields with the types above.
