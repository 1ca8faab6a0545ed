# Waste-sorting companion: history, analytics, ranking and pull-to-refresh in Dafny

This project models the parts of the waste-sorting app that hold real logic.
The user photographs an item, a classifier returns a verdict, and the app keeps
a bounded scan history. From that history it derives totals, category
breakdowns and achievements. Separately, it ranks a fixed catalog of recycling
centres by distance, and the history screen has a pull-to-refresh gesture.

One module per source file, with the two rounding rules of the scanner split
out into their own module:

- `Types` (`types.dfy`): the verdict (`AnalysisResult`), a history entry
  (`HistoryItem`), the draft the scanner hands over, and the app's views.
  `category` is a closed four-value enum. It is wrapped in an `Option`, and
  `None` stands for a missing (falsy) category. `CountOf` counts entries per
  category, with a missing category counted as General Waste.
- `HistoryStore` (`history_store.dfy`): `handleAddToHistory`. `Append` puts
  the new entry first, drops any older entry with the same id, and keeps the
  first 50 entries. `Store` is the app's history state, and `Store.Add`
  replaces it with `Append`'s result.
- `Scoring` (`scoring.dfy`): `Math.round(a / b)`, computed exactly on integers
  as `(2a + b) / (2b)`. Its partner is the nearest-integer, half-up
  characterisation, and `RoundDivUnique` proves that characterisation
  determines the result. The module also holds the points rule
  `Math.round(score / 10)` and the summary percentage
  `Math.round(count / total * 100)`.
- `Profile` (`profile.dfy`): the profile statistics. `TotalPoints` and
  `BestScore` are the two reduces. `Tally` is the `categoryCounts`
  dictionary, `ChartData` builds the four chart slices and `Achievements` the
  six badges.
- `Scanner` (`scanner.dfy`): `SummaryStats` is a loop that counts
  Recyclable, Organic and Hazardous entries, then rounds each count to a
  percentage. `ScannerView.HandleImageUpload` takes the classifier's outcome
  as a parameter and adds to the history only on success.
- `PullToRefresh` (`pull_to_refresh.dfy`): the three state fields
  (`isRefreshing`, `pullStart`, `pullPosition`) as a pure transition function
  `Step` with an invariant `Inv`. `PullState` is the component's class, with
  one method per handler, and each method is proved to implement `Step`.
- `NearbyCenters` (`nearby_centers.dfy`): the static catalog, distances
  attached through an abstract distance function, and an in-place stable
  insertion sort (`SortInPlace`). The sort is specified by a reference
  function `SortByKey`. The module proves `SortByKey` sorted, a permutation,
  and stable (`SameOrderPerKey`: the centres with any one distance keep their
  order). `StableSortUnique` proves that any sorted and stable rearrangement
  equals `SortByKey`, so the engine's own `Array.prototype.sort` gives the
  same list whatever algorithm it uses. `MapView.Locate` models the
  loading/error outcome of the position request.

Three behaviours of the code to note:

- A missing category falls back to General Waste only because the code's
  fallback applies to falsy values (`components/Profile.tsx:60`). The enum
  cannot hold an unrecognised non-empty string.
- A touch start does not reset `pullPosition` (`components/History.tsx:56`).
  The invariant makes it 0 anyway unless a pull is already in progress.
- Touch end leaves `isRefreshing` untouched when the pull is at most 80.

Eco-Master needs 1000 points (`components/Profile.tsx:86`). The history holds
at most 50 entries, and a score of at most 100 earns at most 10 points, so the
total never exceeds 500. `Profile.EcoMasterUnreachable` proves that this badge
can never be unlocked while every score the classifier returns lies in 0..100
(nothing in the app checks that range).

## Model

| member | source | states |
|---|---|---|
| `HistoryStore.Entry` | App.tsx:17-21 | builds the new entry from the draft with the given id and timestamp; no contract, its use is stated by `Append` |
| `HistoryStore.Take` | App.tsx:23 | `slice(0, n)`: the length is min(length, n), and every kept element is the one at the same index |
| `HistoryStore.Without` | App.tsx:23 | the filter keeps exactly the prior entries whose id differs from the new one, and never lengthens the list |
| `HistoryStore.Append` | App.tsx:16-24 | after an append the history has 1..50 entries; its head is the new entry, holding the draft's image, result and points plus the given id and timestamp; no other entry has the new id, and each of them comes from the prior list; the entries after the head are the first ones of the filtered prior list, as many as fit: the length is min(1 + filtered length, 50) |
| `HistoryStore.WithoutIsSubsequence` | App.tsx:23 | the filter keeps the survivors in their prior relative order |
| `HistoryStore.WithoutCount` | App.tsx:23 | the filter keeps each surviving entry as many times as it occurred, and no copy of an entry with the id |
| `HistoryStore.WithoutAbsentId` | App.tsx:23 | when no prior entry has the id, the filter changes nothing |
| `HistoryStore.WithoutKeepsUniqueIds` | App.tsx:23 | filtering a list with unique ids leaves unique ids |
| `HistoryStore.AppendKeepsUniqueIds` | App.tsx:23 | if prior ids are unique, ids stay unique after an append |
| `HistoryStore.AppendFreshGrows` | App.tsx:23 | with a fresh id the result is the new entry prepended and cut to 50; below 50 the length grows by exactly one |
| `HistoryStore.WithoutPrefix` | App.tsx:23 | every prefix of the filtered list is the filter of some prefix of the prior list |
| `HistoryStore.AppendTail` | App.tsx:23 | the entries after the head are a prefix of the prior list with the new-id entries removed, in prior order, and all survivors are kept when they fit |
| `HistoryStore.Replay` | App.tsx:16-24 | any sequence of appends from an empty history keeps at most 50 entries |
| `HistoryStore.NewestFirstIds` | App.tsx:19 | each entry built from a list of scans carries the id of one of those scans |
| `HistoryStore.ReplayKeepsNewest` | App.tsx:16-24 | appending N scans with distinct ids to an empty history gives min(N, 50) entries, the most recent ones, newest first |
| `HistoryStore.Store.constructor` | App.tsx:14 | the history starts empty and valid (at most 50 entries, unique ids) |
| `HistoryStore.Store.Add` | App.tsx:16-24 | the new history is `Append` of the old one, and the bound and unique ids are preserved |
| `Scoring.RoundDiv` | components/Scanner.tsx:60-62 | the result r is the integer nearest to a/b with halves rounded up: 2br - b <= 2a < 2br + b |
| `Scoring.RoundDivUnique` | components/Scanner.tsx:60-62 | that nearest-half-up property determines the rounded value uniquely |
| `Scoring.RoundDivMonotone` | components/Scanner.tsx:60-62 | rounding never decreases as the numerator grows |
| `Scoring.Points` | components/Scanner.tsx:93 | the points are the integer nearest to a tenth of the score, a half rounded up: 20p - 10 <= 2 * score < 20p + 10 |
| `Scoring.PointsRange` | components/Scanner.tsx:93 | a score in 0..100 earns 0..10 points, score 100 earns exactly 10, and a score below 5 earns 0 |
| `Scoring.Percent` | components/Scanner.tsx:60-62 | the percentage is the integer nearest to 100 * count / total, a half rounded up |
| `Scoring.PercentRange` | components/Scanner.tsx:60-62 | a count between 0 and the total gives a percentage in 0..100, with 0 for no entries and 100 for all of them |
| `Types.EffectiveCategory` | components/Profile.tsx:60 | the category an entry counts under, General Waste when it has none; no contract |
| `Types.CountOf` | components/Profile.tsx:59-63 | the number of entries counted under a category, never more than the history length |
| `Profile.TotalPoints` | components/Profile.tsx:56 | the points reduce; no contract, its properties are `TotalPointsPrepend` and `TotalPointsBounds` |
| `Profile.Stats` | components/Profile.tsx:54-71 | the statistics record (scans, points, best score, counts); no contract, its parts are specified by the members it combines |
| `Profile.ChartData` | components/Profile.tsx:73-78 | the four chart slices; no contract, its properties are `ChartMatchesCounts` |
| `Profile.Achievements` | components/Profile.tsx:80-87 | the six badges; no contract, their properties are `AchievementsOfHistory`, `PerfectScoreIffHundred` and the re-lock lemmas |
| `Profile.Lookup` | components/Profile.tsx:74-77 | a category's count in the `categoryCounts` dictionary, 0 when it has no key; no contract, its use is stated by `Tally` and `ChartMatchesCounts` |
| `Profile.BestScore` | components/Profile.tsx:57 | the best score is at least 0 and at least every entry's score; when above 0 it is some entry's score; it is 0 for an empty history |
| `Profile.Tally` | components/Profile.tsx:59-63 | a category has a key exactly when some entry counts under it, and its value is the number of entries under it, with a missing category counted as General Waste |
| `Profile.CountsSumToLength` | components/Profile.tsx:59-63 | the four category counts sum to the history length |
| `Profile.ChartMatchesCounts` | components/Profile.tsx:73-78 | the chart has four slices; each value is its category's count (0 when absent), and the values sum to totalScans |
| `Profile.TotalPointsPrepend` | components/Profile.tsx:56 | the total is additive: a prepended entry adds exactly its points |
| `Profile.TotalPointsBounds` | components/Profile.tsx:56 | with 0..10 points per entry, the total lies between 0 and 10 times the number of entries |
| `Profile.CountOfPrepend` | components/Profile.tsx:59-63 | a prepended entry adds exactly one to its own category and nothing to the others |
| `Profile.BestScorePrepend` | components/Profile.tsx:57 | a prepended entry's score is combined with the best score by maximum |
| `Profile.PerfectScoreIffHundred` | components/Profile.tsx:83 | if no score exceeds 100, Perfect Score is unlocked exactly when some entry scored 100 |
| `Profile.AchievementsOfHistory` | components/Profile.tsx:80-87 | there are six badges in the fixed order First Scan, Recycling Pro, Perfect Score, Tree Hugger, Hydration Hero, Eco-Master, unlocked by >= 1 scan, >= 10 recyclables, best score 100, >= 25 scans, never, and >= 1000 points |
| `Profile.EmptyProfile` | components/Profile.tsx:54-87 | an empty history gives zero totals, an empty count map, an all-zero chart and no unlocked badge |
| `Profile.PrependNeverRelocks` | components/Profile.tsx:81-86 | if every score is at most 100, prepending an entry with non-negative points never re-locks an unlocked badge |
| `Profile.AppendNeverRelocks` | components/Profile.tsx:81-86 | an append with a fresh id, below capacity, of a scored draft never re-locks an unlocked badge |
| `Profile.EcoMasterUnreachable` | components/Profile.tsx:86 | a history of at most 50 entries with scores in 0..100, scored by the points rule, totals at most 500 points, so Eco-Master stays locked |
| `Scanner.SummaryStats` | components/Scanner.tsx:46-64 | an empty history gives three zeros without dividing; otherwise each percentage is the rounded share of entries in exactly that category, and all lie in 0..100 |
| `Scanner.SummaryCountsBounded` | components/Scanner.tsx:51-57 | the three counted categories sum to the history length minus the General Waste count, so they never exceed the total |
| `Scanner.DataUri` | components/Scanner.tsx:82 | the data URI `data:<mime>;base64,<data>`; no contract, its use is stated by `HandleImageUpload` |
| `Scanner.DraftFor` | components/Scanner.tsx:90-94 | the object handed to the history: image, verdict and points `Math.round(score / 10)`; no contract, its use is stated by `HandleImageUpload` |
| `Scanner.ErrorText` | components/Scanner.tsx:97 | the error shown is the failure's message, or the default text when the message is empty; it is never empty |
| `Scanner.ScannerView.constructor` | components/Scanner.tsx:76-79 | the scanner starts with no image, no result, no error and not loading |
| `Scanner.ScannerView.HandleImageUpload` | components/Scanner.tsx:81-101 | the preview is set and loading ends. On success the result is set, the error is cleared and the history becomes `Append` of it with points = round(score/10). On failure only the error message is set, and the history is unchanged |
| `Scanner.ScannerView.ScanAgain` | components/Scanner.tsx:103-107 | result, image and error are cleared |
| `PullToRefresh.Step` | components/History.tsx:54-87 | the state after one handler or the timer; a refresh starts only when a pull past 80 is released, and only the timer ends one |
| `PullToRefresh.Run` | components/History.tsx:54-87 | the state after a sequence of events; without a touch end no refresh starts |
| `PullToRefresh.StepKeepsInv` | components/History.tsx:54-87 | every event preserves: pull >= 0, no pull start implies pull 0, refreshing implies no pull start |
| `PullToRefresh.RunKeepsInv` | components/History.tsx:40-87 | the invariant holds in every state reachable by any event sequence |
| `PullToRefresh.StartGuard` | components/History.tsx:54-58 | a touch start records the start position exactly when at top and not refreshing, and otherwise changes nothing |
| `PullToRefresh.RefreshingIgnoresTouches` | components/History.tsx:55-83 | while refreshing, start, move and end change nothing; only the timer changes the state, and it clears refreshing |
| `PullToRefresh.MoveRule` | components/History.tsx:60-74 | a move without a pull start changes nothing; a downward move sets the pull to half the distance from the start; an upward or zero move cancels the pull |
| `PullToRefresh.EndRule` | components/History.tsx:76-87 | touch end during a pull enters refreshing iff the pull exceeds 80, and always clears the start and the pull |
| `PullToRefresh.PullTracksLastMove` | components/History.tsx:63-69 | after any run of downward moves, the pull is half the last move's distance from the start, not an accumulated sum |
| `PullToRefresh.DragScenarios` | components/History.tsx:54-87 | a 200 px drag released from the top starts a refresh that the timer ends; a 100 px drag, or one not at the top, returns to idle |
| `PullToRefresh.PullState.constructor` | components/History.tsx:40-42 | the gesture starts idle: not refreshing, no start, pull 0 |
| `PullToRefresh.PullState.OnTouchStart` | components/History.tsx:54-58 | the fields become `Step` of the old fields under a touch start, and the invariant is kept |
| `PullToRefresh.PullState.OnTouchMove` | components/History.tsx:60-74 | the fields become `Step` of the old fields under a touch move, and the invariant is kept |
| `PullToRefresh.PullState.OnTouchEnd` | components/History.tsx:76-87 | the fields become `Step` of the old fields under a touch end, and the invariant is kept |
| `PullToRefresh.PullState.OnRefreshTimeout` | components/History.tsx:81-83 | the timer clears refreshing, and the invariant is kept |
| `NearbyCenters.WithDistances` | components/Map.tsx:55-58 | each centre is copied unchanged except for its attached distance from the user's position, in catalog order |
| `NearbyCenters.Key` | components/Map.tsx:60 | the comparator's key `distance ?? 0`; no contract |
| `NearbyCenters.Insert` | components/Map.tsx:60 | one step of the reference insertion sort; no contract, its properties are `InsertPermutes`, `InsertSorted`, `InsertStable` and `InsertAt` |
| `NearbyCenters.SortByKey` | components/Map.tsx:60 | the reference stable ascending sort; no contract, its properties are `SortByKeyCorrect` and `AnyStableSortAgrees` |
| `NearbyCenters.InsertPermutes` | components/Map.tsx:60 | inserting adds exactly the inserted centre |
| `NearbyCenters.SortByKeyPermutes` | components/Map.tsx:60 | the sort is a permutation |
| `NearbyCenters.InsertSorted` | components/Map.tsx:60 | inserting into a sorted list keeps it sorted |
| `NearbyCenters.WithKeySnoc` | components/Map.tsx:60 | adding a centre at the end adds it to its own key's group only |
| `NearbyCenters.InsertStable` | components/Map.tsx:60 | inserting places the new centre after every centre with an equal key |
| `NearbyCenters.SortByKeyCorrect` | components/Map.tsx:60 | the sort is ascending by distance, a permutation, and stable (equal distances keep their order) |
| `NearbyCenters.WithKeyMembers` | components/Map.tsx:60 | a key group holds only centres of the list with that key |
| `NearbyCenters.WithKeyOfLast` | components/Map.tsx:60 | the last centre's key group is not empty |
| `NearbyCenters.SortedPrefix` | components/Map.tsx:60 | dropping the last centre keeps a sorted list sorted, and the last centre has the largest key |
| `NearbyCenters.SameLastKey` | components/Map.tsx:60 | two sorted lists with the same key groups end in the same key |
| `NearbyCenters.SameOrderDropLast` | components/Map.tsx:60 | two lists with the same key groups and the same last key end in the same centre and agree per key before it |
| `NearbyCenters.StableSortUnique` | components/Map.tsx:60 | two sorted lists with the same key groups are equal |
| `NearbyCenters.AnyStableSortAgrees` | components/Map.tsx:60 | any sorted list with the input's key groups, which is what any stable sort produces, equals the reference sort |
| `NearbyCenters.InsertAt` | components/Map.tsx:60 | inserting places the centre after the last element whose key is not above its own |
| `NearbyCenters.InsertLeft` | components/Map.tsx:60 | one in-place insertion step turns the array prefix into the reference insertion of the next centre |
| `NearbyCenters.SortInPlace` | components/Map.tsx:60 | the in-place sort leaves the array equal to the reference stable sort of its old contents |
| `NearbyCenters.Rank` | components/Map.tsx:55-61 | the ranked list is the reference sort of the catalog with distances; it is sorted ascending, a permutation, and keeps catalog order among equal distances |
| `NearbyCenters.RankedAreCatalogCenters` | components/Map.tsx:29-34 | ranking returns four centres; each is a catalog centre with its own distance attached, and every catalog centre appears |
| `NearbyCenters.MapView.constructor` | components/Map.tsx:37-40 | the screen starts loading, with no location, no error and no centres |
| `NearbyCenters.MapView.Locate` | components/Map.tsx:42-68 | loading always ends. Without geolocation support or when the position request fails (refused, unavailable or timed out), the matching error is set and the centre list is unchanged (empty from the start). With a position, the location is set and the list becomes the ranked catalog |

## Left out

- The great-circle distance (`components/Map.tsx:17-27`) needs floating point and trigonometry. It is a parameter `distance: (Coordinates, Coordinates) -> real`, and nothing is proved about its values.
- The classifier call (`services/geminiService.ts`) is a network request plus JSON parsing. Its outcome is a parameter (`AnalysisOutcome`). Its 0..100 score range is never checked, so it appears as a precondition wherever a property needs it: `ScoreInRange`, or the bound `recyclabilityScore <= 100` where only the upper end matters.
- The id and timestamp come from the clock and `Math.random` (`App.tsx:19-20`). They are parameters, and id uniqueness is a precondition where needed.
- Persistence of the history in local storage is not modelled: `hooks/useLocalStorage` is not part of this model. Storage errors and corrupt stored state are not modelled either.
- Image reading and base64 encoding (`components/ImageUploader.tsx`) are out of scope. The scanner receives the base64 text and MIME type as parameters.
- The geolocation API itself is out of scope; only its three outcomes are modelled (unsupported, any position error, a position).
- `window.scrollY === 0` is the boolean `atTop` of a touch start.
- The 1500 ms `setTimeout` is the explicit `RefreshTimeout` event. `preventDefault` is not modelled.
- `Scanner.ScannerView.HandleImageUpload`: the awaited classifier call (`components/Scanner.tsx:84-99`) is modelled as one step. The window in which `isLoading` is true, which the uploader uses to block a second upload (`components/ImageUploader.tsx:42`), never shows in the model.
- React batches state updates and handlers read the state of the last render. The model assumes that each event sees the state left by the previous one.
- Floating point is not modelled. Scores, points and counts are unbounded integers, and pull positions are exact reals. For percentages, `Math.round(count / total * 100)` is computed exactly. Where the float product lands just beside a .5, the app's result may differ by one. Within 50 entries this happens for 23 of 40: as a double, (23 / 40) * 100 is 57.49999999999999, so the app shows 57 where the model gives 58.
- Theme handling, all rendering, the donut chart's float percentages, score colours and the refresh icon's rotation are out of scope.
- `Profile.PrependNeverRelocks`: states monotonicity only for a prepend without truncation. When an append evicts the oldest entry, Perfect Score and Recycling Pro can re-lock.
