# Property discovery and comparison pages: a Dafny model

This project models the session logic of three React pages in a real-estate
web front end.

- **Explore page.** The catalog is filtered to the map viewport. Until the
  first viewport arrives, the whole catalog is shown. Viewport events go
  through a 200 ms single-slot debounce. Marker clicks and list-card clicks
  write the same selection: the selected property and the highlighted key.
- **Compare page.** The comparison set holds at most three properties, unique
  by `_id`, and supports remove-last. The catalog search client debounces
  for 300 ms, short-circuits blank queries and keeps at most ten results.
  The investment highlights come from a remote analysis call; when that
  call fails, three left-to-right reductions stand in for it.
- **Analytics page.** The recommendation checkboxes keep at most three
  selected cards with distinct ids. The compared-location list supports
  Add Location (with cyclic chart colours) and Remove City. The chart
  merges the per-location series into one row per year. The risk badge
  classes are a fixed switch.

Each page is a class whose fields are the page's React state (`useState`
values and the debounce `useRef` slot). Each event handler is a method whose
`ensures` gives the new state in terms of the old one. The list
manipulations the handlers perform (`filter`, `reduce`, `find`, `slice`,
`map`) are pure functions. Lemmas state what the pages promise about those
functions.

Conventions:

- JavaScript values are modelled explicitly.
  - A number field is `Option<real>`, where `None` is `undefined`. It is
    truthy unless missing or 0.
  - A text field is `Option<string>`. It is truthy unless missing or empty.
  - `a || b` picks the first truthy operand.
- The record's `_id` is the field `objectId`, and its `yield` is
  `yieldRate`: Dafny identifiers cannot start with `_`, and `yield` is a
  keyword.
- `highlightedPropertyId` distinguishes React's initial `null` (outer `None`)
  from a highlighted key that is itself `undefined` (`Some(None)`). This
  matters because `null !== undefined`.
- A debounce channel is a `Debounce.Slot`: `Idle`, or `Pending(v)`
  for the one live timer. Scheduling overwrites the slot. The delay running
  out is an `Elapsed` event, not clock time.
- Network results are method parameters. A fetch or search result is
  `Option<seq<Property>>`, with `None` for a failed request. A ranking result
  is `RankingOutcome`, either `Ranked(payload)` or `RankingFailed`.
  `Date.now()` is a `stamp` parameter.

Modules, one file each:

| module | file |
|---|---|
| `Wrappers` | `wrappers.dfy` |
| `Seqs` (generic filter, subsequence, slice facts) | `seqs.dfy` |
| `Debounce` | `debounce.dfy` |
| `Listing` (the property record and its coalescing rules) | `listing.dfy` |
| `ExplorePage` | `explore.dfy` |
| `ComparePage` | `compare.dfy` |
| `AnalyticsPage` | `analytics.dfy` |

In several places the code behaves differently from what the pages appear
meant to do. The model follows the code:

- Metrics are coalesced with `||`, not `??`, so a metric of 0 falls through
  to the next field (`Listing.FirstNumOrZero`).
- The visible list is not always part of the catalog: when the catalog
  becomes empty, the previous list stays on screen
  (`ExplorePage.StaleListWhenCatalogEmpties`). For example, a search that
  returns nothing still shows the earlier results.
- The fallback recommendation has a default to the best-ROI property for
  when its reduction yields no candidate. That branch can never be taken:
  `reduce` without an initial value returns a list element, and objects are
  truthy. `ComparePage.FallbackPicksEarliestMaxima` shows the recommendation
  is always the earliest element with the highest score.
- The comparison set can only be shortened by remove-last; there is no
  remove-by-id.
- The comparison set is seeded from navigation state without any check, so
  "at most three, unique by `_id`" is only what `add` and remove-last keep,
  not what holds from the start. The analytics page is the only source of
  a seed (frontend/src/pages/AnalyticsPage.jsx:773). Its recommendation
  objects carry no `_id`, so a seed of two or more entries already has two
  entries with the same (missing) `_id`.
- The map recenters when a property with a `coordinates` object becomes
  selected, even if its `lat` or `lng` is missing or 0
  (`ExplorePage.Recenter`).
- Re-clicking the property that is already selected does not recenter the
  map. The marker or card hands over the same object, React keeps the state
  as it is, and `MapController`'s effect does not rerun. After the user pans
  away, a re-click leaves the map where it is
  (`ExplorePage.ExploreSession.MarkerClick`).
- Every added location carries the page's current `priceTrends.data`
  (frontend/src/pages/AnalyticsPage.jsx:589), not a series of its own. For
  each timeframe that holds the first location's series
  (frontend/src/pages/AnalyticsPage.jsx:95-102), so the merged chart shows
  the same series under every compared name. The model follows the code:
  `AnalyticsPage.AddLocation` gives the new entry the current series.

## Model

| member | source | states |
|---|---|---|
| `Listing.FirstNumOrZero` | frontend/src/pages/ComparePage.jsx:262-263 | the coalescing `a`-or-`b`-or-0 is the first truthy number, else 0; the result is non-zero exactly when one operand is truthy, so a 0 falls through |
| `Listing.DisplayName` | frontend/src/pages/ComparePage.jsx:281 | the name is the first non-empty of `projectName` and `title`, else `'Property'`; never empty |
| `ExplorePage.VisibleInIsViewportSubsequence` | frontend/src/pages/ExplorePage.jsx:73-80 | the viewport filter is a subsequence of the catalog (catalog order kept), holds exactly the entries with truthy `lat` and `lng` inside the bounds, each as many times as in the catalog |
| `ExplorePage.ZeroCoordinateNeverVisible` | frontend/src/pages/ExplorePage.jsx:74 | an entry whose `lat` or `lng` is 0 is neither listed nor given a marker |
| `ExplorePage.VisibleInThroughMarkers` | frontend/src/pages/ExplorePage.jsx:203-206 | the viewport list equals the marker list narrowed to the bounds, so every listed entry has a marker (both use the same coordinate test) |
| `ExplorePage.MarkersAreUsableEntries` | frontend/src/pages/ExplorePage.jsx:203-206 | markers are produced for exactly the catalog entries with truthy coordinates, in catalog order |
| `ExplorePage.VisibleAfterEffect` | frontend/src/pages/ExplorePage.jsx:105-112 | for a non-empty catalog the visible list is the whole catalog while bounds are unknown and the filtered list once they are known; for an empty catalog it is left unchanged |
| `ExplorePage.DisplayedWithinCatalog` | frontend/src/pages/ExplorePage.jsx:69-83 | with no bounds the displayed list is the catalog; it always lies within the catalog; with bounds every displayed entry has usable coordinates |
| `ExplorePage.StaleListWhenCatalogEmpties` | frontend/src/pages/ExplorePage.jsx:106-111 | for every non-empty old list, an empty catalog leaves an entry on screen that is not in the catalog |
| `ExplorePage.Recenter` | frontend/src/pages/ExplorePage.jsx:20-24 | the recenter target when the selection changes: there is one exactly when a property is selected and has `coordinates`, at that `(lat, lng)` and zoom 15 |
| `ExplorePage.AtMostOneHighlightedKey` | frontend/src/pages/ExplorePage.jsx:289-290 | the highlighted cards share at most one key, and before any click (`null`) none is highlighted |
| `ExplorePage.ClickHighlightsClickedCard` | frontend/src/pages/ExplorePage.jsx:125-127 | after a click on a listed property its card is highlighted, and the highlighted keys are exactly its key (`_id`, or `id` when `_id` is falsy) |
| `ExplorePage.ExploreSession.constructor` | frontend/src/pages/ExplorePage.jsx:57-66 | empty catalog and list, bounds unknown, nothing selected, no pending timer |
| `ExplorePage.ExploreSession.RunVisibleEffect` | frontend/src/pages/ExplorePage.jsx:105-112 | the visible list becomes the effect's result for the current bounds and catalog |
| `ExplorePage.ExploreSession.ReceiveCatalog` | frontend/src/pages/ExplorePage.jsx:86-97 | a successful fetch replaces the catalog and reruns the effect; a failed one changes nothing; bounds, timer and selection are untouched |
| `ExplorePage.ExploreSession.BoundsChanged` | frontend/src/pages/ExplorePage.jsx:114-123 | the pending timer is replaced by one holding the new bounds; nothing else changes |
| `ExplorePage.ExploreSession.BoundsTimerElapsed` | frontend/src/pages/ExplorePage.jsx:120-122 | a pending timer commits its bounds to `mapBounds` and reruns the effect; with no pending timer nothing changes; the slot ends idle |
| `ExplorePage.ExploreSession.Dispose` | frontend/src/pages/ExplorePage.jsx:153-159 | unmount clears the pending bounds timer |
| `ExplorePage.ExploreSession.Select` | frontend/src/pages/ExplorePage.jsx:125-127 | `selectedProperty` becomes the property and `highlightedPropertyId` its key (`_id`, or `id` when `_id` is falsy); re-selecting the selected property leaves the highlight unchanged |
| `ExplorePage.VisibleIn` | frontend/src/pages/ExplorePage.jsx:73-80 | the viewport list is no longer than the catalog and every entry in it has usable coordinates inside the bounds |
| `ExplorePage.Markers` | frontend/src/pages/ExplorePage.jsx:203-206 | the marker list is no longer than the catalog and every marker has usable coordinates |
| `ExplorePage.FilterVisibleProperties` | frontend/src/pages/ExplorePage.jsx:69-83 | with no bounds the visible list is left alone; with bounds it is within the catalog's size and every entry is in view |
| `ExplorePage.ListKey` | frontend/src/pages/ExplorePage.jsx:127 | the key is `_id` when that is truthy, else `id`; it is truthy exactly when one of the two is |
| `ExplorePage.IsHighlighted` | frontend/src/pages/ExplorePage.jsx:289-290 | before any click (`null`) no card is highlighted; a highlighted card's key is the highlighted value |
| `ExplorePage.ScrollTarget` | frontend/src/pages/ExplorePage.jsx:129-132 | a card is scrolled to exactly when a listed card has the clicked property's key, and then it is that key |
| `ExplorePage.ExploreSession.MarkerClick` | frontend/src/pages/ExplorePage.jsx:125-133 | the shared selection write, returning the scroll target among the listed cards and the recenter target, which is none when the clicked property was already selected |
| `ExplorePage.ExploreSession.CardClick` | frontend/src/pages/ExplorePage.jsx:135-146 | the same selection write and recenter target as a marker click, returning the scroll target looked up at the click (the 500 ms delay is left out) |
| `Debounce.Step` | frontend/src/pages/ExplorePage.jsx:116-122 | a value is delivered exactly when the delay elapses on a pending timer, and it is that timer's value; the slot is pending exactly after a schedule, with the scheduled value |
| `Debounce.BurstLeavesLastPending` | frontend/src/pages/ExplorePage.jsx:116-122 | a burst of scheduling events delivers nothing and leaves only the last value pending |
| `Debounce.BurstDeliversLast` | frontend/src/pages/ComparePage.jsx:41-47 | a burst followed by the delay running out delivers exactly one value, the burst's last |
| `Debounce.DeliveriesBounded` | frontend/src/pages/ComparePage.jsx:45-47 | over any event sequence there are no more deliveries than elapsed delays |
| `Debounce.CancelDeliversNothing` | frontend/src/pages/ComparePage.jsx:61-67 | after a cancel, an elapsed delay delivers nothing |
| `ComparePage.AddToComparison` | frontend/src/pages/ComparePage.jsx:52-53 | the list gains the property at the end exactly when it has fewer than 3 entries and none with the same `_id`; otherwise it is unchanged |
| `ComparePage.AddKeepsWellFormed` | frontend/src/pages/ComparePage.jsx:52-53 | adding keeps the set at most 3 long and unique by `_id` |
| `ComparePage.AddIsIdempotent` | frontend/src/pages/ComparePage.jsx:52 | adding the same property again changes nothing |
| `ComparePage.RemoveLastUndoesAdd` | frontend/src/pages/ComparePage.jsx:327-331 | remove-last after a successful add restores the previous set |
| `ComparePage.RemoveLastKeepsWellFormed` | frontend/src/pages/ComparePage.jsx:327-331 | remove-last keeps the set within capacity and unique by `_id` |
| `ComparePage.SearchResults` | frontend/src/pages/ComparePage.jsx:16-34 | a blank query or a failed request gives no results; a successful one gives the first min(10, n) entries of the response in order |
| `Listing.RoiMetric` | frontend/src/pages/ComparePage.jsx:262-263 | non-zero exactly when `projectedReturn` or `roi` is truthy; `projectedReturn` wins when truthy |
| `Listing.YieldMetric` | frontend/src/pages/ComparePage.jsx:268-269 | non-zero exactly when `rentalYield` or `yield` is truthy; `rentalYield` wins when truthy |
| `Listing.ScoreMetric` | frontend/src/pages/ComparePage.jsx:274-275 | non-zero exactly when `score` or `investmentScore` is truthy; `score` wins when truthy |
| `ComparePage.ReduceBest` | frontend/src/pages/ComparePage.jsx:261-277 | the reduction returns one of its elements, whose metric is at least that of every element |
| `ComparePage.ArgBest` | frontend/src/pages/ComparePage.jsx:261-265 | the position of the earliest element with the largest metric of a non-empty list |
| `ComparePage.EarliestMaximumIsUnique` | frontend/src/pages/ComparePage.jsx:264 | with strict `>` the winner is determined: only one position is both maximal and strictly better than all earlier ones |
| `ComparePage.ReduceFindsEarliestMaximum` | frontend/src/pages/ComparePage.jsx:261-277 | the `reduce` with strict `>` returns the element at the earliest maximum |
| `ComparePage.RoiText` | frontend/src/pages/ComparePage.jsx:282 | `'N/A'` exactly when the coalesced ROI is 0, otherwise that ROI with `%` |
| `ComparePage.YieldText` | frontend/src/pages/ComparePage.jsx:286 | `'N/A'` exactly when the coalesced yield is 0, otherwise that yield with `%` |
| `ComparePage.FallbackHighlights` | frontend/src/pages/ComparePage.jsx:259-291 | the local fallback's names are never empty and a shown percentage is never 0 (the earliest-maxima statement is `ComparePage.FallbackPicksEarliestMaxima`) |
| `ComparePage.MetricTextsAgreeWithMetrics` | frontend/src/pages/ComparePage.jsx:282-286 | the `value` text is `'N/A'` exactly when the coalesced metric is 0, otherwise that metric followed by `%` |
| `ComparePage.FallbackPicksEarliestMaxima` | frontend/src/pages/ComparePage.jsx:261-291 | the local fallback names the earliest best ROI, yield and score elements, with their metric texts; the recommendation is always a list element |
| `ComparePage.RankingIdsAreTheKeys` | frontend/src/pages/ComparePage.jsx:247 | the requested ids are exactly the truthy `id`-or-`_id` keys of the elements that have one, one per such element, in list order |
| `ComparePage.RankingIds` | frontend/src/pages/ComparePage.jsx:247 | the requested ids are the non-empty keys (`id`, or `_id` when `id` is falsy), and there are none exactly when no element has one |
| `ComparePage.RankingRequest` | frontend/src/pages/ComparePage.jsx:241-251 | no request exactly when no element has a truthy `id`-or-`_id` (including the empty set); otherwise the non-empty list of those ids |
| `ComparePage.Highlights` | frontend/src/pages/ComparePage.jsx:239-296 | no highlights exactly when no request is made; otherwise the payload on success and the local fallback on failure |
| `ComparePage.HighlightsCases` | frontend/src/pages/ComparePage.jsx:241-291 | no request and no highlights exactly for an empty set or one without truthy ids; otherwise the remote payload verbatim, or the local fallback on failure |
| `ComparePage.FallbackExampleSecondWins` | frontend/src/pages/ComparePage.jsx:261-265 | for candidates with ROI 8 and 12 the failed-call fallback names the second as best ROI, with `12%` |
| `ComparePage.CompareSession.constructor` | frontend/src/pages/ComparePage.jsx:8-13 | the set is the navigation seed or empty; empty query and results, modal closed, no timer, no highlights |
| `ComparePage.CompareSession.AddPropertyToComparison` | frontend/src/pages/ComparePage.jsx:51-58 | the new set is the add result and stays well formed; a successful add closes the modal and clears query and results; a refused add touches none of them |
| `ComparePage.CompareSession.RemoveLast` | frontend/src/pages/ComparePage.jsx:327-331 | the last entry is dropped when there is one and the set stays well formed |
| `ComparePage.CompareSession.OpenSearchModal` | frontend/src/pages/ComparePage.jsx:312-316 | the search opens only while fewer than 3 are compared |
| `ComparePage.CompareSession.CloseSearchModal` | frontend/src/pages/ComparePage.jsx:356 | the search modal is closed |
| `ComparePage.CompareSession.SearchChange` | frontend/src/pages/ComparePage.jsx:37-48 | the query is recorded and the pending search replaced by one for this query |
| `ComparePage.CompareSession.SearchProperties` | frontend/src/pages/ComparePage.jsx:16-34 | a blank query clears the results without a request; otherwise the query is requested, the results follow the response, and `isSearching` ends false |
| `ComparePage.CompareSession.SearchTimerElapsed` | frontend/src/pages/ComparePage.jsx:45-47 | the pending search, if any, runs with its own query, and `isSearching` ends false unless the query was blank; the slot ends idle |
| `ComparePage.CompareSession.Dispose` | frontend/src/pages/ComparePage.jsx:61-67 | unmount clears the pending search timer |
| `ComparePage.CompareSession.RefreshHighlights` | frontend/src/pages/ComparePage.jsx:239-296 | the highlights become the result for the current set and outcome; an empty set gives none and makes no request |
| `AnalyticsPage.Toggle` | frontend/src/pages/AnalyticsPage.jsx:726-733 | a checked card ends unchecked and the list shrinks; an unchecked card ends checked exactly when fewer than 3 were selected |
| `AnalyticsPage.ToggleKeepsWellFormed` | frontend/src/pages/AnalyticsPage.jsx:726-733 | a toggle keeps at most 3 selections with distinct ids; unchecking removes exactly the entries with that id and keeps the others in order; an unchecked card is appended with room, else nothing changes |
| `AnalyticsPage.ToggleTwiceRestores` | frontend/src/pages/AnalyticsPage.jsx:729-731 | checking an unchecked card with room and unchecking it again restores the selection |
| `AnalyticsPage.ColorFor` | frontend/src/pages/AnalyticsPage.jsx:584-588 | a new location's colour is a palette entry, chosen by list length modulo 5 |
| `AnalyticsPage.FirstUncompared` | frontend/src/pages/AnalyticsPage.jsx:580-582 | the earliest available location whose name is not yet compared, or none exactly when all are compared |
| `AnalyticsPage.AddLocation` | frontend/src/pages/AnalyticsPage.jsx:579-592 | the list is unchanged or grows by one entry at the end: a non-empty available name not yet compared, with its position's colour and the current series |
| `AnalyticsPage.AddLocationAppendsFirstUncompared` | frontend/src/pages/AnalyticsPage.jsx:579-592 | Add Location appends that first uncompared location with the colour of its position; it changes nothing exactly when there is none or its name is empty (falsy) |
| `AnalyticsPage.AddLocationKeepsWellFormed` | frontend/src/pages/AnalyticsPage.jsx:599 | a click while the button is enabled keeps names unique, at most 5 entries, and each colour that of its position |
| `AnalyticsPage.RemoveCityKeepsWellFormed` | frontend/src/pages/AnalyticsPage.jsx:562-566 | Remove City keeps names unique, at most 5 entries, and colours by position |
| `AnalyticsPage.RemoveCityUndoesAdd` | frontend/src/pages/AnalyticsPage.jsx:562-566 | Remove City undoes an Add Location that added something |
| `AnalyticsPage.ComparedColorsDistinct` | frontend/src/pages/AnalyticsPage.jsx:584-588 | in a well-formed list no two locations share a colour |
| `AnalyticsPage.TimeframeKey` | frontend/src/pages/AnalyticsPage.jsx:280 | the key is the prefix of the timeframe before its first space, and holds no space |
| `AnalyticsPage.TimeframeKeyExamples` | frontend/src/pages/AnalyticsPage.jsx:546 | `'5 Years'`, `'10 Years'` and `'20 Years'` give `'5'`, `'10'` and `'20'` |
| `AnalyticsPage.FindYear` | frontend/src/pages/AnalyticsPage.jsx:287 | the earliest point of the series with the given year, or none exactly when no point has it |
| `AnalyticsPage.FillRow` | frontend/src/pages/AnalyticsPage.jsx:286-291 | filling a row never drops a name, and every name it adds belongs to a compared location |
| `AnalyticsPage.FillRowKeys` | frontend/src/pages/AnalyticsPage.jsx:286-291 | a row holds a name exactly when some compared location of that name has the year |
| `AnalyticsPage.FillRowValue` | frontend/src/pages/AnalyticsPage.jsx:286-291 | with distinct names, a location's entry in the row is the price of its point for that year |
| `AnalyticsPage.CombinedChartData` | frontend/src/pages/AnalyticsPage.jsx:279-302 | merged rows exactly while locations are compared, one per point of the first location's series; otherwise the timeframe's series (empty when missing) |
| `AnalyticsPage.CombinedChartDataSpec` | frontend/src/pages/AnalyticsPage.jsx:279-302 | with compared locations, one row per point of the first location's series, in order, each mapping the names that have that year to their price; otherwise the timeframe's trend series, or empty |
| `AnalyticsPage.RiskColor` | frontend/src/pages/AnalyticsPage.jsx:269-277 | total; the gray default exactly for levels other than Low, Medium, High and Stable |
| `AnalyticsPage.RiskColorsDistinct` | frontend/src/pages/AnalyticsPage.jsx:270-274 | the four known levels get four different classes |
| `AnalyticsPage.AnalyticsSession.constructor` | frontend/src/pages/AnalyticsPage.jsx:15-49 | nothing selected or compared, no locations, timeframe `'5 Years'`, empty series for `'5'`, `'10'`, `'20'` |
| `AnalyticsPage.AnalyticsSession.TrendsLoaded` | frontend/src/pages/AnalyticsPage.jsx:91-104 | available locations and the trend series become the loaded ones |
| `AnalyticsPage.AnalyticsSession.SetTimeframe` | frontend/src/pages/AnalyticsPage.jsx:549 | the timeframe becomes the clicked period |
| `AnalyticsPage.AnalyticsSession.ToggleRecommendation` | frontend/src/pages/AnalyticsPage.jsx:726-733 | the selection becomes the toggle result and stays well formed |
| `AnalyticsPage.AnalyticsSession.AddLocationClicked` | frontend/src/pages/AnalyticsPage.jsx:577-598 | the compared list becomes the Add Location result (which skips an empty name); well formedness is kept when the button is enabled |
| `AnalyticsPage.AnalyticsSession.RemoveCity` | frontend/src/pages/AnalyticsPage.jsx:562-566 | the last compared location is dropped when there is one, keeping the invariant |

## Left out

- Network calls (`axios`, `Promise.all`) are not modelled. Their outcomes are
  method parameters. A search or highlight request is modelled as one atomic
  step, so the "Searching..." state in between is not observable.
- The overlap of highlight requests is not modelled. Each
  `RefreshHighlights` call overwrites the previous answer, so the last
  answer to be applied wins; the order in which answers arrive is up to the
  caller. The caller also runs `RefreshHighlights` after each change to the
  comparison set, as React runs the effect.
- The shape of the remote highlight payload is taken to be a
  `HighlightSummary`. The server's real payload is the server's concern.
- Clock time is not modelled: debounce delays are `Elapsed` events.
  `Date.now()` is a parameter. The 500 ms scroll delay after a card click is
  not modelled. `CardClick` looks up the card to scroll to in the list as
  it is at the click, not 500 ms later.
- DOM and Leaflet calls are not modelled: `scrollIntoView`, `setView`, map
  and marker set-up, and `getBounds`. The click methods return the scroll
  target and the recenter target.
- `ExplorePage.ExploreSession.MarkerClick` and `CardClick` decide whether the
  selection changed by comparing the property's value, where React compares
  object identity. The two agree only until the catalog is fetched again.
  A new search (frontend/src/pages/ExplorePage.jsx:99-102) installs new
  objects while `selectedProperty` keeps the old one. A click on the same
  listing then passes an equal but different object: React reruns
  `MapController`'s effect and recenters, while the model returns no
  recenter target.
- Leaflet's own `LatLngBounds.contains` is not modelled. The bounds are an
  inclusive rectangle, with no wrap-around at the antimeridian.
- JavaScript numbers are `real`. NaN, and metrics delivered as strings, are
  not modelled.
- `MetricText` keeps the number itself rather than the text of
  `` `${x}%` ``, because number-to-text conversion is not modelled.
- The trend fetch's aggregation is not modelled: the `Math.round` of
  prices, the growth percentages and the `Object.keys` order.
  `TrendsLoaded` takes the already-aggregated locations and series. The fetch
  keeps only truthy location names (frontend/src/pages/AnalyticsPage.jsx:79),
  but `TrendsLoaded` accepts any, so `AddLocation` also models the skip of an
  empty name.
- Navigation is not modelled: the explore search form, the View Details
  buttons and report routing.
- The PDF report is not modelled. It uses a foreign library with
  floating-point layout arithmetic.
- JSX rendering and styling are not modelled.
- The dashboard, admin and property-detail pages, the inquiry route and the
  inquiry schema are not part of this model. They are I/O and forms.
- `AnalyticsPage.CombinedChartDataSpec`: gives the per-location price only
  for compared lists with distinct names. Add Location keeps names
  distinct. With duplicate names the later location overwrites the
  earlier one, and a location named `year` would overwrite the row's year.
  Neither case is stated.
- `AnalyticsPage.FillRowValue`: needs distinct names, for the same reason.
