/** The compare page: a comparison set of at most three properties, a debounced
    catalog search to add to it, and the investment highlights computed for it. */
module ComparePage {
  import opened Wrappers
  import opened Seqs
  import opened Listing
  import Debounce

  const Capacity: nat := 3
  const MaxSearchResults: nat := 10

  // ---------------------------------------------------------------- comparison set

  function ObjectIdOf(p: Property): Option<string> {
    p.objectId
  }

  /** `properties.find(p => p._id === property._id)` finds something. Two missing
      `_id`s are equal (`undefined === undefined`). */
  predicate HasSameObjectId(list: seq<Property>, p: Property) {
    exists i :: 0 <= i < |list| && list[i].objectId == p.objectId
  }

  predicate CanAdd(list: seq<Property>, p: Property) {
    |list| < Capacity && !HasSameObjectId(list, p)
  }

  /** The comparison set invariant: at most three entries, no two with the same `_id`. */
  predicate WellFormedSet(list: seq<Property>) {
    |list| <= Capacity && UniqueBy(list, ObjectIdOf)
  }

  /** `addPropertyToComparison` on the list: append when there is room and the `_id`
      is new; otherwise the list is unchanged. */
  function AddToComparison(list: seq<Property>, p: Property): (r: seq<Property>)
    ensures r == list + [p] <==> CanAdd(list, p)
    ensures r == list <==> !CanAdd(list, p)
  {
    if CanAdd(list, p) then list + [p] else list
  }

  /** Adding keeps the set well formed. */
  lemma AddKeepsWellFormed(list: seq<Property>, p: Property)
    requires WellFormedSet(list)
    ensures WellFormedSet(AddToComparison(list, p))
  {
    if CanAdd(list, p) {
      var r := list + [p];
      forall i, j | 0 <= i < j < |r| ensures ObjectIdOf(r[i]) != ObjectIdOf(r[j]) {
        if j == |list| {
          assert r[i] == list[i];
          assert !(list[i].objectId == p.objectId);
        } else {
          assert r[i] == list[i] && r[j] == list[j];
        }
      }
    }
  }

  /** Adding the same property twice is the same as adding it once. */
  lemma AddIsIdempotent(list: seq<Property>, p: Property)
    ensures AddToComparison(AddToComparison(list, p), p) == AddToComparison(list, p)
  {
    if CanAdd(list, p) {
      var r := list + [p];
      assert r[|list|].objectId == p.objectId;
      assert HasSameObjectId(r, p);
    }
  }

  /** Removing the last entry undoes a successful add, and keeps the set well formed. */
  lemma RemoveLastUndoesAdd(list: seq<Property>, p: Property)
    requires CanAdd(list, p)
    ensures DropLast(AddToComparison(list, p)) == list
  {
    DropLastAppend(list, p);
  }

  lemma RemoveLastKeepsWellFormed(list: seq<Property>)
    requires WellFormedSet(list)
    ensures WellFormedSet(DropLast(list))
  {
    var r := DropLast(list);
    forall i, j | 0 <= i < j < |r| ensures ObjectIdOf(r[i]) != ObjectIdOf(r[j]) {
      assert r[i] == list[i] && r[j] == list[j];
    }
  }

  // ---------------------------------------------------------------- search client

  /** The characters `String.prototype.trim` removes: white space and line terminators. */
  predicate IsJsWhitespace(c: char) {
    c == '\U{0009}' || c == '\U{000A}' || c == '\U{000B}' || c == '\U{000C}' || c == '\U{000D}' ||
    c == '\U{0020}' || c == '\U{00A0}' || c == '\U{1680}' || ('\U{2000}' <= c <= '\U{200A}') ||
    c == '\U{2028}' || c == '\U{2029}' || c == '\U{202F}' || c == '\U{205F}' || c == '\U{3000}' ||
    c == '\U{FEFF}'
  }

  /** `!query.trim()`: nothing but white space. */
  predicate IsBlank(query: string) {
    forall i :: 0 <= i < |query| ==> IsJsWhitespace(query[i])
  }

  /** The results `searchProperties` leaves: none for a blank query, the first ten
      entries of a successful response, none after a failure (`None`). */
  function SearchResults(query: string, response: Option<seq<Property>>): (r: seq<Property>)
    ensures IsBlank(query) || response.None? ==> r == []
    ensures !IsBlank(query) && response.Some? ==>
      |r| == Min(MaxSearchResults, |response.value|) &&
      forall i :: 0 <= i < |r| ==> r[i] == response.value[i]
  {
    if IsBlank(query) then []
    else match response
      case Some(data) => Take(data, MaxSearchResults)
      case None => []
  }

  // ---------------------------------------------------------------- highlights

  /** `left.reduce((best, current) => m(current) > m(best) ? current : best)` after its
      first element: strict `>`, so a later tie never replaces the candidate. */
  function ReduceBest(best: Property, rest: seq<Property>, metric: Property -> real): (r: Property)
    ensures r == best || r in rest
    ensures metric(best) <= metric(r)
    ensures forall j :: 0 <= j < |rest| ==> metric(rest[j]) <= metric(r)
    decreases |rest|
  {
    if rest == [] then best
    else ReduceBest(if metric(rest[0]) > metric(best) then rest[0] else best, rest[1..], metric)
  }

  /** `k` is the earliest position holding the largest metric. */
  predicate IsEarliestMaximum(s: seq<Property>, metric: Property -> real, k: nat) {
    k < |s| &&
    (forall j :: 0 <= j < |s| ==> metric(s[j]) <= metric(s[k])) &&
    (forall j :: 0 <= j < k ==> metric(s[j]) < metric(s[k]))
  }

  /** The earliest maximum of `s[..i]` grown to all of `s`. */
  function ArgBestFrom(s: seq<Property>, metric: Property -> real, best: nat, i: nat): (k: nat)
    requires best < i <= |s|
    requires forall j :: 0 <= j < i ==> metric(s[j]) <= metric(s[best])
    requires forall j :: 0 <= j < best ==> metric(s[j]) < metric(s[best])
    ensures best <= k < |s|
    ensures IsEarliestMaximum(s, metric, k)
    decreases |s| - i
  {
    if i == |s| then best
    else ArgBestFrom(s, metric, if metric(s[i]) > metric(s[best]) then i else best, i + 1)
  }

  /** The position of the earliest maximum of a non-empty list. */
  function ArgBest(s: seq<Property>, metric: Property -> real): (k: nat)
    requires |s| > 0
    ensures IsEarliestMaximum(s, metric, k)
  {
    ArgBestFrom(s, metric, 0, 1)
  }

  /** There is only one earliest maximum. */
  lemma EarliestMaximumIsUnique(s: seq<Property>, metric: Property -> real, k: nat, k': nat)
    requires IsEarliestMaximum(s, metric, k) && IsEarliestMaximum(s, metric, k')
    ensures k == k'
  {
    var mk, mk' := metric(s[k]), metric(s[k']);
    assert mk <= mk' && mk' <= mk;
    assert k < k' ==> mk < mk';
    assert k' < k ==> mk' < mk;
  }

  /** One step of the reduction. */
  lemma ReduceBestStep(best: Property, rest: seq<Property>, metric: Property -> real)
    requires rest != []
    ensures ReduceBest(best, rest, metric) ==
      ReduceBest(if metric(rest[0]) > metric(best) then rest[0] else best, rest[1..], metric)
  {
  }

  lemma {:induction false} ReduceBestFrom(s: seq<Property>, metric: Property -> real, best: nat, i: nat)
    requires best < i <= |s|
    requires forall j :: 0 <= j < i ==> metric(s[j]) <= metric(s[best])
    requires forall j :: 0 <= j < best ==> metric(s[j]) < metric(s[best])
    ensures ReduceBest(s[best], s[i..], metric) == s[ArgBestFrom(s, metric, best, i)]
    decreases |s| - i
  {
    if i < |s| {
      var next := if metric(s[i]) > metric(s[best]) then i else best;
      assert s[i..][0] == s[i] && s[i..][1..] == s[i + 1..];
      ReduceBestStep(s[best], s[i..], metric);
      ReduceBestFrom(s, metric, next, i + 1);
    }
  }

  /** The reduction picks the earliest element with the largest metric. */
  lemma ReduceFindsEarliestMaximum(s: seq<Property>, metric: Property -> real)
    requires |s| > 0
    ensures ReduceBest(s[0], s[1..], metric) == s[ArgBest(s, metric)]
    ensures IsEarliestMaximum(s, metric, ArgBest(s, metric))
  {
    ReduceBestFrom(s, metric, 0, 1);
  }

  /** `'N/A'` or `` `${amount}%` ``. */
  datatype MetricText = NotAvailable | Percent(amount: real)

  datatype Pick = Pick(name: string, value: MetricText)

  datatype HighlightSummary = HighlightSummary(bestROI: Pick, bestYield: Pick, recommendation: string)

  /** `projectedReturn || roi ? `${projectedReturn || roi}%` : 'N/A'`. */
  function RoiText(p: Property): (t: MetricText)
    ensures t.NotAvailable? <==> RoiMetric(p) == 0.0
    ensures t.Percent? ==> t.amount == RoiMetric(p)
  {
    var v := OrNum(p.projectedReturn, p.roi);
    if TruthyNum(v) then Percent(v.value) else NotAvailable
  }

  /** `rentalYield || yield ? `${rentalYield || yield}%` : 'N/A'`. */
  function YieldText(p: Property): (t: MetricText)
    ensures t.NotAvailable? <==> YieldMetric(p) == 0.0
    ensures t.Percent? ==> t.amount == YieldMetric(p)
  {
    var v := OrNum(p.rentalYield, p.yieldRate);
    if TruthyNum(v) then Percent(v.value) else NotAvailable
  }

  /** The local calculation used when the remote analysis call fails. */
  function FallbackHighlights(props: seq<Property>): (h: HighlightSummary)
    requires |props| > 0
    ensures h.bestROI.name != "" && h.bestYield.name != "" && h.recommendation != ""
    ensures h.bestROI.value.Percent? ==> h.bestROI.value.amount != 0.0
    ensures h.bestYield.value.Percent? ==> h.bestYield.value.amount != 0.0
  {
    var bestRoi := ReduceBest(props[0], props[1..], RoiMetric);
    var bestYield := ReduceBest(props[0], props[1..], YieldMetric);
    // The `|| bestROIProperty` of the source never applies: the reduction
    // returns an element, and an object is always truthy.
    var recommended := ReduceBest(props[0], props[1..], ScoreMetric);
    HighlightSummary(
      Pick(DisplayName(bestRoi), RoiText(bestRoi)),
      Pick(DisplayName(bestYield), YieldText(bestYield)),
      DisplayName(recommended))
  }

  /** The text shown for a metric is its coalesced value with `%`, or `'N/A'` when it is 0. */
  function MetricTextOf(m: real): MetricText {
    if m != 0.0 then Percent(m) else NotAvailable
  }

  lemma MetricTextsAgreeWithMetrics(p: Property)
    ensures RoiText(p) == MetricTextOf(RoiMetric(p))
    ensures YieldText(p) == MetricTextOf(YieldMetric(p))
  {
  }

  /** The fallback names the earliest best property of each metric, all of them list elements. */
  lemma FallbackPicksEarliestMaxima(props: seq<Property>)
    requires |props| > 0
    ensures var h := FallbackHighlights(props);
      var r, y, s := ArgBest(props, RoiMetric), ArgBest(props, YieldMetric), ArgBest(props, ScoreMetric);
      h.bestROI == Pick(DisplayName(props[r]), MetricTextOf(RoiMetric(props[r]))) &&
      h.bestYield == Pick(DisplayName(props[y]), MetricTextOf(YieldMetric(props[y]))) &&
      h.recommendation == DisplayName(props[s])
  {
    ReduceFindsEarliestMaximum(props, RoiMetric);
    ReduceFindsEarliestMaximum(props, YieldMetric);
    ReduceFindsEarliestMaximum(props, ScoreMetric);
    MetricTextsAgreeWithMetrics(props[ArgBest(props, RoiMetric)]);
    MetricTextsAgreeWithMetrics(props[ArgBest(props, YieldMetric)]);
  }

  /** `p.id || p._id`: the key sent to the analysis service (note the order, unlike the explore page). */
  function RankingKey(p: Property): Option<string> {
    OrText(p.id, p.objectId)
  }

  /** `properties.map(p => p.id || p._id).filter(Boolean)`. */
  function RankingIds(props: seq<Property>): (ids: seq<string>)
    ensures |ids| == 0 <==> forall i :: 0 <= i < |props| ==> !TruthyText(RankingKey(props[i]))
    ensures forall i :: 0 <= i < |ids| ==> ids[i] != ""
    decreases |props|
  {
    if props == [] then []
    else
      (if TruthyText(RankingKey(props[0])) then [RankingKey(props[0]).value] else []) + RankingIds(props[1..])
  }

  /** The element has a key to send: a truthy `id || _id`. */
  predicate Keyed(p: Property) {
    TruthyText(RankingKey(p))
  }

  /** The requested ids are the keys of the keyed elements, one each, in list order. */
  lemma {:induction false} RankingIdsAreTheKeys(props: seq<Property>)
    ensures var f := Filter(props, Keyed);
      |RankingIds(props)| == |f| &&
      forall i :: 0 <= i < |f| ==> RankingIds(props)[i] == RankingKey(f[i]).value
    decreases |props|
  {
    if props != [] {
      RankingIdsAreTheKeys(props[1..]);
    }
  }

  /** The remote call's outcome: its payload, used verbatim, or a failure. */
  datatype RankingOutcome = Ranked(payload: HighlightSummary) | RankingFailed

  /** The identifiers sent to the analysis service, or `None` when no request is made. */
  function RankingRequest(props: seq<Property>): (r: Option<seq<string>>)
    ensures r.None? <==> forall i :: 0 <= i < |props| ==> !TruthyText(RankingKey(props[i]))
    ensures r.Some? ==> r.value == RankingIds(props) && |r.value| > 0
  {
    if |props| == 0 then None
    else
      var ids := RankingIds(props);
      if |ids| == 0 then None else Some(ids)
  }

  /** `fetchHighlights`: the highlight state once the call (if any) has settled. */
  function Highlights(props: seq<Property>, outcome: RankingOutcome): (h: Option<HighlightSummary>)
    ensures h.None? <==> RankingRequest(props).None?
    ensures h.Some? && outcome.Ranked? ==> h.value == outcome.payload
    ensures h.Some? && outcome.RankingFailed? ==> h.value == FallbackHighlights(props)
  {
    if RankingRequest(props).None? then None
    else match outcome
      case Ranked(payload) => Some(payload)
      case RankingFailed => Some(FallbackHighlights(props))
  }

  /** No highlights and no request exactly for an empty set or a set without a truthy
      `id || _id`; otherwise the payload, or the local fallback on failure. */
  lemma HighlightsCases(props: seq<Property>, outcome: RankingOutcome)
    ensures RankingRequest(props).None? <==>
      |props| == 0 || forall i :: 0 <= i < |props| ==> !TruthyText(RankingKey(props[i]))
    ensures Highlights(props, outcome).None? <==> RankingRequest(props).None?
    ensures RankingRequest(props).Some? && outcome.Ranked? ==> Highlights(props, outcome) == Some(outcome.payload)
    ensures RankingRequest(props).Some? && outcome.RankingFailed? ==>
      Highlights(props, outcome) == Some(FallbackHighlights(props))
  {
  }

  /** Two candidates with ROI 8 and 12: the fallback names the second. */
  lemma FallbackExampleSecondWins()
    ensures var a := Property(None, Some("1"), None, Some("A"), None, None, Some(8.0), None, None, None, None);
      var b := Property(None, Some("2"), None, Some("B"), None, None, Some(12.0), None, None, None, None);
      Highlights([a, b], RankingFailed) ==
        Some(HighlightSummary(Pick("B", Percent(12.0)), Pick("A", NotAvailable), "A"))
  {
    var a := Property(None, Some("1"), None, Some("A"), None, None, Some(8.0), None, None, None, None);
    var b := Property(None, Some("2"), None, Some("B"), None, None, Some(12.0), None, None, None, None);
    assert RankingIds([a, b]) == ["1", "2"] by {
      assert [a, b][1..] == [b];
      assert RankingIds([b]) == ["2"] + RankingIds([]);
    }
    assert [a, b][1..] == [b];
    assert ReduceBest(a, [b], RoiMetric) == ReduceBest(b, [], RoiMetric);
  }

  // ---------------------------------------------------------------- session

  /** The page's state. `searchTimer` is the 300 ms debounce slot of the search box. */
  class CompareSession {
    var properties: seq<Property>
    var searchQuery: string
    var isSearching: bool
    var searchResults: seq<Property>
    var showSearchModal: bool
    var searchTimer: Debounce.Slot<string>
    var highlights: Option<HighlightSummary>

    /** `location.state?.selectedProperties || []`: seeded from navigation, unchecked. */
    constructor (seed: Option<seq<Property>>)
      ensures properties == seed.GetOr([])
      ensures searchQuery == "" && !isSearching && searchResults == [] && !showSearchModal
      ensures searchTimer == Debounce.Idle && highlights == None
    {
      properties := seed.GetOr([]);
      searchQuery := "";
      isSearching := false;
      searchResults := [];
      showSearchModal := false;
      searchTimer := Debounce.Idle;
      highlights := None;
    }

    /** `addPropertyToComparison`: a successful add also closes the modal and clears
        the search; a refused add touches nothing. */
    method AddPropertyToComparison(p: Property)
      modifies this`properties, this`showSearchModal, this`searchQuery, this`searchResults
      ensures properties == AddToComparison(old(properties), p)
      ensures old(WellFormedSet(properties)) ==> WellFormedSet(properties)
      ensures CanAdd(old(properties), p) ==> !showSearchModal && searchQuery == "" && searchResults == []
      ensures !CanAdd(old(properties), p) ==>
        showSearchModal == old(showSearchModal) && searchQuery == old(searchQuery) &&
        searchResults == old(searchResults)
    {
      if old(WellFormedSet(properties)) {
        AddKeepsWellFormed(properties, p);
      }
      if CanAdd(properties, p) {
        properties := properties + [p];
        showSearchModal := false;
        searchQuery := "";
        searchResults := [];
      }
    }

    /** The "-" button: drop the last entry of a non-empty set. */
    method RemoveLast()
      modifies this`properties
      ensures properties == DropLast(old(properties))
      ensures old(WellFormedSet(properties)) ==> WellFormedSet(properties)
    {
      if old(WellFormedSet(properties)) {
        RemoveLastKeepsWellFormed(properties);
      }
      if |properties| > 0 {
        properties := properties[..|properties| - 1];
      }
    }

    /** The "+" button opens the search only while there is room. */
    method OpenSearchModal()
      modifies this`showSearchModal
      ensures showSearchModal == (old(showSearchModal) || |properties| < Capacity)
    {
      if |properties| < Capacity {
        showSearchModal := true;
      }
    }

    method CloseSearchModal()
      modifies this`showSearchModal
      ensures !showSearchModal
    {
      showSearchModal := false;
    }

    /** `handleSearchChange`: record the text, cancel the pending search, schedule this one. */
    method SearchChange(query: string)
      modifies this`searchQuery, this`searchTimer
      ensures searchQuery == query
      ensures searchTimer == Debounce.Step(old(searchTimer), Debounce.Scheduled(query)).0
      ensures searchTimer == Debounce.Pending(query)
    {
      searchQuery := query;
      searchTimer := Debounce.Step(searchTimer, Debounce.Scheduled(query)).0;
    }

    /** `searchProperties`, with the request's outcome as `response` (`None` for a
        failure). Returns the query sent, or `None` when no request is made. */
    method SearchProperties(query: string, response: Option<seq<Property>>) returns (request: Option<string>)
      modifies this`searchResults, this`isSearching
      ensures request == if IsBlank(query) then None else Some(query)
      ensures searchResults == SearchResults(query, response)
      ensures IsBlank(query) ==> isSearching == old(isSearching)
      ensures !IsBlank(query) ==> !isSearching
    {
      if IsBlank(query) {
        searchResults := [];
        request := None;
        return;
      }
      isSearching := true;
      request := Some(query);
      match response {
        case Some(data) =>
          searchResults := Take(data, MaxSearchResults);
        case None =>
          searchResults := [];
      }
      isSearching := false;
    }

    /** The 300 ms delay of the pending search ran out: run it with its own query. */
    method SearchTimerElapsed(response: Option<seq<Property>>) returns (request: Option<string>)
      modifies this`searchResults, this`isSearching, this`searchTimer
      ensures searchTimer == Debounce.Idle
      ensures old(searchTimer).Idle? ==>
        request == None && searchResults == old(searchResults) && isSearching == old(isSearching)
      ensures old(searchTimer).Pending? ==>
        searchResults == SearchResults(old(searchTimer).value, response) &&
        request == if IsBlank(old(searchTimer).value) then None else Some(old(searchTimer).value)
      ensures old(searchTimer).Pending? ==>
        isSearching == if IsBlank(old(searchTimer).value) then old(isSearching) else false
    {
      var step := Debounce.Step(searchTimer, Debounce.Elapsed);
      searchTimer := step.0;
      request := None;
      if step.1.Some? {
        request := SearchProperties(step.1.value, response);
      }
    }

    /** Unmount: clear the pending timer. */
    method Dispose()
      modifies this`searchTimer
      ensures searchTimer == Debounce.Idle
    {
      searchTimer := Debounce.Step(searchTimer, Debounce.Cancelled).0;
    }

    /** The highlights effect, run after `properties` changes, with the remote call's
        outcome. Returns the identifiers requested, or `None` when no call is made. */
    method RefreshHighlights(outcome: RankingOutcome) returns (request: Option<seq<string>>)
      modifies this`highlights
      ensures request == RankingRequest(properties)
      ensures highlights == Highlights(properties, outcome)
      ensures |properties| == 0 ==> highlights == None && request == None
    {
      request := RankingRequest(properties);
      highlights := Highlights(properties, outcome);
    }
  }
}
