/** The analytics page: the recommendation checkboxes, the list of compared
    locations with their chart colours, and the chart that merges their
    price series. */
module AnalyticsPage {
  import opened Wrappers
  import opened Seqs

  const SelectionCapacity: nat := 3
  /** The Add Location button is disabled from this many compared locations on. */
  const MaxCompared: nat := 5

  // ---------------------------------------------------------------- recommendations

  /** A recommendation card; only its `id` and `name` matter to the selection. */
  datatype Recommendation = Recommendation(id: int, name: string)

  function RecommendationId(r: Recommendation): int {
    r.id
  }

  /** `selectedProperties.some(p => p.id === property.id)`. */
  predicate IsSelected(selected: seq<Recommendation>, id: int) {
    exists i :: 0 <= i < |selected| && selected[i].id == id
  }

  function OtherIds(id: int): Recommendation -> bool {
    (p: Recommendation) => p.id != id
  }

  /** The checkbox's `onChange`: a checked card is removed (every entry with its id);
      an unchecked one is appended while fewer than three are selected. */
  function Toggle(selected: seq<Recommendation>, r: Recommendation): (t: seq<Recommendation>)
    ensures IsSelected(selected, r.id) ==> !IsSelected(t, r.id) && |t| < |selected|
    ensures !IsSelected(selected, r.id) ==> (IsSelected(t, r.id) <==> |selected| < SelectionCapacity)
  {
    if IsSelected(selected, r.id) then
      var f := Filter(selected, OtherIds(r.id));
      assert forall i :: 0 <= i < |f| ==> OtherIds(r.id)(f[i]);
      FilterDropsRejected(selected, OtherIds(r.id));
      f
    else if |selected| < SelectionCapacity then
      assert (selected + [r])[|selected|] == r;
      selected + [r]
    else selected
  }

  predicate WellFormedSelection(selected: seq<Recommendation>) {
    |selected| <= SelectionCapacity && UniqueBy(selected, RecommendationId)
  }

  /** Toggling keeps the selection within three entries with distinct ids; a checked
      card ends unchecked and an unchecked card with room ends checked. */
  lemma ToggleKeepsWellFormed(selected: seq<Recommendation>, r: Recommendation)
    requires WellFormedSelection(selected)
    ensures WellFormedSelection(Toggle(selected, r))
    ensures IsSelected(selected, r.id) ==> !IsSelected(Toggle(selected, r), r.id)
    ensures IsSelected(selected, r.id) ==>
      IsSubsequence(Toggle(selected, r), selected) &&
      forall x :: x in Toggle(selected, r) <==> x in selected && x.id != r.id
    ensures !IsSelected(selected, r.id) && |selected| < SelectionCapacity ==>
      Toggle(selected, r) == selected + [r]
    ensures !IsSelected(selected, r.id) && |selected| >= SelectionCapacity ==>
      Toggle(selected, r) == selected
  {
    var t := Toggle(selected, r);
    if IsSelected(selected, r.id) {
      FilterUniqueBy(selected, OtherIds(r.id), RecommendationId);
      assert forall i :: 0 <= i < |t| ==> OtherIds(r.id)(t[i]);
      FilterIsSubsequence(selected, OtherIds(r.id));
      forall x ensures x in t <==> x in selected && x.id != r.id {
        FilterMembership(selected, OtherIds(r.id), x);
      }
    } else if |selected| < SelectionCapacity {
      forall i, j | 0 <= i < j < |t| ensures RecommendationId(t[i]) != RecommendationId(t[j]) {
        if j == |selected| {
          assert t[i] == selected[i];
          assert !(selected[i].id == r.id);
        } else {
          assert t[i] == selected[i] && t[j] == selected[j];
        }
      }
    }
  }

  /** Checking a card and unchecking it again restores the selection. */
  lemma ToggleTwiceRestores(selected: seq<Recommendation>, r: Recommendation)
    requires !IsSelected(selected, r.id) && |selected| < SelectionCapacity
    ensures Toggle(Toggle(selected, r), r) == selected
  {
    var t := selected + [r];
    assert t[|selected|].id == r.id;
    assert IsSelected(t, r.id);
    FilterAppend(selected, [r], OtherIds(r.id));
    forall i | 0 <= i < |selected| ensures OtherIds(r.id)(selected[i]) {
      assert !(selected[i].id == r.id);
    }
    FilterKeepsAll(selected, OtherIds(r.id));
    assert Filter([r], OtherIds(r.id)) == [] + Filter([r][1..], OtherIds(r.id));
    assert [r][1..] == [];
  }

  // ---------------------------------------------------------------- compared locations

  datatype TrendPoint = TrendPoint(year: int, price: int)

  /** A compared location; `data` maps a timeframe key (`'5'`, `'10'`, `'20'`) to a series. */
  datatype ComparedLocation = ComparedLocation(id: int, name: string, color: string, data: map<string, seq<TrendPoint>>)

  const Palette: seq<string> := ["#3B82F6", "#EF4444", "#10B981", "#F59E0B", "#8B5CF6"]

  /** `colors[n % colors.length]`. */
  function ColorFor(n: nat): (c: string)
    ensures c in Palette
  {
    Palette[n % |Palette|]
  }

  /** `comparedProperties.some(cp => cp.name === loc)`. */
  predicate IsCompared(compared: seq<ComparedLocation>, loc: string) {
    exists i :: 0 <= i < |compared| && compared[i].name == loc
  }

  /** `availableLocations.find(loc => !comparedProperties.some(cp => cp.name === loc))`. */
  function FirstUncompared(available: seq<string>, compared: seq<ComparedLocation>): (r: Option<string>)
    ensures r.Some? ==> r.value in available && !IsCompared(compared, r.value)
    ensures r.Some? ==>
      exists k :: 0 <= k < |available| && available[k] == r.value &&
        forall j :: 0 <= j < k ==> IsCompared(compared, available[j])
    ensures r.None? <==> forall j :: 0 <= j < |available| ==> IsCompared(compared, available[j])
    decreases |available|
  {
    if available == [] then None
    else if !IsCompared(compared, available[0]) then Some(available[0])
    else
      var rest := FirstUncompared(available[1..], compared);
      if rest.Some? then
        ghost var k :| 0 <= k < |available[1..]| && available[1..][k] == rest.value &&
          forall j :: 0 <= j < k ==> IsCompared(compared, available[1..][j]);
        assert available[k + 1] == rest.value;
        rest
      else rest
  }

  /** The Add Location click handler; `stamp` stands for `Date.now()`. The found name
      is added only when it is truthy, so an empty name adds nothing. */
  function AddLocation(compared: seq<ComparedLocation>, available: seq<string>,
                       trendData: map<string, seq<TrendPoint>>, stamp: int): (r: seq<ComparedLocation>)
    ensures r == compared || |r| == |compared| + 1
    ensures |r| == |compared| + 1 ==>
      r[..|compared|] == compared && r[|compared|].name != "" &&
      r[|compared|].name in available && !IsCompared(compared, r[|compared|].name) &&
      r[|compared|].color == ColorFor(|compared|) && r[|compared|].data == trendData
  {
    if |available| > 0 then
      match FirstUncompared(available, compared)
      case Some(loc) =>
        if loc != "" then compared + [ComparedLocation(stamp, loc, ColorFor(|compared|), trendData)]
        else compared
      case None => compared
    else compared
  }

  /** `disabled={availableLocations.length === 0 || comparedProperties.length >= 5}`. */
  predicate AddLocationEnabled(compared: seq<ComparedLocation>, available: seq<string>) {
    !(|available| == 0 || |compared| >= MaxCompared)
  }

  function LocationName(c: ComparedLocation): string {
    c.name
  }

  /** Every entry carries the colour of its position. */
  predicate ColorsByPosition(compared: seq<ComparedLocation>) {
    forall i :: 0 <= i < |compared| ==> compared[i].color == ColorFor(i)
  }

  /** The compared-list invariant kept by clicks on an enabled button and by Remove City:
      names unique, at most five entries, colours by position. */
  predicate WellFormedCompared(compared: seq<ComparedLocation>) {
    |compared| <= MaxCompared && UniqueBy(compared, LocationName) && ColorsByPosition(compared)
  }

  /** Add Location appends the first location not yet compared, with the colour of
      its position, or changes nothing when every available location is compared or
      the first uncompared one has an empty name. */
  lemma AddLocationAppendsFirstUncompared(compared: seq<ComparedLocation>, available: seq<string>,
                                          trendData: map<string, seq<TrendPoint>>, stamp: int)
    ensures var r := AddLocation(compared, available, trendData, stamp);
      r == compared <==>
        (forall j :: 0 <= j < |available| ==> IsCompared(compared, available[j])) ||
        FirstUncompared(available, compared) == Some("")
    ensures var r := AddLocation(compared, available, trendData, stamp);
      var next := FirstUncompared(available, compared);
      r != compared ==>
        next.Some? && next.value != "" && !IsCompared(compared, next.value) &&
        r == compared + [ComparedLocation(stamp, next.value, ColorFor(|compared|), trendData)]
  {
    var next := FirstUncompared(available, compared);
    if next.Some? && next.value != "" {
      assert |AddLocation(compared, available, trendData, stamp)| == |compared| + 1;
    }
  }

  /** A click on the enabled button keeps the compared list well formed. */
  lemma AddLocationKeepsWellFormed(compared: seq<ComparedLocation>, available: seq<string>,
                                   trendData: map<string, seq<TrendPoint>>, stamp: int)
    requires WellFormedCompared(compared) && AddLocationEnabled(compared, available)
    ensures WellFormedCompared(AddLocation(compared, available, trendData, stamp))
  {
    var r := AddLocation(compared, available, trendData, stamp);
    if r != compared {
      var added := r[|compared|];
      assert r == compared + [added];
      AppendKeepsWellFormed(compared, added);
    }
  }

  /** Appending a location of a new name, with its position's colour, to a list
      below five keeps the invariant. */
  lemma AppendKeepsWellFormed(compared: seq<ComparedLocation>, added: ComparedLocation)
    requires WellFormedCompared(compared) && |compared| < MaxCompared
    requires !IsCompared(compared, added.name) && added.color == ColorFor(|compared|)
    ensures WellFormedCompared(compared + [added])
  {
    var r := compared + [added];
    forall i, j | 0 <= i < j < |r| ensures LocationName(r[i]) != LocationName(r[j]) {
      if j == |compared| {
        assert r[i] == compared[i] && r[j] == added;
        assert !(compared[i].name == added.name);
      } else {
        assert r[i] == compared[i] && r[j] == compared[j];
      }
    }
    forall i | 0 <= i < |r| ensures r[i].color == ColorFor(i) {
      if i < |compared| {
        assert r[i] == compared[i];
      }
    }
  }

  /** Remove City keeps the compared-list invariant. */
  lemma RemoveCityKeepsWellFormed(compared: seq<ComparedLocation>)
    requires WellFormedCompared(compared)
    ensures WellFormedCompared(DropLast(compared))
  {
    var d := DropLast(compared);
    forall i, j | 0 <= i < j < |d| ensures LocationName(d[i]) != LocationName(d[j]) {
      assert d[i] == compared[i] && d[j] == compared[j];
    }
  }

  /** Remove City undoes an Add Location that added something. */
  lemma RemoveCityUndoesAdd(compared: seq<ComparedLocation>, available: seq<string>,
                            trendData: map<string, seq<TrendPoint>>, stamp: int)
    ensures AddLocation(compared, available, trendData, stamp) != compared ==>
      DropLast(AddLocation(compared, available, trendData, stamp)) == compared
  {
    var next := FirstUncompared(available, compared);
    if |available| > 0 && next.Some? && next.value != "" {
      DropLastAppend(compared, ComparedLocation(stamp, next.value, ColorFor(|compared|), trendData));
    }
  }

  /** With at most five locations, colours by position are pairwise distinct. */
  lemma ComparedColorsDistinct(compared: seq<ComparedLocation>)
    requires WellFormedCompared(compared)
    ensures UniqueBy(compared, (c: ComparedLocation) => c.color)
  {
    forall i, j | 0 <= i < j < |compared| ensures compared[i].color != compared[j].color {
      assert compared[i].color == Palette[i] && compared[j].color == Palette[j];
    }
  }

  // ---------------------------------------------------------------- chart

  /** `timeframe.split(' ')[0]`: the text before the first space. */
  function TimeframeKey(t: string): (k: string)
    ensures |k| <= |t| && k == t[..|k|]
    ensures ' ' !in k
    ensures |k| < |t| ==> t[|k|] == ' '
    decreases |t|
  {
    if t == [] || t[0] == ' ' then []
    else [t[0]] + TimeframeKey(t[1..])
  }

  lemma TimeframeKeyExamples()
    ensures TimeframeKey("5 Years") == "5"
    ensures TimeframeKey("10 Years") == "10"
    ensures TimeframeKey("20 Years") == "20"
  {
  }

  /** One chart row: `{ year, [name]: price, ... }`. */
  datatype ChartRow = ChartRow(year: int, prices: map<string, int>)

  /** The chart's data: merged rows while locations are compared, else one series. */
  datatype Chart = Combined(rows: seq<ChartRow>) | Single(points: seq<TrendPoint>)

  /** `data[key]`, missing as the empty series. */
  function SeriesOf(data: map<string, seq<TrendPoint>>, key: string): seq<TrendPoint> {
    if key in data then data[key] else []
  }

  /** `series.find(item => item.year === year)`. */
  function FindYear(series: seq<TrendPoint>, year: int): (r: Option<TrendPoint>)
    ensures r.Some? ==> r.value.year == year
    ensures r.Some? ==>
      exists k :: 0 <= k < |series| && series[k] == r.value &&
        forall j :: 0 <= j < k ==> series[j].year != year
    ensures r.None? <==> forall j :: 0 <= j < |series| ==> series[j].year != year
    decreases |series|
  {
    if series == [] then None
    else if series[0].year == year then Some(series[0])
    else
      var rest := FindYear(series[1..], year);
      if rest.Some? then
        ghost var k :| 0 <= k < |series[1..]| && series[1..][k] == rest.value &&
          forall j :: 0 <= j < k ==> series[1..][j].year != year;
        assert series[k + 1] == rest.value;
        rest
      else rest
  }

  /** The `forEach` that fills a row: each location with a point for `year` sets its price. */
  function FillRow(locations: seq<ComparedLocation>, key: string, year: int, prices: map<string, int>): (r: map<string, int>)
    ensures forall n :: n in prices ==> n in r
    ensures forall n :: n in r && n !in prices ==> exists j :: 0 <= j < |locations| && locations[j].name == n
    decreases |locations|
  {
    if locations == [] then prices
    else
      var found := FindYear(SeriesOf(locations[0].data, key), year);
      FillRow(locations[1..], key, year,
              if found.Some? then prices[locations[0].name := found.value.price] else prices)
  }

  predicate HasYear(c: ComparedLocation, key: string, year: int) {
    FindYear(SeriesOf(c.data, key), year).Some?
  }

  /** `getCombinedChartData`. */
  function CombinedChartData(timeframe: string, compared: seq<ComparedLocation>,
                             trendData: map<string, seq<TrendPoint>>): (c: Chart)
    ensures c.Combined? <==> |compared| > 0
    ensures c.Combined? ==> |c.rows| == |SeriesOf(compared[0].data, TimeframeKey(timeframe))|
    ensures c.Single? ==> c.points == SeriesOf(trendData, TimeframeKey(timeframe))
  {
    var key := TimeframeKey(timeframe);
    if |compared| > 0 then
      var years := SeriesOf(compared[0].data, key);
      Combined(seq(|years|, i requires 0 <= i < |years| =>
        ChartRow(years[i].year, FillRow(compared, key, years[i].year, map[]))))
    else if key in trendData && |trendData[key]| > 0 then Single(trendData[key])
    else Single([])
  }

  /** A name gets a price exactly when it was already there or some location of
      that name has the year. */
  lemma {:induction false} FillRowKeys(locations: seq<ComparedLocation>, key: string, year: int,
                                       prices: map<string, int>, name: string)
    ensures name in FillRow(locations, key, year, prices) <==>
      name in prices || exists j :: 0 <= j < |locations| && locations[j].name == name && HasYear(locations[j], key, year)
    decreases |locations|
  {
    if locations != [] {
      var found := FindYear(SeriesOf(locations[0].data, key), year);
      var next := if found.Some? then prices[locations[0].name := found.value.price] else prices;
      FillRowKeys(locations[1..], key, year, next, name);
      if exists j :: 0 <= j < |locations[1..]| && locations[1..][j].name == name && HasYear(locations[1..][j], key, year) {
        var j :| 0 <= j < |locations[1..]| && locations[1..][j].name == name && HasYear(locations[1..][j], key, year);
        assert locations[j + 1] == locations[1..][j];
      }
      if exists j :: 1 <= j < |locations| && locations[j].name == name && HasYear(locations[j], key, year) {
        var j :| 1 <= j < |locations| && locations[j].name == name && HasYear(locations[j], key, year);
        assert locations[1..][j - 1] == locations[j];
      }
    }
  }

  /** With distinct names, the price a location gets is that of its first point for the year. */
  lemma {:induction false} FillRowValue(locations: seq<ComparedLocation>, key: string, year: int,
                                        prices: map<string, int>, j: nat)
    requires UniqueBy(locations, LocationName)
    requires j < |locations| && HasYear(locations[j], key, year)
    ensures locations[j].name in FillRow(locations, key, year, prices)
    ensures FillRow(locations, key, year, prices)[locations[j].name] ==
      FindYear(SeriesOf(locations[j].data, key), year).value.price
    decreases |locations|
  {
    var found := FindYear(SeriesOf(locations[0].data, key), year);
    var next := if found.Some? then prices[locations[0].name := found.value.price] else prices;
    var rest := locations[1..];
    assert UniqueBy(rest, LocationName) by {
      forall a, b | 0 <= a < b < |rest| ensures LocationName(rest[a]) != LocationName(rest[b]) {
        assert rest[a] == locations[a + 1] && rest[b] == locations[b + 1];
      }
    }
    if j == 0 {
      assert next[locations[0].name] == found.value.price;
      FillRowUntouched(rest, key, year, next, locations[0].name);
    } else {
      assert rest[j - 1] == locations[j];
      FillRowValue(rest, key, year, next, j - 1);
    }
  }

  /** A name carried by no later location keeps its price. */
  lemma {:induction false} FillRowUntouched(locations: seq<ComparedLocation>, key: string, year: int,
                                            prices: map<string, int>, name: string)
    requires name in prices
    requires forall i :: 0 <= i < |locations| ==> locations[i].name != name
    ensures name in FillRow(locations, key, year, prices)
    ensures FillRow(locations, key, year, prices)[name] == prices[name]
    decreases |locations|
  {
    if locations != [] {
      var found := FindYear(SeriesOf(locations[0].data, key), year);
      var next := if found.Some? then prices[locations[0].name := found.value.price] else prices;
      FillRowUntouched(locations[1..], key, year, next, name);
    }
  }

  /** While locations are compared the chart has one row per point of the first
      location's series, in order, and each row gives the price of exactly those
      named locations that have that year. Otherwise it is the timeframe's series, or empty. */
  lemma CombinedChartDataSpec(timeframe: string, compared: seq<ComparedLocation>,
                              trendData: map<string, seq<TrendPoint>>)
    requires UniqueBy(compared, LocationName)
    ensures var key := TimeframeKey(timeframe);
      var chart := CombinedChartData(timeframe, compared, trendData);
      |compared| > 0 ==>
        var years := SeriesOf(compared[0].data, key);
        chart.Combined? && |chart.rows| == |years| &&
        forall i :: 0 <= i < |years| ==>
          chart.rows[i].year == years[i].year &&
          (forall name :: name in chart.rows[i].prices <==>
            exists j :: 0 <= j < |compared| && compared[j].name == name && HasYear(compared[j], key, years[i].year)) &&
          (forall j :: 0 <= j < |compared| && HasYear(compared[j], key, years[i].year) ==>
            compared[j].name in chart.rows[i].prices &&
            chart.rows[i].prices[compared[j].name] ==
              FindYear(SeriesOf(compared[j].data, key), years[i].year).value.price)
    ensures var key := TimeframeKey(timeframe);
      |compared| == 0 ==>
        CombinedChartData(timeframe, compared, trendData) == Single(SeriesOf(trendData, key))
  {
    var key := TimeframeKey(timeframe);
    if |compared| > 0 {
      var years := SeriesOf(compared[0].data, key);
      var chart := CombinedChartData(timeframe, compared, trendData);
      forall i | 0 <= i < |years|
        ensures (forall name :: name in chart.rows[i].prices <==>
            exists j :: 0 <= j < |compared| && compared[j].name == name && HasYear(compared[j], key, years[i].year))
        ensures (forall j :: 0 <= j < |compared| && HasYear(compared[j], key, years[i].year) ==>
            compared[j].name in chart.rows[i].prices &&
            chart.rows[i].prices[compared[j].name] ==
              FindYear(SeriesOf(compared[j].data, key), years[i].year).value.price)
      {
        assert chart.rows[i].prices == FillRow(compared, key, years[i].year, map[]);
        forall name ensures name in chart.rows[i].prices <==>
            exists j :: 0 <= j < |compared| && compared[j].name == name && HasYear(compared[j], key, years[i].year)
        {
          FillRowKeys(compared, key, years[i].year, map[], name);
        }
        forall j | 0 <= j < |compared| && HasYear(compared[j], key, years[i].year)
          ensures compared[j].name in chart.rows[i].prices &&
            chart.rows[i].prices[compared[j].name] ==
              FindYear(SeriesOf(compared[j].data, key), years[i].year).value.price
        {
          FillRowValue(compared, key, years[i].year, map[], j);
        }
      }
    }
  }

  // ---------------------------------------------------------------- risk badge

  const DefaultRiskClass: string := "bg-gray-100 text-gray-800"

  /** `getRiskColor`. */
  function RiskColor(level: string): (c: string)
    ensures c == DefaultRiskClass <==> level !in {"Low", "Medium", "High", "Stable"}
  {
    match level
    case "Low" => "bg-green-100 text-green-800"
    case "Medium" => "bg-yellow-100 text-yellow-800"
    case "High" => "bg-red-100 text-red-800"
    case "Stable" => "bg-blue-100 text-blue-800"
    case _ => DefaultRiskClass
  }

  /** The four known levels get four different badge classes. */
  lemma RiskColorsDistinct(a: string, b: string)
    requires a in {"Low", "Medium", "High", "Stable"} && b in {"Low", "Medium", "High", "Stable"}
    requires a != b
    ensures RiskColor(a) != RiskColor(b)
  {
  }

  // ---------------------------------------------------------------- session

  /** The page state this model covers. */
  class AnalyticsSession {
    var selectedProperties: seq<Recommendation>
    var comparedProperties: seq<ComparedLocation>
    var availableLocations: seq<string>
    var timeframe: string
    var trendData: map<string, seq<TrendPoint>>

    constructor ()
      ensures selectedProperties == [] && comparedProperties == [] && availableLocations == []
      ensures timeframe == "5 Years"
      ensures trendData == map["5" := [], "10" := [], "20" := []]
    {
      selectedProperties := [];
      comparedProperties := [];
      availableLocations := [];
      timeframe := "5 Years";
      trendData := map["5" := [], "10" := [], "20" := []];
    }

    /** The historical-trends request resolved with these locations and series. */
    method TrendsLoaded(locations: seq<string>, data: map<string, seq<TrendPoint>>)
      modifies this`availableLocations, this`trendData
      ensures availableLocations == locations && trendData == data
    {
      availableLocations := locations;
      trendData := data;
    }

    method SetTimeframe(period: string)
      modifies this`timeframe
      ensures timeframe == period
    {
      timeframe := period;
    }

    /** A recommendation checkbox changed. */
    method ToggleRecommendation(r: Recommendation)
      modifies this`selectedProperties
      ensures selectedProperties == Toggle(old(selectedProperties), r)
      ensures old(WellFormedSelection(selectedProperties)) ==> WellFormedSelection(selectedProperties)
    {
      if WellFormedSelection(selectedProperties) {
        ToggleKeepsWellFormed(selectedProperties, r);
      }
      var isSelected := IsSelected(selectedProperties, r.id);
      if isSelected {
        selectedProperties := Filter(selectedProperties, OtherIds(r.id));
      } else if |selectedProperties| < SelectionCapacity {
        selectedProperties := selectedProperties + [r];
      }
    }

    /** "+ Add Location"; `stamp` stands for `Date.now()`. */
    method AddLocationClicked(stamp: int)
      modifies this`comparedProperties
      ensures comparedProperties == AddLocation(old(comparedProperties), availableLocations, trendData, stamp)
      ensures old(WellFormedCompared(comparedProperties)) && AddLocationEnabled(old(comparedProperties), availableLocations) ==>
        WellFormedCompared(comparedProperties)
    {
      if old(WellFormedCompared(comparedProperties)) && AddLocationEnabled(comparedProperties, availableLocations) {
        AddLocationKeepsWellFormed(comparedProperties, availableLocations, trendData, stamp);
      }
      comparedProperties := AddLocation(comparedProperties, availableLocations, trendData, stamp);
    }

    /** "- Remove City". */
    method RemoveCity()
      modifies this`comparedProperties
      ensures comparedProperties == DropLast(old(comparedProperties))
      ensures old(WellFormedCompared(comparedProperties)) ==> WellFormedCompared(comparedProperties)
    {
      if WellFormedCompared(comparedProperties) {
        RemoveCityKeepsWellFormed(comparedProperties);
      }
      if |comparedProperties| > 0 {
        comparedProperties := comparedProperties[..|comparedProperties| - 1];
      }
    }

    /** The chart data for the current state. */
    function ChartData(): Chart
      reads this
    {
      CombinedChartData(timeframe, comparedProperties, trendData)
    }
  }
}
