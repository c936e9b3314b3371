/** The property record as the pages read it from the catalog, with the
    JavaScript truthiness and `||` rules the pages apply to its fields.
    A numeric field is `Option<real>` (`None` is `undefined`); a text field is
    `Option<string>`. The record's `_id` is called `objectId` here. */
module Listing {
  import opened Wrappers

  datatype Coordinates = Coordinates(lat: Option<real>, lng: Option<real>)

  datatype Property = Property(
    objectId: Option<string>,          // `_id`
    id: Option<string>,
    coordinates: Option<Coordinates>,
    projectName: Option<string>,
    title: Option<string>,
    projectedReturn: Option<real>,
    roi: Option<real>,
    rentalYield: Option<real>,
    yieldRate: Option<real>,           // `yield`
    score: Option<real>,
    investmentScore: Option<real>)

  /** A number is truthy unless it is missing or zero. */
  predicate TruthyNum(x: Option<real>) {
    x.Some? && x.value != 0.0
  }

  /** A string is truthy unless it is missing or empty. */
  predicate TruthyText(x: Option<string>) {
    x.Some? && x.value != ""
  }

  /** `a || b` on optional numbers. */
  function OrNum(a: Option<real>, b: Option<real>): Option<real> {
    if TruthyNum(a) then a else b
  }

  /** `a || b || 0`: the first truthy number, or 0. */
  function FirstNumOrZero(a: Option<real>, b: Option<real>): (r: real)
    ensures r != 0.0 <==> TruthyNum(a) || TruthyNum(b)
    ensures TruthyNum(a) ==> r == a.value
    ensures !TruthyNum(a) && TruthyNum(b) ==> r == b.value
  {
    var v := OrNum(a, b);
    if TruthyNum(v) then v.value else 0.0
  }

  /** `a || b` on optional strings. */
  function OrText(a: Option<string>, b: Option<string>): Option<string> {
    if TruthyText(a) then a else b
  }

  /** `projectName || title || 'Property'`, the name the pages display. */
  function DisplayName(p: Property): (r: string)
    ensures r != ""
    ensures TruthyText(p.projectName) ==> r == p.projectName.value
    ensures !TruthyText(p.projectName) && TruthyText(p.title) ==> r == p.title.value
    ensures !TruthyText(p.projectName) && !TruthyText(p.title) ==> r == "Property"
  {
    var n := OrText(p.projectName, p.title);
    if TruthyText(n) then n.value else "Property"
  }

  /** `projectedReturn || roi || 0`. */
  function RoiMetric(p: Property): (r: real)
    ensures r != 0.0 <==> TruthyNum(p.projectedReturn) || TruthyNum(p.roi)
    ensures TruthyNum(p.projectedReturn) ==> r == p.projectedReturn.value
    ensures !TruthyNum(p.projectedReturn) && TruthyNum(p.roi) ==> r == p.roi.value
  {
    FirstNumOrZero(p.projectedReturn, p.roi)
  }

  /** `rentalYield || yield || 0`. */
  function YieldMetric(p: Property): (r: real)
    ensures r != 0.0 <==> TruthyNum(p.rentalYield) || TruthyNum(p.yieldRate)
    ensures TruthyNum(p.rentalYield) ==> r == p.rentalYield.value
    ensures !TruthyNum(p.rentalYield) && TruthyNum(p.yieldRate) ==> r == p.yieldRate.value
  {
    FirstNumOrZero(p.rentalYield, p.yieldRate)
  }

  /** `score || investmentScore || 0`. */
  function ScoreMetric(p: Property): (r: real)
    ensures r != 0.0 <==> TruthyNum(p.score) || TruthyNum(p.investmentScore)
    ensures TruthyNum(p.score) ==> r == p.score.value
    ensures !TruthyNum(p.score) && TruthyNum(p.investmentScore) ==> r == p.investmentScore.value
  {
    FirstNumOrZero(p.score, p.investmentScore)
  }
}
