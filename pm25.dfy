/**
 * AQIDataFetcher.calculate_aqi_from_pm25: the US EPA piecewise-linear
 * conversion from a 24-hour PM2.5 concentration (µg/m³) to the AQI, with the
 * breakpoint table of the EPA Technical Assistance Document for the
 * Reporting of Daily Air Quality (EPA-454/B-18-007). The result is truncated
 * toward zero (Python int()), and a concentration that lies in no band,
 * including one in the gaps between bands, gives 500.
 */
module Pm25 {
  import opened Wrappers
  import opened Numeric

  /** One row of the breakpoint table: concentrations [cLow, cHigh] map linearly onto [iLow, iHigh]. */
  datatype Band = Band(cLow: real, cHigh: real, iLow: int, iHigh: int)

  const Breakpoints: seq<Band> := [
    Band(0.0, 12.0, 0, 50),
    Band(12.1, 35.4, 51, 100),
    Band(35.5, 55.4, 101, 150),
    Band(55.5, 150.4, 151, 200),
    Band(150.5, 250.4, 201, 300),
    Band(250.5, 500.4, 301, 500)
  ]

  /** The AQI returned for a concentration no band contains. */
  const MaxAqi: int := 500

  predicate InBand(b: Band, c: real)
  {
    b.cLow <= c <= b.cHigh
  }

  /** Each band is a proper interval with a proper index range, and the bands ascend without overlap. */
  lemma BreakpointsOrdered()
    ensures forall k :: 0 <= k < |Breakpoints| ==>
      Breakpoints[k].cLow < Breakpoints[k].cHigh && 0 <= Breakpoints[k].iLow < Breakpoints[k].iHigh <= MaxAqi
    ensures forall j, k :: 0 <= j < k < |Breakpoints| ==>
      Breakpoints[j].cHigh < Breakpoints[k].cLow && Breakpoints[j].iHigh < Breakpoints[k].iLow
  {
  }

  /** The first band, in table order, that contains c (the loop's early return). */
  function FirstBand(bands: seq<Band>, c: real): (r: Option<nat>)
    ensures r.Some? ==> r.value < |bands| && InBand(bands[r.value], c)
    ensures r.Some? ==> forall k :: 0 <= k < r.value ==> !InBand(bands[k], c)
    ensures r.None? ==> forall k :: 0 <= k < |bands| ==> !InBand(bands[k], c)
  {
    if bands == [] then None
    else if InBand(bands[0], c) then Some(0)
    else match FirstBand(bands[1..], c)
      case None => None
      case Some(k) => Some(k + 1)
  }

  /** The EPA linear index equation on band b, before truncation. */
  function Linear(b: Band, c: real): real
    requires b.cLow < b.cHigh
  {
    ((b.iHigh - b.iLow) as real / (b.cHigh - b.cLow)) * (c - b.cLow) + b.iLow as real
  }

  /** calculate_aqi_from_pm25: missing stays missing; otherwise the first containing band's index, or 500. */
  function AqiFromPm25(pm25: Option<real>): (r: Option<int>)
    ensures r.None? <==> pm25.None?
  {
    match pm25
    case None => None
    case Some(c) =>
      match FirstBand(Breakpoints, c)
      case None => Some(MaxAqi)
      case Some(k) =>
        BreakpointsOrdered();
        Some(Trunc(Linear(Breakpoints[k], c)))
  }

  /** On a proper band the linear equation runs from iLow at cLow to iHigh at cHigh and never leaves that range. */
  lemma LinearBounds(b: Band, c: real)
    requires b.cLow < b.cHigh && b.iLow <= b.iHigh && InBand(b, c)
    ensures b.iLow as real <= Linear(b, c) <= b.iHigh as real
    ensures c == b.cLow ==> Linear(b, c) == b.iLow as real
  {
    var w := b.cHigh - b.cLow;
    var rise := (b.iHigh - b.iLow) as real;
    var s := rise / w;
    SlopeFacts(rise, w);
    var d := c - b.cLow;
    assert 0.0 <= d <= w;
    assert Linear(b, c) == s * d + b.iLow as real;
    MulMonotone(s, d, w);
    MulMonotone(s, 0.0, d);
    assert s * 0.0 == 0.0;
  }

  /** The slope of a non-decreasing band is non-negative and spans the rise over the band's width. */
  lemma SlopeFacts(rise: real, w: real)
    requires rise >= 0.0 && w > 0.0
    ensures rise / w >= 0.0 && (rise / w) * w == rise
  {
  }

  lemma MulMonotone(a: real, x: real, y: real)
    requires 0.0 <= a && x <= y
    ensures a * x <= a * y
  {
    assert a * y - a * x == a * (y - x);
  }

  /** Within a band the linear equation does not decrease. */
  lemma LinearMonotone(b: Band, c1: real, c2: real)
    requires b.cLow < b.cHigh && b.iLow <= b.iHigh && c1 <= c2
    ensures Linear(b, c1) <= Linear(b, c2)
  {
    var s := (b.iHigh - b.iLow) as real / (b.cHigh - b.cLow);
    assert s >= 0.0;
    MulMonotone(s, c1 - b.cLow, c2 - b.cLow);
  }

  /** A concentration in band k is converted by band k, the bands being disjoint. */
  lemma ConvertedByItsBand(c: real, k: nat)
    requires k < |Breakpoints| && InBand(Breakpoints[k], c)
    ensures FirstBand(Breakpoints, c) == Some(k)
    ensures AqiFromPm25(Some(c)) == Some(Trunc(Linear(Breakpoints[k], c)))
  {
    BreakpointsOrdered();
  }

  /** In band k the result is the floor of the linear equation and lies in [iLow, iHigh]. */
  lemma InBandResult(c: real, k: nat)
    requires k < |Breakpoints| && InBand(Breakpoints[k], c)
    ensures var b := Breakpoints[k];
      && AqiFromPm25(Some(c)) == Some(Linear(b, c).Floor)
      && b.iLow <= AqiFromPm25(Some(c)).value <= b.iHigh
  {
    BreakpointsOrdered();
    ConvertedByItsBand(c, k);
    LinearBounds(Breakpoints[k], c);
  }

  /** Each band's lower breakpoint maps to its lower index: 0→0, 12.1→51, 35.5→101, 55.5→151, 150.5→201, 250.5→301. */
  lemma LowerBreakpoints(k: nat)
    requires k < |Breakpoints|
    ensures AqiFromPm25(Some(Breakpoints[k].cLow)) == Some(Breakpoints[k].iLow)
  {
    BreakpointsOrdered();
    ConvertedByItsBand(Breakpoints[k].cLow, k);
    LinearBounds(Breakpoints[k], Breakpoints[k].cLow);
  }

  /** Within one band, a higher concentration never gives a lower AQI. */
  lemma MonotoneWithinBand(c1: real, c2: real, k: nat)
    requires k < |Breakpoints| && InBand(Breakpoints[k], c1) && InBand(Breakpoints[k], c2) && c1 <= c2
    ensures AqiFromPm25(Some(c1)).value <= AqiFromPm25(Some(c2)).value
  {
    BreakpointsOrdered();
    InBandResult(c1, k);
    InBandResult(c2, k);
    LinearMonotone(Breakpoints[k], c1, c2);
  }

  /** A concentration in no band gives 500: above 500.4, negative, or in a gap such as 12.05. */
  lemma OutsideBandsGive500(c: real)
    requires c < 0.0 || c > 500.4 || 12.0 < c < 12.1 || 35.4 < c < 35.5 || 55.4 < c < 55.5
             || 150.4 < c < 150.5 || 250.4 < c < 250.5
    ensures AqiFromPm25(Some(c)) == Some(500)
  {
  }

  /** The gap value 12.05 falls through every band. */
  lemma GapExample()
    ensures AqiFromPm25(Some(12.05)) == Some(500)
  {
    OutsideBandsGive500(12.05);
  }

  /** Every present concentration gives an AQI in [0, 500]. */
  lemma ResultInRange(c: real)
    ensures 0 <= AqiFromPm25(Some(c)).value <= MaxAqi
  {
    BreakpointsOrdered();
    var r := FirstBand(Breakpoints, c);
    if r.Some? {
      InBandResult(c, r.value);
    }
  }
}
