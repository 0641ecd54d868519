/**
 * Cleaning and enrichment of the AQI table (DataProcessor.process_aqi_data):
 * linear interpolation by row position, a median fill, AQI category binning
 * and calendar features.
 */
module AqiCleaning {
  import opened Wrappers
  import opened Numeric
  import opened Calendar

  /** The numeric columns the processor recognises, in the order it visits them. */
  datatype Metric = AQI | PM25 | PM10 | NO2 | Ozone

  const AqiMetrics: seq<Metric> := [AQI, PM25, PM10, NO2, Ozone]

  function MetricName(m: Metric): string
  {
    match m
    case AQI => "AQI"
    case PM25 => "PM2.5"
    case PM10 => "PM10"
    case NO2 => "NO2"
    case Ozone => "Ozone"
  }

  /** The list names every metric, each once. */
  lemma AqiMetricsComplete(m: Metric)
    ensures m in AqiMetrics
    ensures forall i, j :: 0 <= i < j < |AqiMetrics| ==> AqiMetrics[i] != AqiMetrics[j]
  {
  }

  // ---------------------------------------------------------------------
  // Linear interpolation (Series.interpolate(method='linear'))
  // ---------------------------------------------------------------------

  /** The last row before i whose cell is present. */
  function PresentBefore(s: Column, i: nat): (r: Option<nat>)
    requires i <= |s|
    ensures r.Some? ==> r.value < i && s[r.value].Some?
    ensures r.Some? ==> forall j :: r.value < j < i ==> s[j].None?
    ensures r.None? ==> forall j :: 0 <= j < i ==> s[j].None?
  {
    if i == 0 then None
    else if s[i - 1].Some? then Some(i - 1)
    else PresentBefore(s, i - 1)
  }

  /** The first row at or after i whose cell is present. */
  function PresentFrom(s: Column, i: nat): (r: Option<nat>)
    requires i <= |s|
    ensures r.Some? ==> i <= r.value < |s| && s[r.value].Some?
    ensures r.Some? ==> forall j :: i <= j < r.value ==> s[j].None?
    ensures r.None? ==> forall j :: i <= j < |s| ==> s[j].None?
    decreases |s| - i
  {
    if i == |s| then None
    else if s[i].Some? then Some(i)
    else PresentFrom(s, i + 1)
  }

  /**
   * The interpolated cell at row i. A present cell is kept. A missing cell
   * between two present rows l and r gets the value on the straight line
   * through them, by row position. A missing cell after the last present row
   * takes that row's value; one before the first present row stays missing.
   */
  function InterpolateAt(s: Column, i: nat): Option<real>
    requires i < |s|
  {
    if s[i].Some? then s[i]
    else match PresentBefore(s, i)
      case None => None
      case Some(l) =>
        match PresentFrom(s, i + 1)
        case None => s[l]
        case Some(r) => Some(Lerp(s[l].value, s[r].value, l, r, i))
  }

  /** The value at position i on the straight line through (l, yl) and (r, yr). */
  function Lerp(yl: real, yr: real, l: int, r: int, i: int): real
    requires l < r
  {
    yl + (yr - yl) * ((i - l) as real / (r - l) as real)
  }

  function Interpolate(s: Column): (t: Column)
    ensures |t| == |s|
  {
    seq(|s|, i requires 0 <= i < |s| => InterpolateAt(s, i))
  }

  /** Fills every missing cell with fill (Series.fillna); a missing fill leaves the cell missing. */
  function FillNa(t: Column, fill: Option<real>): (u: Column)
    ensures |u| == |t|
  {
    seq(|t|, i requires 0 <= i < |t| => if t[i].Some? then t[i] else fill)
  }

  /**
   * Cleaning of one column (data_processor.py:42-44): interpolate, then fill
   * what is still missing with the median of the interpolated column.
   */
  function CleanColumn(s: Column): (c: Column)
    ensures |c| == |s|
  {
    var t := Interpolate(s);
    FillNa(t, ColumnMedian(t))
  }

  /** Cleaning never changes a value that was present. */
  lemma CleanKeepsPresent(s: Column, i: nat)
    requires i < |s| && s[i].Some?
    ensures CleanColumn(s)[i] == s[i]
  {
  }

  /** A column with at least one present value has no missing cell after cleaning. */
  lemma CleanFillsAll(s: Column, k: nat)
    requires k < |s| && s[k].Some?
    ensures forall i :: 0 <= i < |s| ==> CleanColumn(s)[i].Some?
  {
    var t := Interpolate(s);
    assert t[k] == s[k];
    assert ColumnMedian(t).Some?;
  }

  /** A column with no present value stays entirely missing. */
  lemma CleanAllMissing(s: Column)
    requires forall i :: 0 <= i < |s| ==> s[i].None?
    ensures CleanColumn(s) == s
  {
    var t := Interpolate(s);
    forall i | 0 <= i < |s| ensures t[i].None? {
      assert PresentBefore(s, i).None?;
    }
    assert ColumnMedian(t).None?;
  }

  /** A missing run between present rows l and r is filled on the line through them. */
  lemma CleanInterior(s: Column, l: nat, r: nat, i: nat)
    requires l < i < r < |s|
    requires s[l].Some? && s[r].Some?
    requires forall j :: l < j < r ==> s[j].None?
    ensures CleanColumn(s)[i] == Some(Lerp(s[l].value, s[r].value, l, r, i))
  {
    var b := PresentBefore(s, i);
    assert b.Some? && b.value == l;
    var a := PresentFrom(s, i + 1);
    assert a.Some? && a.value == r;
    var t := Interpolate(s);
    assert t[i] == InterpolateAt(s, i) == Some(Lerp(s[l].value, s[r].value, l, r, i));
    assert CleanColumn(s)[i] == t[i];
  }

  /** A missing run after the last present row l takes the value at l. */
  lemma CleanTrailing(s: Column, l: nat, i: nat)
    requires l < i < |s|
    requires s[l].Some?
    requires forall j :: l < j < |s| ==> s[j].None?
    ensures CleanColumn(s)[i] == s[l]
  {
    var b := PresentBefore(s, i);
    assert b.Some? && b.value == l;
    assert PresentFrom(s, i + 1).None?;
  }

  /** A missing run before the first present row f takes the median of the interpolated column. */
  lemma CleanLeading(s: Column, f: nat, i: nat)
    requires i < f < |s|
    requires s[f].Some?
    requires forall j :: 0 <= j < f ==> s[j].None?
    ensures CleanColumn(s)[i] == ColumnMedian(Interpolate(s))
    ensures CleanColumn(s)[i].Some?
  {
    assert PresentBefore(s, i).None?;
    CleanFillsAll(s, f);
  }

  /** A gap of a single row between present values a and b takes their midpoint (between 40 and 60: exactly 50). */
  lemma HalfwayLerp(a: real, b: real, i: int)
    ensures Lerp(a, b, i - 1, i + 1, i) == (a + b) / 2.0
  {
    assert (i - (i - 1)) as real / ((i + 1) - (i - 1)) as real == 0.5;
  }

  // ---------------------------------------------------------------------
  // AQI categories (pd.cut with include_lowest=True)
  // ---------------------------------------------------------------------

  datatype Category = Good | Moderate | UnhealthyForSensitive | Unhealthy | VeryUnhealthy | Hazardous

  /** The category labels in bin order. */
  const Categories: seq<Category> :=
    [Good, Moderate, UnhealthyForSensitive, Unhealthy, VeryUnhealthy, Hazardous]

  /** The bin edges: category k covers (Bins[k], Bins[k+1]], the first also includes 0. */
  const Bins: seq<real> := [0.0, 50.0, 100.0, 150.0, 200.0, 300.0, 500.0]

  function CategoryLabel(c: Category): string
  {
    match c
    case Good => "Good"
    case Moderate => "Moderate"
    case UnhealthyForSensitive => "Unhealthy for Sensitive"
    case Unhealthy => "Unhealthy"
    case VeryUnhealthy => "Very Unhealthy"
    case Hazardous => "Hazardous"
  }

  /** The category of an AQI cell; missing, negative or above 500 gets none. */
  function Categorize(v: Option<real>): Option<Category>
  {
    if v.None? || v.value < 0.0 || v.value > 500.0 then None
    else if v.value <= 50.0 then Some(Good)
    else if v.value <= 100.0 then Some(Moderate)
    else if v.value <= 150.0 then Some(UnhealthyForSensitive)
    else if v.value <= 200.0 then Some(Unhealthy)
    else if v.value <= 300.0 then Some(VeryUnhealthy)
    else Some(Hazardous)
  }

  /** Categorize agrees with the bin table: label k iff the value lies in bin k. */
  lemma CategorizeMatchesBins(v: real, k: nat)
    requires k < |Categories|
    ensures Categorize(Some(v)) == Some(Categories[k])
        <==> (if k == 0 then Bins[0] <= v else Bins[k] < v) && v <= Bins[k + 1]
  {
  }

  /** Values outside [0, 500] get no category; every other value gets one. */
  lemma CategorizeDomain(v: real)
    ensures Categorize(Some(v)).None? <==> v < 0.0 || v > 500.0
  {
  }

  lemma CategoryEdges()
    ensures Categorize(Some(0.0)) == Some(Good)
    ensures Categorize(Some(50.0)) == Some(Good)
    ensures Categorize(Some(51.0)) == Some(Moderate)
    ensures Categorize(Some(500.0)) == Some(Hazardous)
    ensures Categorize(Some(500.5)) == None
    ensures Categorize(Some(-1.0)) == None
  {
  }

  // ---------------------------------------------------------------------
  // The AQI table before and after processing
  // ---------------------------------------------------------------------

  /** The raw AQI frame: the date column and whichever recognised numeric columns exist. */
  datatype AqiFrame = AqiFrame(dates: seq<Date>, columns: map<Metric, Column>)
  {
    ghost predicate Valid()
    {
      forall m :: m in columns ==> |columns[m]| == |dates|
    }
  }

  /** One processed AQI row: date, cleaned numeric cells, AQI_Category and the calendar columns. */
  datatype AqiRow = AqiRow(date: Date, values: map<Metric, Option<real>>,
                           category: Option<Category>, calendar: Features)

  /** The processed AQI table and the set of numeric columns it has. */
  datatype AqiTable = AqiTable(metrics: set<Metric>, rows: seq<AqiRow>)

  /** Every recognised column, cleaned. */
  function CleanAll(columns: map<Metric, Column>): (r: map<Metric, Column>)
    ensures r.Keys == columns.Keys
    ensures forall m :: m in r ==> r[m] == CleanColumn(columns[m])
  {
    map m | m in columns :: CleanColumn(columns[m])
  }

  /** The rows of a cleaned frame with the category and calendar columns added. */
  function Enrich(dates: seq<Date>, columns: map<Metric, Column>): (t: AqiTable)
    requires AQI in columns
    requires forall m :: m in columns ==> |columns[m]| == |dates|
    ensures t.metrics == columns.Keys && |t.rows| == |dates|
  {
    AqiTable(columns.Keys,
      seq(|dates|, i requires 0 <= i < |dates| =>
        AqiRow(dates[i], map m | m in columns :: columns[m][i],
               Categorize(columns[AQI][i]), FeaturesOf(dates[i]))))
  }

  /**
   * process_aqi_data: clean each recognised column, then bin AQI and add the
   * calendar columns; a frame without an AQI column raises a KeyError.
   */
  function ProcessAqi(frame: AqiFrame): (r: Result<AqiTable, PipelineError>)
    requires frame.Valid()
  {
    var cleaned := CleanAll(frame.columns);
    if AQI !in cleaned then Failure(MissingAqiColumn)
    else Success(Enrich(frame.dates, cleaned))
  }

  /** What processing promises of each row: same date, cleaned values, category of the AQI cell, calendar of the date. */
  lemma ProcessAqiRows(frame: AqiFrame, i: nat)
    requires frame.Valid() && AQI in frame.columns && i < |frame.dates|
    ensures ProcessAqi(frame).Success?
    ensures var row := ProcessAqi(frame).value.rows[i];
      && row.date == frame.dates[i]
      && row.values.Keys == frame.columns.Keys
      && (forall m :: m in frame.columns ==> row.values[m] == CleanColumn(frame.columns[m])[i])
      && row.category == Categorize(CleanColumn(frame.columns[AQI])[i])
      && row.calendar.isWeekend == (Weekday(row.date) >= 5)
  {
  }

  /** Without an AQI column, processing raises. */
  lemma ProcessAqiNeedsAqi(frame: AqiFrame)
    requires frame.Valid()
    ensures ProcessAqi(frame).Failure? <==> AQI !in frame.columns
  {
  }
}
