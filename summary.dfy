/**
 * The summary of DataProcessor.get_summary_statistics: row count, date
 * range, per-column statistics of the present AQI and transport columns,
 * and the distribution of AQI categories.
 */
module Summary {
  import opened Wrappers
  import opened Numeric
  import opened Calendar
  import opened AqiCleaning
  import opened Merge
  import opened Correlation

  /** mean, median, min and max of a column's present cells (the standard deviation is not modelled). */
  datatype ColumnStats = ColumnStats(mean: real, median: real, min: real, max: real)

  /**
   * The statistics of a column, or None when every cell is missing (pandas
   * then reports NaN for each of them). Every present cell lies between min
   * and max, both of which occur in the column, and so do the mean and median.
   */
  function StatsOf(col: Column): (r: Option<ColumnStats>)
    ensures r.Some? <==> exists i :: 0 <= i < |col| && col[i].Some?
    ensures r.Some? ==> r.value.min <= r.value.median <= r.value.max
    ensures r.Some? ==> r.value.min <= r.value.mean <= r.value.max
    ensures r.Some? ==> forall i :: 0 <= i < |col| && col[i].Some? ==> r.value.min <= col[i].value <= r.value.max
    ensures r.Some? ==> Some(r.value.min) in col && Some(r.value.max) in col
  {
    var xs := DropNa(col);
    if xs == [] then
      DropNaEmpty(col);
      None
    else
      MeanBetweenMinMax(xs);
      MedianBetweenMinMax(xs);
      assert forall i :: 0 <= i < |col| && col[i].Some? ==> Some(col[i].value) in col;
      Some(ColumnStats(Mean(xs), Median(xs), Min(xs), Max(xs)))
  }

  function EarliestDate(ds: seq<Date>): (m: Date)
    requires ds != []
    ensures m in ds && forall d :: d in ds ==> m <= d
  {
    if |ds| == 1 then ds[0]
    else
      var rest := EarliestDate(ds[1..]);
      assert forall d :: d in ds ==> d == ds[0] || d in ds[1..] by { assert ds == [ds[0]] + ds[1..]; }
      if ds[0] <= rest then ds[0] else rest
  }

  function LatestDate(ds: seq<Date>): (m: Date)
    requires ds != []
    ensures m in ds && forall d :: d in ds ==> d <= m
  {
    if |ds| == 1 then ds[0]
    else
      var rest := LatestDate(ds[1..]);
      assert forall d :: d in ds ==> d == ds[0] || d in ds[1..] by { assert ds == [ds[0]] + ds[1..]; }
      if rest <= ds[0] then ds[0] else rest
  }

  /** The first and last date of the table; None (NaT) for an empty table. */
  function DateRange(rows: seq<MergedRow>): (r: Option<(Date, Date)>)
    ensures r.None? <==> rows == []
    ensures r.Some? ==> r.value.0 <= r.value.1
    ensures r.Some? ==> forall i :: 0 <= i < |rows| ==> r.value.0 <= rows[i].date <= r.value.1
    ensures r.Some? ==> exists i, j :: 0 <= i < |rows| && 0 <= j < |rows| && rows[i].date == r.value.0 && rows[j].date == r.value.1
  {
    if rows == [] then None
    else
      var ds := Dates(rows);
      var lo := EarliestDate(ds);
      var hi := LatestDate(ds);
      assert forall i :: 0 <= i < |rows| ==> rows[i].date == ds[i];
      assert forall i :: 0 <= i < |rows| ==> ds[i] in ds;
      Some((lo, hi))
  }

  /** How many rows carry category c (value_counts; rows without a category are not counted). */
  function CategoryCount(rows: seq<MergedRow>, c: Category): (n: nat)
    ensures n <= |rows|
  {
    if rows == [] then 0
    else (if rows[0].category == Some(c) then 1 else 0) + CategoryCount(rows[1..], c)
  }

  /** How many rows carry some category. */
  function CategorizedCount(rows: seq<MergedRow>): nat
  {
    if rows == [] then 0
    else (if rows[0].category.Some? then 1 else 0) + CategorizedCount(rows[1..])
  }

  /** value_counts of the categorical column: every one of the six categories, zeros included. */
  function Distribution(rows: seq<MergedRow>): (dist: map<Category, nat>)
    ensures forall c: Category :: c in dist && dist[c] == CategoryCount(rows, c)
  {
    EveryCategoryListed();
    map c | c in Categories :: CategoryCount(rows, c)
  }

  lemma EveryCategoryListed()
    ensures forall c: Category :: c in Categories
  {
    forall c: Category ensures c in Categories {
      match c
      case Good => assert Categories[0] == c;
      case Moderate => assert Categories[1] == c;
      case UnhealthyForSensitive => assert Categories[2] == c;
      case Unhealthy => assert Categories[3] == c;
      case VeryUnhealthy => assert Categories[4] == c;
      case Hazardous => assert Categories[5] == c;
    }
  }

  /** The counts of the six categories add up to the number of categorised rows. */
  lemma {:induction false} DistributionTotal(rows: seq<MergedRow>)
    ensures var dist := Distribution(rows);
      dist[Good] + dist[Moderate] + dist[UnhealthyForSensitive] + dist[Unhealthy]
        + dist[VeryUnhealthy] + dist[Hazardous] == CategorizedCount(rows)
  {
    CountsTotal(rows);
  }

  lemma {:induction false} CountsTotal(rows: seq<MergedRow>)
    ensures CategoryCount(rows, Good) + CategoryCount(rows, Moderate) + CategoryCount(rows, UnhealthyForSensitive)
      + CategoryCount(rows, Unhealthy) + CategoryCount(rows, VeryUnhealthy) + CategoryCount(rows, Hazardous)
      == CategorizedCount(rows)
  {
    if rows != [] {
      var rest := rows[1..];
      CountsTotal(rest);
      match rows[0].category {
        case None =>
        case Some(c) =>
          match c {
            case Good =>
            case Moderate =>
            case UnhealthyForSensitive =>
            case Unhealthy =>
            case VeryUnhealthy =>
            case Hazardous =>
          }
      }
    }
  }

  /** The summary dictionary. */
  datatype Summary = Summary(
    totalDays: nat,
    dateRange: Option<(Date, Date)>,
    aqiStats: map<Metric, Option<ColumnStats>>,
    transportStats: map<TransportMetric, Option<ColumnStats>>,
    categoryDistribution: map<Category, nat>)

  /** get_summary_statistics on a given table. */
  function SummarySpec(t: MergedTable): Summary
  {
    Summary(
      |t.rows|,
      DateRange(t.rows),
      map m | m in t.metrics :: StatsOf(AqiValues(t.rows, m)),
      map c | c in TransportMetrics && HasTransportColumn(t, c) :: StatsOf(TransportValues(t.rows, c)),
      Distribution(t.rows))
  }

  /**
   * What the summary reports: one statistics entry per present AQI column and
   * per present transport column, the date range of the rows, and a
   * distribution over all six categories whose counts total the categorised rows.
   */
  lemma SummaryContent(t: MergedTable)
    ensures var s := SummarySpec(t);
      && s.totalDays == |t.rows|
      && (forall m :: m in s.aqiStats <==> m in t.metrics)
      && (forall c :: c in s.transportStats <==> HasTransportColumn(t, c))
      && TotalColumn in s.transportStats
      && (s.dateRange.Some? <==> t.rows != [])
      && (forall c: Category :: c in s.categoryDistribution)
      && s.categoryDistribution[Good] + s.categoryDistribution[Moderate]
         + s.categoryDistribution[UnhealthyForSensitive] + s.categoryDistribution[Unhealthy]
         + s.categoryDistribution[VeryUnhealthy] + s.categoryDistribution[Hazardous] == CategorizedCount(t.rows)
  {
    DistributionTotal(t.rows);
    assert forall c :: c in TransportMetrics by {
      forall c ensures c in TransportMetrics {
        match c
        case BusColumn => assert TransportMetrics[0] == c;
        case MetroColumn => assert TransportMetrics[1] == c;
        case TotalColumn => assert TransportMetrics[2] == c;
      }
    }
  }

  /** When every row has a category, the distribution accounts for every row. */
  lemma {:induction false} CategorizedAll(rows: seq<MergedRow>)
    requires forall i :: 0 <= i < |rows| ==> rows[i].category.Some?
    ensures CategorizedCount(rows) == |rows|
  {
    if rows != [] {
      CategorizedAll(rows[1..]);
    }
  }
}
