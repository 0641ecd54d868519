/**
 * The data rules of the Streamlit dashboard: the date and AQI-threshold
 * filters, the key metrics, the insight list and the parsing of correlation
 * keys for the heatmap. Rendering is not modelled.
 */
module Dashboard {
  import opened Wrappers
  import opened Numeric
  import opened Calendar
  import opened AqiCleaning
  import opened Merge
  import opened Correlation

  // ---------------------------------------------------------------------
  // Row filters (boolean-mask selection)
  // ---------------------------------------------------------------------

  /** The rows for which keep holds, in their order (boolean-mask selection); it never adds a row. */
  function Filter(rows: seq<MergedRow>, keep: MergedRow -> bool): (r: seq<MergedRow>)
    ensures |r| <= |rows|
    ensures (forall i :: 0 <= i < |rows| ==> keep(rows[i])) ==> r == rows
  {
    if rows == [] then []
    else
      var rest := Filter(rows[1..], keep);
      if keep(rows[0]) then [rows[0]] + rest else rest
  }

  /** Each row satisfying keep is kept as often as the input has it; every other row is dropped. */
  lemma {:induction false} FilterContent(rows: seq<MergedRow>, keep: MergedRow -> bool)
    ensures forall x :: multiset(Filter(rows, keep))[x] == if keep(x) then multiset(rows)[x] else 0
    ensures forall x :: x in Filter(rows, keep) <==> x in rows && keep(x)
  {
    if rows != [] {
      FilterContent(rows[1..], keep);
      assert rows == [rows[0]] + rows[1..];
    }
  }

  /** Selection distributes over concatenation, so it keeps the relative order of the rows. */
  lemma {:induction false} FilterAppend(a: seq<MergedRow>, b: seq<MergedRow>, keep: MergedRow -> bool)
    ensures Filter(a + b, keep) == Filter(a, keep) + Filter(b, keep)
  {
    if a == [] {
      assert a + b == b;
    } else {
      assert (a + b)[0] == a[0] && (a + b)[1..] == a[1..] + b;
      FilterAppend(a[1..], b, keep);
    }
  }

  /** The number of rows kept is the number of positions whose row satisfies keep. */
  lemma FilterCount(rows: seq<MergedRow>, keep: MergedRow -> bool)
    ensures |Filter(rows, keep)| == |KeptPositions(rows, keep, |rows|)|
  {
    FilterCountPrefix(rows, keep, |rows|);
    assert rows[..|rows|] == rows;
  }

  lemma {:induction false} FilterCountPrefix(rows: seq<MergedRow>, keep: MergedRow -> bool, n: nat)
    requires n <= |rows|
    ensures |Filter(rows[..n], keep)| == |KeptPositions(rows, keep, n)|
  {
    if n == 0 {
      FilterCountNone(rows, keep);
    } else {
      FilterCountPrefix(rows, keep, n - 1);
      KeptPositionsStep(rows, keep, n);
      FilterPrefixStep(rows, keep, n);
    }
  }

  lemma FilterCountNone(rows: seq<MergedRow>, keep: MergedRow -> bool)
    ensures |Filter(rows[..0], keep)| == |KeptPositions(rows, keep, 0)|
  {
    assert rows[..0] == [];
    assert KeptPositions(rows, keep, 0) == {};
  }

  lemma FilterPrefixStep(rows: seq<MergedRow>, keep: MergedRow -> bool, n: nat)
    requires 0 < n <= |rows|
    ensures |Filter(rows[..n], keep)| == |Filter(rows[..n - 1], keep)| + if keep(rows[n - 1]) then 1 else 0
  {
    assert rows[..n] == rows[..n - 1] + [rows[n - 1]];
    FilterSnoc(rows[..n - 1], rows[n - 1], keep);
  }

  /** The positions below n whose row satisfies keep. */
  function KeptPositions(rows: seq<MergedRow>, keep: MergedRow -> bool, n: nat): set<nat>
    requires n <= |rows|
  {
    set i: nat | i < n && keep(rows[i])
  }

  lemma KeptPositionsStep(rows: seq<MergedRow>, keep: MergedRow -> bool, n: nat)
    requires 0 < n <= |rows|
    ensures |KeptPositions(rows, keep, n)| == |KeptPositions(rows, keep, n - 1)| + if keep(rows[n - 1]) then 1 else 0
  {
    var before := KeptPositions(rows, keep, n - 1);
    assert n - 1 !in before;
    if keep(rows[n - 1]) {
      assert KeptPositions(rows, keep, n) == before + {n - 1};
    } else {
      assert KeptPositions(rows, keep, n) == before;
    }
  }

  lemma FilterSnoc(s: seq<MergedRow>, x: MergedRow, keep: MergedRow -> bool)
    ensures |Filter(s + [x], keep)| == |Filter(s, keep)| + if keep(x) then 1 else 0
  {
    FilterAppend(s, [x], keep);
    assert [x][1..] == [];
  }

  /** The AQI cell of a row, missing when absent. */
  function AqiOf(row: MergedRow): Option<real>
  {
    if AQI in row.values then row.values[AQI] else None
  }

  /** Whether a date passes the date-range selection: any date unless exactly two bounds are chosen. */
  predicate InRange(range: seq<Date>, d: Date)
  {
    |range| != 2 || range[0] <= d <= range[1]
  }

  /** Whether a row passes the AQI threshold: its AQI is present and at most the threshold. */
  predicate WithinThreshold(row: MergedRow, threshold: int)
  {
    AqiOf(row).Some? && AqiOf(row).value <= threshold as real
  }

  /**
   * The date-range filter: with exactly two dates selected and a non-empty
   * table, the rows dated between them inclusive; otherwise the table unchanged.
   */
  function DateFilter(rows: seq<MergedRow>, range: seq<Date>): (r: seq<MergedRow>)
    ensures rows != [] && |range| == 2 ==>
      forall x :: x in r <==> x in rows && range[0] <= x.date <= range[1]
    ensures rows == [] || |range| != 2 ==> r == rows
    ensures forall x :: multiset(r)[x] == if InRange(range, x.date) then multiset(rows)[x] else 0
  {
    if rows != [] && |range| == 2 then
      var inRange := (row: MergedRow) => range[0] <= row.date <= range[1];
      FilterContent(rows, inRange);
      Filter(rows, inRange)
    else rows
  }

  /** The threshold filter: the rows whose AQI is present and at most the threshold (a missing AQI never passes). */
  function ThresholdFilter(rows: seq<MergedRow>, threshold: int): (r: seq<MergedRow>)
    ensures forall x :: x in r <==> x in rows && WithinThreshold(x, threshold)
    ensures forall x :: multiset(r)[x] == if WithinThreshold(x, threshold) then multiset(rows)[x] else 0
  {
    var passes := (row: MergedRow) => WithinThreshold(row, threshold);
    FilterContent(rows, passes);
    Filter(rows, passes)
  }

  /**
   * The filters of the sidebar in order; the threshold filter applies when
   * the table has an AQI column. A row is kept, as often as the table has it,
   * exactly when its date is in range and it passes the threshold.
   */
  function Filtered(t: MergedTable, range: seq<Date>, threshold: int): (r: seq<MergedRow>)
    ensures forall x :: x in r ==> x in t.rows
    ensures forall x :: multiset(r)[x] == (if InRange(range, x.date) && (AQI !in t.metrics || WithinThreshold(x, threshold))
                                           then multiset(t.rows)[x] else 0)
  {
    var dated := DateFilter(t.rows, range);
    if AQI in t.metrics then ThresholdFilter(dated, threshold) else dated
  }

  /** The AQI column of the rows. */
  function AqiColumn(rows: seq<MergedRow>): (col: Column)
    ensures |col| == |rows| && forall i :: 0 <= i < |rows| ==> col[i] == AqiOf(rows[i])
  {
    AqiValues(rows, AQI)
  }

  /**
   * The slider's default threshold, int() of the largest AQI (truncation);
   * None when no AQI is present, where int() of NaN raises.
   */
  function DefaultThreshold(rows: seq<MergedRow>): (r: Option<int>)
    ensures r.Some? <==> exists i :: 0 <= i < |rows| && AqiOf(rows[i]).Some?
  {
    var col := AqiColumn(rows);
    var xs := DropNa(col);
    if xs == [] then
      DropNaEmpty(col);
      None
    else
      assert Some(xs[0]) in col;
      Some(Trunc(Max(xs)))
  }

  /** The slider's lower bound, int() of the smallest AQI; it never exceeds the default, which is also the slider's upper bound. */
  function SliderMinimum(rows: seq<MergedRow>): (r: Option<int>)
    ensures r.Some? <==> exists i :: 0 <= i < |rows| && AqiOf(rows[i]).Some?
    ensures r.Some? ==> r.value <= DefaultThreshold(rows).value
  {
    var col := AqiColumn(rows);
    var xs := DropNa(col);
    if xs == [] then
      DropNaEmpty(col);
      None
    else
      assert Some(xs[0]) in col;
      TruncMonotone(Min(xs), Max(xs));
      Some(Trunc(Min(xs)))
  }

  /** The threshold the slider evidently means to default to: the largest AQI rounded up. */
  function FullRangeThreshold(rows: seq<MergedRow>): (r: Option<int>)
    ensures r.Some? <==> exists i :: 0 <= i < |rows| && AqiOf(rows[i]).Some?
  {
    var col := AqiColumn(rows);
    var xs := DropNa(col);
    if xs == [] then
      DropNaEmpty(col);
      None
    else
      assert Some(xs[0]) in col;
      Some(-((-Max(xs)).Floor))
  }

  /** The rounded-up default keeps every row whose AQI is present. */
  lemma FullRangeThresholdKeepsAll(rows: seq<MergedRow>)
    requires forall i :: 0 <= i < |rows| ==> AqiOf(rows[i]).Some?
    requires rows != []
    ensures ThresholdFilter(rows, FullRangeThreshold(rows).value) == rows
  {
    var col := AqiColumn(rows);
    var xs := DropNa(col);
    DropNaComplete(col);
    var m := Max(xs);
    var t := FullRangeThreshold(rows).value;
    assert t == -((-m).Floor);
    assert m <= t as real;
    forall i | 0 <= i < |rows| ensures AqiOf(rows[i]).value <= t as real {
      assert xs[i] == AqiOf(rows[i]).value;
      assert xs[i] in xs;
    }
  }

  /** The truncated default keeps every row when every AQI is a whole number. */
  lemma DefaultThresholdKeepsIntegral(rows: seq<MergedRow>)
    requires rows != []
    requires forall i :: 0 <= i < |rows| ==> AqiOf(rows[i]).Some? && AqiOf(rows[i]).value == AqiOf(rows[i]).value.Floor as real
    ensures ThresholdFilter(rows, DefaultThreshold(rows).value) == rows
  {
    var col := AqiColumn(rows);
    var xs := DropNa(col);
    DropNaComplete(col);
    var m := Max(xs);
    assert m == m.Floor as real by {
      var j :| 0 <= j < |xs| && xs[j] == m;
      assert xs[j] == AqiOf(rows[j]).value;
    }
    var t := DefaultThreshold(rows).value;
    assert m <= t as real;
    forall i | 0 <= i < |rows| ensures AqiOf(rows[i]).value <= t as real {
      assert xs[i] == AqiOf(rows[i]).value;
      assert xs[i] in xs;
    }
  }

  /**
   * The truncated default drops the day with the largest AQI when that AQI
   * is fractional. With AQI 100 and 150.5 the slider runs from 100 to 150,
   * defaults to 150, and the 150.5 day is filtered out.
   */
  lemma DefaultThresholdDropsFractionalMax(low: MergedRow, high: MergedRow)
    requires AqiOf(low) == Some(100.0) && AqiOf(high) == Some(150.5)
    ensures SliderMinimum([low, high]) == Some(100)
    ensures DefaultThreshold([low, high]) == Some(150)
    ensures ThresholdFilter([low, high], DefaultThreshold([low, high]).value) == [low]
  {
    var rows := [low, high];
    var col := AqiColumn(rows);
    assert col == [Some(100.0), Some(150.5)];
    assert col[1..] == [Some(150.5)] && col[1..][1..] == [];
    var xs := DropNa(col);
    assert xs == [100.0, 150.5];
    assert xs[1..] == [150.5];
    assert Max(xs) == 150.5 && Min(xs) == 100.0;
    assert (150.5).Floor == 150;
    ThresholdKeepsFirst(low, high, 150);
  }

  lemma ThresholdKeepsFirst(low: MergedRow, high: MergedRow, threshold: int)
    requires WithinThreshold(low, threshold) && !WithinThreshold(high, threshold)
    ensures ThresholdFilter([low, high], threshold) == [low]
  {
    var kept := ThresholdFilter([low, high], threshold);
    assert multiset(kept) == multiset{low} by {
      forall x ensures multiset(kept)[x] == multiset{low}[x] {
        assert multiset([low, high]) == multiset{low, high};
      }
    }
    assert |kept| == 1 && kept[0] in multiset(kept);
  }

  // ---------------------------------------------------------------------
  // Key metrics
  // ---------------------------------------------------------------------

  datatype KeyMetrics = KeyMetrics(averageAqi: Option<real>, totalPassengers: int, highAqiDays: nat, daysOfData: nat)

  /** Whether a row counts as a high-AQI day: its AQI is present and above 100. */
  predicate IsHigh(row: MergedRow)
  {
    AqiOf(row).Some? && AqiOf(row).value > 100.0
  }

  /** The rows with AQI above 100, each as often as in the selection. */
  function HighAqiRows(rows: seq<MergedRow>): (r: seq<MergedRow>)
    ensures forall x :: x in r <==> x in rows && IsHigh(x)
    ensures forall x :: multiset(r)[x] == if IsHigh(x) then multiset(rows)[x] else 0
  {
    FilterContent(rows, IsHigh);
    Filter(rows, IsHigh)
  }

  /** "High AQI Days" is the number of positions whose row has an AQI above 100. */
  lemma HighAqiCount(rows: seq<MergedRow>)
    ensures |HighAqiRows(rows)| == |set i: nat | i < |rows| && IsHigh(rows[i])|
  {
    FilterCount(rows, IsHigh);
    assert KeptPositions(rows, IsHigh, |rows|) == set i: nat | i < |rows| && IsHigh(rows[i]);
  }

  /** Sum of total_passengers over the rows (Series.sum skips missing cells). */
  function TotalPassengers(rows: seq<MergedRow>): (n: int)
    ensures n as real == Sum(DropNa(TransportValues(rows, TotalColumn)))
  {
    if rows == [] then 0
    else
      var col := TransportValues(rows, TotalColumn);
      assert col[1..] == TransportValues(rows[1..], TotalColumn);
      (if rows[0].total.Some? then rows[0].total.value else 0) + TotalPassengers(rows[1..])
  }

  /**
   * The four key metrics; None for an empty selection, where the dashboard
   * warns and stops. "Days of Data" is the row count; "High AQI Days" counts
   * the rows above 100; "Total Passengers" is the sum of the present totals;
   * the average exists exactly when some AQI is present and lies between two
   * present AQI values.
   */
  function Metrics(rows: seq<MergedRow>): (r: Option<KeyMetrics>)
    ensures r.None? <==> rows == []
    ensures r.Some? ==> r.value.daysOfData == |rows| && r.value.highAqiDays <= r.value.daysOfData
    ensures r.Some? ==> r.value.highAqiDays == |set i: nat | i < |rows| && IsHigh(rows[i])|
    ensures r.Some? ==> r.value.totalPassengers as real == Sum(DropNa(TransportValues(rows, TotalColumn)))
    ensures r.Some? ==> (r.value.averageAqi.Some? <==> exists i :: 0 <= i < |rows| && AqiOf(rows[i]).Some?)
    ensures r.Some? && r.value.averageAqi.Some? ==>
      exists i, j :: 0 <= i < |rows| && 0 <= j < |rows| && AqiOf(rows[i]).Some? && AqiOf(rows[j]).Some?
        && AqiOf(rows[i]).value <= r.value.averageAqi.value <= AqiOf(rows[j]).value
  {
    if rows == [] then None
    else
      var col := AqiColumn(rows);
      var avg := ColumnMean(col);
      HighAqiCount(rows);
      Some(KeyMetrics(avg, TotalPassengers(rows), |HighAqiRows(rows)|, |rows|))
  }

  /** After a threshold of at most 100, no high-AQI day remains. */
  lemma NoHighDaysUnderThreshold(rows: seq<MergedRow>, threshold: int)
    requires threshold <= 100
    ensures |HighAqiRows(ThresholdFilter(rows, threshold))| == 0
  {
    var high := HighAqiRows(ThresholdFilter(rows, threshold));
    if |high| > 0 {
      FirstIsMember(high);
      assert false;
    }
  }

  lemma FirstIsMember(s: seq<MergedRow>)
    requires |s| > 0
    ensures s[0] in s
  {
  }

  // ---------------------------------------------------------------------
  // Insights
  // ---------------------------------------------------------------------

  datatype AirQuality = UnhealthyAir | ModerateAir | GoodAir
  datatype Strength = Strong | ModerateLink | Weak
  datatype Direction = Positive | Negative

  datatype Insight =
    | AirInsight(quality: AirQuality, average: Option<real>)
    | CorrelationInsight(strength: Strength, direction: Option<Direction>, coefficient: real)
    | WeekdayInsight(weekdayAverage: real, weekendAverage: real)

  function Abs(x: real): real
  {
    if x < 0.0 then -x else x
  }

  /** correlations.get(key, {}).get('correlation', 0): the first entry with the key, else 0. */
  function CorrelationOr0(entries: seq<(string, CorrelationEntry)>, key: string): (r: real)
    ensures (forall k :: 0 <= k < |entries| ==> entries[k].0 != key) ==> r == 0.0
    ensures (exists k :: 0 <= k < |entries| && entries[k].0 == key) ==>
      exists k :: 0 <= k < |entries| && entries[k].0 == key && r == entries[k].1.correlation
  {
    if entries == [] then 0.0
    else if entries[0].0 == key then entries[0].1.correlation
    else
      var r := CorrelationOr0(entries[1..], key);
      assert forall k :: 1 <= k < |entries| ==> entries[k] == entries[1..][k - 1];
      r
  }

  /** Mean of total_passengers over the rows with the given weekend flag; None (NaN) when there is none. */
  function TotalMean(rows: seq<MergedRow>, weekend: bool): Option<real>
  {
    ColumnMean(seq(|rows|, i requires 0 <= i < |rows| =>
      if rows[i].calendar.isWeekend == weekend && rows[i].total.Some? then Some(rows[i].total.value as real) else None))
  }

  const TotalKey: string := "AQI_vs_total_passengers"

  /** The air-quality verdict on the average AQI; a NaN average compares false and reads as good. */
  function AirQualityOf(avg: Option<real>): (q: AirQuality)
    ensures q == UnhealthyAir <==> avg.Some? && avg.value > 100.0
    ensures q == ModerateAir <==> avg.Some? && 50.0 < avg.value <= 100.0
    ensures q == GoodAir <==> avg.None? || avg.value <= 50.0
  {
    if avg.Some? && avg.value > 100.0 then UnhealthyAir
    else if avg.Some? && avg.value > 50.0 then ModerateAir
    else GoodAir
  }

  /** The strength of a correlation coefficient. */
  function StrengthOf(r: real): (s: Strength)
    ensures s == Strong <==> Abs(r) > 0.3
    ensures s == ModerateLink <==> 0.1 < Abs(r) <= 0.3
    ensures s == Weak <==> Abs(r) <= 0.1
  {
    if Abs(r) > 0.3 then Strong else if Abs(r) > 0.1 then ModerateLink else Weak
  }

  /** The direction reported with a strong or moderate coefficient: its sign, zero counting as negative. */
  function DirectionOf(r: real): (d: Option<Direction>)
    ensures d.Some? <==> StrengthOf(r) != Weak
    ensures d == Some(Positive) <==> StrengthOf(r) != Weak && r > 0.0
    ensures d == Some(Negative) <==> StrengthOf(r) != Weak && r < 0.0
  {
    if StrengthOf(r) == Weak then None else if r > 0.0 then Some(Positive) else Some(Negative)
  }

  /** Whether the weekday mean exceeds 1.2 times the weekend mean; a NaN mean compares false. */
  predicate WeekdaysBusier(rows: seq<MergedRow>)
  {
    var weekday := TotalMean(rows, false);
    var weekend := TotalMean(rows, true);
    weekday.Some? && weekend.Some? && weekday.value > weekend.value * 1.2
  }

  /**
   * The insight list, built by appending: an air-quality insight when the
   * table has AQI, then exactly one correlation insight on
   * AQI_vs_total_passengers, then the weekday insight when weekdays are busier.
   */
  method Insights(metrics: set<Metric>, rows: seq<MergedRow>, correlations: seq<(string, CorrelationEntry)>)
    returns (insights: seq<Insight>)
    ensures var a := if AQI in metrics then 1 else 0;
      && |insights| == a + 1 + (if WeekdaysBusier(rows) then 1 else 0)
      && (AQI in metrics ==> insights[0] == AirInsight(AirQualityOf(ColumnMean(AqiColumn(rows))), ColumnMean(AqiColumn(rows))))
      && (var r := CorrelationOr0(correlations, TotalKey);
          insights[a] == CorrelationInsight(StrengthOf(r), DirectionOf(r), r))
      && (WeekdaysBusier(rows) ==>
            insights[a + 1] == WeekdayInsight(TotalMean(rows, false).value, TotalMean(rows, true).value))
  {
    var air: seq<Insight> := [];
    if AQI in metrics {
      var quality := AirInsightOf(ColumnMean(AqiColumn(rows)));
      air := [quality];
    }
    var r := CorrelationOr0(correlations, TotalKey);
    var link := CorrelationInsightOf(r);
    var weekday := WeekdayInsightOf(rows);
    insights := air + [link] + weekday;
    assert |air| == if AQI in metrics then 1 else 0;
    assert insights[|air|] == link;
    assert |weekday| > 0 ==> insights[|air| + 1] == weekday[0];
  }

  /** The weekday insight, present when weekdays carry over 1.2 times the weekend mean. */
  method WeekdayInsightOf(rows: seq<MergedRow>) returns (insight: seq<Insight>)
    ensures WeekdaysBusier(rows) ==> insight == [WeekdayInsight(TotalMean(rows, false).value, TotalMean(rows, true).value)]
    ensures !WeekdaysBusier(rows) ==> insight == []
  {
    var weekend := TotalMean(rows, true);
    var weekday := TotalMean(rows, false);
    insight := [];
    if weekday.Some? && weekend.Some? && weekday.value > weekend.value * 1.2 {
      insight := [WeekdayInsight(weekday.value, weekend.value)];
    }
  }

  /** The air-quality insight for an average AQI, by the thresholds 100 and 50. */
  method AirInsightOf(avg: Option<real>) returns (insight: Insight)
    ensures insight == AirInsight(AirQualityOf(avg), avg)
  {
    if avg.Some? && avg.value > 100.0 {
      insight := AirInsight(UnhealthyAir, avg);
    } else if avg.Some? && avg.value > 50.0 {
      insight := AirInsight(ModerateAir, avg);
    } else {
      insight := AirInsight(GoodAir, avg);
    }
  }

  /** The correlation insight for a coefficient, by the thresholds 0.3 and 0.1 on its absolute value. */
  method CorrelationInsightOf(r: real) returns (insight: Insight)
    ensures insight == CorrelationInsight(StrengthOf(r), DirectionOf(r), r)
  {
    if Abs(r) > 0.3 {
      var direction := if r > 0.0 then Positive else Negative;
      insight := CorrelationInsight(Strong, Some(direction), r);
    } else if Abs(r) > 0.1 {
      var direction := if r > 0.0 then Positive else Negative;
      insight := CorrelationInsight(ModerateLink, Some(direction), r);
    } else {
      insight := CorrelationInsight(Weak, None, r);
    }
  }

  /** Without an AQI_vs_total_passengers entry the coefficient is 0 and the correlation insight is weak. */
  lemma MissingKeyIsWeak(correlations: seq<(string, CorrelationEntry)>)
    requires forall k :: 0 <= k < |correlations| ==> correlations[k].0 != TotalKey
    ensures CorrelationOr0(correlations, TotalKey) == 0.0
    ensures StrengthOf(CorrelationOr0(correlations, TotalKey)) == Weak
    ensures DirectionOf(CorrelationOr0(correlations, TotalKey)) == None
  {
  }

  // ---------------------------------------------------------------------
  // Correlation keys (str.split on "_vs_")
  // ---------------------------------------------------------------------

  const Separator: string := "_vs_"

  predicate OccursAt(s: string, sep: string, j: nat)
  {
    j + |sep| <= |s| && s[j..j + |sep|] == sep
  }

  /** The first position at or after k where sep occurs in s. */
  function FindFrom(s: string, sep: string, k: nat): (r: Option<nat>)
    requires k <= |s|
    ensures r.Some? ==> k <= r.value && OccursAt(s, sep, r.value)
    ensures r.Some? ==> forall j :: k <= j < r.value ==> !OccursAt(s, sep, j)
    ensures r.None? ==> forall j :: k <= j <= |s| ==> !OccursAt(s, sep, j)
    decreases |s| - k
  {
    if OccursAt(s, sep, k) then Some(k)
    else if k == |s| then None
    else FindFrom(s, sep, k + 1)
  }

  /** str.split(sep): the pieces between non-overlapping occurrences, scanned left to right. */
  function Split(s: string, sep: string): (parts: seq<string>)
    requires sep != []
    ensures |parts| >= 1
    decreases |s|
  {
    match FindFrom(s, sep, 0)
    case None => [s]
    case Some(i) => [s[..i]] + Split(s[i + |sep|..], sep)
  }

  /** A string without 'v' does not contain the separator and splits into itself. */
  lemma SplitWithoutSeparator(t: string)
    requires 'v' !in t
    ensures Split(t, Separator) == [t]
  {
    forall j | 0 <= j <= |t| ensures !OccursAt(t, Separator, j) {
      if j + 4 <= |t| {
        assert t[j + 1] in t;
        assert t[j..j + 4][1] == t[j + 1];
      }
    }
  }

  /** When a has no '_', splitting a + "_vs_" + t cuts first right after a. */
  lemma SplitAfterPrefix(a: string, t: string)
    requires '_' !in a
    ensures Split(a + Separator + t, Separator) == [a] + Split(t, Separator)
  {
    var s := a + Separator + t;
    assert OccursAt(s, Separator, |a|) by {
      assert s[|a|..|a| + 4] == Separator;
    }
    forall j | 0 <= j < |a| ensures !OccursAt(s, Separator, j) {
      assert a[j] in a;
      assert s[j] == a[j];
      assert s[j..j + 4][0] == s[j];
    }
    var r := FindFrom(s, Separator, 0);
    assert r == Some(|a|);
    assert s[..|a|] == a;
    assert s[|a| + 4..] == t;
  }

  /** The heatmap's reading of a key: the two sides when splitting gives exactly two parts. */
  function ParseKey(key: string): (r: Option<(string, string)>)
    ensures r.Some? ==> Split(key, Separator) == [r.value.0, r.value.1]
    ensures r.None? <==> |Split(key, Separator)| != 2
  {
    var parts := Split(key, Separator);
    if |parts| == 2 then Some((parts[0], parts[1])) else None
  }

  lemma NamesFitKeys(m: Metric, c: TransportMetric)
    ensures '_' !in MetricName(m)
    ensures 'v' !in TransportMetricName(c)
  {
  }

  /** Every key calculate_correlations builds parses back into its two column names. */
  lemma ParseKeyRoundTrip(m: Metric, c: TransportMetric)
    ensures ParseKey(Key(m, c)) == Some((MetricName(m), TransportMetricName(c)))
  {
    NamesFitKeys(m, c);
    SplitAfterPrefix(MetricName(m), TransportMetricName(c));
    SplitWithoutSeparator(TransportMetricName(c));
  }

  /** Distinct column pairs get distinct keys. */
  lemma KeyInjective(m1: Metric, c1: TransportMetric, m2: Metric, c2: TransportMetric)
    requires Key(m1, c1) == Key(m2, c2)
    ensures m1 == m2 && c1 == c2
  {
    ParseKeyRoundTrip(m1, c1);
    ParseKeyRoundTrip(m2, c2);
  }

  // ---------------------------------------------------------------------
  // Heatmap cells
  // ---------------------------------------------------------------------

  datatype Cell = Cell(aqiMetric: string, transportMetric: string, correlation: real)

  /** The cells of the keys that parse, in order. */
  function ParsedCells(entries: seq<(string, CorrelationEntry)>): seq<Cell>
  {
    if entries == [] then []
    else
      var last := entries[|entries| - 1];
      var before := ParsedCells(entries[..|entries| - 1]);
      match ParseKey(last.0)
      case None => before
      case Some(names) => before + [Cell(names.0, names.1, last.1.correlation)]
  }

  /** The loop of create_correlation_heatmap: None when no key parses, else the parsed cells. */
  method HeatmapCells(correlations: seq<(string, CorrelationEntry)>) returns (cells: Option<seq<Cell>>)
    ensures cells.None? <==> ParsedCells(correlations) == []
    ensures cells.Some? ==> cells.value == ParsedCells(correlations)
  {
    var data: seq<Cell> := [];
    for k := 0 to |correlations|
      invariant data == ParsedCells(correlations[..k])
    {
      assert correlations[..k + 1][..k] == correlations[..k];
      var parts := Split(correlations[k].0, Separator);
      if |parts| == 2 {
        data := data + [Cell(parts[0], parts[1], correlations[k].1.correlation)];
      }
    }
    assert correlations[..|correlations|] == correlations;
    if data == [] {
      return None;
    }
    return Some(data);
  }

  /**
   * On the output of calculate_correlations every key parses: the heatmap has
   * one cell per entry, naming the entry's AQI and transport columns.
   */
  lemma {:induction false} HeatmapOfCorrelations(rows: seq<MergedRow>, pairs: seq<(Metric, TransportMetric)>, pearson: Pearson)
    requires CorrelateAll(rows, pairs, pearson).Success?
    ensures var out := CorrelateAll(rows, pairs, pearson).value;
      var cells := ParsedCells(out);
      && |cells| == |out| == |pairs|
      && forall k :: 0 <= k < |out| && k < |pairs| ==>
           cells[k] == Cell(MetricName(pairs[k].0), TransportMetricName(pairs[k].1), out[k].1.correlation)
  {
    var out := CorrelateAll(rows, pairs, pearson).value;
    CorrelateAllEntries(rows, pairs, pearson);
    CellsOfKeyed(out, pairs);
  }

  lemma CellsOfKeyed(out: seq<(string, CorrelationEntry)>, pairs: seq<(Metric, TransportMetric)>)
    requires |out| == |pairs|
    requires forall k :: 0 <= k < |out| ==> out[k].0 == Key(pairs[k].0, pairs[k].1)
    ensures |ParsedCells(out)| == |out|
    ensures forall k :: 0 <= k < |out| ==>
      ParsedCells(out)[k] == Cell(MetricName(pairs[k].0), TransportMetricName(pairs[k].1), out[k].1.correlation)
  {
    var names := seq(|pairs|, k requires 0 <= k < |pairs| => (MetricName(pairs[k].0), TransportMetricName(pairs[k].1)));
    forall k | 0 <= k < |out| ensures ParseKey(out[k].0) == Some(names[k]) {
      ParseKeyRoundTrip(pairs[k].0, pairs[k].1);
    }
    CellsOfParsed(out, names);
  }

  /** When every key parses, the heatmap has one cell per entry, in order. */
  lemma {:induction false} CellsOfParsed(out: seq<(string, CorrelationEntry)>, names: seq<(string, string)>)
    requires |out| == |names|
    requires forall k :: 0 <= k < |out| ==> ParseKey(out[k].0) == Some(names[k])
    ensures |ParsedCells(out)| == |out|
    ensures forall k :: 0 <= k < |out| ==> ParsedCells(out)[k] == Cell(names[k].0, names[k].1, out[k].1.correlation)
  {
    if out != [] {
      var n := |out| - 1;
      var init, before := out[..n], names[..n];
      assert forall k :: 0 <= k < n ==> init[k] == out[k] && before[k] == names[k];
      CellsOfParsed(init, before);
      var cells := ParsedCells(out);
      assert cells == ParsedCells(init) + [Cell(names[n].0, names[n].1, out[n].1.correlation)];
      forall k | 0 <= k < |out| ensures cells[k] == Cell(names[k].0, names[k].1, out[k].1.correlation) {
        if k < n {
          assert cells[k] == ParsedCells(init)[k];
        }
      }
    }
  }
}
