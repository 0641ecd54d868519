/**
 * The DataProcessor object: it holds the merged table of its last successful
 * merge, and its analysis operations fall back on that table when no table
 * is given. Each method is proved against the specification function of its
 * module.
 */
module Processor {
  import opened Wrappers
  import opened Numeric
  import opened AqiCleaning
  import opened TransportPivot
  import opened Merge
  import opened Correlation
  import opened Summary
  import opened LagFeatures

  class DataProcessor {
    /** The table of the last successful merge_datasets, or None before any. */
    var mergedData: Option<MergedTable>

    constructor()
      ensures mergedData == None
    {
      mergedData := None;
    }

    /** The table an analysis works on: the one given, else the stored one; neither raises ValueError. */
    function Source(given: Option<MergedTable>): (r: Result<MergedTable, PipelineError>)
      reads this
      ensures r.Failure? <==> given.None? && mergedData.None?
      ensures r.Failure? ==> r.error == NoMergedData
      ensures r.Success? ==> r.value == (if given.Some? then given.value else mergedData.value)
    {
      if given.Some? then Success(given.value)
      else if mergedData.Some? then Success(mergedData.value)
      else Failure(NoMergedData)
    }

    /**
     * process_aqi_data: clean each recognised column the frame has, in the
     * order AQI, PM2.5, PM10, NO2, Ozone, then bin AQI and add the calendar
     * columns.
     */
    method ProcessAqiData(frame: AqiFrame) returns (r: Result<AqiTable, PipelineError>)
      requires frame.Valid()
      ensures r == ProcessAqi(frame)
    {
      AqiMetricsComplete(AQI);
      var columns := EachListedColumn(frame.columns, AqiMetrics, CleanColumn);
      forall m | m in columns ensures columns[m] == CleanColumn(frame.columns[m]) {
        AqiMetricsComplete(m);
      }
      var cleaned := CleanAll(frame.columns);
      assert columns == cleaned;
      if AQI !in columns {
        return Failure(MissingAqiColumn);
      }
      return Success(Enrich(frame.dates, columns));
    }

    /**
     * The loop of process_aqi_data over the listed column names (AQI, PM2.5,
     * PM10, NO2 and Ozone): each of them the frame has is replaced by step
     * applied to it, every other column is left as it is.
     */
    static method EachListedColumn(columns: map<Metric, Column>, names: seq<Metric>, step: Column -> Column)
      returns (updated: map<Metric, Column>)
      requires forall i, j :: 0 <= i < j < |names| ==> names[i] != names[j]
      ensures updated.Keys == columns.Keys
      ensures forall m :: m in updated ==> updated[m] == if m in names then step(columns[m]) else columns[m]
    {
      updated := columns;
      for k := 0 to |names|
        invariant updated.Keys == columns.Keys
        invariant forall m :: m in updated ==>
          updated[m] == if m in names[..k] then step(columns[m]) else columns[m]
      {
        var m := names[k];
        PrefixSnoc(names, k);
        assert m !in names[..k];
        if m in updated {
          updated := updated[m := step(updated[m])];
        }
      }
      assert names[..|names|] == names;
    }

    /** Extending a prefix by one element adds exactly that element. */
    static lemma PrefixSnoc<T>(s: seq<T>, k: nat)
      requires k < |s|
      ensures forall x :: x in s[..k + 1] <==> x in s[..k] || x == s[k]
    {
      assert s[..k + 1] == s[..k] + [s[k]];
    }

    /**
     * merge_datasets: process both inputs, inner-join them on date, sort by
     * date, and keep the result. A failed merge leaves the stored table as it was.
     */
    method MergeDatasets(frame: AqiFrame, events: seq<TransportEvent>) returns (r: Result<MergedTable, PipelineError>)
      requires frame.Valid()
      modifies this
      ensures r == MergeSpec(frame, events)
      ensures mergedData == if r.Success? then Some(r.value) else old(mergedData)
    {
      var a := ProcessAqiData(frame);
      if a.Failure? {
        return Failure(a.error);
      }
      var t := ProcessTransport(events);
      var merged := MergeTables(a.value, t);
      mergedData := Some(merged);
      return Success(merged);
    }

    /**
     * calculate_correlations: for every present AQI column and every present
     * transport column, the Pearson coefficient of the two columns with their
     * missing cells dropped.
     */
    method CalculateCorrelations(given: Option<MergedTable>, pearson: Pearson)
      returns (r: Result<seq<(string, CorrelationEntry)>, PipelineError>)
      ensures r == match Source(given)
                   case Failure(e) => Failure(e)
                   case Success(t) => CorrelationsSpec(t, pearson)
    {
      var source := Source(given);
      if source.Failure? {
        return Failure(source.error);
      }
      var t := source.value;
      var aqiCols := PresentAqiColumns(t);
      var transportCols := PresentTransportColumns(t);
      var out: seq<(string, CorrelationEntry)> := [];
      for i := 0 to |aqiCols|
        invariant CorrelateAll(t.rows, Pairs(aqiCols[..i], transportCols), pearson) == Success(out)
      {
        r := CorrelateRow(t.rows, aqiCols[i], transportCols, pearson, Pairs(aqiCols[..i], transportCols), out);
        PairsSnoc(aqiCols, transportCols, i);
        if r.Failure? {
          PairsFailureFinal(t.rows, aqiCols, transportCols, i + 1, pearson);
          return;
        }
        out := r.value;
      }
      assert aqiCols[..|aqiCols|] == aqiCols;
      return Success(out);
    }

    /** The inner loop of calculate_correlations: one AQI column against each transport column. */
    static method CorrelateRow(rows: seq<MergedRow>, m: Metric, cs: seq<TransportMetric>, pearson: Pearson,
                               ghost before: seq<(Metric, TransportMetric)>, out0: seq<(string, CorrelationEntry)>)
      returns (r: Result<seq<(string, CorrelationEntry)>, PipelineError>)
      requires CorrelateAll(rows, before, pearson) == Success(out0)
      ensures r == CorrelateAll(rows, before + Row(m, cs), pearson)
    {
      var out := out0;
      assert before + Row(m, cs[..0]) == before;
      for j := 0 to |cs|
        invariant CorrelateAll(rows, before + Row(m, cs[..j]), pearson) == Success(out)
      {
        RowStep(rows, m, cs, j, before, pearson);
        var e := Entry(rows, m, cs[j], pearson);
        if e.None? {
          r := Failure(CorrelationFailed(Key(m, cs[j])));
          RowFailureFinal(rows, m, cs, j + 1, before, pearson);
          return;
        }
        out := out + [(Key(m, cs[j]), e.value)];
      }
      assert cs[..|cs|] == cs;
      return Success(out);
    }

    /** One more transport column of the row: stop at an earlier failure, else fail on it or append its entry. */
    static lemma RowStep(rows: seq<MergedRow>, m: Metric, cs: seq<TransportMetric>, j: nat,
                         before: seq<(Metric, TransportMetric)>, pearson: Pearson)
      requires j < |cs|
      ensures CorrelateAll(rows, before + Row(m, cs[..j + 1]), pearson) ==
        match CorrelateAll(rows, before + Row(m, cs[..j]), pearson)
        case Failure(e) => Failure(e)
        case Success(done) =>
          match Entry(rows, m, cs[j], pearson)
          case None => Failure(CorrelationFailed(Key(m, cs[j])))
          case Some(e) => Success(done + [(Key(m, cs[j]), e)])
    {
      assert Row(m, cs[..j + 1]) == Row(m, cs[..j]) + [(m, cs[j])];
      assert before + Row(m, cs[..j + 1]) == (before + Row(m, cs[..j])) + [(m, cs[j])];
      CorrelateAllSnoc(rows, before + Row(m, cs[..j]), (m, cs[j]), pearson);
    }

    /** A failure within a row is the failure of the whole row. */
    static lemma RowFailureFinal(rows: seq<MergedRow>, m: Metric, cs: seq<TransportMetric>, j: nat,
                                 before: seq<(Metric, TransportMetric)>, pearson: Pearson)
      requires j <= |cs|
      requires CorrelateAll(rows, before + Row(m, cs[..j]), pearson).Failure?
      ensures CorrelateAll(rows, before + Row(m, cs), pearson) == CorrelateAll(rows, before + Row(m, cs[..j]), pearson)
    {
      var rest := Row(m, cs[j..]);
      assert Row(m, cs) == Row(m, cs[..j]) + rest;
      assert before + Row(m, cs) == (before + Row(m, cs[..j])) + rest;
      CorrelateAllFailureSticks(rows, before + Row(m, cs[..j]), rest, pearson);
    }

    /** A failure on the pairs of a prefix of the AQI columns is the failure of the whole run. */
    static lemma PairsFailureFinal(rows: seq<MergedRow>, ms: seq<Metric>, cs: seq<TransportMetric>, n: nat, pearson: Pearson)
      requires n <= |ms|
      requires CorrelateAll(rows, Pairs(ms[..n], cs), pearson).Failure?
      ensures CorrelateAll(rows, Pairs(ms, cs), pearson) == CorrelateAll(rows, Pairs(ms[..n], cs), pearson)
    {
      PairsPrefix(ms, cs, n);
      var tail :| Pairs(ms, cs) == Pairs(ms[..n], cs) + tail;
      CorrelateAllFailureSticks(rows, Pairs(ms[..n], cs), tail, pearson);
    }

    /** One more AQI column adds its row of pairs at the end. */
    static lemma PairsSnoc(ms: seq<Metric>, cs: seq<TransportMetric>, i: nat)
      requires i < |ms|
      ensures Pairs(ms[..i + 1], cs) == Pairs(ms[..i], cs) + Row(ms[i], cs)
    {
      assert ms[..i + 1][..i] == ms[..i];
    }

    /** The pairs of a prefix of the AQI columns come first. */
    static lemma {:induction false} PairsPrefix(ms: seq<Metric>, cs: seq<TransportMetric>, n: nat)
      requires n <= |ms|
      ensures exists tail :: Pairs(ms, cs) == Pairs(ms[..n], cs) + tail
    {
      if n == |ms| {
        assert ms[..n] == ms;
        assert Pairs(ms, cs) == Pairs(ms[..n], cs) + [];
      } else {
        var init := ms[..|ms| - 1];
        PairsPrefix(init, cs, n);
        assert init[..n] == ms[..n];
        var tail :| Pairs(init, cs) == Pairs(init[..n], cs) + tail;
        assert Pairs(ms, cs) == Pairs(ms[..n], cs) + (tail + Row(ms[|ms| - 1], cs));
      }
    }

    /**
     * get_summary_statistics: row count, date range, statistics of each
     * present AQI column and each present transport column, and the category
     * distribution.
     */
    method GetSummaryStatistics(given: Option<MergedTable>) returns (r: Result<Summary, PipelineError>)
      ensures r == match Source(given)
                   case Failure(e) => Failure(e)
                   case Success(t) => Success(SummarySpec(t))
    {
      var source := Source(given);
      if source.Failure? {
        return Failure(source.error);
      }
      var t := source.value;
      var aqiStats := DescribeEach(AqiMetrics, m => m in t.metrics, m => StatsOf(AqiValues(t.rows, m)));
      var transportStats := DescribeEach(TransportMetrics, c => HasTransportColumn(t, c),
                                         c => StatsOf(TransportValues(t.rows, c)));
      forall m | m in t.metrics ensures m in AqiMetrics {
        AqiMetricsComplete(m);
      }
      assert aqiStats == SummarySpec(t).aqiStats;
      assert transportStats == SummarySpec(t).transportStats;
      return Success(Summary(|t.rows|, DateRange(t.rows), aqiStats, transportStats, Distribution(t.rows)));
    }

    /**
     * A statistics loop of get_summary_statistics: for each listed column the
     * table has, in order, its statistics.
     */
    static method DescribeEach<C(==)>(cols: seq<C>, present: C -> bool, describe: C -> Option<ColumnStats>)
      returns (stats: map<C, Option<ColumnStats>>)
      ensures stats == map c | c in cols && present(c) :: describe(c)
    {
      stats := map[];
      for k := 0 to |cols|
        invariant stats == map c | c in cols[..k] && present(c) :: describe(c)
      {
        var c := cols[k];
        assert forall n :: n in cols[..k + 1] <==> n in cols[..k] || n == c by {
          assert cols[..k + 1] == cols[..k] + [c];
        }
        if present(c) {
          stats := stats[c := describe(c)];
        }
      }
      assert cols[..|cols|] == cols;
    }

    /**
     * add_lag_features: without a given table it copies the stored one, which
     * raises when there is none; then it sorts by date and adds the lag columns
     * of each requested lag and the rolling means over 3, 7 and 14 rows.
     */
    method AddLagFeatures(given: Option<MergedTable>, lags: seq<int> := DefaultLags) returns (r: Result<LaggedTable, PipelineError>)
      ensures r == if given.None? && mergedData.None? then Failure(NoneHasNoCopy)
                   else LagFeaturesSpec(Source(given).value, lags)
    {
      if given.None? && mergedData.None? {
        return Failure(NoneHasNoCopy);
      }
      var t := Source(given).value;
      if AQI !in t.metrics {
        return Failure(MissingAqiColumn);
      }
      var rows := SortByDate(t.rows);
      var aqi := AqiValues(rows, AQI);
      var total := TransportValues(rows, TotalColumn);
      var feats := AddLags(aqi, total, lags);
      feats := AddRollingMeans(feats, aqi, total);
      return Success(LaggedTable(MergedTable(t.metrics, t.modes, rows), feats));
    }

    /** The lag loop of add_lag_features: AQI_lag_k, then total_passengers_lag_k, for each k in turn. */
    static method AddLags(aqi: Column, total: Column, lags: seq<int>) returns (feats: seq<(Feature, Column)>)
      ensures feats == LagColumns([], aqi, total, lags)
    {
      feats := [];
      for k := 0 to |lags|
        invariant feats == LagColumns([], aqi, total, lags[..k])
      {
        assert lags[..k + 1][..k] == lags[..k];
        feats := SetColumn(feats, AqiLag(lags[k]), Shift(aqi, lags[k]));
        feats := SetColumn(feats, TotalLag(lags[k]), Shift(total, lags[k]));
      }
      assert lags[..|lags|] == lags;
    }

    /** The rolling loop of add_lag_features: windows 3, 7 and 14, AQI first. */
    static method AddRollingMeans(feats0: seq<(Feature, Column)>, aqi: Column, total: Column)
      returns (feats: seq<(Feature, Column)>)
      ensures feats == RollingColumns(feats0, aqi, total, RollingWindows)
    {
      feats := feats0;
      for k := 0 to |RollingWindows|
        invariant feats == RollingColumns(feats0, aqi, total, RollingWindows[..k])
      {
        var w := RollingWindows[k];
        assert RollingWindows[..k + 1][..k] == RollingWindows[..k];
        feats := SetColumn(feats, AqiRolling(w), RollingMean(aqi, w));
        feats := SetColumn(feats, TotalRolling(w), RollingMean(total, w));
      }
      assert RollingWindows[..|RollingWindows|] == RollingWindows;
    }
  }
}
