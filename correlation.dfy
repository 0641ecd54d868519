/**
 * The correlation table of DataProcessor.calculate_correlations: one entry per
 * present AQI-side column and present transport column, keyed
 * "<aqi>_vs_<transport>", with the significance flag p < 0.05. The Pearson
 * coefficient and its p-value come from a routine outside the model.
 */
module Correlation {
  import opened Wrappers
  import opened Numeric
  import opened AqiCleaning
  import opened TransportPivot
  import opened Merge

  /** The transport-side columns the processor correlates, in its order. */
  datatype TransportMetric = BusColumn | MetroColumn | TotalColumn

  const TransportMetrics: seq<TransportMetric> := [BusColumn, MetroColumn, TotalColumn]

  function TransportMetricName(c: TransportMetric): string
  {
    match c
    case BusColumn => Bus
    case MetroColumn => Metro
    case TotalColumn => "total_passengers"
  }

  /** A mode column exists when its mode occurs; total_passengers always exists. */
  predicate HasTransportColumn(t: MergedTable, c: TransportMetric)
  {
    match c
    case BusColumn => Bus in t.modes
    case MetroColumn => Metro in t.modes
    case TotalColumn => true
  }

  /** The metrics of ms that are present, in the order of ms. */
  function FilterMetrics(ms: seq<Metric>, present: set<Metric>): (r: seq<Metric>)
    ensures forall m :: m in r <==> m in ms && m in present
    ensures |r| <= |ms|
  {
    if ms == [] then []
    else
      var init := FilterMetrics(ms[..|ms| - 1], present);
      var last := ms[|ms| - 1];
      assert forall m :: m in ms <==> m in ms[..|ms| - 1] || m == last by {
        assert ms == ms[..|ms| - 1] + [last];
      }
      if last in present then init + [last] else init
  }

  /** The transport columns of cs that t has, in the order of cs. */
  function FilterTransport(cs: seq<TransportMetric>, t: MergedTable): (r: seq<TransportMetric>)
    ensures forall c :: c in r <==> c in cs && HasTransportColumn(t, c)
    ensures |r| <= |cs|
  {
    if cs == [] then []
    else
      var init := FilterTransport(cs[..|cs| - 1], t);
      var last := cs[|cs| - 1];
      assert forall c :: c in cs <==> c in cs[..|cs| - 1] || c == last by {
        assert cs == cs[..|cs| - 1] + [last];
      }
      if HasTransportColumn(t, last) then init + [last] else init
  }

  /** aqi_cols after filtering: the recognised AQI columns the table has. */
  function PresentAqiColumns(t: MergedTable): (r: seq<Metric>)
    ensures forall m :: m in r <==> m in t.metrics
  {
    assert forall m :: m in AqiMetrics by {
      forall m: Metric { AqiMetricsComplete(m); }
    }
    FilterMetrics(AqiMetrics, t.metrics)
  }

  /** transport_cols after filtering: bus and metro when present, and total_passengers. */
  function PresentTransportColumns(t: MergedTable): (r: seq<TransportMetric>)
    ensures forall c :: c in r <==> HasTransportColumn(t, c)
    ensures |r| >= 1 && r[|r| - 1] == TotalColumn
  {
    FilterTransport(TransportMetrics, t)
  }

  /** The column of an AQI-side metric. */
  function AqiValues(rows: seq<MergedRow>, m: Metric): (col: Column)
    ensures |col| == |rows|
  {
    seq(|rows|, i requires 0 <= i < |rows| => if m in rows[i].values then rows[i].values[m] else None)
  }

  function TransportCell(row: MergedRow, c: TransportMetric): Option<real>
  {
    match c
    case BusColumn => if Bus in row.passengers then Some(row.passengers[Bus] as real) else None
    case MetroColumn => if Metro in row.passengers then Some(row.passengers[Metro] as real) else None
    case TotalColumn => if row.total.Some? then Some(row.total.value as real) else None
  }

  /** The column of a transport-side metric. */
  function TransportValues(rows: seq<MergedRow>, c: TransportMetric): (col: Column)
    ensures |col| == |rows|
  {
    seq(|rows|, i requires 0 <= i < |rows| => TransportCell(rows[i], c))
  }

  /** The key of a column pair: f"{aqi_col}_vs_{transport_col}". */
  function Key(m: Metric, c: TransportMetric): string
  {
    MetricName(m) + "_vs_" + TransportMetricName(c)
  }

  datatype CorrelationEntry = CorrelationEntry(correlation: real, pValue: real, significant: bool)

  /** The Pearson routine: the coefficient and two-tailed p-value of two samples, or None when it raises. */
  type Pearson = (seq<real>, seq<real>) -> Option<(real, real)>

  /**
   * The two samples handed to the Pearson routine: each column with its own
   * missing cells dropped (Series.dropna), independently of the other column.
   */
  function Samples(rows: seq<MergedRow>, m: Metric, c: TransportMetric): (seq<real>, seq<real>)
  {
    (DropNa(AqiValues(rows, m)), DropNa(TransportValues(rows, c)))
  }

  /** With no missing cell in either column, the samples are the two full columns, row by row. */
  lemma SamplesAligned(rows: seq<MergedRow>, m: Metric, c: TransportMetric)
    requires forall i :: 0 <= i < |rows| ==> AqiValues(rows, m)[i].Some? && TransportValues(rows, c)[i].Some?
    ensures var (xs, ys) := Samples(rows, m, c);
      |xs| == |ys| == |rows|
      && forall i :: 0 <= i < |rows| ==> xs[i] == AqiValues(rows, m)[i].value && ys[i] == TransportValues(rows, c)[i].value
  {
    DropNaComplete(AqiValues(rows, m));
    DropNaComplete(TransportValues(rows, c));
  }

  /** A column with a missing cell loses it. */
  lemma {:induction false} DropNaShorter(col: Column, i: nat)
    requires i < |col| && col[i].None?
    ensures |DropNa(col)| < |col|
  {
    if i > 0 {
      DropNaShorter(col[1..], i - 1);
    }
  }

  /**
   * The samples are not paired: when the AQI column is complete but the
   * transport column misses a row, the two samples differ in length.
   */
  lemma SamplesUnpaired(rows: seq<MergedRow>, m: Metric, c: TransportMetric, i: nat)
    requires forall j :: 0 <= j < |rows| ==> AqiValues(rows, m)[j].Some?
    requires i < |rows| && TransportValues(rows, c)[i].None?
    ensures |Samples(rows, m, c).0| > |Samples(rows, m, c).1|
  {
    DropNaComplete(AqiValues(rows, m));
    DropNaShorter(TransportValues(rows, c), i);
  }

  /**
   * The entry of one pair, or None when the Pearson routine raises: the
   * routine's coefficient and p-value, flagged significant exactly when p < 0.05.
   */
  function Entry(rows: seq<MergedRow>, m: Metric, c: TransportMetric, pearson: Pearson): (e: Option<CorrelationEntry>)
    ensures var (xs, ys) := Samples(rows, m, c);
      && (e.Some? <==> pearson(xs, ys).Some?)
      && (e.Some? ==> e.value.correlation == pearson(xs, ys).value.0
                      && e.value.pValue == pearson(xs, ys).value.1
                      && (e.value.significant <==> e.value.pValue < 0.05))
  {
    var (xs, ys) := Samples(rows, m, c);
    match pearson(xs, ys)
    case None => None
    case Some(rp) => Some(CorrelationEntry(rp.0, rp.1, rp.1 < 0.05))
  }

  /** One AQI column paired with each transport column in turn. */
  function Row(m: Metric, cs: seq<TransportMetric>): (ps: seq<(Metric, TransportMetric)>)
    ensures |ps| == |cs|
  {
    seq(|cs|, j requires 0 <= j < |cs| => (m, cs[j]))
  }

  /** Every AQI column paired with every transport column, AQI column outermost. */
  function Pairs(ms: seq<Metric>, cs: seq<TransportMetric>): (ps: seq<(Metric, TransportMetric)>)
  {
    if ms == [] then []
    else Pairs(ms[..|ms| - 1], cs) + Row(ms[|ms| - 1], cs)
  }

  lemma {:induction false} PairsContent(ms: seq<Metric>, cs: seq<TransportMetric>)
    ensures |Pairs(ms, cs)| == |ms| * |cs|
    ensures forall m, c :: (m, c) in Pairs(ms, cs) <==> m in ms && c in cs
  {
    if ms != [] {
      var init := ms[..|ms| - 1];
      var last := ms[|ms| - 1];
      PairsContent(init, cs);
      assert ms == init + [last];
      var row := Row(last, cs);
      assert |Pairs(ms, cs)| == |init| * |cs| + |cs|;
      forall m, c ensures (m, c) in Pairs(ms, cs) <==> m in ms && c in cs {
        if (m, c) in row {
          var j :| 0 <= j < |row| && row[j] == (m, c);
        }
        if m == last && c in cs {
          var j :| 0 <= j < |cs| && cs[j] == c;
          assert row[j] == (m, c);
        }
      }
    }
  }

  /** The entries of pairs, in order; the first pair whose routine raises makes the whole call raise. */
  function CorrelateAll(rows: seq<MergedRow>, pairs: seq<(Metric, TransportMetric)>, pearson: Pearson)
    : Result<seq<(string, CorrelationEntry)>, PipelineError>
  {
    if pairs == [] then Success([])
    else
      match CorrelateAll(rows, pairs[..|pairs| - 1], pearson)
      case Failure(e) => Failure(e)
      case Success(done) =>
        var last := pairs[|pairs| - 1];
        match Entry(rows, last.0, last.1, pearson)
        case None => Failure(CorrelationFailed(Key(last.0, last.1)))
        case Some(e) => Success(done + [(Key(last.0, last.1), e)])
  }

  /** calculate_correlations on a given table. */
  function CorrelationsSpec(t: MergedTable, pearson: Pearson): Result<seq<(string, CorrelationEntry)>, PipelineError>
  {
    CorrelateAll(t.rows, Pairs(PresentAqiColumns(t), PresentTransportColumns(t)), pearson)
  }

  /** The run fails exactly when the routine raises on some pair. */
  lemma {:induction false} CorrelateAllFails(rows: seq<MergedRow>, pairs: seq<(Metric, TransportMetric)>, pearson: Pearson)
    ensures CorrelateAll(rows, pairs, pearson).Failure?
        <==> exists k :: 0 <= k < |pairs| && Entry(rows, pairs[k].0, pairs[k].1, pearson).None?
  {
    if pairs != [] {
      var init := pairs[..|pairs| - 1];
      CorrelateAllFails(rows, init, pearson);
      assert forall k :: 0 <= k < |init| ==> init[k] == pairs[k];
    }
  }

  /** A successful run yields one entry per pair, in order, keyed by the pair. */
  lemma {:induction false} CorrelateAllEntries(rows: seq<MergedRow>, pairs: seq<(Metric, TransportMetric)>, pearson: Pearson)
    requires CorrelateAll(rows, pairs, pearson).Success?
    ensures var out := CorrelateAll(rows, pairs, pearson).value;
      && |out| == |pairs|
      && forall k :: 0 <= k < |pairs| ==>
           out[k].0 == Key(pairs[k].0, pairs[k].1) && Entry(rows, pairs[k].0, pairs[k].1, pearson) == Some(out[k].1)
  {
    if pairs != [] {
      var init := pairs[..|pairs| - 1];
      assert CorrelateAll(rows, init, pearson).Success?;
      CorrelateAllEntries(rows, init, pearson);
      var out := CorrelateAll(rows, pairs, pearson).value;
      var done := CorrelateAll(rows, init, pearson).value;
      var last := pairs[|pairs| - 1];
      CorrelateAllLast(rows, pairs, pearson);
      assert out == done + [(Key(last.0, last.1), Entry(rows, last.0, last.1, pearson).value)];
      forall k | 0 <= k < |pairs|
        ensures out[k].0 == Key(pairs[k].0, pairs[k].1) && Entry(rows, pairs[k].0, pairs[k].1, pearson) == Some(out[k].1)
      {
        if k < |init| {
          assert out[k] == done[k] && pairs[k] == init[k];
        } else {
          assert out[k] == (Key(last.0, last.1), Entry(rows, last.0, last.1, pearson).value);
        }
      }
    }
  }

  /** The step of a successful run: the earlier entries, then the last pair's. */
  lemma CorrelateAllLast(rows: seq<MergedRow>, pairs: seq<(Metric, TransportMetric)>, pearson: Pearson)
    requires pairs != [] && CorrelateAll(rows, pairs, pearson).Success?
    ensures var last := pairs[|pairs| - 1];
      && CorrelateAll(rows, pairs[..|pairs| - 1], pearson).Success?
      && Entry(rows, last.0, last.1, pearson).Some?
      && CorrelateAll(rows, pairs, pearson).value
         == CorrelateAll(rows, pairs[..|pairs| - 1], pearson).value + [(Key(last.0, last.1), Entry(rows, last.0, last.1, pearson).value)]
  {
  }

  /** Running one more pair: stop at an earlier failure, else fail on this pair or append its entry. */
  lemma CorrelateAllSnoc(rows: seq<MergedRow>, pairs: seq<(Metric, TransportMetric)>, p: (Metric, TransportMetric), pearson: Pearson)
    ensures CorrelateAll(rows, pairs + [p], pearson) ==
      match CorrelateAll(rows, pairs, pearson)
      case Failure(e) => Failure(e)
      case Success(done) =>
        match Entry(rows, p.0, p.1, pearson)
        case None => Failure(CorrelationFailed(Key(p.0, p.1)))
        case Some(e) => Success(done + [(Key(p.0, p.1), e)])
  {
    assert (pairs + [p])[..|pairs|] == pairs;
  }

  /** Once a run has failed, further pairs do not change the outcome. */
  lemma {:induction false} CorrelateAllFailureSticks(rows: seq<MergedRow>, pairs: seq<(Metric, TransportMetric)>,
                                                     more: seq<(Metric, TransportMetric)>, pearson: Pearson)
    requires CorrelateAll(rows, pairs, pearson).Failure?
    ensures CorrelateAll(rows, pairs + more, pearson) == CorrelateAll(rows, pairs, pearson)
  {
    if more != [] {
      var init := more[..|more| - 1];
      CorrelateAllFailureSticks(rows, pairs, init, pearson);
      assert pairs + more == (pairs + init) + [more[|more| - 1]];
      CorrelateAllSnoc(rows, pairs + init, more[|more| - 1], pearson);
    } else {
      assert pairs + more == pairs;
    }
  }

  /**
   * A successful run over every pair of ms and cs has one entry per pair,
   * keyed by that pair, so an entry for each combination of a column of ms
   * and a column of cs, and no other keys.
   */
  lemma KeysOfPairs(rows: seq<MergedRow>, ms: seq<Metric>, cs: seq<TransportMetric>, pearson: Pearson)
    requires CorrelateAll(rows, Pairs(ms, cs), pearson).Success?
    ensures var out := CorrelateAll(rows, Pairs(ms, cs), pearson).value;
      var pairs := Pairs(ms, cs);
      && |out| == |pairs| == |ms| * |cs|
      && (forall m, c :: m in ms && c in cs ==> exists k :: 0 <= k < |out| && out[k].0 == Key(m, c))
      && (forall k :: 0 <= k < |out| && k < |pairs| ==>
            pairs[k].0 in ms && pairs[k].1 in cs && out[k].0 == Key(pairs[k].0, pairs[k].1))
  {
    var pairs := Pairs(ms, cs);
    var out := CorrelateAll(rows, pairs, pearson).value;
    PairsContent(ms, cs);
    CorrelateAllEntries(rows, pairs, pearson);
    forall m, c | m in ms && c in cs
      ensures exists k :: 0 <= k < |out| && out[k].0 == Key(m, c)
    {
      assert (m, c) in pairs;
      var k :| 0 <= k < |pairs| && pairs[k] == (m, c);
      assert out[k].0 == Key(m, c);
    }
    forall k | 0 <= k < |pairs| ensures pairs[k].0 in ms && pairs[k].1 in cs {
      assert pairs[k] in pairs;
      assert (pairs[k].0, pairs[k].1) == pairs[k];
    }
  }

  /** One entry for every present AQI column and every present transport column, and no other keys. */
  lemma CorrelationKeys(t: MergedTable, pearson: Pearson)
    requires CorrelationsSpec(t, pearson).Success?
    ensures var out := CorrelationsSpec(t, pearson).value;
      var pairs := Pairs(PresentAqiColumns(t), PresentTransportColumns(t));
      && |out| == |pairs| == |PresentAqiColumns(t)| * |PresentTransportColumns(t)|
      && (forall m, c :: m in t.metrics && HasTransportColumn(t, c) ==> exists k :: 0 <= k < |out| && out[k].0 == Key(m, c))
      && (forall k :: 0 <= k < |out| && k < |pairs| ==>
            pairs[k].0 in t.metrics && HasTransportColumn(t, pairs[k].1) && out[k].0 == Key(pairs[k].0, pairs[k].1))
  {
    KeysOfPairs(t.rows, PresentAqiColumns(t), PresentTransportColumns(t), pearson);
  }
}
