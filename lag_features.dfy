/**
 * DataProcessor.add_lag_features: the table sorted by date, with lagged
 * copies of the AQI and total_passengers columns for each requested lag and
 * their trailing rolling means over 3, 7 and 14 rows.
 */
module LagFeatures {
  import opened Wrappers
  import opened Numeric
  import opened AqiCleaning
  import opened Merge
  import opened Correlation

  /** A derived column: AQI_lag_k, total_passengers_lag_k, AQI_rolling_wd, total_passengers_rolling_wd. */
  datatype Feature = AqiLag(lag: int) | TotalLag(lag: int) | AqiRolling(window: nat) | TotalRolling(window: nat)

  /** The windows of the rolling means. */
  const RollingWindows: seq<nat> := [3, 7, 14]

  /** Series.shift(k): row i takes row i - k; rows with no such source are missing. */
  function Shift(col: Column, k: int): (r: Column)
    ensures |r| == |col|
  {
    seq(|col|, i requires 0 <= i < |col| => if 0 <= i - k < |col| then col[i - k] else None)
  }

  /** A forward lag leaves its first k rows missing and moves every value k rows down. */
  lemma ShiftLag(col: Column, k: nat)
    ensures forall i :: 0 <= i < |col| && i < k ==> Shift(col, k)[i].None?
    ensures forall i :: k <= i < |col| ==> Shift(col, k)[i] == col[i - k]
    ensures forall i :: 0 <= i < |col| - k ==> Shift(col, k)[i + k] == col[i]
  {
  }

  /** A lag of 0 is the column itself; a lag at least the column's length empties it. */
  lemma ShiftExtremes(col: Column, k: int)
    ensures Shift(col, 0) == col
    ensures k >= |col| || k <= -|col| ==> forall i :: 0 <= i < |col| ==> Shift(col, k)[i].None?
  {
  }

  /** Lag 1 of [a, b, c] is [missing, a, b]. */
  lemma ShiftExample(a: real, b: real, c: real)
    ensures Shift([Some(a), Some(b), Some(c)], 1) == [None, Some(a), Some(b)]
  {
    var s := Shift([Some(a), Some(b), Some(c)], 1);
    assert s[0] == None && s[1] == Some(a) && s[2] == Some(b);
  }

  /** The first row of the window of width w ending at row i (min_periods=1 lets it be truncated). */
  function WindowStart(i: nat, w: nat): (s: nat)
    requires w >= 1
    ensures s <= i && (s == 0 || i - s + 1 == w)
  {
    if i - w + 1 < 0 then 0 else i - w + 1
  }

  /** rolling(window=w, min_periods=1).mean(): the mean of the present cells among the last w rows. */
  function RollingMean(col: Column, w: nat): (r: Column)
    requires w >= 1
    ensures |r| == |col|
  {
    seq(|col|, i requires 0 <= i < |col| => ColumnMean(col[WindowStart(i, w)..i + 1]))
  }

  /** Row i of a rolling mean is present exactly when some cell of its window is. */
  lemma RollingMeanPresent(col: Column, w: nat, i: nat)
    requires w >= 1 && i < |col|
    ensures RollingMean(col, w)[i].Some? <==> exists j :: WindowStart(i, w) <= j <= i && col[j].Some?
  {
    var lo := WindowStart(i, w);
    var win := col[lo..i + 1];
    assert forall j :: 0 <= j < |win| ==> win[j] == col[lo + j];
    if exists j :: lo <= j <= i && col[j].Some? {
      var j :| lo <= j <= i && col[j].Some?;
      assert win[j - lo].Some?;
    }
  }

  /** A present rolling mean lies between two present cells of its window. */
  lemma RollingMeanBounded(col: Column, w: nat, i: nat)
    requires w >= 1 && i < |col| && RollingMean(col, w)[i].Some?
    ensures exists j :: WindowStart(i, w) <= j <= i && col[j].Some? && col[j].value <= RollingMean(col, w)[i].value
    ensures exists k :: WindowStart(i, w) <= k <= i && col[k].Some? && RollingMean(col, w)[i].value <= col[k].value
  {
    var lo := WindowStart(i, w);
    var win := col[lo..i + 1];
    var mean := RollingMean(col, w)[i];
    assert mean == ColumnMean(win);
    WithinSlice(col, lo, i + 1, mean.value);
  }

  /** A value between two present cells of a slice is between two present cells of the column, at the shifted rows. */
  lemma WithinSlice(col: Column, lo: nat, hi: nat, x: real)
    requires lo <= hi <= |col|
    requires exists j, k :: 0 <= j < hi - lo && 0 <= k < hi - lo && col[lo..hi][j].Some? && col[lo..hi][k].Some?
               && col[lo..hi][j].value <= x <= col[lo..hi][k].value
    ensures exists j :: lo <= j < hi && col[j].Some? && col[j].value <= x
    ensures exists k :: lo <= k < hi && col[k].Some? && x <= col[k].value
  {
    var win := col[lo..hi];
    var j, k :| 0 <= j < hi - lo && 0 <= k < hi - lo && win[j].Some? && win[k].Some? && win[j].value <= x <= win[k].value;
    assert col[lo + j] == win[j];
    assert col[lo + k] == win[k];
  }

  /** Before the window is full, the rolling mean covers every row so far (7 days on 3 rows: all 3). */
  lemma RollingMeanShortPrefix(col: Column, w: nat, i: nat)
    requires w >= 1 && i < |col| && i + 1 <= w
    ensures RollingMean(col, w)[i] == ColumnMean(col[..i + 1])
  {
    assert col[WindowStart(i, w)..i + 1] == col[..i + 1];
  }

  /** A window of one row reproduces the column. */
  lemma RollingMeanOne(col: Column)
    ensures RollingMean(col, 1) == col
  {
    forall i | 0 <= i < |col| ensures RollingMean(col, 1)[i] == col[i] {
      var win := col[i..i + 1];
      assert win == [col[i]];
      if col[i].Some? {
        assert DropNa(win) == [col[i].value] + DropNa([]);
        assert Sum(DropNa(win)) == col[i].value + Sum([]);
      } else {
        assert DropNa(win) == DropNa([]);
      }
    }
  }

  // ---------------------------------------------------------------------
  // The derived columns, in the order the frame acquires them
  // ---------------------------------------------------------------------

  /** The column stored under feature f, if any. */
  function Lookup(feats: seq<(Feature, Column)>, f: Feature): (r: Option<Column>)
    ensures r.Some? <==> exists k :: 0 <= k < |feats| && feats[k].0 == f
  {
    if feats == [] then None
    else if feats[0].0 == f then Some(feats[0].1)
    else Lookup(feats[1..], f)
  }

  ghost predicate DistinctFeatures(feats: seq<(Feature, Column)>)
  {
    forall i, j :: 0 <= i < j < |feats| ==> feats[i].0 != feats[j].0
  }

  /**
   * Column assignment df[f] = c: an existing column is replaced where it
   * stands, a new one is appended. Every other column is untouched.
   */
  function SetColumn(feats: seq<(Feature, Column)>, f: Feature, c: Column): (r: seq<(Feature, Column)>)
    ensures Lookup(r, f) == Some(c)
    ensures forall g :: g != f ==> Lookup(r, g) == Lookup(feats, g)
  {
    if feats == [] then [(f, c)]
    else if feats[0].0 == f then [(f, c)] + feats[1..]
    else [feats[0]] + SetColumn(feats[1..], f, c)
  }

  /** Assignment names only the assigned feature and those already there. */
  lemma {:induction false} SetColumnNames(feats: seq<(Feature, Column)>, f: Feature, c: Column)
    ensures forall k :: 0 <= k < |SetColumn(feats, f, c)| ==>
      SetColumn(feats, f, c)[k].0 == f || exists m :: 0 <= m < |feats| && feats[m].0 == SetColumn(feats, f, c)[k].0
  {
    if feats != [] && feats[0].0 != f {
      var rest := SetColumn(feats[1..], f, c);
      SetColumnNames(feats[1..], f, c);
      assert SetColumn(feats, f, c) == [feats[0]] + rest;
      forall k | 0 <= k < |rest| && rest[k].0 != f
        ensures exists m :: 0 <= m < |feats| && feats[m].0 == rest[k].0
      {
        var m :| 0 <= m < |feats[1..]| && feats[1..][m].0 == rest[k].0;
        assert feats[m + 1].0 == rest[k].0;
      }
    }
  }

  /** Assignment never duplicates a column name. */
  lemma {:induction false} SetColumnDistinct(feats: seq<(Feature, Column)>, f: Feature, c: Column)
    requires DistinctFeatures(feats)
    ensures DistinctFeatures(SetColumn(feats, f, c))
  {
    if feats != [] && feats[0].0 != f {
      var rest := SetColumn(feats[1..], f, c);
      SetColumnDistinct(feats[1..], f, c);
      SetColumnNames(feats[1..], f, c);
      forall k | 0 <= k < |rest| ensures rest[k].0 != feats[0].0 {
        if rest[k].0 != f {
          var m :| 0 <= m < |feats[1..]| && feats[1..][m].0 == rest[k].0;
          assert feats[m + 1].0 == rest[k].0;
        }
      }
    }
  }

  /** The lag columns, one AQI and one total_passengers column per lag, in the order of lags. */
  function LagColumns(feats: seq<(Feature, Column)>, aqi: Column, total: Column, lags: seq<int>): seq<(Feature, Column)>
  {
    if lags == [] then feats
    else
      var l := lags[|lags| - 1];
      var before := LagColumns(feats, aqi, total, lags[..|lags| - 1]);
      SetColumn(SetColumn(before, AqiLag(l), Shift(aqi, l)), TotalLag(l), Shift(total, l))
  }

  /** The rolling-mean columns, one AQI and one total_passengers column per window. */
  function RollingColumns(feats: seq<(Feature, Column)>, aqi: Column, total: Column, windows: seq<nat>)
    : seq<(Feature, Column)>
    requires forall k :: 0 <= k < |windows| ==> windows[k] >= 1
  {
    if windows == [] then feats
    else
      var w := windows[|windows| - 1];
      var before := RollingColumns(feats, aqi, total, windows[..|windows| - 1]);
      SetColumn(SetColumn(before, AqiRolling(w), RollingMean(aqi, w)), TotalRolling(w), RollingMean(total, w))
  }

  /** Two assignments in a row: the later one wins, other features keep their columns. */
  lemma SetTwice(feats: seq<(Feature, Column)>, f1: Feature, c1: Column, f2: Feature, c2: Column, f: Feature)
    ensures Lookup(SetColumn(SetColumn(feats, f1, c1), f2, c2), f) ==
      if f == f2 then Some(c2) else if f == f1 then Some(c1) else Lookup(feats, f)
  {
  }

  /** Two assignments keep the column names distinct. */
  lemma SetTwiceDistinct(feats: seq<(Feature, Column)>, f1: Feature, c1: Column, f2: Feature, c2: Column)
    requires DistinctFeatures(feats)
    ensures DistinctFeatures(SetColumn(SetColumn(feats, f1, c1), f2, c2))
  {
    SetColumnDistinct(feats, f1, c1);
    SetColumnDistinct(SetColumn(feats, f1, c1), f2, c2);
  }

  /** The lag columns of lags, over whatever feats held before. */
  lemma {:induction false} LagColumnsLookup(feats: seq<(Feature, Column)>, aqi: Column, total: Column, lags: seq<int>, f: Feature)
    ensures Lookup(LagColumns(feats, aqi, total, lags), f) ==
      match f
      case AqiLag(l) => if l in lags then Some(Shift(aqi, l)) else Lookup(feats, f)
      case TotalLag(l) => if l in lags then Some(Shift(total, l)) else Lookup(feats, f)
      case _ => Lookup(feats, f)
  {
    if lags != [] {
      var init := lags[..|lags| - 1];
      var l := lags[|lags| - 1];
      var before := LagColumns(feats, aqi, total, init);
      LagColumnsLookup(feats, aqi, total, init, f);
      SetTwice(before, AqiLag(l), Shift(aqi, l), TotalLag(l), Shift(total, l), f);
      LagMembership(lags, f);
    }
  }

  /** A lag is among lags when it is the last one or among the others. */
  lemma LagMembership(lags: seq<int>, f: Feature)
    requires lags != []
    ensures (f.AqiLag? || f.TotalLag?) ==> (f.lag in lags <==> f.lag in lags[..|lags| - 1] || f.lag == lags[|lags| - 1])
  {
    assert lags == lags[..|lags| - 1] + [lags[|lags| - 1]];
  }

  /** The lag columns never duplicate a column name. */
  lemma {:induction false} LagColumnsDistinct(feats: seq<(Feature, Column)>, aqi: Column, total: Column, lags: seq<int>)
    requires DistinctFeatures(feats)
    ensures DistinctFeatures(LagColumns(feats, aqi, total, lags))
  {
    if lags != [] {
      var init := lags[..|lags| - 1];
      var l := lags[|lags| - 1];
      LagColumnsDistinct(feats, aqi, total, init);
      SetTwiceDistinct(LagColumns(feats, aqi, total, init), AqiLag(l), Shift(aqi, l), TotalLag(l), Shift(total, l));
    }
  }

  /** The rolling columns of windows, over whatever feats held before. */
  lemma {:induction false} RollingColumnsLookup(feats: seq<(Feature, Column)>, aqi: Column, total: Column, windows: seq<nat>, f: Feature)
    requires forall k :: 0 <= k < |windows| ==> windows[k] >= 1
    ensures Lookup(RollingColumns(feats, aqi, total, windows), f) ==
      match f
      case AqiRolling(w) => if w in windows then Some(RollingMean(aqi, w)) else Lookup(feats, f)
      case TotalRolling(w) => if w in windows then Some(RollingMean(total, w)) else Lookup(feats, f)
      case _ => Lookup(feats, f)
  {
    if windows != [] {
      var init := windows[..|windows| - 1];
      var w := windows[|windows| - 1];
      RollingColumnsLookup(feats, aqi, total, init, f);
      SetTwice(RollingColumns(feats, aqi, total, init), AqiRolling(w), RollingMean(aqi, w), TotalRolling(w), RollingMean(total, w), f);
      WindowMembership(windows, f);
    }
  }

  /** A window is among windows when it is the last one or among the others. */
  lemma WindowMembership(windows: seq<nat>, f: Feature)
    requires windows != []
    ensures (f.AqiRolling? || f.TotalRolling?) ==>
      (f.window in windows <==> f.window in windows[..|windows| - 1] || f.window == windows[|windows| - 1])
  {
    assert windows == windows[..|windows| - 1] + [windows[|windows| - 1]];
  }

  /** The rolling columns never duplicate a column name. */
  lemma {:induction false} RollingColumnsDistinct(feats: seq<(Feature, Column)>, aqi: Column, total: Column, windows: seq<nat>)
    requires forall k :: 0 <= k < |windows| ==> windows[k] >= 1
    requires DistinctFeatures(feats)
    ensures DistinctFeatures(RollingColumns(feats, aqi, total, windows))
  {
    if windows != [] {
      var init := windows[..|windows| - 1];
      var w := windows[|windows| - 1];
      RollingColumnsDistinct(feats, aqi, total, init);
      SetTwiceDistinct(RollingColumns(feats, aqi, total, init), AqiRolling(w), RollingMean(aqi, w), TotalRolling(w), RollingMean(total, w));
    }
  }

  /** The derived columns of add_lag_features: the lag columns, then the rolling means over 3, 7 and 14 rows. */
  function DerivedColumns(aqi: Column, total: Column, lags: seq<int>): seq<(Feature, Column)>
  {
    RollingColumns(LagColumns([], aqi, total, lags), aqi, total, RollingWindows)
  }

  /**
   * The derived columns hold exactly the lag columns of the requested lags
   * and the rolling columns of windows 3, 7 and 14, each once.
   */
  lemma DerivedColumnsContent(aqi: Column, total: Column, lags: seq<int>, f: Feature)
    ensures DistinctFeatures(DerivedColumns(aqi, total, lags))
    ensures Lookup(DerivedColumns(aqi, total, lags), f) ==
      match f
      case AqiLag(l) => if l in lags then Some(Shift(aqi, l)) else None
      case TotalLag(l) => if l in lags then Some(Shift(total, l)) else None
      case AqiRolling(w) => if w in RollingWindows then Some(RollingMean(aqi, w)) else None
      case TotalRolling(w) => if w in RollingWindows then Some(RollingMean(total, w)) else None
  {
    var lagged := LagColumns([], aqi, total, lags);
    LagColumnsDistinct([], aqi, total, lags);
    RollingColumnsDistinct(lagged, aqi, total, RollingWindows);
    LagColumnsLookup([], aqi, total, lags, f);
    RollingColumnsLookup(lagged, aqi, total, RollingWindows, f);
    var derived := DerivedColumns(aqi, total, lags);
    match f {
      case AqiLag(_) => assert Lookup(derived, f) == Lookup(lagged, f);
      case TotalLag(_) => assert Lookup(derived, f) == Lookup(lagged, f);
      case AqiRolling(_) => assert Lookup(lagged, f) == None;
      case TotalRolling(_) => assert Lookup(lagged, f) == None;
    }
  }

  /** The lags add_lag_features uses when the caller gives none. */
  const DefaultLags: seq<int> := [1, 3, 7]

  /** With the default lags, the lag columns are those of lags 1, 3 and 7 and no others. */
  lemma DefaultLagColumns(aqi: Column, total: Column, l: int)
    ensures Lookup(DerivedColumns(aqi, total, DefaultLags), AqiLag(l))
         == if l == 1 || l == 3 || l == 7 then Some(Shift(aqi, l)) else None
    ensures Lookup(DerivedColumns(aqi, total, DefaultLags), TotalLag(l))
         == if l == 1 || l == 3 || l == 7 then Some(Shift(total, l)) else None
  {
    DerivedColumnsContent(aqi, total, DefaultLags, AqiLag(l));
    DerivedColumnsContent(aqi, total, DefaultLags, TotalLag(l));
    assert l in DefaultLags <==> l == 1 || l == 3 || l == 7;
  }

  /** The table with its derived columns. */
  datatype LaggedTable = LaggedTable(table: MergedTable, features: seq<(Feature, Column)>)

  /** add_lag_features on a given table; a table without an AQI column raises KeyError. */
  function LagFeaturesSpec(t: MergedTable, lags: seq<int>): Result<LaggedTable, PipelineError>
  {
    if AQI !in t.metrics then Failure(MissingAqiColumn)
    else
      var rows := SortByDate(t.rows);
      Success(LaggedTable(MergedTable(t.metrics, t.modes, rows),
                          DerivedColumns(AqiValues(rows, AQI), TransportValues(rows, TotalColumn), lags)))
  }

  /**
   * The result keeps the table's rows, sorted by date, and its derived
   * columns are those of the sorted AQI and total_passengers columns.
   */
  lemma LagFeaturesContent(t: MergedTable, lags: seq<int>)
    requires AQI in t.metrics
    ensures LagFeaturesSpec(t, lags).Success?
    ensures var r := LagFeaturesSpec(t, lags).value;
      && SortedByDate(r.table.rows)
      && multiset(r.table.rows) == multiset(t.rows)
      && r.features == DerivedColumns(AqiValues(r.table.rows, AQI), TransportValues(r.table.rows, TotalColumn), lags)
  {
  }
}
