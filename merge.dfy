/**
 * The inner join of the processed AQI and transport tables on date, sorted
 * ascending by date (the table DataProcessor.merge_datasets stores).
 */
module Merge {
  import opened Wrappers
  import opened Calendar
  import opened AqiCleaning
  import opened TransportPivot

  /** One merged row: the AQI side's columns (calendar included) and the transport side's mode cells and total. */
  datatype MergedRow = MergedRow(date: Date, values: map<Metric, Option<real>>,
                                 category: Option<Category>, calendar: Features,
                                 passengers: map<string, int>, total: Option<int>)

  /** The merged table: its numeric AQI columns, its mode columns and its rows. */
  datatype MergedTable = MergedTable(metrics: set<Metric>, modes: set<string>, rows: seq<MergedRow>)

  function Dates(rows: seq<MergedRow>): (ds: seq<Date>)
    ensures |ds| == |rows|
  {
    seq(|rows|, i requires 0 <= i < |rows| => rows[i].date)
  }

  /** The dates of the AQI side; the row types differ, so the join's date counts are stated with both. */
  function AqiDates(rows: seq<AqiRow>): (ds: seq<Date>)
    ensures |ds| == |rows|
  {
    seq(|rows|, i requires 0 <= i < |rows| => rows[i].date)
  }

  predicate HasRowFor(trows: seq<TransportRow>, d: Date)
  {
    exists j :: 0 <= j < |trows| && trows[j].date == d
  }

  /** The transport row of date d, if any (the first; pivot dates are distinct). */
  function FindRow(trows: seq<TransportRow>, d: Date): (r: Option<TransportRow>)
    ensures r.Some? <==> HasRowFor(trows, d)
    ensures r.Some? ==> r.value in trows && r.value.date == d
  {
    if trows == [] then None
    else if trows[0].date == d then Some(trows[0])
    else
      assert HasRowFor(trows, d) <==> HasRowFor(trows[1..], d) by {
        if HasRowFor(trows, d) {
          var j :| 0 <= j < |trows| && trows[j].date == d;
          assert trows[1..][j - 1].date == d;
        }
        if HasRowFor(trows[1..], d) {
          var j :| 0 <= j < |trows[1..]| && trows[1..][j].date == d;
          assert trows[j + 1].date == d;
        }
      }
      FindRow(trows[1..], d)
  }

  /** The merged row of a matching pair; the calendar columns come from the AQI side. */
  function Combine(a: AqiRow, t: TransportRow): MergedRow
  {
    MergedRow(a.date, a.values, a.category, a.calendar, t.passengers, t.total)
  }

  /** pd.merge(how='inner', on='date'): every AQI row whose date has a transport row, in AQI order. */
  function Join(aqi: seq<AqiRow>, trows: seq<TransportRow>): seq<MergedRow>
  {
    if aqi == [] then []
    else if HasRowFor(trows, aqi[0].date) then
      [Combine(aqi[0], FindRow(trows, aqi[0].date).value)] + Join(aqi[1..], trows)
    else Join(aqi[1..], trows)
  }

  /** Each date occurs in the join as often as in the AQI table when the transport side has it, else not at all. */
  lemma {:induction false} JoinDateCount(aqi: seq<AqiRow>, trows: seq<TransportRow>, d: Date)
    ensures multiset(Dates(Join(aqi, trows)))[d]
         == if HasRowFor(trows, d) then multiset(AqiDates(aqi))[d] else 0
  {
    if aqi != [] {
      JoinDateCount(aqi[1..], trows, d);
      assert AqiDates(aqi) == [aqi[0].date] + AqiDates(aqi[1..]);
      var rest := Join(aqi[1..], trows);
      if HasRowFor(trows, aqi[0].date) {
        var r := Combine(aqi[0], FindRow(trows, aqi[0].date).value);
        assert Dates([r] + rest) == [aqi[0].date] + Dates(rest);
      }
    }
  }

  /** Every joined row pairs an AQI row with the transport row of the same date. */
  lemma {:induction false} JoinRowsMatch(aqi: seq<AqiRow>, trows: seq<TransportRow>, r: MergedRow)
    requires r in Join(aqi, trows)
    ensures exists a, t :: a in aqi && t in trows && a.date == t.date && r == Combine(a, t)
  {
    if aqi != [] {
      if HasRowFor(trows, aqi[0].date) && r == Combine(aqi[0], FindRow(trows, aqi[0].date).value) {
        var t := FindRow(trows, aqi[0].date).value;
        assert aqi[0] in aqi && t in trows && r == Combine(aqi[0], t);
      } else {
        JoinRowsMatch(aqi[1..], trows, r);
        var a, t :| a in aqi[1..] && t in trows && a.date == t.date && r == Combine(a, t);
        assert a in aqi;
      }
    }
  }

  ghost predicate SortedByDate(rows: seq<MergedRow>)
  {
    forall i, j :: 0 <= i < j < |rows| ==> rows[i].date <= rows[j].date
  }

  function InsertByDate(x: MergedRow, s: seq<MergedRow>): (r: seq<MergedRow>)
    requires SortedByDate(s)
    ensures SortedByDate(r)
    ensures |r| == |s| + 1 && (r[0] == x || (s != [] && r[0] == s[0]))
    ensures multiset(r) == multiset(s) + multiset{x}
  {
    if s == [] then [x]
    else if x.date <= s[0].date then [x] + s
    else
      var rest := InsertByDate(x, s[1..]);
      InsertByDateStep(x, s, rest);
      [s[0]] + rest
  }

  /** Putting the earliest row back in front of the insertion into the rest keeps the order and the multiset. */
  lemma InsertByDateStep(x: MergedRow, s: seq<MergedRow>, rest: seq<MergedRow>)
    requires SortedByDate(s) && s != [] && s[0].date < x.date
    requires SortedByDate(rest) && |rest| == |s| && (rest[0] == x || (|s| > 1 && rest[0] == s[1]))
    requires multiset(rest) == multiset(s[1..]) + multiset{x}
    ensures SortedByDate([s[0]] + rest)
    ensures multiset([s[0]] + rest) == multiset(s) + multiset{x}
  {
    assert s == [s[0]] + s[1..];
    var r := [s[0]] + rest;
    forall i, j | 0 <= i < j < |r| ensures r[i].date <= r[j].date {
      if i > 0 { assert r[i] == rest[i - 1] && r[j] == rest[j - 1]; }
      else {
        assert r[j] == rest[j - 1];
        assert rest[0].date <= rest[j - 1].date;
      }
    }
  }

  /** sort_values('date'): ascending by date, a permutation of the input. */
  function SortByDate(rows: seq<MergedRow>): (r: seq<MergedRow>)
    ensures SortedByDate(r)
    ensures multiset(r) == multiset(rows)
  {
    if rows == [] then []
    else
      assert rows == [rows[0]] + rows[1..];
      InsertByDate(rows[0], SortByDate(rows[1..]))
  }

  lemma {:induction false} InsertByDateDates(x: MergedRow, s: seq<MergedRow>)
    requires SortedByDate(s)
    ensures multiset(Dates(InsertByDate(x, s))) == multiset(Dates(s)) + multiset{x.date}
  {
    var r := InsertByDate(x, s);
    if s == [] {
      assert Dates([x]) == [x.date];
    } else if x.date <= s[0].date {
      assert r == [x] + s && r[1..] == s;
      DatesCons(r);
    } else {
      var rest := InsertByDate(x, s[1..]);
      InsertByDateDates(x, s[1..]);
      assert r == [s[0]] + rest && r[1..] == rest;
      DatesCons(r);
      DatesCons(s);
    }
  }

  lemma DatesCons(rows: seq<MergedRow>)
    requires rows != []
    ensures multiset(Dates(rows)) == multiset{rows[0].date} + multiset(Dates(rows[1..]))
  {
    assert Dates(rows) == [rows[0].date] + Dates(rows[1..]);
  }

  /** Sorting keeps the multiset of dates. */
  lemma {:induction false} SortByDateDates(rows: seq<MergedRow>)
    ensures multiset(Dates(SortByDate(rows))) == multiset(Dates(rows))
  {
    if rows != [] {
      DatesCons(rows);
      var sortedRest := SortByDate(rows[1..]);
      SortByDateDates(rows[1..]);
      InsertByDateDates(rows[0], sortedRest);
    }
  }

  /** The merged table of two processed tables. */
  function MergeTables(a: AqiTable, t: TransportTable): MergedTable
  {
    MergedTable(a.metrics, t.modes, SortByDate(Join(a.rows, t.rows)))
  }

  /** merge_datasets: process both inputs, join them, sort by date. */
  function MergeSpec(frame: AqiFrame, events: seq<TransportEvent>): Result<MergedTable, PipelineError>
    requires frame.Valid()
  {
    match ProcessAqi(frame)
    case Failure(e) => Failure(e)
    case Success(a) => Success(MergeTables(a, ProcessTransport(events)))
  }

  /**
   * The merge is an inner join: a date occurs in the result as often as in the
   * AQI table if the transport events have it, and not at all otherwise; rows
   * are in ascending date order; every row combines an AQI row and the pivot
   * row of the same date.
   */
  lemma MergeIsInnerJoin(a: AqiTable, events: seq<TransportEvent>, d: Date)
    ensures var m := MergeTables(a, ProcessTransport(events));
      && SortedByDate(m.rows)
      && multiset(Dates(m.rows))[d] == (if HasDate(events, d) then multiset(AqiDates(a.rows))[d] else 0)
      && forall r :: r in m.rows ==> exists ar, tr :: ar in a.rows && tr in ProcessTransport(events).rows
                                                  && ar.date == tr.date && r == Combine(ar, tr)
  {
    var t := ProcessTransport(events);
    var j := Join(a.rows, t.rows);
    JoinDateCount(a.rows, t.rows, d);
    SortByDateDates(j);
    PivotDates(events);
    assert HasDate(events, d) <==> HasRowFor(t.rows, d);
    forall r | r in SortByDate(j)
      ensures exists ar, tr :: ar in a.rows && tr in t.rows && ar.date == tr.date && r == Combine(ar, tr)
    {
      assert r in multiset(SortByDate(j));
      assert r in j;
      JoinRowsMatch(a.rows, t.rows, r);
    }
  }

  /** Two distinct positions holding the same value make its count at least two. */
  lemma RepeatedCount(ds: seq<Date>, i: nat, j: nat)
    requires i < j < |ds| && ds[i] == ds[j]
    ensures multiset(ds)[ds[i]] >= 2
  {
    assert ds == ds[..j] + [ds[j]] + ds[j + 1..];
    assert ds[..j][i] == ds[i];
    assert ds[i] in multiset(ds[..j]);
  }

  /** A date list without repeats holds each date at most once. */
  lemma {:induction false} DistinctCount(ds: seq<Date>, d: Date)
    requires forall i, j :: 0 <= i < j < |ds| ==> ds[i] != ds[j]
    ensures multiset(ds)[d] <= 1
  {
    if ds != [] {
      DistinctCount(ds[1..], d);
      assert ds == [ds[0]] + ds[1..];
      if ds[0] == d {
        forall p | 0 <= p < |ds[1..]| ensures ds[1..][p] != d {
          assert ds[1..][p] == ds[p + 1];
        }
        assert d !in ds[1..];
      }
    }
  }

  /** With one AQI row per date, the merged dates are strictly increasing: no date repeats. */
  lemma MergeDatesDistinct(a: AqiTable, events: seq<TransportEvent>)
    requires forall i, j :: 0 <= i < j < |a.rows| ==> a.rows[i].date != a.rows[j].date
    ensures var rows := MergeTables(a, ProcessTransport(events)).rows;
      forall i, j :: 0 <= i < j < |rows| ==> rows[i].date < rows[j].date
  {
    var rows := MergeTables(a, ProcessTransport(events)).rows;
    var ads := AqiDates(a.rows);
    forall i, j | 0 <= i < j < |rows| ensures rows[i].date != rows[j].date {
      var d := rows[i].date;
      if rows[j].date == d {
        RepeatedCount(Dates(rows), i, j);
        MergeIsInnerJoin(a, events, d);
        DistinctCount(ads, d);
        assert false;
      }
    }
    MergeIsInnerJoin(a, events, 0);
  }

  /** The calendar columns of both sides are the same function of the date, so keeping the AQI side's loses nothing. */
  lemma MergeCalendarAgrees(frame: AqiFrame, events: seq<TransportEvent>, r: MergedRow)
    requires frame.Valid() && MergeSpec(frame, events).Success?
    requires r in MergeSpec(frame, events).value.rows
    ensures r.calendar == FeaturesOf(r.date)
    ensures r.calendar.isWeekend <==> Weekday(r.date) >= 5
  {
    var a := ProcessAqi(frame).value;
    var t := ProcessTransport(events);
    MergeIsInnerJoin(a, events, r.date);
    var ar, tr :| ar in a.rows && tr in t.rows && ar.date == tr.date && r == Combine(ar, tr);
    var i :| 0 <= i < |a.rows| && a.rows[i] == ar;
    assert ar.calendar == FeaturesOf(ar.date);
  }
}
