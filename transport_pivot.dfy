/**
 * Reshaping of transport events (DataProcessor.process_transport_data):
 * calendar columns, a pivot to one row per date and one column per mode
 * (summing duplicates), and total_passengers = bus + metro.
 */
module TransportPivot {
  import opened Wrappers
  import opened Calendar

  /** One raw transport row: date, mode and number_of_passengers. */
  datatype TransportEvent = TransportEvent(date: Date, mode: string, passengers: int)

  /**
   * One pivoted row. passengers holds the cells present for this date: a mode
   * of the table with no event on this date has no cell (NaN in the pivot).
   */
  datatype TransportRow = TransportRow(date: Date, calendar: Features,
                                       passengers: map<string, int>, total: Option<int>)

  /** The pivot table and its mode columns. */
  datatype TransportTable = TransportTable(modes: set<string>, rows: seq<TransportRow>)

  const Bus: string := "bus"
  const Metro: string := "metro"

  /** The mode columns of the pivot: every mode that occurs. */
  function Modes(events: seq<TransportEvent>): set<string>
  {
    set i | 0 <= i < |events| :: events[i].mode
  }

  predicate HasDate(events: seq<TransportEvent>, d: Date)
  {
    exists i :: 0 <= i < |events| && events[i].date == d
  }

  predicate HasEvent(events: seq<TransportEvent>, d: Date, m: string)
  {
    exists i :: 0 <= i < |events| && events[i].date == d && events[i].mode == m
  }

  ghost predicate StrictlyIncreasing(ds: seq<Date>)
  {
    forall i, j :: 0 <= i < j < |ds| ==> ds[i] < ds[j]
  }

  /** Adds d to an increasing list of distinct dates. */
  function InsertDate(d: Date, ds: seq<Date>): (r: seq<Date>)
    requires StrictlyIncreasing(ds)
    ensures StrictlyIncreasing(r)
    ensures forall x :: x in r <==> x == d || x in ds
  {
    if ds == [] then [d]
    else if d < ds[0] then [d] + ds
    else if d == ds[0] then ds
    else
      var rest := InsertDate(d, ds[1..]);
      assert forall k :: 0 <= k < |rest| ==> ds[0] < rest[k] by {
        forall k | 0 <= k < |rest| ensures ds[0] < rest[k] {
          assert rest[k] in rest;
          if rest[k] != d {
            var j :| 0 <= j < |ds[1..]| && ds[1..][j] == rest[k];
            assert ds[j + 1] == rest[k];
          }
        }
      }
      [ds[0]] + rest
  }

  /** The distinct event dates in ascending order: the pivot's index. */
  function DistinctDates(events: seq<TransportEvent>): (r: seq<Date>)
    ensures StrictlyIncreasing(r)
    ensures forall d :: d in r <==> HasDate(events, d)
  {
    if events == [] then []
    else
      var rest := DistinctDates(events[1..]);
      assert forall d :: HasDate(events, d) <==> d == events[0].date || HasDate(events[1..], d) by {
        forall d ensures HasDate(events, d) <==> d == events[0].date || HasDate(events[1..], d) {
          if HasDate(events, d) && d != events[0].date {
            var i :| 0 <= i < |events| && events[i].date == d;
            assert events[1..][i - 1].date == d;
          }
          if HasDate(events[1..], d) {
            var i :| 0 <= i < |events[1..]| && events[1..][i].date == d;
            assert events[i + 1].date == d;
          }
        }
      }
      InsertDate(events[0].date, rest)
  }

  /** Passengers summed over the events of one date and mode (pivot_table aggfunc='sum'). */
  function SumPassengers(events: seq<TransportEvent>, d: Date, m: string): int
  {
    if events == [] then 0
    else (if events[0].date == d && events[0].mode == m then events[0].passengers else 0)
         + SumPassengers(events[1..], d, m)
  }

  /** Summation does not depend on how the events are split or ordered into batches. */
  lemma {:induction false} SumPassengersAppend(a: seq<TransportEvent>, b: seq<TransportEvent>, d: Date, m: string)
    ensures SumPassengers(a + b, d, m) == SumPassengers(a, d, m) + SumPassengers(b, d, m)
  {
    if a == [] {
      assert a + b == b;
    } else {
      assert (a + b)[0] == a[0];
      assert (a + b)[1..] == a[1..] + b;
      SumPassengersAppend(a[1..], b, d, m);
    }
  }

  /** Events of other dates or modes contribute nothing. */
  lemma {:induction false} SumPassengersNoMatch(events: seq<TransportEvent>, d: Date, m: string)
    requires !HasEvent(events, d, m)
    ensures SumPassengers(events, d, m) == 0
  {
    if events != [] {
      forall i | 0 <= i < |events[1..]|
        ensures !(events[1..][i].date == d && events[1..][i].mode == m)
      {
        assert events[1..][i] == events[i + 1];
      }
      SumPassengersNoMatch(events[1..], d, m);
    }
  }

  /** The mode cells of date d: a cell exactly for each mode that has an event on d. */
  function Cells(events: seq<TransportEvent>, d: Date): (c: map<string, int>)
    ensures forall m :: m in c <==> HasEvent(events, d, m)
  {
    map m | m in Modes(events) && HasEvent(events, d, m) :: SumPassengers(events, d, m)
  }

  /**
   * The contribution of one named mode to total_passengers: an absent column
   * counts as 0 (DataFrame.get with default 0); a present column with no cell
   * on this date is missing.
   */
  function ModePart(modes: set<string>, cells: map<string, int>, name: string): Option<int>
  {
    if name !in modes then Some(0)
    else if name in cells then Some(cells[name])
    else None
  }

  /** total_passengers = bus + metro; a missing operand makes the total missing. */
  function Total(modes: set<string>, cells: map<string, int>): Option<int>
  {
    var b := ModePart(modes, cells, Bus);
    var m := ModePart(modes, cells, Metro);
    if b.Some? && m.Some? then Some(b.value + m.value) else None
  }

  /** The rules of the total: absent columns count 0, missing cells make it missing, other modes are ignored. */
  lemma TotalRules(modes: set<string>, cells: map<string, int>)
    ensures Bus !in modes && Metro !in modes ==> Total(modes, cells) == Some(0)
    ensures Bus in modes && Bus in cells && Metro in modes && Metro in cells
            ==> Total(modes, cells) == Some(cells[Bus] + cells[Metro])
    ensures Bus in modes && Bus in cells && Metro !in modes ==> Total(modes, cells) == Some(cells[Bus])
    ensures (Bus in modes && Bus !in cells) || (Metro in modes && Metro !in cells)
            <==> Total(modes, cells).None?
    ensures Total(modes, cells)
         == Total(modes * {Bus, Metro}, map m | m in cells && (m == Bus || m == Metro) :: cells[m])
  {
  }

  function PivotRow(events: seq<TransportEvent>, d: Date): TransportRow
  {
    var cells := Cells(events, d);
    TransportRow(d, FeaturesOf(d), cells, Total(Modes(events), cells))
  }

  /** process_transport_data: the pivot with calendar columns and total_passengers. */
  function ProcessTransport(events: seq<TransportEvent>): (t: TransportTable)
    ensures t.modes == Modes(events)
    ensures |t.rows| == |DistinctDates(events)|
  {
    var ds := DistinctDates(events);
    TransportTable(Modes(events), seq(|ds|, i requires 0 <= i < |ds| => PivotRow(events, ds[i])))
  }

  /** The pivot has one row per distinct event date, in ascending date order. */
  lemma PivotDates(events: seq<TransportEvent>)
    ensures var rows := ProcessTransport(events).rows;
      && (forall i, j :: 0 <= i < j < |rows| ==> rows[i].date < rows[j].date)
      && (forall d :: HasDate(events, d) <==> exists i :: 0 <= i < |rows| && rows[i].date == d)
  {
    var ds := DistinctDates(events);
    var rows := ProcessTransport(events).rows;
    assert forall i :: 0 <= i < |rows| ==> rows[i].date == ds[i];
    forall d ensures HasDate(events, d) <==> exists i :: 0 <= i < |rows| && rows[i].date == d {
      if HasDate(events, d) {
        var i :| 0 <= i < |ds| && ds[i] == d;
        assert rows[i].date == d;
      }
    }
  }

  /** Each cell of the pivot is the passenger sum of its date and mode, present iff such an event exists. */
  lemma PivotCells(events: seq<TransportEvent>, i: nat, m: string)
    requires i < |ProcessTransport(events).rows|
    ensures var row := ProcessTransport(events).rows[i];
      && (m in row.passengers <==> HasEvent(events, row.date, m))
      && (m in row.passengers ==> row.passengers[m] == SumPassengers(events, row.date, m))
      && row.total == Total(Modes(events), row.passengers)
      && row.calendar == FeaturesOf(row.date)
  {
  }

  /**
   * Two dates, bus and metro on the first, only bus on the second: the first
   * total is 300; on the second the metro cell is missing, so the total is too.
   */
  lemma PivotScenario(d1: Date, d2: Date)
    requires d1 < d2
    ensures var events := [TransportEvent(d1, Bus, 100), TransportEvent(d1, Metro, 200),
                           TransportEvent(d2, Bus, 50)];
      var rows := ProcessTransport(events).rows;
      |rows| == 2 && rows[0].date == d1 && rows[0].total == Some(300)
      && rows[1].date == d2 && rows[1].total == None
  {
    var events := [TransportEvent(d1, Bus, 100), TransportEvent(d1, Metro, 200),
                   TransportEvent(d2, Bus, 50)];
    assert events[1..][1..] == events[2..] && events[2..][1..] == [];
    assert DistinctDates(events[2..]) == [d2];
    assert DistinctDates(events[1..]) == [d1, d2];
    assert DistinctDates(events) == [d1, d2];
    assert Modes(events) == {Bus, Metro} by {
      assert events[0].mode == Bus && events[1].mode == Metro;
      assert forall x :: x in Modes(events) ==> x == Bus || x == Metro;
    }
    assert events[0].date == d1 && events[0].mode == Bus;
    assert events[1].date == d1 && events[1].mode == Metro;
    assert HasEvent(events, d1, Bus) && HasEvent(events, d1, Metro);
    assert !HasEvent(events, d2, Metro);
    assert Bus != Metro;
    assert SumPassengers(events[2..], d1, Bus) == 0 && SumPassengers(events[2..], d1, Metro) == 0;
    assert SumPassengers(events[1..], d1, Bus) == 0 && SumPassengers(events[1..], d1, Metro) == 200;
    assert SumPassengers(events, d1, Bus) == 100;
    assert SumPassengers(events, d1, Metro) == 200;
  }
}
