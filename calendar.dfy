/** Calendar features derived from a date (pandas .dt.weekday, .dt.day_name(), .dt.month_name()). */
module Calendar {

  /** A calendar date, as the number of days since 1970-01-01 (a Thursday). */
  type Date = int

  /** Day of the week with Monday = 0 and Sunday = 6, as pandas numbers them. */
  function Weekday(d: Date): (w: int)
    ensures 0 <= w < 7
  {
    (d + 3) % 7
  }

  const DayNames: seq<string> :=
    ["Monday", "Tuesday", "Wednesday", "Thursday", "Friday", "Saturday", "Sunday"]

  function DayName(d: Date): string
  {
    DayNames[Weekday(d)]
  }

  /** is_weekend: Saturday or Sunday. */
  predicate IsWeekend(d: Date)
  {
    Weekday(d) >= 5
  }

  /**
   * Month (1..12) of the proleptic Gregorian date d days after 1970-01-01.
   * Days are counted in 400-year eras starting on 0000-03-01; an era splits
   * into centuries of 36524 days (the last has 36525), a century into
   * four-year blocks of 1461 days (the last may have 1460), and a block into
   * years of 365 days (the last may have 366). Within a year counted from
   * March 1, the month follows from the day of that year.
   */
  function Month(d: Date): (m: int)
    ensures 1 <= m <= 12
  {
    MonthOfMarchDay(MarchDayOfYear(d))
  }

  /** Day of the year counted from March 1 (0..365). */
  function MarchDayOfYear(d: Date): (doy: int)
    ensures 0 <= doy <= 365
  {
    var doe := (d + 719468) % 146097;
    var c := if doe / 36524 < 3 then doe / 36524 else 3;
    var r := doe - 36524 * c;
    var q := if r / 1461 < 24 then r / 1461 else 24;
    var r2 := r - 1461 * q;
    var y := if r2 / 365 < 3 then r2 / 365 else 3;
    r2 - 365 * y
  }

  /** March-based months have 31, 30, 31, 30, 31, 31, 30, 31, 30, 31, 31 and 28 or 29 days. */
  function MonthOfMarchDay(doy: int): (m: int)
    requires 0 <= doy <= 365
    ensures 1 <= m <= 12
  {
    var mp := (5 * doy + 2) / 153;
    if mp < 10 then mp + 3 else mp - 9
  }

  const MonthNames: seq<string> :=
    ["January", "February", "March", "April", "May", "June", "July",
     "August", "September", "October", "November", "December"]

  function MonthName(d: Date): string
  {
    MonthNames[Month(d) - 1]
  }

  /** The calendar columns both processing steps add: day_of_week, month, is_weekend. */
  datatype Features = Features(dayOfWeek: string, month: string, isWeekend: bool)

  function FeaturesOf(d: Date): (f: Features)
    ensures f.isWeekend <==> f.dayOfWeek == "Saturday" || f.dayOfWeek == "Sunday"
  {
    Features(DayName(d), MonthName(d), IsWeekend(d))
  }

  /** Seven days later is the same weekday, and so the same weekend flag. */
  lemma WeekdayPeriodic(d: Date)
    ensures Weekday(d + 7) == Weekday(d)
    ensures IsWeekend(d + 7) == IsWeekend(d)
  {
  }

  /** 2024-01-01 (day 19723) is a Monday in January; 2024-01-06 is a Saturday. */
  lemma KnownDates()
    ensures DayName(19723) == "Monday" && !IsWeekend(19723)
    ensures DayName(19728) == "Saturday" && IsWeekend(19728)
  {
  }

  /** 2024-01-01 (day 19723) is in January. */
  lemma KnownJanuary()
    ensures MonthName(19723) == "January"
  {
    assert (19723 + 719468) % 146097 == 8706;
    assert MarchDayOfYear(19723) == 306;
    assert Month(19723) == 1;
  }

  /** 2024 is a leap year: day 19782 is 2024-02-29 and day 19783 is 2024-03-01. */
  lemma KnownLeapDay()
    ensures MonthName(19782) == "February"
    ensures MonthName(19783) == "March"
  {
    assert (19782 + 719468) % 146097 == 8765;
    assert MarchDayOfYear(19782) == 365;
    assert Month(19782) == 2;
    assert (19783 + 719468) % 146097 == 8766;
    assert MarchDayOfYear(19783) == 0;
    assert Month(19783) == 3;
  }
}
