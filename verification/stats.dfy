/** The four analyzers.  Each one first checks that its column has entries;
    with no rows it reports "no data" (None here) and computes nothing. */
module Stats {
  import opened Results
  import opened Calendar
  import opened Trips
  import opened Frequency

  /** time_stats: the most common month, weekday and hour, the first two
      also by name. */
  datatype TimeReport = TimeReport(
    month: int, monthName: string, weekday: int, dayName: string, hour: int)

  method TimeStats(d: Dataset) returns (r: Option<TimeReport>)
    ensures r.None? <==> |d.rows| == 0
    ensures r.Some? ==> IsFirstMode(MonthColumn(d.rows), r.value.month)
    ensures r.Some? ==> IsFirstMode(WeekdayColumn(d.rows), r.value.weekday)
    ensures r.Some? ==> IsFirstMode(HourColumn(d.rows), r.value.hour)
    ensures r.Some? && AllWellFormed(d.rows) ==>
              (r.value.monthName, r.value.month) in Months &&
              (r.value.dayName, r.value.weekday) in Days &&
              r.value.monthName != "all" && r.value.dayName != "all"
  {
    if |d.rows| == 0 {
      return None;
    }
    var month := Mode(MonthColumn(d.rows));
    var weekday := Mode(WeekdayColumn(d.rows));
    var hour := Mode(HourColumn(d.rows));
    var monthName := MonthName(month);
    var dayName := DayName(weekday);
    if AllWellFormed(d.rows) {
      MonthNameIsKey(month);
      DayNameIsKey(weekday);
    }
    return Some(TimeReport(month, monthName, weekday, dayName, hour));
  }

  /** station_stats: the most common start station, end station and
      "start - end" pair. */
  datatype StationReport = StationReport(start: string, end: string, route: string)

  method StationStats(d: Dataset) returns (r: Option<StationReport>)
    ensures r.None? <==> |d.rows| == 0
    ensures r.Some? ==> IsFirstMode(StartColumn(d.rows), r.value.start)
    ensures r.Some? ==> IsFirstMode(EndColumn(d.rows), r.value.end)
    ensures r.Some? ==> IsFirstMode(RouteColumn(d.rows), r.value.route)
  {
    if |d.rows| == 0 {
      return None;
    }
    var start := Mode(StartColumn(d.rows));
    var end := Mode(EndColumn(d.rows));
    var route := Mode(RouteColumn(d.rows));
    return Some(StationReport(start, end, route));
  }

  /** The most common pair is the "start - end" pair of some trip. */
  lemma PopularRouteIsATrip(rows: seq<Trip>, route: string)
    requires IsFirstMode(RouteColumn(rows), route)
    ensures exists i :: 0 <= i < |rows| && route == rows[i].startStation + " - " + rows[i].endStation
  {
    var i :| 0 <= i < |rows| && RouteColumn(rows)[i] == route;
  }

  /** trip_duration_stats: the total duration and the most common duration
      (the source labels the latter a mean but computes a mode). */
  datatype DurationReport = DurationReport(total: int, common: int)

  method DurationStats(d: Dataset) returns (r: Option<DurationReport>)
    ensures r.None? <==> |d.rows| == 0
    ensures r.Some? ==> r.value.total == Sum(DurationColumn(d.rows))
    ensures r.Some? ==> IsFirstMode(DurationColumn(d.rows), r.value.common)
    ensures r.Some? && AllWellFormed(d.rows) ==> 0 <= r.value.common <= r.value.total
  {
    if |d.rows| == 0 {
      return None;
    }
    var durations := DurationColumn(d.rows);
    var total := Total(durations);
    var common := Mode(durations);
    if AllWellFormed(d.rows) {
      SumBoundsEntries(durations);
    }
    return Some(DurationReport(total, common));
  }

  /** Earliest, most recent and most common birth year. */
  datatype BirthYears = BirthYears(earliest: int, latest: int, common: int)

  /** user_stats: counts per user type, counts per gender when the
      partition has that column, and birth-year figures when it has that
      column. */
  datatype UserReport = UserReport(
    userTypes: Counts<string>, genders: Option<Counts<string>>, birthYears: Option<BirthYears>)

  method UserStats(d: Dataset) returns (r: Option<UserReport>)
    ensures r.None? <==> |d.rows| == 0
    ensures r.Some? ==> r.value.genders.Some? == d.hasGender
    ensures r.Some? ==> r.value.birthYears.Some? == d.hasBirthYear
    ensures r.Some? ==> r.value.userTypes == ValueCounts(UserTypeColumn(d.rows))
    ensures r.Some? ==> Tally(r.value.userTypes) == |d.rows|
    ensures r.Some? && d.hasGender ==> r.value.genders.value == ValueCounts(GenderColumn(d.rows))
    ensures r.Some? && d.hasBirthYear ==>
              var b := r.value.birthYears.value;
              var years := BirthYearColumn(d.rows);
              b.earliest in years && b.latest in years &&
              (forall i :: 0 <= i < |years| ==> b.earliest <= years[i] <= b.latest) &&
              IsFirstMode(years, b.common) &&
              b.earliest <= b.common <= b.latest
  {
    if |d.rows| == 0 {
      return None;
    }
    var userTypes := ValueCounts(UserTypeColumn(d.rows));
    var genders: Option<Counts<string>> := None;
    if d.hasGender {
      genders := Some(ValueCounts(GenderColumn(d.rows)));
    }
    var birthYears: Option<BirthYears> := None;
    if d.hasBirthYear {
      var years := BirthYearColumn(d.rows);
      var earliest, latest := MinMax(years);
      var common := Mode(years);
      birthYears := Some(BirthYears(earliest, latest, common));
    }
    return Some(UserReport(userTypes, genders, birthYears));
  }
}
