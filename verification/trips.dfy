/** Trip records of one city partition, after the start time has been split
    into month, weekday and hour. */
module Trips {

  /** One trip.  `gender` and `birthYear` are meaningful only when the
      partition that holds the trip has those columns. */
  datatype Trip = Trip(
    startStation: string,
    endStation: string,
    duration: int,
    userType: string,
    gender: string,
    birthYear: int,
    startMonth: int,
    startWeekday: int,
    startHour: int)

  /** The rows of one partition, with whether its file has a gender column
      and a birth-year column (a property of the whole file, not of a row). */
  datatype Dataset = Dataset(rows: seq<Trip>, hasGender: bool, hasBirthYear: bool)

  /** The ranges that date-time extraction guarantees: month 1-12, weekday
      0 (Monday) to 6 (Sunday), hour 0-23; durations are never negative. */
  ghost predicate WellFormed(t: Trip)
  {
    1 <= t.startMonth <= 12 && 0 <= t.startWeekday <= 6 && 0 <= t.startHour <= 23 &&
    t.duration >= 0
  }

  ghost predicate AllWellFormed(rows: seq<Trip>)
  {
    forall i :: 0 <= i < |rows| ==> WellFormed(rows[i])
  }

  /** The "start - end" key of a trip's station pair. */
  function Route(t: Trip): string
  {
    t.startStation + " - " + t.endStation
  }

  function MonthColumn(rows: seq<Trip>): (r: seq<int>)
    ensures |r| == |rows| && forall i :: 0 <= i < |rows| ==> r[i] == rows[i].startMonth
  {
    seq(|rows|, i requires 0 <= i < |rows| => rows[i].startMonth)
  }

  function WeekdayColumn(rows: seq<Trip>): (r: seq<int>)
    ensures |r| == |rows| && forall i :: 0 <= i < |rows| ==> r[i] == rows[i].startWeekday
  {
    seq(|rows|, i requires 0 <= i < |rows| => rows[i].startWeekday)
  }

  function HourColumn(rows: seq<Trip>): (r: seq<int>)
    ensures |r| == |rows| && forall i :: 0 <= i < |rows| ==> r[i] == rows[i].startHour
  {
    seq(|rows|, i requires 0 <= i < |rows| => rows[i].startHour)
  }

  function StartColumn(rows: seq<Trip>): (r: seq<string>)
    ensures |r| == |rows| && forall i :: 0 <= i < |rows| ==> r[i] == rows[i].startStation
  {
    seq(|rows|, i requires 0 <= i < |rows| => rows[i].startStation)
  }

  function EndColumn(rows: seq<Trip>): (r: seq<string>)
    ensures |r| == |rows| && forall i :: 0 <= i < |rows| ==> r[i] == rows[i].endStation
  {
    seq(|rows|, i requires 0 <= i < |rows| => rows[i].endStation)
  }

  /** The station-pair column, built for every row. */
  function RouteColumn(rows: seq<Trip>): (r: seq<string>)
    ensures |r| == |rows| && forall i :: 0 <= i < |rows| ==> r[i] == Route(rows[i])
  {
    seq(|rows|, i requires 0 <= i < |rows| => Route(rows[i]))
  }

  function DurationColumn(rows: seq<Trip>): (r: seq<int>)
    ensures |r| == |rows| && forall i :: 0 <= i < |rows| ==> r[i] == rows[i].duration
  {
    seq(|rows|, i requires 0 <= i < |rows| => rows[i].duration)
  }

  function UserTypeColumn(rows: seq<Trip>): (r: seq<string>)
    ensures |r| == |rows| && forall i :: 0 <= i < |rows| ==> r[i] == rows[i].userType
  {
    seq(|rows|, i requires 0 <= i < |rows| => rows[i].userType)
  }

  function GenderColumn(rows: seq<Trip>): (r: seq<string>)
    ensures |r| == |rows| && forall i :: 0 <= i < |rows| ==> r[i] == rows[i].gender
  {
    seq(|rows|, i requires 0 <= i < |rows| => rows[i].gender)
  }

  function BirthYearColumn(rows: seq<Trip>): (r: seq<int>)
    ensures |r| == |rows| && forall i :: 0 <= i < |rows| ==> r[i] == rows[i].birthYear
  {
    seq(|rows|, i requires 0 <= i < |rows| => rows[i].birthYear)
  }
}
