/** load_data: pick a city's file, then keep the rows of the requested month
    and weekday.  Each filter is stable and is skipped when its selector is
    "all". */
module Loader {
  import opened Results
  import opened Calendar
  import opened Trips

  /** CITY_DATA: city name to file name, in listing order. */
  const CityFiles: seq<(string, string)> := [
    ("chicago", "chicago.csv"),
    ("new york city", "new_york_city.csv"),
    ("washington", "washington.csv")]

  /** The city names offered to the user. */
  function Cities(): (r: seq<string>)
    ensures |r| == |CityFiles|
    ensures forall i :: 0 <= i < |CityFiles| ==> r[i] == CityFiles[i].0
  {
    seq(|CityFiles|, i requires 0 <= i < |CityFiles| => CityFiles[i].0)
  }

  /** The file of a city, or None when the name is not a key. */
  function FileOf(city: string): (r: Option<string>)
    ensures r.Some? <==> city in Cities()
    ensures r.Some? ==> (city, r.value) in CityFiles
  {
    assert Cities() == ["chicago", "new york city", "washington"];
    if city == "chicago" then Some("chicago.csv")
    else if city == "new york city" then Some("new_york_city.csv")
    else if city == "washington" then Some("washington.csv")
    else None
  }

  /** What load_data can fail on: a city or selector that is not a key of
      its dictionary, or a file that cannot be read. */
  datatype LoadError =
    | UnknownCity(city: string)
    | MissingFile(file: string)
    | UnknownMonth(month: string)
    | UnknownDay(day: string)

  /** `a` is `b` with some elements removed and the rest in their order. */
  predicate IsSubsequence<T(==)>(a: seq<T>, b: seq<T>)
    decreases |b|
  {
    |a| == 0 ||
    (|b| > 0 && ((a[0] == b[0] && IsSubsequence(a[1..], b[1..])) || IsSubsequence(a, b[1..])))
  }

  lemma {:induction false} SubsequenceTransitive<T>(a: seq<T>, b: seq<T>, c: seq<T>)
    requires IsSubsequence(a, b) && IsSubsequence(b, c)
    ensures IsSubsequence(a, c)
    decreases |c|
  {
    if |a| > 0 {
      if IsSubsequence(b, c[1..]) {
        SubsequenceTransitive(a, b, c[1..]);
      } else {
        assert b[0] == c[0] && IsSubsequence(b[1..], c[1..]);
        if a[0] == b[0] && IsSubsequence(a[1..], b[1..]) {
          SubsequenceTransitive(a[1..], b[1..], c[1..]);
        } else {
          SubsequenceTransitive(a, b[1..], c[1..]);
        }
      }
    }
  }

  lemma {:induction false} SubsequenceReflexive<T>(a: seq<T>)
    ensures IsSubsequence(a, a)
  {
    if |a| > 0 {
      SubsequenceReflexive(a[1..]);
    }
  }

  /** The time columns a selector can pin. */
  datatype Field = MonthField | WeekdayField

  function FieldOf(t: Trip, f: Field): int
  {
    match f
    case MonthField => t.startMonth
    case WeekdayField => t.startWeekday
  }

  /** The rows whose field `f` equals `v`, in their original order. */
  function KeepEqual(rows: seq<Trip>, f: Field, v: int): (r: seq<Trip>)
    ensures forall i :: 0 <= i < |r| ==> FieldOf(r[i], f) == v
    ensures forall t :: multiset(r)[t] == if FieldOf(t, f) == v then multiset(rows)[t] else 0
    ensures IsSubsequence(r, rows)
  {
    if |rows| == 0 then []
    else
      var rest := KeepEqual(rows[1..], f, v);
      assert rows == [rows[0]] + rows[1..];
      if FieldOf(rows[0], f) == v then [rows[0]] + rest else rest
  }

  /** Keeping what every row already satisfies changes nothing. */
  lemma {:induction false} KeepEqualAll(rows: seq<Trip>, f: Field, v: int)
    requires forall i :: 0 <= i < |rows| ==> FieldOf(rows[i], f) == v
    ensures KeepEqual(rows, f, v) == rows
  {
    if |rows| > 0 {
      KeepEqualAll(rows[1..], f, v);
    }
  }

  /** Whether a row passes one selector: "all" passes every row, a key
      passes the rows whose field equals the key's number. */
  ghost predicate Selected(t: Trip, selector: string, table: Table, f: Field)
  {
    selector == "all" || NumberOf(table, selector) == Some(FieldOf(t, f))
  }

  /** Whether a row passes both the month and the weekday selector. */
  ghost predicate Kept(t: Trip, month: string, day: string)
  {
    Selected(t, month, Months, MonthField) && Selected(t, day, Days, WeekdayField)
  }

  /** One filter step of load_data: skipped for "all", otherwise the
      selector is looked up (None when it is not a key) and the rows with
      that number are kept. */
  function FilterStep(rows: seq<Trip>, selector: string, table: Table, f: Field)
    : (r: Option<seq<Trip>>)
    ensures r.None? <==> selector != "all" && selector !in Names(table)
    ensures r.Some? ==> forall i :: 0 <= i < |r.value| ==> Selected(r.value[i], selector, table, f)
    ensures r.Some? ==>
              forall t :: multiset(r.value)[t] ==
                if Selected(t, selector, table, f) then multiset(rows)[t] else 0
    ensures r.Some? ==> IsSubsequence(r.value, rows)
  {
    if selector == "all" then
      SubsequenceReflexive(rows);
      Some(rows)
    else
      match NumberOf(table, selector)
      case None => None
      case Some(n) => Some(KeepEqual(rows, f, n))
  }

  /** The filter steps of load_data: the month filter first, then the
      weekday filter. */
  function ApplyFilters(rows: seq<Trip>, month: string, day: string): (r: Result<seq<Trip>, LoadError>)
    ensures r.Success? <==>
              (month == "all" || month in Names(Months)) && (day == "all" || day in Names(Days))
    ensures month != "all" && month !in Names(Months) ==> r == Failure(UnknownMonth(month))
    ensures (month == "all" || month in Names(Months)) && day != "all" && day !in Names(Days) ==>
              r == Failure(UnknownDay(day))
    ensures r.Success? ==> forall i :: 0 <= i < |r.value| ==> Kept(r.value[i], month, day)
    ensures r.Success? ==>
              forall t :: multiset(r.value)[t] == if Kept(t, month, day) then multiset(rows)[t] else 0
    ensures r.Success? ==> IsSubsequence(r.value, rows)
  {
    match FilterStep(rows, month, Months, MonthField)
    case None => Failure(UnknownMonth(month))
    case Some(byMonth) =>
      match FilterStep(byMonth, day, Days, WeekdayField)
      case None => Failure(UnknownDay(day))
      case Some(r) =>
        SubsequenceTransitive(r, byMonth, rows);
        assert forall i :: 0 <= i < |r| ==> Kept(r[i], month, day) by {
          forall i | 0 <= i < |r|
            ensures Kept(r[i], month, day)
          {
            assert r[i] in multiset(byMonth);
          }
        }
        Success(r)
  }

  /** With both selectors "all" the rows come back unchanged. */
  lemma NoFilterIsIdentity(rows: seq<Trip>)
    ensures ApplyFilters(rows, "all", "all") == Success(rows)
  {
  }

  /** Filtering an already filtered result by the same valid selectors gives
      it back. */
  lemma FiltersIdempotent(rows: seq<Trip>, month: string, day: string)
    requires month in Names(Months) && day in Names(Days)
    ensures ApplyFilters(ApplyFilters(rows, month, day).value, month, day) ==
            ApplyFilters(rows, month, day)
  {
    var r := ApplyFilters(rows, month, day).value;
    if month != "all" {
      KeepEqualAll(r, MonthField, NumberOf(Months, month).value);
    }
    if day != "all" {
      KeepEqualAll(r, WeekdayField, NumberOf(Days, day).value);
    }
  }

  /** load_data: read the city's file from `files` (file name to its parsed
      rows) and apply the two selectors; the partition's column flags are
      carried over. */
  function LoadData(files: map<string, Dataset>, city: string, month: string, day: string)
    : (r: Result<Dataset, LoadError>)
    ensures city !in Cities() ==> r == Failure(UnknownCity(city))
    ensures city in Cities() && FileOf(city).value !in files ==>
              r == Failure(MissingFile(FileOf(city).value))
    ensures r.Success? ==> city in Cities() && FileOf(city).value in files
    ensures city in Cities() && FileOf(city).value in files ==>
              (r.Success? <==> ApplyFilters(files[FileOf(city).value].rows, month, day).Success?)
    ensures city in Cities() && FileOf(city).value in files && r.Failure? ==>
              r.error == ApplyFilters(files[FileOf(city).value].rows, month, day).error
    ensures r.Success? ==>
              var d := files[FileOf(city).value];
              ApplyFilters(d.rows, month, day) == Success(r.value.rows) &&
              r.value.hasGender == d.hasGender && r.value.hasBirthYear == d.hasBirthYear
  {
    match FileOf(city)
    case None => Failure(UnknownCity(city))
    case Some(file) =>
      if file !in files then Failure(MissingFile(file))
      else
        var d := files[file];
        match ApplyFilters(d.rows, month, day)
        case Failure(e) => Failure(e)
        case Success(rows) => Success(Dataset(rows, d.hasGender, d.hasBirthYear))
  }
}
