/** get_filters: three validated questions, for the city, the month and the
    weekday, answered from one stream of typed lines. */
module Selection {
  import opened Results
  import opened Calendar
  import opened Trips
  import opened Validator
  import opened Loader

  datatype Filters = Filters(city: string, month: string, day: string)

  /** Every selector is a listed key, so loading never fails on a lookup. */
  ghost predicate ValidFilters(f: Filters)
  {
    f.city in Cities() && f.month in Names(Months) && f.day in Names(Days)
  }

  /** The three choices, with the number of lines consumed once the city,
      the month and the weekday had each been accepted. */
  datatype Picked = Picked(filters: Filters, cityEnd: nat, monthEnd: nat, dayEnd: nat)

  /** Some line is accepted for `first`, a later one for `second` and a
      later one again for `third`. */
  ghost predicate AnsweredInOrder(lines: seq<string>, first: seq<string>, second: seq<string>, third: seq<string>)
  {
    exists a, b, c :: 0 <= a < b < c < |lines| &&
      MatchOption(lines[a], first).Some? &&
      MatchOption(lines[b], second).Some? &&
      MatchOption(lines[c], third).Some?
  }

  /** Three questions answered one after another witness AnsweredInOrder. */
  lemma ThreeAnswered(lines: seq<string>, first: seq<string>, second: seq<string>, third: seq<string>,
                      k1: nat, k2: nat, k3: nat, v1: string, v2: string, v3: string)
    requires k1 <= k2 <= |lines|
    requires FirstAnswer(lines, first, k1, v1)
    requires FirstAnswer(lines[k1..], second, k2 - k1, v2)
    requires FirstAnswer(lines[k2..], third, k3 - k2, v3)
    ensures AnsweredInOrder(lines, first, second, third)
  {
    assert lines[k1..][k2 - k1 - 1] == lines[k2 - 1];
    assert lines[k2..][k3 - k2 - 1] == lines[k3 - 1];
    assert MatchOption(lines[k1 - 1], first).Some? &&
           MatchOption(lines[k2 - 1], second).Some? &&
           MatchOption(lines[k3 - 1], third).Some?;
  }

  /** When no line after the first answer is accepted for `second`, no
      order of three answers exists. */
  lemma NoSecondAnswer(lines: seq<string>, first: seq<string>, second: seq<string>, third: seq<string>,
                       k1: nat, v1: string)
    requires FirstAnswer(lines, first, k1, v1)
    requires forall i :: 0 <= i < |lines[k1..]| ==> MatchOption(lines[k1..][i], second).None?
    ensures !AnsweredInOrder(lines, first, second, third)
  {
    forall a, b | 0 <= a < b < |lines| && MatchOption(lines[a], first).Some?
      ensures MatchOption(lines[b], second).None?
    {
      assert a >= k1 - 1;
      assert lines[b] == lines[k1..][b - k1];
    }
  }

  /** When no line after the second answer is accepted for `third`, no
      order of three answers exists. */
  lemma NoThirdAnswer(lines: seq<string>, first: seq<string>, second: seq<string>, third: seq<string>,
                      k1: nat, k2: nat, v1: string, v2: string)
    requires k1 <= k2 <= |lines|
    requires FirstAnswer(lines, first, k1, v1)
    requires FirstAnswer(lines[k1..], second, k2 - k1, v2)
    requires forall i :: 0 <= i < |lines[k2..]| ==> MatchOption(lines[k2..][i], third).None?
    ensures !AnsweredInOrder(lines, first, second, third)
  {
    forall a, b, c | 0 <= a < b < c < |lines| && MatchOption(lines[a], first).Some? &&
                     MatchOption(lines[b], second).Some?
      ensures MatchOption(lines[c], third).None?
    {
      assert a >= k1 - 1;
      assert lines[b] == lines[k1..][b - k1];
      assert b >= k2 - 1;
      assert lines[c] == lines[k2..][c - k2];
    }
  }

  /** Asks for the city, the month and the weekday in turn, each question
      reading the lines after the previous answer.  Returns the canonical
      choices and where each answer was read, or None when the lines run
      out before all three are answered. */
  method GetFilters(lines: seq<string>) returns (r: Option<Picked>)
    ensures r.Some? <==> AnsweredInOrder(lines, Cities(), Names(Months), Names(Days))
    ensures r.Some? ==> ValidFilters(r.value.filters)
    ensures r.Some? ==>
              0 < r.value.cityEnd < r.value.monthEnd < r.value.dayEnd <= |lines| &&
              FirstAnswer(lines, Cities(), r.value.cityEnd, r.value.filters.city) &&
              FirstAnswer(lines[r.value.cityEnd..], Names(Months),
                          r.value.monthEnd - r.value.cityEnd, r.value.filters.month) &&
              FirstAnswer(lines[r.value.monthEnd..], Names(Days),
                          r.value.dayEnd - r.value.monthEnd, r.value.filters.day)
  {
    var city := GetValidInput(lines, Cities());
    if city.None? {
      return None;
    }
    var k1 := city.value.1;
    var month := GetValidInput(lines[k1..], Names(Months));
    if month.None? {
      NoSecondAnswer(lines, Cities(), Names(Months), Names(Days), k1, city.value.0);
      return None;
    }
    var k2 := k1 + month.value.1;
    var day := GetValidInput(lines[k2..], Names(Days));
    if day.None? {
      NoThirdAnswer(lines, Cities(), Names(Months), Names(Days), k1, k2, city.value.0, month.value.0);
      return None;
    }
    var k3 := k2 + day.value.1;
    ThreeAnswered(lines, Cities(), Names(Months), Names(Days), k1, k2, k3,
                  city.value.0, month.value.0, day.value.0);
    return Some(Picked(Filters(city.value.0, month.value.0, day.value.0), k1, k2, k3));
  }

  /** Loading with validated selectors fails only when the city's file is
      missing, and its rows are exactly the rows the selectors keep. */
  lemma ValidFiltersLoad(files: map<string, Dataset>, f: Filters)
    requires ValidFilters(f)
    ensures LoadData(files, f.city, f.month, f.day).Failure? <==> FileOf(f.city).value !in files
    ensures LoadData(files, f.city, f.month, f.day).Success? ==>
              forall i :: 0 <= i < |LoadData(files, f.city, f.month, f.day).value.rows| ==>
                Kept(LoadData(files, f.city, f.month, f.day).value.rows[i], f.month, f.day)
  {
  }

  /** Typing a weekday in capitals or in lower case selects the same
      canonical key. */
  lemma CaseInsensitiveDay()
    ensures MatchOption("MONDAY", Names(Days)) == Some("monday")
    ensures MatchOption("monday", Names(Days)) == Some("monday")
  {
    assert Names(Days)[0] == "monday";
    assert Matches("MONDAY", "monday");
  }
}
