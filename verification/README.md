# Bikeshare explorer — a Dafny model of the filter-and-aggregate core

The bikeshare explorer is an interactive command-line tool. The user picks
a city (`chicago`, `new york city`, `washington`), a month or `all`, and a
weekday or `all`. The tool loads that city's trips, keeps the ones that
match the month and weekday, and can page through the raw rows five at a
time. It then reports four groups of statistics: the most common travel
times, the most popular stations and station pair, the total and most
common trip duration, and the user demographics.

This project models that core in Dafny and proves properties of it:

- `validator.dfy` (module `Validator`) covers `get_valid_input`. A typed
  line is accepted when it equals a listed option ignoring case, and the
  option is returned in its listed spelling. The retry loop reads from a
  finite sequence of typed lines. `Accepted` is the stream of answers those
  lines produce, and successive prompts read successive entries of it.
- `calendar.dfy` (module `Calendar`) covers `MONTHS`, `DAYS`,
  `get_month_name` and `get_day_name`. The tables are ordered sequences of
  (name, number) pairs, because the name lookups scan the dictionaries in
  insertion order. `all` maps to -1, and an unknown number gives `""`.
- `trips.dfy` (module `Trips`) holds the trip record and the partition. A
  trip carries the start month, weekday and hour that `load_data` derives.
  Whether a gender column or a birth-year column exists is a flag of the
  whole partition.
- `loader.dfy` (module `Loader`) covers `CITY_DATA` and `load_data`. It
  holds the stable month filter and weekday filter, each skipped for
  `all`, and the dictionary-lookup failures.
- `selection.dfy` (module `Selection`) covers `get_filters`: three
  validated questions asked in a row.
- `frequency.dfy` (module `Frequency`) holds the column aggregates: the
  mode, the sum, the minimum and maximum, and `value_counts`.
- `stats.dfy` (module `Stats`) covers `time_stats`, `station_stats`,
  `trip_duration_stats` and `user_stats`. Each starts with its empty-column
  guard, which here is `None`.
- `pager.dfy` (module `Pager`) covers `display_data`, the 5-row window
  state machine driven by yes/no answers.
- `results.dfy` (module `Results`) holds the `Option` and `Result` types
  and `text.dfy` (module `Text`) holds ASCII lower-casing.

Input, output, the clock and file reading are not modelled. They are
replaced by parameters:

- typed lines or answers are sequences;
- the CSV files are a map from file name to parsed `Dataset`;
- printed output becomes report values (`TimeReport`, `StationReport`,
  `DurationReport`, `UserReport`) and pager `Event`s.

## Model

| member | source | states |
|---|---|---|
| Validator.MatchOption | bikeshare_2.py:48-51 | The result is the first listed option, in list order, that equals the input ignoring case. It is returned in the option's listed spelling and always belongs to the list. The result is None exactly when no option matches. |
| Validator.GetValidInput | bikeshare_2.py:43-53 | Rejected lines are skipped. The first accepted line ends the loop. The result is that line's option, which is listed, and the number of lines consumed. Only rejected lines come before it. The result is None exactly when no line is acceptable. |
| Validator.FirstAnswerUnique | bikeshare_2.py:47-53 | Only one line can be the first accepted one, so the answer and the number of lines consumed are determined by the typed lines. |
| Validator.AcceptedFirst | bikeshare_2.py:47-53 | When line k is the first accepted line, as GetValidInput reports, the first k lines produce exactly one answer. The answers of all lines are that answer followed by the answers of the rest, so the next prompt reads the next accepted answer. |
| Calendar.NumberOf | bikeshare_2.py:11-32 | Looking up a name gives None exactly when the name is not a key. Otherwise the result is the number listed with that name. |
| Calendar.NameOf | bikeshare_2.py:65-69 | The result is the name of the first entry, in table order, whose number matches. It is `""` when no entry has that number. |
| Calendar.LookupsInvert | bikeshare_2.py:57-83 | In a table whose names and numbers are all different, name-to-number and number-to-name invert each other at every entry. |
| Calendar.MonthName | bikeshare_2.py:57-69 | `get_month_name` returns `""` exactly for numbers other than 1-12 and -1. Any other result looks up back to the given number. |
| Calendar.DayName | bikeshare_2.py:71-83 | `get_day_name` returns `""` exactly for numbers other than 0-6 and -1. Any other result looks up back to the given number. |
| Calendar.MonthRoundTrip | bikeshare_2.py:11-23 | Every key of MONTHS, `all` ↔ -1 included, is returned by `get_month_name` of its own number. |
| Calendar.MonthNameIsKey | bikeshare_2.py:57-69 | The name of a calendar month 1-12 is the MONTHS key listed with that number, and it is never `all`. |
| Calendar.DayNameIsKey | bikeshare_2.py:71-83 | The name of a weekday 0-6 is the DAYS key listed with that number, and it is never `all`. |
| Calendar.DayRoundTrip | bikeshare_2.py:25-32 | Every key of DAYS, `all` ↔ -1 included, is returned by `get_day_name` of its own number. |
| Loader.FileOf | bikeshare_2.py:7-9 | A city has a file exactly when it is one of the three CITY_DATA keys, and the file is the one listed with it. |
| Loader.KeepEqual | bikeshare_2.py:137 | A single-column filter. Every kept row has the requested value. A row with that value is kept as often as it occurs, and any other row is dropped. The result is an order-preserving subsequence of the input. |
| Loader.KeepEqualAll | bikeshare_2.py:141 | Filtering rows that all already match returns them unchanged. |
| Loader.SubsequenceTransitive | bikeshare_2.py:133-141 | A subsequence of a subsequence is a subsequence, so the two filters together preserve order. |
| Loader.ApplyFilters | bikeshare_2.py:133-141 | Succeeds exactly when each selector is `all` or a key. An unknown month fails first. With a valid month, an unknown day fails with UnknownDay. A row is kept iff (month is `all` or its start month is MONTHS[month]) and (day is `all` or its weekday is DAYS[day]). Kept rows keep their multiplicity, and the result is an order-preserving subsequence. |
| Loader.NoFilterIsIdentity | bikeshare_2.py:134-141 | With both selectors `all` the rows come back unchanged. |
| Loader.FiltersIdempotent | bikeshare_2.py:133-141 | For selectors that are keys, filtering the result again with the same selectors returns it unchanged. |
| Loader.LoadData | bikeshare_2.py:111-144 | An unknown city fails with UnknownCity and an unreadable file fails with MissingFile. Otherwise loading succeeds exactly when filtering the city's rows succeeds, and it fails with the filter's own error when filtering fails. On success the result holds exactly the filtered rows, and the partition's gender and birth-year flags are kept. |
| Selection.GetFilters | bikeshare_2.py:96-108 | The chosen city, month and day are always listed keys. The city is the first line accepted as a city. The month is the first line accepted as a month among the lines after the city's line. The day is the first line accepted as a day among the lines after the month's line. The three line counts are returned. There is a result exactly when some city line is followed by a month line and then by a day line. |
| Selection.ThreeAnswered | bikeshare_2.py:96-102 | Three questions answered one after another give a city line, then a later month line, then a later day line. |
| Selection.NoSecondAnswer | bikeshare_2.py:96-99 | When no line after the first city answer is accepted as a month, no city line is followed by a month line. |
| Selection.NoThirdAnswer | bikeshare_2.py:96-102 | When no line after the month answer is accepted as a day, no city line is followed by a month line and then a day line. |
| Selection.ValidFiltersLoad | bikeshare_2.py:96-102 | With selectors chosen by the validator, loading fails only when the city's file is missing. Every loaded row passes both selectors. |
| Selection.CaseInsensitiveDay | bikeshare_2.py:50 | `MONDAY` and `monday` both select the canonical key `monday`. |
| Frequency.Mode | bikeshare_2.py:159-167 | The result is a value of the column with the highest frequency. Every value first seen before it occurs strictly less often. |
| Frequency.FirstModeUnique | bikeshare_2.py:159 | The mode rule leaves exactly one candidate, so the reported mode is determined by the column. |
| Frequency.TieGoesToFirstSeen | bikeshare_2.py:167 | For hours 5, 5, 9, 9 the reported hour is 5. |
| Frequency.Total | bikeshare_2.py:219 | The accumulated total equals the sum of the column. |
| Frequency.SumBoundsEntries | bikeshare_2.py:219 | With no negative duration, the total is non-negative and at least every single duration. |
| Frequency.MinMax | bikeshare_2.py:256-257 | The earliest and most recent values occur in the column and bound every value in it. |
| Frequency.TallyDistinct | bikeshare_2.py:242 | The counts of the distinct values add up to the number of rows. |
| Frequency.SortByCount | bikeshare_2.py:242 | Ordering a count table by count is a permutation of the table. It keeps the total and puts counts in descending order. |
| Frequency.ValueCounts | bikeshare_2.py:242 | There is one entry per distinct value and no key twice. Each count equals that value's number of occurrences and is positive. The counts sum to the number of rows, and entries are in descending order of count. |
| Stats.TimeStats | bikeshare_2.py:147-171 | Gives "no data" exactly when there are no rows. Otherwise the month, weekday and hour are the modes of their columns. On well-formed rows each name is the table key listed with its number, and it is never `all`. |
| Stats.StationStats | bikeshare_2.py:174-203 | Gives "no data" exactly when there are no rows. Otherwise it reports the modes of the start column, the end column and the "start - end" column. |
| Stats.PopularRouteIsATrip | bikeshare_2.py:196-198 | The most common pair is some trip's `start + " - " + end`. |
| Stats.DurationStats | bikeshare_2.py:206-227 | Gives "no data" exactly when there are no rows; an empty selection is not reported as a zero total. Otherwise the total is the sum of the durations and the reported figure is their mode. On well-formed rows 0 <= mode <= total. |
| Stats.UserStats | bikeshare_2.py:230-267 | Gives "no data" exactly when there are no rows. The user-type counts are value counts whose total is the number of rows. Gender counts appear exactly when the partition has the column. Birth-year figures appear exactly when the partition has that column. Then the earliest and latest occur and bound every year, and earliest <= mode <= latest. |
| Pager.Window | bikeshare_2.py:279-289 | A window shows the rows from its start, in order, up to its end or the last row, whichever comes first; a window clamped by the data reaches the last row. It holds at most five rows and exactly five when the data reaches its end. |
| Pager.DisplayData | bikeshare_2.py:269-296 | A first "no" shows nothing. After k "yes" answers the windows shown are [0,5), [5,10), …, [5k-5, 5k). A further prompt is asked only while 5k < max rows. End-of-data is reported, as the last event, iff the loop stops because 5k >= max rows rather than on a "no". One answer, always "yes" or "no", is consumed per prompt, and a stop before the end of the data is on a "no". |
| Pager.ShownIsPrefix | bikeshare_2.py:284-289 | The first k windows together show the rows up to the k-th window's end, clamped, each row once and in order. |
| Pager.ExhaustedShowsAll | bikeshare_2.py:294-296 | Once the windows reach the end of the data, every row has been shown exactly once, in order. |

## Left out

- Reading the CSV files (`pd.read_csv`) is file I/O. The files are a map from file name to an already parsed `Dataset`, and an absent file is the MissingFile error.
- Parsing `Start Time` and deriving month, weekday and hour (lines 125-131) is a date-time library call. A trip carries the three fields, and `WellFormed` states their ranges. An unparseable timestamp is not modelled.
- The `End Time` overwrite (line 126) is not modelled, because no statistic reads `End Time`.
- `input()`, `print`, the prompt wording and `to_string` rendering are terminal I/O and are not modelled. Neither is the exact "Displayed rows X to Y of Z" text, which prints the unclamped window end. Output is report values and pager events.
- `time.time()` elapsed-time lines are wall-clock and floating-point output and are not modelled.
- NaN handling is not modelled. Pandas `count()` skips missing cells; here every row has every column of its partition, so each guard is "no rows".
- The `int()` truncation of float birth years is not modelled, because birth years are integers here.
- The `main` restart loop (lines 302-314) is orchestration only and is not modelled.
- Frequency.Mode: the source says only "most frequent" and states no rule for ties. The model assumes a deterministic rule: ties go to the value seen first. Pandas `mode()` returns tied modes in sorted order, so `mode()[0]` is the smallest tied value. That is pandas behaviour, not part of bikeshare_2.py, and it is replaced by the first-seen rule.
- Frequency.ValueCounts: the order among values with equal counts is not stated. Only the descending order of counts is proved, because pandas' tie order is library behaviour.
- Validator.MatchOption: `str.lower` is modelled on the ASCII letters A-Z only. Other characters compare unchanged. Python also folds some non-ASCII characters to ASCII letters, such as U+212A KELVIN SIGN to `k`, so a typed `new yor\u212A city` is accepted by the program but rejected by the model.
- Pager.DisplayData: the viewer reads the stream of accepted answers (`Validator.Accepted` of the typed lines), not raw lines. `Validator.AcceptedFirst`, applied to the first accepted line that `Validator.GetValidInput` reports, proves that each prompt consumes exactly the next entry of that stream. Running out of answers stands for the real program waiting forever; it is the `Starved` status.
- Selection.GetFilters: the confirmation line showing each selector's number is output only and is not modelled.
