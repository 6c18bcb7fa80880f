/** The month and weekday enumerations: ordered tables from a lower-case name
    to its number, where "all" stands for "no filter" and maps to -1.  The
    order of the entries is the order in which the name lookups scan them. */
module Calendar {
  import opened Results

  type Table = seq<(string, int)>

  /** The number that "all" maps to in both tables. */
  const AllNumber := -1

  const Months: Table := [
    ("january", 1), ("february", 2), ("march", 3), ("april", 4),
    ("may", 5), ("june", 6), ("july", 7), ("august", 8),
    ("september", 9), ("october", 10), ("november", 11), ("december", 12),
    ("all", -1)]

  /** Weekday numbers count from Monday = 0 to Sunday = 6. */
  const Days: Table := [
    ("monday", 0), ("tuesday", 1), ("wednesday", 2), ("thursday", 3),
    ("friday", 4), ("saturday", 5), ("sunday", 6),
    ("all", -1)]

  /** The names of a table in table order: the options offered to the user. */
  function Names(t: Table): (r: seq<string>)
    ensures |r| == |t|
    ensures forall i :: 0 <= i < |t| ==> r[i] == t[i].0
  {
    seq(|t|, i requires 0 <= i < |t| => t[i].0)
  }

  /** No name occurs twice. */
  ghost predicate NamesDistinct(t: Table)
  {
    forall i, j :: 0 <= i < j < |t| ==> t[i].0 != t[j].0
  }

  /** No number occurs twice. */
  ghost predicate NumbersDistinct(t: Table)
  {
    forall i, j :: 0 <= i < j < |t| ==> t[i].1 != t[j].1
  }

  /** No name and no number occurs twice. */
  ghost predicate OneToOne(t: Table)
  {
    NamesDistinct(t) && NumbersDistinct(t)
  }

  /** Dictionary lookup of a name: its number, or None when the name is not
      a key (where the dictionary subscript would raise). */
  function NumberOf(t: Table, name: string): (r: Option<int>)
    ensures r.None? <==> forall i :: 0 <= i < |t| ==> t[i].0 != name
    ensures r.Some? ==> exists i :: 0 <= i < |t| && t[i] == (name, r.value)
  {
    NumberFrom(t, name, 0)
  }

  /** The scan behind NumberOf, from entry `k` on. */
  function NumberFrom(t: Table, name: string, k: nat): (r: Option<int>)
    requires k <= |t|
    ensures r.None? <==> forall i :: k <= i < |t| ==> t[i].0 != name
    ensures r.Some? ==> exists i :: k <= i < |t| && t[i] == (name, r.value)
    decreases |t| - k
  {
    if k == |t| then None
    else if t[k].0 == name then Some(t[k].1)
    else NumberFrom(t, name, k + 1)
  }

  /** `j` is the first position of `t` from `k` on whose number is `n`. */
  ghost predicate FirstWithNumber(t: Table, n: int, k: int, j: int)
  {
    0 <= k <= j < |t| && t[j].1 == n && forall m :: k <= m < j ==> t[m].1 != n
  }

  /** Reverse lookup: the first name, in table order, whose number is `n`,
      or the empty string when no entry has that number. */
  function NameOf(t: Table, n: int): (r: string)
    ensures (forall i :: 0 <= i < |t| ==> t[i].1 != n) ==> r == ""
    ensures (exists i :: 0 <= i < |t| && t[i].1 == n) ==>
              exists j :: FirstWithNumber(t, n, 0, j) && r == t[j].0
  {
    NameFrom(t, n, 0)
  }

  /** The scan behind NameOf, from entry `k` on. */
  function NameFrom(t: Table, n: int, k: nat): (r: string)
    requires k <= |t|
    ensures (forall i :: k <= i < |t| ==> t[i].1 != n) ==> r == ""
    ensures (exists i :: k <= i < |t| && t[i].1 == n) ==>
              exists j :: FirstWithNumber(t, n, k, j) && r == t[j].0
    decreases |t| - k
  {
    if k == |t| then ""
    else if t[k].1 == n then
      assert FirstWithNumber(t, n, k, k);
      t[k].0
    else
      var r := NameFrom(t, n, k + 1);
      assert (exists i :: k + 1 <= i < |t| && t[i].1 == n) ==>
               exists j :: FirstWithNumber(t, n, k, j) && r == t[j].0 by {
        if exists i :: k + 1 <= i < |t| && t[i].1 == n {
          var j :| FirstWithNumber(t, n, k + 1, j) && r == t[j].0;
          assert FirstWithNumber(t, n, k, j);
        }
      }
      r
  }

  /** In a one-to-one table the two lookups invert each other. */
  lemma LookupsInvert(t: Table, i: int)
    requires OneToOne(t)
    requires 0 <= i < |t|
    ensures NameOf(t, t[i].1) == t[i].0
    ensures NumberOf(t, t[i].0) == Some(t[i].1)
  {
    ScansInvert(t, i, 0);
  }

  /** LookupsInvert for the scans from entry `k` on, with `k` at or before `i`. */
  lemma {:induction false} ScansInvert(t: Table, i: int, k: nat)
    requires OneToOne(t)
    requires k <= i < |t|
    ensures NameFrom(t, t[i].1, k) == t[i].0
    ensures NumberFrom(t, t[i].0, k) == Some(t[i].1)
    decreases i - k
  {
    if k < i {
      ScansInvert(t, i, k + 1);
    }
  }

  /** The MONTHS keys and numbers are all different, and no key is empty. */
  lemma MonthsOneToOne()
    ensures OneToOne(Months)
    ensures forall i :: 0 <= i < |Months| ==> |Months[i].0| > 0
  {
    MonthNamesDistinct();
    MonthNumbersDistinct();
  }

  lemma MonthNamesDistinct()
    ensures forall i, j :: 0 <= i < j < |Months| ==> Months[i].0 != Months[j].0
  {
  }

  lemma MonthNumbersDistinct()
    ensures forall i, j :: 0 <= i < j < |Months| ==> Months[i].1 != Months[j].1
  {
  }

  /** The DAYS keys and numbers are all different, and no key is empty. */
  lemma DaysOneToOne()
    ensures OneToOne(Days)
    ensures forall i :: 0 <= i < |Days| ==> |Days[i].0| > 0
  {
    DayNamesDistinct();
    DayNumbersDistinct();
  }

  lemma DayNamesDistinct()
    ensures forall i, j :: 0 <= i < j < |Days| ==> Days[i].0 != Days[j].0
  {
  }

  lemma DayNumbersDistinct()
    ensures forall i, j :: 0 <= i < j < |Days| ==> Days[i].1 != Days[j].1
  {
  }

  /** Entry i of MONTHS: a non-empty name that both lookups pair with its number. */
  lemma MonthEntry(i: int)
    requires 0 <= i < |Months|
    ensures Months[i].0 != ""
    ensures NameOf(Months, Months[i].1) == Months[i].0
    ensures NumberOf(Months, Months[i].0) == Some(Months[i].1)
  {
    MonthsOneToOne();
    LookupsInvert(Months, i);
  }

  /** Entry i of DAYS: a non-empty name that both lookups pair with its number. */
  lemma DayEntry(i: int)
    requires 0 <= i < |Days|
    ensures Days[i].0 != ""
    ensures NameOf(Days, Days[i].1) == Days[i].0
    ensures NumberOf(Days, Days[i].0) == Some(Days[i].1)
  {
    DaysOneToOne();
    LookupsInvert(Days, i);
  }

  /** get_month_name: the month name of a number, "" when unknown. */
  function MonthName(n: int): (r: string)
    ensures r == "" <==> !(1 <= n <= 12 || n == AllNumber)
    ensures r != "" ==> NumberOf(Months, r) == Some(n)
  {
    if 1 <= n <= 12 || n == AllNumber then
      var i := if n == AllNumber then 12 else n - 1;
      assert Months[i].1 == n;
      MonthEntry(i);
      NameOf(Months, n)
    else
      assert forall i :: 0 <= i < |Months| ==> Months[i].1 != n;
      NameOf(Months, n)
  }

  /** get_day_name: the weekday name of a number, "" when unknown. */
  function DayName(n: int): (r: string)
    ensures r == "" <==> !(0 <= n <= 6 || n == AllNumber)
    ensures r != "" ==> NumberOf(Days, r) == Some(n)
  {
    if 0 <= n <= 6 || n == AllNumber then
      var i := if n == AllNumber then 7 else n;
      assert Days[i].1 == n;
      DayEntry(i);
      NameOf(Days, n)
    else
      assert forall i :: 0 <= i < |Days| ==> Days[i].1 != n;
      NameOf(Days, n)
  }

  /** The name of a calendar month is the MONTHS key listed with it, and
      never "all". */
  lemma MonthNameIsKey(n: int)
    requires 1 <= n <= 12
    ensures (MonthName(n), n) in Months && MonthName(n) != "all"
  {
    assert Months[n - 1].1 == n && Months[12].0 == "all";
    MonthEntry(n - 1);
    MonthsOneToOne();
    assert Months[n - 1] == (MonthName(n), n);
  }

  /** The name of a weekday number is the DAYS key listed with it, and never
      "all". */
  lemma DayNameIsKey(n: int)
    requires 0 <= n <= 6
    ensures (DayName(n), n) in Days && DayName(n) != "all"
  {
    assert Days[n].1 == n && Days[7].0 == "all";
    DayEntry(n);
    DaysOneToOne();
    assert Days[n] == (DayName(n), n);
  }

  /** Every month key maps back to itself through its number, "all" included. */
  lemma MonthRoundTrip(name: string)
    requires name in Names(Months)
    ensures NumberOf(Months, name).Some?
    ensures MonthName(NumberOf(Months, name).value) == name
  {
    var i :| 0 <= i < |Months| && Months[i].0 == name;
    MonthEntry(i);
  }

  /** Every weekday key maps back to itself through its number, "all" included. */
  lemma DayRoundTrip(name: string)
    requires name in Names(Days)
    ensures NumberOf(Days, name).Some?
    ensures DayName(NumberOf(Days, name).value) == name
  {
    var i :| 0 <= i < |Days| && Days[i].0 == name;
    DayEntry(i);
  }
}
