/** The column aggregates the analyzers use: the mode (most frequent value,
    ties going to the value seen first), the sum, the minimum and maximum,
    and the table of counts per distinct value. */
module Frequency {

  /** Number of occurrences of `x` in `s`. */
  function Count<T(==)>(s: seq<T>, x: T): nat
  {
    multiset(s)[x]
  }

  /** `m` occurs in `s` and no value of `s` occurs more often. */
  ghost predicate IsMode<T>(s: seq<T>, m: T)
  {
    m in s && forall i :: 0 <= i < |s| ==> Count(s, s[i]) <= Count(s, m)
  }

  /** `m` is a mode, and every value seen before its first occurrence occurs
      strictly less often. */
  ghost predicate IsFirstMode<T>(s: seq<T>, m: T)
  {
    IsMode(s, m) &&
    exists k :: 0 <= k < |s| && s[k] == m && forall j :: 0 <= j < k ==> Count(s, s[j]) < Count(s, m)
  }

  /** The tie-breaking rule leaves exactly one candidate. */
  lemma FirstModeUnique<T>(s: seq<T>, a: T, b: T)
    requires IsFirstMode(s, a) && IsFirstMode(s, b)
    ensures a == b
  {
    var ka :| 0 <= ka < |s| && s[ka] == a && forall j :: 0 <= j < ka ==> Count(s, s[j]) < Count(s, a);
    var kb :| 0 <= kb < |s| && s[kb] == b && forall j :: 0 <= j < kb ==> Count(s, s[j]) < Count(s, b);
    assert Count(s, a) == Count(s, b);
  }

  /** Hours 5, 5, 9, 9: both occur twice and 5 is seen first. */
  lemma TieGoesToFirstSeen()
    ensures IsFirstMode([5, 5, 9, 9], 5)
  {
    var s := [5, 5, 9, 9];
    assert s == [5, 5] + [9, 9];
    assert Count(s, 5) == 2 && Count(s, 9) == 2;
    assert s[0] == 5;
  }

  /** The mode of a non-empty column: scans once, keeping the first value
      whose count beats every count seen so far. */
  method Mode<T(==)>(s: seq<T>) returns (m: T)
    requires |s| > 0
    ensures IsFirstMode(s, m)
  {
    var best := 0;
    var bestCount := Count(s, s[0]);
    var i := 1;
    while i < |s|
      invariant 1 <= i <= |s|
      invariant 0 <= best < i
      invariant bestCount == Count(s, s[best])
      invariant forall j :: 0 <= j < i ==> Count(s, s[j]) <= bestCount
      invariant forall j :: 0 <= j < best ==> Count(s, s[j]) < bestCount
    {
      var c := Count(s, s[i]);
      if c > bestCount {
        best, bestCount := i, c;
      }
      i := i + 1;
    }
    m := s[best];
  }

  /** Sum of a column, the reference definition. */
  function Sum(s: seq<int>): int
  {
    if |s| == 0 then 0 else s[0] + Sum(s[1..])
  }

  lemma {:induction false} SumAppend(a: seq<int>, b: seq<int>)
    ensures Sum(a + b) == Sum(a) + Sum(b)
  {
    if |a| == 0 {
      assert a + b == b;
    } else {
      assert (a + b)[1..] == a[1..] + b;
      SumAppend(a[1..], b);
    }
  }

  /** With no negative entry every entry is at most the sum. */
  lemma {:induction false} SumBoundsEntries(s: seq<int>)
    requires forall i :: 0 <= i < |s| ==> s[i] >= 0
    ensures Sum(s) >= 0
    ensures forall i :: 0 <= i < |s| ==> s[i] <= Sum(s)
  {
    if |s| > 0 {
      SumBoundsEntries(s[1..]);
      assert forall i :: 1 <= i < |s| ==> s[i] == s[1..][i - 1];
    }
  }

  /** The total of a column, accumulated left to right. */
  method Total(s: seq<int>) returns (t: int)
    ensures t == Sum(s)
  {
    t := 0;
    var i := 0;
    while i < |s|
      invariant 0 <= i <= |s|
      invariant t == Sum(s[..i])
    {
      SumAppend(s[..i], [s[i]]);
      assert s[..i + 1] == s[..i] + [s[i]];
      t := t + s[i];
      i := i + 1;
    }
    assert s[..i] == s;
  }

  /** Smallest and largest value of a non-empty column. */
  method MinMax(s: seq<int>) returns (lo: int, hi: int)
    requires |s| > 0
    ensures lo in s && hi in s
    ensures forall i :: 0 <= i < |s| ==> lo <= s[i] <= hi
  {
    lo, hi := s[0], s[0];
    var i := 1;
    while i < |s|
      invariant 1 <= i <= |s|
      invariant lo in s[..i] && hi in s[..i]
      invariant forall j :: 0 <= j < i ==> lo <= s[j] <= hi
    {
      if s[i] < lo { lo := s[i]; }
      if s[i] > hi { hi := s[i]; }
      assert s[..i + 1] == s[..i] + [s[i]];
      i := i + 1;
    }
    assert s[..i] == s;
  }

  predicate NoDuplicates<T(==)>(d: seq<T>)
  {
    forall i, j :: 0 <= i < j < |d| ==> d[i] != d[j]
  }

  /** The distinct values of `s`, each listed once. */
  function Distinct<T(==,!new)>(s: seq<T>): (d: seq<T>)
    ensures forall x :: x in d <==> x in s
    ensures NoDuplicates(d)
  {
    if |s| == 0 then []
    else
      var d := Distinct(s[..|s| - 1]);
      var x := s[|s| - 1];
      assert s == s[..|s| - 1] + [x];
      if x in d then d else d + [x]
  }

  /** A count table: each entry is a value and its number of occurrences. */
  type Counts<T> = seq<(T, nat)>

  function CountsOf<T(==)>(d: seq<T>, s: seq<T>): (r: Counts<T>)
    ensures |r| == |d|
    ensures forall i :: 0 <= i < |d| ==> r[i] == (d[i], Count(s, d[i]))
  {
    if |d| == 0 then [] else [(d[0], Count(s, d[0]))] + CountsOf(d[1..], s)
  }

  /** Sum of the counts of a table. */
  function Tally<T>(c: Counts<T>): nat
  {
    if |c| == 0 then 0 else c[0].1 + Tally(c[1..])
  }

  lemma {:induction false} TallyAppend<T>(a: Counts<T>, b: Counts<T>)
    ensures Tally(a + b) == Tally(a) + Tally(b)
  {
    if |a| == 0 {
      assert a + b == b;
    } else {
      assert (a + b)[1..] == a[1..] + b;
      TallyAppend(a[1..], b);
    }
  }

  /** One more occurrence of `x` raises the tally of a duplicate-free table
      by one exactly when `x` is listed. */
  lemma {:induction false} TallyOneMore<T>(d: seq<T>, p: seq<T>, x: T)
    requires NoDuplicates(d)
    ensures Tally(CountsOf(d, p + [x])) == Tally(CountsOf(d, p)) + (if x in d then 1 else 0)
  {
    if |d| > 0 {
      assert multiset(p + [x]) == multiset(p) + multiset{x};
      TallyOneMore(d[1..], p, x);
      assert x in d <==> x == d[0] || x in d[1..];
    }
  }

  /** The counts of the distinct values of `s` add up to its length. */
  lemma {:induction false} TallyDistinct<T(!new)>(s: seq<T>)
    ensures Tally(CountsOf(Distinct(s), s)) == |s|
  {
    if |s| > 0 {
      var p := s[..|s| - 1];
      var x := s[|s| - 1];
      var d := Distinct(p);
      assert s == p + [x];
      TallyDistinct(p);
      TallyOneMore(d, p, x);
      if x !in d {
        assert d + [x] == Distinct(s);
        assert CountsOf(d + [x], s) == CountsOf(d, s) + [(x, Count(s, x))];
        TallyAppend(CountsOf(d, s), [(x, Count(s, x))]);
        assert Count(p, x) == 0;
        assert multiset(s) == multiset(p) + multiset{x};
      }
    }
  }

  /** Descending by count. */
  ghost predicate SortedByCount<T>(c: Counts<T>)
  {
    forall i, j :: 0 <= i < j < |c| ==> c[i].1 >= c[j].1
  }

  /** Places an entry after every entry whose count is at least its own. */
  function Insert<T(==)>(e: (T, nat), c: Counts<T>): (r: Counts<T>)
    ensures |r| == |c| + 1
    ensures multiset(r) == multiset(c) + multiset{e}
    ensures r[0] == e || (|c| > 0 && r[0] == c[0])
    ensures Tally(r) == Tally(c) + e.1
  {
    if |c| == 0 || e.1 > c[0].1 then
      [e] + c
    else
      assert c == [c[0]] + c[1..];
      [c[0]] + Insert(e, c[1..])
  }

  lemma {:induction false} InsertSorted<T>(e: (T, nat), c: Counts<T>)
    requires SortedByCount(c)
    ensures SortedByCount(Insert(e, c))
  {
    if |c| > 0 && e.1 <= c[0].1 {
      var rest := Insert(e, c[1..]);
      assert SortedByCount(c[1..]);
      InsertSorted(e, c[1..]);
      forall j | 0 <= j < |rest|
        ensures c[0].1 >= rest[j].1
      {
        assert rest[j] in multiset(c[1..]) + multiset{e};
        if rest[j] != e {
          assert rest[j] in c[1..];
        }
      }
    }
  }

  /** Stable insertion sort of a count table by descending count. */
  function SortByCount<T(==)>(c: Counts<T>): (r: Counts<T>)
    ensures |r| == |c|
    ensures multiset(r) == multiset(c)
    ensures Tally(r) == Tally(c)
    ensures SortedByCount(r)
  {
    if |c| == 0 then []
    else
      var init := c[..|c| - 1];
      var last := c[|c| - 1];
      assert c == init + [last];
      TallyAppend(init, [last]);
      var sorted := SortByCount(init);
      InsertSorted(last, sorted);
      Insert(last, sorted)
  }

  /** The values listed by a count table. */
  function Keys<T>(c: Counts<T>): (r: seq<T>)
    ensures |r| == |c| && forall i :: 0 <= i < |c| ==> r[i] == c[i].0
  {
    seq(|c|, i requires 0 <= i < |c| => c[i].0)
  }

  /** value_counts: one entry per distinct value holding its number of
      occurrences, largest count first; the counts add up to the length. */
  function ValueCounts<T(==,!new)>(s: seq<T>): (r: Counts<T>)
    ensures forall x :: x in Keys(r) <==> x in s
    ensures NoDuplicates(Keys(r))
    ensures forall i :: 0 <= i < |r| ==> r[i].1 == Count(s, r[i].0) && r[i].1 > 0
    ensures Tally(r) == |s|
    ensures SortedByCount(r)
  {
    var d := Distinct(s);
    var c := CountsOf(d, s);
    TallyDistinct(s);
    assert Keys(c) == d;
    var r := SortByCount(c);
    PermutedKeys(r, c);
    PermutedEntries(r, c);
    forall i | 0 <= i < |r|
      ensures r[i].1 == Count(s, r[i].0) && r[i].1 > 0
    {
      var j :| 0 <= j < |c| && c[j] == r[i];
      assert d[j] in s;
    }
    r
  }

  /** Reordering a table keeps its set of keys and, when keys are unique,
      keeps them unique. */
  lemma PermutedKeys<T(!new)>(r: Counts<T>, c: Counts<T>)
    requires multiset(r) == multiset(c)
    ensures forall x :: x in Keys(r) <==> x in Keys(c)
    ensures NoDuplicates(Keys(c)) ==> NoDuplicates(Keys(r))
  {
    forall x
      ensures x in Keys(r) ==> x in Keys(c)
      ensures x in Keys(c) ==> x in Keys(r)
    {
      if x in Keys(r) {
        var i :| 0 <= i < |r| && r[i].0 == x;
        assert r[i] in multiset(c);
        var j :| 0 <= j < |c| && c[j] == r[i];
        assert Keys(c)[j] == x;
      }
      if x in Keys(c) {
        var j :| 0 <= j < |c| && c[j].0 == x;
        assert c[j] in multiset(r);
        var i :| 0 <= i < |r| && r[i] == c[j];
        assert Keys(r)[i] == x;
      }
    }
    if NoDuplicates(Keys(c)) {
      forall i, j | 0 <= i < j < |r|
        ensures Keys(r)[i] != Keys(r)[j]
      {
        if r[i].0 == r[j].0 {
          assert r[i] in multiset(c) && r[j] in multiset(c);
          var a :| 0 <= a < |c| && c[a] == r[i];
          var b :| 0 <= b < |c| && c[b] == r[j];
          assert a == b by {
            assert Keys(c)[a] == Keys(c)[b];
          }
          assert r[i] == r[j];
          KeyedTwice(r, i, j);
          NoDuplicatesOnce(c, Keys(c), r[i]);
        }
      }
    }
  }

  /** Every entry of a reordered table is an entry of the original. */
  lemma PermutedEntries<T>(r: Counts<T>, c: Counts<T>)
    requires multiset(r) == multiset(c)
    ensures forall i :: 0 <= i < |r| ==> r[i] in c
  {
    forall i | 0 <= i < |r|
      ensures r[i] in c
    {
      assert r[i] in multiset(c);
    }
  }

  lemma {:induction false} KeyedTwice<T>(r: seq<T>, i: int, j: int)
    requires 0 <= i < j < |r| && r[i] == r[j]
    ensures multiset(r)[r[i]] >= 2
  {
    assert r == r[..i] + [r[i]] + r[i + 1..j] + [r[j]] + r[j + 1..];
  }

  lemma {:induction false} NoDuplicatesOnce<T>(c: Counts<T>, d: seq<T>, e: (T, nat))
    requires NoDuplicates(d) && |c| == |d|
    requires forall i :: 0 <= i < |d| ==> c[i].0 == d[i]
    ensures multiset(c)[e] <= 1
  {
    if |c| > 0 {
      assert c == [c[0]] + c[1..];
      NoDuplicatesOnce(c[1..], d[1..], e);
      if c[0] == e {
        assert forall k :: 0 <= k < |c[1..]| ==> c[1..][k].0 == d[k + 1];
      }
    }
  }
}
