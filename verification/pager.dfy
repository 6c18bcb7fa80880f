/** display_data: shows the rows five at a time.  The window [start, end)
    starts at [0, 5); each "yes" moves it on by five while rows remain.  The
    viewer stops at a "no", or after the window has reached the last row,
    in which case it reports the end of the data. */
module Pager {

  const PageSize: nat := 5

  /** YES_NO, the answers offered at every prompt. */
  const YesNo: seq<string> := ["yes", "no"]

  /** What the viewer shows: one window of rows, or the end-of-data notice. */
  datatype Event = Page(start: nat, end: nat) | EndOfData

  /** How the viewer stopped: on an answer other than "yes", by reaching the
      end of the rows, or because the answers ran out while it waited. */
  datatype Status = Declined | Exhausted | Starved

  /** The events shown, how the viewer stopped and how many answers it
      consumed. */
  datatype Run = Run(events: seq<Event>, status: Status, used: nat)
  {
    /** Number of windows shown. */
    function Pages(): nat
    {
      if status == Exhausted && |events| > 0 then |events| - 1 else |events|
    }
  }

  /** The rows a window shows: the slice clamped to the end of the data. */
  function Window<T>(rows: seq<T>, start: nat, end: nat): (r: seq<T>)
    requires start <= end
    ensures |r| <= end - start
    ensures end <= |rows| ==> |r| == end - start
    ensures start < |rows| && start < end ==> |r| > 0
    ensures start <= |rows| ==> |r| == (if end <= |rows| then end else |rows|) - start
    ensures forall i :: 0 <= i < |r| ==> start + i < |rows| && r[i] == rows[start + i]
  {
    if start >= |rows| then [] else rows[start..if end <= |rows| then end else |rows|]
  }

  /** The first `k` events are the windows [0, 5), [5, 10), ... */
  ghost predicate Windows(events: seq<Event>, k: nat)
  {
    k <= |events| &&
    forall i :: 0 <= i < k ==> events[i] == Page(PageSize * i, PageSize * i + PageSize)
  }

  /** Asks once, then keeps asking while the window ends before the last
      row; every "yes" shows the next window and any other answer stops.
      `answers` are the accepted answers in the order they are given, one
      per prompt, so each is "yes" or "no". */
  method DisplayData(maxRows: nat, answers: seq<string>) returns (run: Run)
    requires forall i :: 0 <= i < |answers| ==> answers[i] in YesNo
    ensures run.used <= |answers|
    ensures Windows(run.events, run.Pages())
    ensures run.status == Exhausted <==>
              |run.events| == run.Pages() + 1 && run.events[run.Pages()] == EndOfData
    ensures run.status != Exhausted ==> |run.events| == run.Pages()
    ensures run.status == Exhausted ==>
              run.Pages() >= 1 && PageSize * run.Pages() >= maxRows &&
              (run.Pages() == 1 || PageSize * (run.Pages() - 1) < maxRows)
    ensures run.status != Exhausted ==> run.Pages() == 0 || PageSize * run.Pages() < maxRows
    ensures run.status == Declined ==> run.used == run.Pages() + 1 && answers[run.Pages()] == "no"
    ensures run.status != Declined ==> run.used == run.Pages()
    ensures forall i :: 0 <= i < run.Pages() ==> answers[i] == "yes"
    ensures run.status == Starved ==> run.used == |answers|
  {
    var startRow: nat := 0;
    var endRow: nat := PageSize;
    if |answers| == 0 {
      return Run([], Starved, 0);
    }
    var used := 1;
    if answers[0] != "yes" {
      return Run([], Declined, used);
    }
    var events := [Page(startRow, endRow)];
    while endRow < maxRows
      invariant used == |events| <= |answers|
      invariant startRow == PageSize * (|events| - 1) && endRow == startRow + PageSize
      invariant Windows(events, |events|)
      invariant |events| == 1 || startRow < maxRows
      invariant forall i :: 0 <= i < used ==> answers[i] == "yes"
      decreases maxRows - endRow
    {
      if used == |answers| {
        return Run(events, Starved, used);
      }
      var answer := answers[used];
      used := used + 1;
      if answer == "yes" {
        startRow := startRow + PageSize;
        endRow := endRow + PageSize;
        events := events + [Page(startRow, endRow)];
      } else {
        return Run(events, Declined, used);
      }
    }
    return Run(events + [EndOfData], Exhausted, used);
  }

  /** The rows of the first k windows, shown one after another. */
  function Shown<T>(rows: seq<T>, k: nat): seq<T>
  {
    if k == 0 then [] else Shown(rows, k - 1) + Window(rows, PageSize * (k - 1), PageSize * k)
  }

  /** The first k windows show the rows from the start up to the k-th
      window's end, clamped, each row once and in order. */
  lemma {:induction false} ShownIsPrefix<T>(rows: seq<T>, k: nat)
    ensures PageSize * k <= |rows| ==> Shown(rows, k) == rows[..PageSize * k]
    ensures PageSize * k > |rows| ==> Shown(rows, k) == rows
  {
    if k > 0 {
      ShownIsPrefix(rows, k - 1);
      var w := Window(rows, PageSize * (k - 1), PageSize * k);
      if PageSize * k <= |rows| {
        assert rows[..PageSize * k] == rows[..PageSize * (k - 1)] + w;
      } else if PageSize * (k - 1) <= |rows| {
        assert rows == rows[..PageSize * (k - 1)] + w;
      } else {
        assert w == [];
      }
    }
  }

  /** A viewer that ran to the end of the data has shown every row exactly
      once, in order. */
  lemma ExhaustedShowsAll<T>(rows: seq<T>, pages: nat)
    requires pages >= 1 && PageSize * pages >= |rows|
    ensures Shown(rows, pages) == rows
  {
    ShownIsPrefix(rows, pages);
    if PageSize * pages == |rows| {
      assert rows[..|rows|] == rows;
    }
  }
}
