/** The closed time-window scope shared by every timestamped record. */
module TimespanRecord {
  import opened Wrappers
  import opened Seqs

  /** Whether a record's time satisfies the bounds that are given. */
  predicate InWindow(t: int, tStart: Option<int>, tEnd: Option<int>) {
    (tStart.Some? ==> t >= tStart.value) && (tEnd.Some? ==> t <= tEnd.value)
  }

  /** for_timespan: `time >= t_start` when a start is given, then
      `time <= t_end` when an end is given; both bounds are inclusive. */
  function ForTimespan<T(!new)>(rows: seq<T>, time: T -> int, tStart: Option<int>, tEnd: Option<int>): (r: seq<T>)
    ensures forall x :: x in r <==> x in rows && InWindow(time(x), tStart, tEnd)
    ensures forall x :: multiset(r)[x] == if InWindow(time(x), tStart, tEnd) then multiset(rows)[x] else 0
  {
    var afterStart := if tStart.Some? then Filter(rows, (x: T) => time(x) >= tStart.value) else rows;
    if tEnd.Some? then Filter(afterStart, (x: T) => time(x) <= tEnd.value) else afterStart
  }

  /** With neither bound the scope is unchanged. */
  lemma NoBoundsIsIdentity<T(!new)>(rows: seq<T>, time: T -> int)
    ensures ForTimespan(rows, time, None, None) == rows
  {
  }

  /** The scope is the filter by the window predicate: it keeps the rows'
      order and adds no other condition. */
  lemma {:induction false} ForTimespanIsFilter<T(!new)>(rows: seq<T>, time: T -> int, tStart: Option<int>, tEnd: Option<int>)
    ensures ForTimespan(rows, time, tStart, tEnd) == Filter(rows, (x: T) => InWindow(time(x), tStart, tEnd))
    decreases |rows|
  {
    if |rows| > 0 {
      ForTimespanIsFilter(rows[..|rows| - 1], time, tStart, tEnd);
      ForTimespanStep(rows, time, tStart, tEnd);
    }
  }

  lemma ForTimespanStep<T(!new)>(rows: seq<T>, time: T -> int, tStart: Option<int>, tEnd: Option<int>)
    requires |rows| > 0
    requires ForTimespan(rows[..|rows| - 1], time, tStart, tEnd)
          == Filter(rows[..|rows| - 1], (x: T) => InWindow(time(x), tStart, tEnd))
    ensures ForTimespan(rows, time, tStart, tEnd) == Filter(rows, (x: T) => InWindow(time(x), tStart, tEnd))
  {
    var init := rows[..|rows| - 1];
    var x := rows[|rows| - 1];
    if tStart.Some? && tEnd.Some? {
      var a := Filter(init, (y: T) => time(y) >= tStart.value);
      if time(x) >= tStart.value {
        FilterSnoc(a, x, (y: T) => time(y) <= tEnd.value);
      }
    } else if tStart.None? && tEnd.None? {
      LastSplit(rows);
    }
  }
}
