/** The host-metrics listing: either a plain time-ascending page of the
    project's samples in the window, or, when a coarser sample spacing is
    asked for, every n-th sample by time-ordered row number, paged. */
module HostMetrics {
  import opened Wrappers
  import opened Strings
  import opened Seqs
  import opened Arith
  import opened TimespanHelper
  import opened TimespanRecord
  import BaseCommand

  /** One stored sample. `time` is in milliseconds; memory and disk figures
      are raw integers (MiB and 1k blocks); the percentages are decimals in
      the order the serializer lists them. Any column may be NULL. */
  datatype HostMetric = HostMetric(
    time: int,
    totalSystemMem: Option<int>, freeSystemMem: Option<int>,
    totalHdd: Option<int>, freeHdd: Option<int>,
    percentages: seq<Option<real>>)

  /** The sample spacing at which no downsampling happens, in seconds. */
  const DefaultMinSpacing: nat := 30

  /** The effective spacing: the parameter's integer value when the
      parameter is present and that value is at least 30, otherwise 30. */
  function EffectiveSpacing(minSampleSpacing: Option<string>): (spacing: nat)
    ensures spacing >= DefaultMinSpacing
    ensures spacing != DefaultMinSpacing ==> Present(minSampleSpacing) && spacing == ParamToI(minSampleSpacing)
  {
    if Present(minSampleSpacing) && ParamToI(minSampleSpacing) >= DefaultMinSpacing then ParamToI(minSampleSpacing)
    else DefaultMinSpacing
  }

  /** A spacing sent as decimal text is used when it is at least 30, and
      a smaller one means 30. */
  lemma SpacingParam(n: nat)
    ensures EffectiveSpacing(Some(NatToDigits(n))) == if n >= 30 then n else 30
  {
    var d := NatToDigits(n);
    ToIRoundTrip(n);
    DigitsPresent(d);
    assert ParamToI(Some(d)) == n;
  }

  lemma DigitsPresent(d: string)
    requires IsDigitRun(d)
    ensures Present(Some(d))
  {
    assert !IsBlankSpace(d[0]);
  }

  /** A missing, blank or unreadable spacing means 30. */
  lemma SpacingDefaults()
    ensures EffectiveSpacing(None) == 30 && EffectiveSpacing(Some("")) == 30
    ensures EffectiveSpacing(Some("fast")) == 30
  {
    ToIOfNonNumeric("fast");
  }

  /** The stride: the spacing in whole multiples of 30 seconds, rounded down
      (the spacing is an Integer, so the division truncates before `.ceil`). */
  function Stride(spacing: nat): (n: nat)
    requires spacing >= DefaultMinSpacing
    ensures n >= 1
    ensures n * DefaultMinSpacing <= spacing < (n + 1) * DefaultMinSpacing
  {
    spacing / DefaultMinSpacing
  }

  lemma StrideExamples()
    ensures Stride(30) == 1 && Stride(45) == 1 && Stride(59) == 1
    ensures Stride(60) == 2 && Stride(90) == 3 && Stride(300) == 10
  {
  }

  /** The kept samples: the one with 1-based row number r is kept iff
      (r - 1) mod n = 0. */
  function Select<T>(rows: seq<T>, n: nat): seq<T>
    requires n >= 1
    decreases |rows|
  {
    if |rows| == 0 then []
    else
      var r := |rows|;
      Select(rows[..r - 1], n) + (if (r - 1) % n == 0 then [rows[r - 1]] else [])
  }

  /** The kept samples are rows 0, n, 2n, ... (0-based), ceil(N / n) of
      them. */
  lemma {:induction false} SelectShape<T>(rows: seq<T>, n: nat)
    requires n >= 1
    ensures |Select(rows, n)| == (|rows| + n - 1) / n
    ensures forall j :: 0 <= j < |Select(rows, n)| ==> j * n < |rows| && Select(rows, n)[j] == rows[j * n]
    decreases |rows|
  {
    if |rows| > 0 {
      var len := |rows|;
      var prefix := rows[..len - 1];
      SelectShape(prefix, n);
      CeilStep(len - 1, n);
    }
  }

  /** How ceil(k / n) grows when k grows by one. */
  lemma CeilStep(k: nat, n: nat)
    requires n >= 1
    ensures k % n == 0 ==> (k + n - 1) / n * n == k && (k + n) / n == (k + n - 1) / n + 1
    ensures k % n != 0 ==> (k + n) / n == (k + n - 1) / n
  {
    var q := k / n;
    var m := k % n;
    assert k == q * n + m;
    if m == 0 {
      DivUnique(k + n - 1, n, q, n - 1);
      DivUnique(k + n, n, q + 1, 0);
    } else {
      DivUnique(k + n - 1, n, q + 1, m - 1);
      DivUnique(k + n, n, q + 1, m);
    }
  }

  /** A sample is kept iff its 0-based position is a multiple of the stride;
      it then sits at position `i / n` of the selection. */
  lemma SelectKeeps<T>(rows: seq<T>, n: nat, i: nat)
    requires n >= 1 && i < |rows|
    ensures i % n == 0 ==> i / n < |Select(rows, n)| && Select(rows, n)[i / n] == rows[i]
    ensures (exists j :: 0 <= j < |Select(rows, n)| && j * n == i) ==> i % n == 0
  {
    if i % n == 0 {
      KeptAt(rows, n, i);
    }
    if exists j :: 0 <= j < |Select(rows, n)| && j * n == i {
      var j :| 0 <= j < |Select(rows, n)| && j * n == i;
      ModOfMultiple(j, n);
    }
  }

  lemma KeptAt<T>(rows: seq<T>, n: nat, i: nat)
    requires n >= 1 && i < |rows| && i % n == 0
    ensures i / n < |Select(rows, n)| && Select(rows, n)[i / n] == rows[i]
  {
    var j := i / n;
    ExactQuotient(i, n);
    MulSucc(j, n);
    DivLowerBound(|rows| + n - 1, n, j + 1);
    SelectShape(rows, n);
  }

  /** Worked example: two hours of 30-second samples (120 rows) at a
      300-second spacing give a total of 12. */
  lemma TwoHourExample<T>(rows: seq<T>)
    requires |rows| == 120
    ensures |Select(rows, Stride(300))| == 12
  {
    SelectShape(rows, 10);
  }

  /** The order of the row_number window and of the plain listing. */
  predicate TimeLeq(a: HostMetric, b: HostMetric) {
    a.time <= b.time
  }

  lemma TimeLeqIsTotalPreorder()
    ensures TotalPreorder(TimeLeq)
  {
  }

  /** The project's samples inside the window, ascending by time. */
  function OrderedWindow(stored: seq<HostMetric>, startTime: int, endTime: int): (r: seq<HostMetric>)
    ensures SortedBy(r, TimeLeq)
    ensures multiset(r) == multiset(ForTimespan(stored, (m: HostMetric) => m.time, Some(startTime), Some(endTime)))
  {
    TimeLeqIsTotalPreorder();
    SortBy(ForTimespan(stored, (m: HostMetric) => m.time, Some(startTime), Some(endTime)), TimeLeq)
  }

  /** The request parameters the command reads. */
  datatype HostMetricsParams = HostMetricsParams(
    minSampleSpacing: Option<string>, spanType: Option<string>, startDate: DateParam, endDate: DateParam,
    page: Option<string>, perPage: Option<string>)

  /** A page of samples together with the total the pagination reports. */
  datatype HostMetricsResult = HostMetricsResult(metrics: seq<HostMetric>, totalCount: nat, startTime: int, endTime: int)

  /** Page `page` of the every-n-th selection holds the selected samples
      starting at the page's offset, at most `perPage` of them. */
  lemma PageOfSelection<T>(ordered: seq<T>, n: nat, page: nat, perPage: nat)
    requires n >= 1 && page >= 1
    ensures var q := Page(Select(ordered, n), page, perPage);
      var skip := perPage * (page - 1);
      && |q| <= perPage
      && StridedFrom(q, ordered, n, skip)
  {
    SelectStrided(ordered, n);
    WindowOfStrided(Select(ordered, n), ordered, n, perPage * (page - 1), perPage);
  }

  /** The strided half of SelectShape, without the count. */
  lemma SelectStrided<T>(rows: seq<T>, n: nat)
    requires n >= 1
    ensures forall j :: 0 <= j < |Select(rows, n)| ==> j * n < |rows| && Select(rows, n)[j] == rows[j * n]
  {
    SelectShape(rows, n);
  }

  /** A slice of a strided selection is strided from the slice's offset. */
  lemma WindowOfStrided<T>(sel: seq<T>, ordered: seq<T>, n: nat, skip: nat, take: nat)
    requires forall j :: 0 <= j < |sel| ==> j * n < |ordered| && sel[j] == ordered[j * n]
    ensures StridedFrom(Window(sel, skip, take), ordered, n, skip)
  {
    var q := Window(sel, skip, take);
    forall j | 0 <= j < |q|
      ensures (skip + j) * n < |ordered| && q[j] == ordered[(skip + j) * n]
    {
      assert q[j] == sel[skip + j];
    }
  }

  /** `q` lists the samples of `ordered` at positions (skip + j) * n. */
  ghost predicate StridedFrom<T>(q: seq<T>, ordered: seq<T>, n: nat, skip: nat) {
    forall j :: 0 <= j < |q| ==> (skip + j) * n < |ordered| && q[j] == ordered[(skip + j) * n]
  }

  /** With a stride of one nothing is dropped. */
  lemma SelectOne<T>(rows: seq<T>)
    ensures Select(rows, 1) == rows
  {
    SelectShape(rows, 1);
  }

  /** Page `page` of the every-n-th selection of `ordered`, `perPage` to a
      page, whose selection has `total` samples: a full page of them or
      what is left after the earlier pages, the samples at positions
      (skip + j) * n, and ceil(N / n) in all. */
  ghost predicate PagedSelection<T>(q: seq<T>, total: nat, ordered: seq<T>, n: nat, page: nat, perPage: nat)
    requires n >= 1 && page >= 1
  {
    && |q| <= perPage
    && |q| == PageLength(total, page, perPage)
    && total == (|ordered| + n - 1) / n
    && StridedFrom(q, ordered, n, perPage * (page - 1))
  }

  lemma SelectionPaged<T>(ordered: seq<T>, n: nat, page: nat, perPage: nat)
    requires n >= 1 && page >= 1
    ensures PagedSelection(Page(Select(ordered, n), page, perPage), |Select(ordered, n)|, ordered, n, page, perPage)
  {
    PageOfSelection(ordered, n, page, perPage);
    SelectShape(ordered, n);
  }

  /** The listing for one window: every n-th sample when downsampling,
      otherwise all of them, paged, with the total of the selection. */
  function Listing(ordered: seq<HostMetric>, spacing: nat, page: nat, perPage: nat): (r: (seq<HostMetric>, nat))
    requires spacing >= DefaultMinSpacing && page >= 1
    ensures PagedSelection(r.0, r.1, ordered, Stride(spacing), page, perPage)
  {
    var rows := if spacing != DefaultMinSpacing then Select(ordered, Stride(spacing)) else ordered;
    ListingRows(ordered, spacing);
    SelectionPaged(ordered, Stride(spacing), page, perPage);
    (Page(rows, page, perPage), |rows|)
  }

  /** Without downsampling the rows are the stride-one selection. */
  lemma ListingRows(ordered: seq<HostMetric>, spacing: nat)
    requires spacing >= DefaultMinSpacing
    ensures (if spacing != DefaultMinSpacing then Select(ordered, Stride(spacing)) else ordered)
         == Select(ordered, Stride(spacing))
  {
    if spacing == DefaultMinSpacing {
      SelectOne(ordered);
    }
  }

  /** _execute over the project's stored samples. The window is not rounded;
      downsampling runs iff the effective spacing differs from 30. */
  function Execute(p: HostMetricsParams, clock: Clock, readers: DateReaders, stored: seq<HostMetric>)
    : (r: Result<HostMetricsResult, Error>)
    ensures r.Ok? <==> ConvertTimespanToTimes(p.spanType, p.startDate, p.endDate, clock, readers).Ok?
    ensures r.Ok? ==>
      var span := ConvertTimespanToTimes(p.spanType, p.startDate, p.endDate, clock, readers).value;
      && r.value.startTime == span.0 && r.value.endTime == span.1
      && (r.value.metrics, r.value.totalCount) ==
         Listing(OrderedWindow(stored, span.0, span.1), EffectiveSpacing(p.minSampleSpacing),
                 BaseCommand.PageParam(p.page), BaseCommand.PerPageParam(p.perPage))
  {
    var spacing := EffectiveSpacing(p.minSampleSpacing);
    var span :- ConvertTimespanToTimes(p.spanType, p.startDate, p.endDate, clock, readers);
    var listing := Listing(OrderedWindow(stored, span.0, span.1), spacing,
                           BaseCommand.PageParam(p.page), BaseCommand.PerPageParam(p.perPage));
    Ok(HostMetricsResult(listing.0, listing.1, span.0, span.1))
  }
}
