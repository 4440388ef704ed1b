/** The request-count history: store rows grouped by bucket (and by status
    class, or by success/error) are merged onto a dense time axis with one
    row per bucket start and every fixed key defaulting to zero. */
module ApiHistory {
  import opened Wrappers
  import opened Strings
  import opened Seqs
  import opened TimespanHelper

  // ---------------------------------------------------------------------
  // Status classes and grouping
  // ---------------------------------------------------------------------

  /** The five status-class labels, in output order. */
  const Labels: seq<string> := ["1xx", "2xx", "3xx", "4xx", "5xx"]

  /** The store's CASE clause: a response status in 100..599 is labelled
      with its hundreds digit followed by "xx"; anything else is "unknown". */
  function StatusClass(status: int): (lbl: string)
    ensures lbl == "unknown" <==> !(100 <= status <= 599)
    ensures lbl != "unknown" ==> lbl == [DigitChar(status / 100)] + "xx"
    ensures lbl in Labels || lbl == "unknown"
  {
    if 100 <= status <= 199 then "1xx"
    else if 200 <= status <= 299 then "2xx"
    else if 300 <= status <= 399 then "3xx"
    else if 400 <= status <= 499 then "4xx"
    else if 500 <= status <= 599 then "5xx"
    else "unknown"
  }

  /** Two statuses share a label iff they are both outside 100..599 or share
      their hundreds digit inside it. */
  lemma StatusClassSameLabel(s1: int, s2: int)
    ensures StatusClass(s1) == StatusClass(s2) <==>
      (!(100 <= s1 <= 599) && !(100 <= s2 <= 599)) ||
      (100 <= s1 <= 599 && 100 <= s2 <= 599 && s1 / 100 == s2 / 100)
  {
    if 100 <= s1 <= 599 && 100 <= s2 <= 599 && StatusClass(s1) == StatusClass(s2) {
      assert StatusClass(s1)[0] == DigitChar(s1 / 100);
      assert StatusClass(s2)[0] == DigitChar(s2 / 100);
    }
  }

  datatype GroupBy = ByResponseStatus | ByError

  /** sanitized_group_by: only "error" selects success/error grouping; any
      other value, and no value, selects status-class grouping. */
  function SanitizedGroupBy(groupBy: Option<string>): (g: GroupBy)
    ensures g == ByError <==> groupBy == Some("error")
  {
    if groupBy == Some("error") then ByError else ByResponseStatus
  }

  // ---------------------------------------------------------------------
  // The time axis
  // ---------------------------------------------------------------------

  /** The output's time axis: the distinct bucket starts the store returned,
      ascending; only when it returned no row at all, the fallback grid. */
  function TimeAxis(buckets: seq<int>, start: int, end: int, b: Bucket): (r: Result<seq<int>, Error>)
    ensures |buckets| > 0 ==> r.Ok? && StrictlyIncreasing(r.value)
    ensures |buckets| > 0 ==> forall t :: t in r.value <==> t in buckets
    ensures |buckets| == 0 ==> r == Timestamps(start, end, b)
  {
    if |buckets| == 0 then Timestamps(start, end, b) else Ok(SortedDistinct(buckets))
  }

  /** Once the store returned any row, the window and the bucket no longer
      affect the axis, even when the bucket has zero width. */
  lemma AxisIgnoresBucketWhenRowsExist(buckets: seq<int>, s1: int, e1: int, b1: Bucket, s2: int, e2: int, b2: Bucket)
    requires |buckets| > 0
    ensures TimeAxis(buckets, s1, e1, b1) == TimeAxis(buckets, s2, e2, b2)
  {
  }

  // ---------------------------------------------------------------------
  // Status-class grouping
  // ---------------------------------------------------------------------

  /** One row of the grouped query: bucket start, status label and count
      (NULL in a gap-filled row). */
  datatype StatusRow = StatusRow(bucket: int, status: string, cnt: Option<int>)

  /** One output row: the time and exactly the five status-class counts. */
  datatype StatusPoint = StatusPoint(time: int, c1xx: int, c2xx: int, c3xx: int, c4xx: int, c5xx: int)

  /** The count an output row reports under one of the five labels. */
  function CountFor(p: StatusPoint, lbl: string): int
    requires lbl in Labels
  {
    if lbl == "1xx" then p.c1xx
    else if lbl == "2xx" then p.c2xx
    else if lbl == "3xx" then p.c3xx
    else if lbl == "4xx" then p.c4xx
    else p.c5xx
  }

  /** The GROUP BY guarantees one row per (bucket, status) pair. */
  ghost predicate UniqueStatusKeys(rows: seq<StatusRow>) {
    forall i, j :: 0 <= i < j < |rows| ==>
      rows[i].bucket != rows[j].bucket || rows[i].status != rows[j].status
  }

  function StatusRowBuckets(rows: seq<StatusRow>): seq<int> {
    Map(rows, (row: StatusRow) => row.bucket)
  }

  /** The count indexed under (t, label), or 0 when there is no such row or
      its count is NULL; when several rows share the key the last wins. */
  function StatusCount(rows: seq<StatusRow>, t: int, lbl: string): int {
    match LastIndexWhere(rows, (row: StatusRow) => row.bucket == t && row.status == lbl)
    case None => 0
    case Some(i) => rows[i].cnt.GetOr(0)
  }

  /** compute_response_status_group_data, after the axis is chosen. */
  function StatusMerge(axis: seq<int>, rows: seq<StatusRow>): (r: seq<StatusPoint>)
    ensures |r| == |axis|
    ensures forall i :: 0 <= i < |axis| ==> r[i].time == axis[i]
  {
    Map(axis, (t: int) => StatusPoint(t,
      StatusCount(rows, t, "1xx"), StatusCount(rows, t, "2xx"), StatusCount(rows, t, "3xx"),
      StatusCount(rows, t, "4xx"), StatusCount(rows, t, "5xx")))
  }

  /** Every (bucket, label) pair the store reported appears with its count. */
  lemma StatusMergeReportsRow(axis: seq<int>, rows: seq<StatusRow>, i: nat, k: nat)
    requires UniqueStatusKeys(rows)
    requires i < |axis| && k < |rows|
    requires rows[k].bucket == axis[i] && rows[k].status in Labels
    ensures CountFor(StatusMerge(axis, rows)[i], rows[k].status) == rows[k].cnt.GetOr(0)
  {
    var t := axis[i];
    var lbl := rows[k].status;
    var p := (row: StatusRow) => row.bucket == t && row.status == lbl;
    forall j | 0 <= j < |rows| && j != k
      ensures !p(rows[j])
    {
      if j < k {
        assert rows[j].bucket != rows[k].bucket || rows[j].status != rows[k].status;
      } else {
        assert rows[k].bucket != rows[j].bucket || rows[k].status != rows[j].status;
      }
    }
    LastIndexOfUnique(rows, p, k);
  }

  /** A (bucket, label) pair the store did not report reads 0. */
  lemma StatusMergeGapIsZero(axis: seq<int>, rows: seq<StatusRow>, i: nat, lbl: string)
    requires i < |axis| && lbl in Labels
    requires forall k :: 0 <= k < |rows| ==> rows[k].bucket != axis[i] || rows[k].status != lbl
    ensures CountFor(StatusMerge(axis, rows)[i], lbl) == 0
  {
  }

  // ---------------------------------------------------------------------
  // Success/error grouping
  // ---------------------------------------------------------------------

  /** One row of a bucket-only grouped count. */
  datatype CountRow = CountRow(bucket: int, cnt: Option<int>)

  /** One output row of the two-series shape. */
  datatype ErrorPoint = ErrorPoint(time: int, success: int, error: int)

  ghost predicate UniqueBuckets(rows: seq<CountRow>) {
    forall i, j :: 0 <= i < j < |rows| ==> rows[i].bucket != rows[j].bucket
  }

  function CountRowBuckets(rows: seq<CountRow>): seq<int> {
    Map(rows, (row: CountRow) => row.bucket)
  }

  /** The count indexed under bucket `t`, or 0 when absent or NULL. */
  function BucketCount(rows: seq<CountRow>, t: int): int {
    match LastIndexWhere(rows, (row: CountRow) => row.bucket == t)
    case None => 0
    case Some(i) => rows[i].cnt.GetOr(0)
  }

  lemma BucketCountOfRow(rows: seq<CountRow>, k: nat)
    requires UniqueBuckets(rows) && k < |rows|
    ensures BucketCount(rows, rows[k].bucket) == rows[k].cnt.GetOr(0)
  {
    var p := (row: CountRow) => row.bucket == rows[k].bucket;
    forall j | 0 <= j < |rows| && j != k
      ensures !p(rows[j])
    {
      if j < k {
        assert rows[j].bucket != rows[k].bucket;
      } else {
        assert rows[k].bucket != rows[j].bucket;
      }
    }
    LastIndexOfUnique(rows, p, k);
  }

  lemma BucketCountAbsent(rows: seq<CountRow>, t: int)
    requires t !in CountRowBuckets(rows)
    ensures BucketCount(rows, t) == 0
  {
    var bs := CountRowBuckets(rows);
    forall j | 0 <= j < |rows|
      ensures rows[j].bucket != t
    {
      assert bs[j] == rows[j].bucket;
    }
  }

  /** Success and error counts of one axis, each looked up by bucket. */
  function TwoSeriesMerge(axis: seq<int>, success: seq<CountRow>, errors: seq<CountRow>): (r: seq<ErrorPoint>)
    ensures |r| == |axis|
    ensures forall i :: 0 <= i < |axis| ==> r[i].time == axis[i]
  {
    Map(axis, (t: int) => ErrorPoint(t, BucketCount(success, t), BucketCount(errors, t)))
  }

  /** Each side reports its store count at the buckets on the axis, and 0 at
      an axis bucket it has no row for. */
  lemma TwoSeriesMergeCounts(axis: seq<int>, success: seq<CountRow>, errors: seq<CountRow>, i: nat)
    requires UniqueBuckets(success) && UniqueBuckets(errors) && i < |axis|
    ensures forall k :: 0 <= k < |success| && success[k].bucket == axis[i] ==>
      TwoSeriesMerge(axis, success, errors)[i].success == success[k].cnt.GetOr(0)
    ensures forall k :: 0 <= k < |errors| && errors[k].bucket == axis[i] ==>
      TwoSeriesMerge(axis, success, errors)[i].error == errors[k].cnt.GetOr(0)
    ensures axis[i] !in CountRowBuckets(success) ==> TwoSeriesMerge(axis, success, errors)[i].success == 0
    ensures axis[i] !in CountRowBuckets(errors) ==> TwoSeriesMerge(axis, success, errors)[i].error == 0
  {
    forall k | 0 <= k < |success| && success[k].bucket == axis[i]
      ensures TwoSeriesMerge(axis, success, errors)[i].success == success[k].cnt.GetOr(0)
    {
      BucketCountOfRow(success, k);
    }
    forall k | 0 <= k < |errors| && errors[k].bucket == axis[i]
      ensures TwoSeriesMerge(axis, success, errors)[i].error == errors[k].cnt.GetOr(0)
    {
      BucketCountOfRow(errors, k);
    }
    if axis[i] !in CountRowBuckets(success) {
      BucketCountAbsent(success, axis[i]);
    }
    if axis[i] !in CountRowBuckets(errors) {
      BucketCountAbsent(errors, axis[i]);
    }
  }

  // ---------------------------------------------------------------------
  // The command
  // ---------------------------------------------------------------------

  /** The request parameters the command reads. */
  datatype HistoryParams = HistoryParams(
    spanType: Option<string>, startDate: DateParam, endDate: DateParam,
    bucketSize: Option<string>, groupBy: Option<string>)

  /** What the store returns for the resolved window and bucket: the
      status-class counts, and the two counts split on error_class. */
  datatype HistoryStore = HistoryStore(statusRows: seq<StatusRow>, successRows: seq<CountRow>, errorRows: seq<CountRow>)

  datatype HistoryData = StatusData(points: seq<StatusPoint>) | ErrorData(series: seq<ErrorPoint>)

  datatype HistoryResult = HistoryResult(data: HistoryData, startTime: int, endTime: int)

  /** The times of an output series, in order. */
  function DataTimes(d: HistoryData): seq<int> {
    match d
    case StatusData(ps) => Map(ps, (p: StatusPoint) => p.time)
    case ErrorData(ps) => Map(ps, (p: ErrorPoint) => p.time)
  }

  /** _execute: resolve the span, parse the bucket, round both ends to whole
      seconds, then build the series the grouping asks for. */
  function Execute(p: HistoryParams, clock: Clock, readers: DateReaders, store: HistoryStore): (r: Result<HistoryResult, Error>)
    ensures r.Ok? ==> ConvertTimespanToTimes(p.spanType, p.startDate, p.endDate, clock, readers).Ok?
    ensures r.Ok? ==> FromParamString(p.bucketSize).Ok?
    ensures r.Ok? ==>
      var span := ConvertTimespanToTimes(p.spanType, p.startDate, p.endDate, clock, readers).value;
      r.value.startTime * 1000 - 500 <= span.0 < r.value.startTime * 1000 + 500 &&
      r.value.endTime * 1000 - 500 <= span.1 < r.value.endTime * 1000 + 500
    ensures r.Ok? ==> (r.value.data.ErrorData? <==> p.groupBy == Some("error"))
    ensures r.Ok? && r.value.data.StatusData? && |store.statusRows| > 0 ==>
      StrictlyIncreasing(DataTimes(r.value.data)) &&
      forall t :: t in DataTimes(r.value.data) <==> t in StatusRowBuckets(store.statusRows)
    ensures r.Ok? && r.value.data.ErrorData? && |store.successRows| > 0 ==>
      StrictlyIncreasing(DataTimes(r.value.data)) &&
      forall t :: t in DataTimes(r.value.data) <==> t in CountRowBuckets(store.successRows)
    ensures r.Ok? && r.value.data.StatusData? ==>
      var axis := TimeAxis(StatusRowBuckets(store.statusRows), r.value.startTime, r.value.endTime, FromParamString(p.bucketSize).value);
      axis.Ok? && r.value.data.points == StatusMerge(axis.value, store.statusRows)
    ensures r.Ok? && r.value.data.ErrorData? ==>
      var axis := TimeAxis(CountRowBuckets(store.successRows), r.value.startTime, r.value.endTime, FromParamString(p.bucketSize).value);
      axis.Ok? && r.value.data.series == TwoSeriesMerge(axis.value, store.successRows, store.errorRows)
    ensures (if p.groupBy == Some("error") then |store.successRows| > 0 else |store.statusRows| > 0) ==>
      (r.Ok? <==> ConvertTimespanToTimes(p.spanType, p.startDate, p.endDate, clock, readers).Ok? && FromParamString(p.bucketSize).Ok?)
  {
    var span :- ConvertTimespanToTimes(p.spanType, p.startDate, p.endDate, clock, readers);
    var bucket :- FromParamString(p.bucketSize);
    var startTime := RoundToSecond(span.0);
    var endTime := RoundToSecond(span.1);
    match SanitizedGroupBy(p.groupBy)
    case ByResponseStatus =>
      var axis :- TimeAxis(StatusRowBuckets(store.statusRows), startTime, endTime, bucket);
      Ok(HistoryResult(StatusData(StatusMerge(axis, store.statusRows)), startTime, endTime))
    case ByError =>
      var axis :- TimeAxis(CountRowBuckets(store.successRows), startTime, endTime, bucket);
      Ok(HistoryResult(ErrorData(TwoSeriesMerge(axis, store.successRows, store.errorRows)), startTime, endTime))
  }

  /** In error grouping the success query alone drives the axis: an error
      count at a bucket the success query did not return is dropped. */
  lemma ErrorsOutsideSuccessAxisDropped(p: HistoryParams, clock: Clock, rd: DateReaders, store: HistoryStore, t: int)
    requires |store.successRows| > 0
    requires t !in CountRowBuckets(store.successRows)
    requires Execute(p, clock, rd, store).Ok? && p.groupBy == Some("error")
    ensures t !in DataTimes(Execute(p, clock, rd, store).value.data)
  {
  }

  /** With no row from the store the series is the fallback grid, with every
      count zero. */
  lemma EmptyStoreGivesZeroGrid(p: HistoryParams, clock: Clock, rd: DateReaders, store: HistoryStore, i: nat)
    requires store.statusRows == [] && p.groupBy != Some("error")
    requires Execute(p, clock, rd, store).Ok?
    ensures var r := Execute(p, clock, rd, store).value;
      var b := FromParamString(p.bucketSize).value;
      r.data.StatusData? &&
      Ok(DataTimes(r.data)) == Timestamps(r.startTime, r.endTime, b) &&
      (i < |r.data.points| ==> forall l :: l in Labels ==> CountFor(r.data.points[i], l) == 0)
  {
    var r := Execute(p, clock, rd, store).value;
    var ps := r.data.points;
    var b := FromParamString(p.bucketSize).value;
    var axis := Timestamps(r.startTime, r.endTime, b).value;
    assert ps == StatusMerge(axis, []);
    assert DataTimes(r.data) == axis;
  }
}
