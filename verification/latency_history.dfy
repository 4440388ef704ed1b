/** The latency history: per-bucket p50/p95/p99 of the request duration,
    merged onto the same time axis as the request-count history and
    converted from seconds to milliseconds. */
module LatencyHistory {
  import opened Wrappers
  import opened Seqs
  import opened TimespanHelper
  import ApiHistory

  /** One row of the percentile query, in seconds; a gap-filled bucket has
      NULL percentiles. */
  datatype LatencyRow = LatencyRow(bucket: int, p50: Option<real>, p95: Option<real>, p99: Option<real>)

  /** One output row, in milliseconds. */
  datatype LatencyPoint = LatencyPoint(time: int, p50: real, p95: real, p99: real)

  ghost predicate UniqueBuckets(rows: seq<LatencyRow>) {
    forall i, j :: 0 <= i < j < |rows| ==> rows[i].bucket != rows[j].bucket
  }

  function RowBuckets(rows: seq<LatencyRow>): seq<int> {
    Map(rows, (row: LatencyRow) => row.bucket)
  }

  /** The row indexed under bucket `t`, the last one when several share it. */
  function RowAt(rows: seq<LatencyRow>, t: int): Option<LatencyRow> {
    match LastIndexWhere(rows, (row: LatencyRow) => row.bucket == t)
    case None => None
    case Some(i) => Some(rows[i])
  }

  /** A missing bucket or a NULL value reads 0 seconds; the millisecond value
      is the seconds value times 1000, applied after the default. */
  function ToMs(v: Option<real>): (ms: real)
    ensures v.None? ==> ms == 0.0
    ensures v.Some? ==> ms / 1000.0 == v.value
  {
    v.GetOr(0.0) * 1000.0
  }

  function PointAt(rows: seq<LatencyRow>, t: int): LatencyPoint {
    match RowAt(rows, t)
    case None => LatencyPoint(t, ToMs(None), ToMs(None), ToMs(None))
    case Some(row) => LatencyPoint(t, ToMs(row.p50), ToMs(row.p95), ToMs(row.p99))
  }

  /** The merge of _execute, after the axis is chosen. */
  function LatencyMerge(axis: seq<int>, rows: seq<LatencyRow>): (r: seq<LatencyPoint>)
    ensures |r| == |axis|
    ensures forall i :: 0 <= i < |axis| ==> r[i].time == axis[i]
  {
    Map(axis, (t: int) => PointAt(rows, t))
  }

  /** A bucket the store reported shows its three percentiles scaled by 1000
      (NULL ones as 0); a bucket it did not report shows zeros. */
  lemma LatencyMergeValues(axis: seq<int>, rows: seq<LatencyRow>, i: nat)
    requires UniqueBuckets(rows) && i < |axis|
    ensures forall k :: 0 <= k < |rows| && rows[k].bucket == axis[i] ==>
      var q := LatencyMerge(axis, rows)[i];
      q.p50 == rows[k].p50.GetOr(0.0) * 1000.0 &&
      q.p95 == rows[k].p95.GetOr(0.0) * 1000.0 &&
      q.p99 == rows[k].p99.GetOr(0.0) * 1000.0
    ensures axis[i] !in RowBuckets(rows) ==>
      LatencyMerge(axis, rows)[i] == LatencyPoint(axis[i], 0.0, 0.0, 0.0)
  {
    var t := axis[i];
    var p := (row: LatencyRow) => row.bucket == t;
    forall k | 0 <= k < |rows| && rows[k].bucket == t
      ensures RowAt(rows, t) == Some(rows[k])
    {
      forall j | 0 <= j < |rows| && j != k
        ensures !p(rows[j])
      {
        if j < k {
          assert rows[j].bucket != rows[k].bucket;
        } else {
          assert rows[k].bucket != rows[j].bucket;
        }
      }
      LastIndexOfUnique(rows, p, k);
    }
    if t !in RowBuckets(rows) {
      var bs := RowBuckets(rows);
      forall j | 0 <= j < |rows|
        ensures !p(rows[j])
      {
        assert bs[j] == rows[j].bucket;
      }
    }
  }

  /** The request parameters the command reads. */
  datatype LatencyParams = LatencyParams(spanType: Option<string>, startDate: DateParam, endDate: DateParam,
                                         bucketSize: Option<string>)

  datatype LatencyResult = LatencyResult(data: seq<LatencyPoint>, startTime: int, endTime: int)

  /** _execute: the store's rows are those of the requested project inside
      the rounded window. */
  function Execute(p: LatencyParams, clock: Clock, readers: DateReaders, rows: seq<LatencyRow>): (r: Result<LatencyResult, Error>)
    ensures r.Ok? ==> ConvertTimespanToTimes(p.spanType, p.startDate, p.endDate, clock, readers).Ok?
    ensures r.Ok? ==>
      var span := ConvertTimespanToTimes(p.spanType, p.startDate, p.endDate, clock, readers).value;
      r.value.startTime * 1000 - 500 <= span.0 < r.value.startTime * 1000 + 500 &&
      r.value.endTime * 1000 - 500 <= span.1 < r.value.endTime * 1000 + 500
    ensures r.Ok? && |rows| > 0 ==>
      StrictlyIncreasing(Map(r.value.data, (q: LatencyPoint) => q.time)) &&
      forall t :: t in Map(r.value.data, (q: LatencyPoint) => q.time) <==> t in RowBuckets(rows)
    ensures r.Ok? && |rows| == 0 ==>
      forall i :: 0 <= i < |r.value.data| ==> r.value.data[i].p50 == 0.0 && r.value.data[i].p95 == 0.0 && r.value.data[i].p99 == 0.0
    ensures r.Ok? ==> FromParamString(p.bucketSize).Ok?
    ensures r.Ok? ==>
      var axis := ApiHistory.TimeAxis(RowBuckets(rows), r.value.startTime, r.value.endTime, FromParamString(p.bucketSize).value);
      axis.Ok? && r.value.data == LatencyMerge(axis.value, rows)
    ensures |rows| > 0 ==> (r.Ok? <==>
      ConvertTimespanToTimes(p.spanType, p.startDate, p.endDate, clock, readers).Ok? && FromParamString(p.bucketSize).Ok?)
  {
    var span :- ConvertTimespanToTimes(p.spanType, p.startDate, p.endDate, clock, readers);
    var bucket :- FromParamString(p.bucketSize);
    var startTime := RoundToSecond(span.0);
    var endTime := RoundToSecond(span.1);
    var axis :- ApiHistory.TimeAxis(RowBuckets(rows), startTime, endTime, bucket);
    var data := LatencyMerge(axis, rows);
    assert Map(data, (q: LatencyPoint) => q.time) == axis;
    Ok(LatencyResult(data, startTime, endTime))
  }
}
