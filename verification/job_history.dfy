/** The background-job history: per-bucket counts of finished jobs and of
    job errors, merged over the union of the buckets either query returned.
    Unlike the request histories the keys are not sorted and there is no
    fallback grid. */
module JobHistory {
  import opened Wrappers
  import opened Seqs
  import opened TimespanHelper
  import opened ApiHistory

  /** The bucket keys of an index_by: each bucket once, at its first row. */
  function Keys(rows: seq<CountRow>): (ks: seq<int>)
    ensures NoDuplicates(ks)
    ensures forall t :: t in ks <==> t in CountRowBuckets(rows)
  {
    Dedup(CountRowBuckets(rows))
  }

  /** `success_counts.keys | error_counts.keys`, each mapped to both counts. */
  function JobMerge(success: seq<CountRow>, errors: seq<CountRow>): (r: seq<ErrorPoint>)
    ensures NoDuplicates(Map(r, (q: ErrorPoint) => q.time))
    ensures forall t :: t in Map(r, (q: ErrorPoint) => q.time) <==>
      t in CountRowBuckets(success) || t in CountRowBuckets(errors)
  {
    var keys := Union(Keys(success), Keys(errors));
    var r := Map(keys, (t: int) => ErrorPoint(t, BucketCount(success, t), BucketCount(errors, t)));
    assert Map(r, (q: ErrorPoint) => q.time) == keys;
    r
  }

  /** The order is the success buckets' first-occurrence order, followed by
      the error-only buckets in the error rows' first-occurrence order; no
      sort is applied. */
  lemma JobMergeOrder(success: seq<CountRow>, errors: seq<CountRow>)
    ensures Map(JobMerge(success, errors), (q: ErrorPoint) => q.time) ==
      Keys(success) + NewIn(Keys(success), Keys(errors))
  {
    var keys := Union(Keys(success), Keys(errors));
    DedupIdempotent(Keys(success));
    UnionSplits(Keys(success), Keys(errors));
    assert Map(JobMerge(success, errors), (q: ErrorPoint) => q.time) == keys;
  }

  /** Deduplicating twice is deduplicating once. */
  lemma {:induction false} DedupIdempotent(s: seq<int>)
    requires NoDuplicates(s)
    ensures Dedup(s) == s
    decreases |s|
  {
    if |s| > 0 {
      var s' := s[..|s| - 1];
      DedupIdempotent(s');
      assert s[|s| - 1] !in s';
    }
  }

  /** Each side reports its own count at a bucket it returned and 0 at a
      bucket only the other side returned. */
  lemma JobMergeCounts(success: seq<CountRow>, errors: seq<CountRow>, i: nat)
    requires UniqueBuckets(success) && UniqueBuckets(errors)
    requires i < |JobMerge(success, errors)|
    ensures var q := JobMerge(success, errors)[i];
      (forall k :: 0 <= k < |success| && success[k].bucket == q.time ==> q.success == success[k].cnt.GetOr(0)) &&
      (forall k :: 0 <= k < |errors| && errors[k].bucket == q.time ==> q.error == errors[k].cnt.GetOr(0)) &&
      (q.time !in CountRowBuckets(success) ==> q.success == 0) &&
      (q.time !in CountRowBuckets(errors) ==> q.error == 0)
  {
    var keys := Union(Keys(success), Keys(errors));
    assert JobMerge(success, errors) == TwoSeriesMerge(keys, success, errors);
    TwoSeriesMergeCounts(keys, success, errors, i);
  }

  /** With no row from either query the series is empty: there is no
      fallback grid. */
  lemma NoFallback()
    ensures JobMerge([], []) == []
  {
  }

  datatype JobHistoryParams = JobHistoryParams(spanType: Option<string>, startDate: DateParam, endDate: DateParam,
                                               bucketSize: Option<string>)

  datatype JobHistoryResult = JobHistoryResult(data: seq<ErrorPoint>, startTime: int, endTime: int)

  /** _execute: the two store answers are the bucketed job and job-error
      counts inside the rounded window. The bucket is only interpolated into
      the query, so a zero-size one is no error here. */
  function Execute(p: JobHistoryParams, clock: Clock, readers: DateReaders,
                   success: seq<CountRow>, errors: seq<CountRow>): (r: Result<JobHistoryResult, Error>)
    ensures r.Ok? <==> ConvertTimespanToTimes(p.spanType, p.startDate, p.endDate, clock, readers).Ok? &&
                       FromParamString(p.bucketSize).Ok?
    ensures r.Ok? ==>
      var span := ConvertTimespanToTimes(p.spanType, p.startDate, p.endDate, clock, readers).value;
      r.value.startTime * 1000 - 500 <= span.0 < r.value.startTime * 1000 + 500 &&
      r.value.endTime * 1000 - 500 <= span.1 < r.value.endTime * 1000 + 500
    ensures r.Ok? ==> r.value.data == JobMerge(success, errors)
  {
    var span :- ConvertTimespanToTimes(p.spanType, p.startDate, p.endDate, clock, readers);
    var bucket :- FromParamString(p.bucketSize);
    Ok(JobHistoryResult(JobMerge(success, errors), RoundToSecond(span.0), RoundToSecond(span.1)))
  }
}
