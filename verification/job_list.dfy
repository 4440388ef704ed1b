/** The background-job listing: the stored jobs inside the resolved window,
    narrowed by job class and by duration bounds taken as they are, ordered
    by duration or by time descending, one page of them. */
module JobList {
  import opened Wrappers
  import opened Seqs
  import opened Strings
  import opened TimespanHelper
  import opened TimespanRecord
  import opened ListQuery
  import BaseCommand
  import R = ApiRequestList

  /** A stored background job, as far as the listing reads it. */
  datatype BackgroundJob = BackgroundJob(time: int, dt: Option<real>, jobClass: Option<string>)

  /** The request parameters the command reads. The duration bounds are
      text, bound into the SQL unchanged. */
  datatype JobParams = JobParams(
    spanType: Option<string>, startDate: DateParam, endDate: DateParam,
    page: Option<string>, perPage: Option<string>,
    jobClass: Option<string>, minDuration: Option<string>, maxDuration: Option<string>, sort: Option<string>)

  /** Why the listing fails: the window does not resolve, or the database
      cannot read a duration bound as a number. */
  datatype JobListError = SpanError(e: Error) | NotANumber(s: string)

  /** A present bound as the database reads it; `cast` is PostgreSQL's
      text-to-numeric conversion, `None` where it rejects the text. */
  function Bound(p: Option<string>, cast: string -> Option<real>): (r: Result<Option<real>, JobListError>)
    ensures !Present(p) ==> r == Ok(None)
    ensures Present(p) && cast(p.value).Some? ==> r == Ok(cast(p.value))
    ensures r.Err? <==> Present(p) && cast(p.value).None?
  {
    if !Present(p) then Ok(None)
    else match cast(p.value)
      case Some(v) => Ok(Some(v))
      case None => Err(NotANumber(p.value))
  }

  /** The WHERE clauses, ANDed: the job class when one is given, and the
      duration bounds compared with `dt` in its own unit. */
  predicate Matches(jobClass: Option<string>, lo: Option<real>, hi: Option<real>, j: BackgroundJob) {
    && (Present(jobClass) ==> j.jobClass == jobClass)
    && WithinBounds(j.dt, lo, hi)
  }

  /** The sort dispatch: "duration" orders by `dt`, anything else by time. */
  function SortKey(sort: Option<string>): (key: BackgroundJob -> Option<real>)
    ensures sort == Some("duration") ==> forall j :: key(j) == j.dt
    ensures sort != Some("duration") ==> forall j :: key(j) == Some(j.time as real)
  {
    if sort == Some("duration") then (j: BackgroundJob) => j.dt
    else (j: BackgroundJob) => Some(j.time as real)
  }

  /** A job is selected when it lies in the window and passes the
      conditions. */
  predicate Selected(p: JobParams, lo: Option<real>, hi: Option<real>, span: (int, int), j: BackgroundJob) {
    InWindow(j.time, Some(span.0), Some(span.1)) && Matches(p.jobClass, lo, hi, j)
  }

  /** The whole ordered relation before paging, for the bounds read. */
  function Query(p: JobParams, lo: Option<real>, hi: Option<real>, span: (int, int), stored: seq<BackgroundJob>)
    : (r: seq<BackgroundJob>)
    ensures forall j :: multiset(r)[j] == (if Selected(p, lo, hi, span, j) then multiset(stored)[j] else 0)
    ensures forall i, k :: 0 <= i < k < |r| ==> DescLeq(SortKey(p.sort)(r[i]), SortKey(p.sort)(r[k]))
  {
    var window := ForTimespan(stored, (j: BackgroundJob) => j.time, Some(span.0), Some(span.1));
    OrderDesc(Filter(window, (j: BackgroundJob) => Matches(p.jobClass, lo, hi, j)), SortKey(p.sort))
  }

  /** Every listed job is a stored one inside the window that passes the
      job-class and duration conditions. */
  lemma ListedJobsQualify(p: JobParams, lo: Option<real>, hi: Option<real>, span: (int, int), stored: seq<BackgroundJob>,
                          j: BackgroundJob)
    requires j in Query(p, lo, hi, span, stored)
    ensures j in stored && span.0 <= j.time <= span.1 && Matches(p.jobClass, lo, hi, j)
  {
    assert multiset(Query(p, lo, hi, span, stored))[j] > 0;
  }

  /** The command's result: a page of jobs and the resolved window. */
  datatype JobResult = JobResult(jobs: seq<BackgroundJob>, startTime: int, endTime: int)

  /** _execute over every stored job; the listing is not narrowed to a
      project. A failed window or an unreadable bound fails the listing. */
  function Execute(p: JobParams, clock: Clock, readers: DateReaders, cast: string -> Option<real>,
                   stored: seq<BackgroundJob>): (r: Result<JobResult, JobListError>)
    ensures r.Ok? <==>
      && ConvertTimespanToTimes(p.spanType, p.startDate, p.endDate, clock, readers).Ok?
      && Bound(p.minDuration, cast).Ok? && Bound(p.maxDuration, cast).Ok?
    ensures r.Ok? ==>
      var span := ConvertTimespanToTimes(p.spanType, p.startDate, p.endDate, clock, readers).value;
      && r.value.startTime == span.0 && r.value.endTime == span.1
      && r.value.jobs == Page(Query(p, Bound(p.minDuration, cast).value, Bound(p.maxDuration, cast).value, span, stored),
                              BaseCommand.PageParam(p.page), BaseCommand.PerPageParam(p.perPage))
  {
    match ConvertTimespanToTimes(p.spanType, p.startDate, p.endDate, clock, readers)
    case Err(e) => Err(SpanError(e))
    case Ok(span) =>
      var lo :- Bound(p.minDuration, cast);
      var hi :- Bound(p.maxDuration, cast);
      Ok(JobResult(Page(Query(p, lo, hi, span, stored), BaseCommand.PageParam(p.page), BaseCommand.PerPageParam(p.perPage)),
                   span.0, span.1))
  }

  /** The same bound text means different limits in the two listings: here
      it is compared with `dt` as it stands, in the request listing after
      division by 1000. */
  lemma DurationUnitsDiffer(text: string, v: real, cast: string -> Option<real>, toF: string -> real,
                            jp: JobParams, rp: R.ListParams)
    requires Present(Some(text)) && cast(text) == Some(v) && toF(text) == v && v > 0.0
    requires jp.minDuration == Some(text) && rp.minDurationMs == Some(R.TextParam(text))
    ensures Bound(jp.minDuration, cast) == Ok(Some(v))
    ensures R.FiltersOf(rp, toF).minDt == Some(v / 1000.0)
  {
  }
}
