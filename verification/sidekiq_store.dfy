/** The client-side Sidekiq store's cursors: the background-jobs page
    clamped by the server's max_page, the Sidekiq jobs page bounded by the
    record count, the resets that switch job lists, and the live-polling
    flag with its timer. Requests and timers are effects the model reports
    rather than performs. */
module SidekiqStore {
  import opened Wrappers
  import opened Arith

  /** incrementPage: one page on, clamped from above by max_page only. */
  function IncrementPage(page: int, maxPage: int): (r: int)
    ensures r <= maxPage && r <= page + 1
    ensures r == page + 1 || r == maxPage
  {
    var p := page + 1;
    if p > maxPage then maxPage else p
  }

  /** decrementPage: one page back, clamped from below by 1 only. */
  function DecrementPage(page: int): (r: int)
    ensures r >= 1 && r >= page - 1
    ensures r == page - 1 || r == 1
  {
    var p := page - 1;
    if p <= 0 then 1 else p
  }

  /** Both moves keep a page that is within [1, max_page] within it. */
  lemma PageMovesStayInRange(page: int, maxPage: int)
    requires 1 <= page <= maxPage
    ensures 1 <= IncrementPage(page, maxPage) <= maxPage
    ensures 1 <= DecrementPage(page) <= maxPage
  {
  }

  /** Inside the range the two moves undo each other. */
  lemma PageMovesInverse(page: int, maxPage: int)
    ensures 1 <= page < maxPage ==> DecrementPage(IncrementPage(page, maxPage)) == page
    ensures 1 < page <= maxPage ==> IncrementPage(DecrementPage(page), maxPage) == page
  {
  }

  /** With no pages at all, incrementing lands on page 0: nothing clamps
      from below. */
  lemma IncrementWithoutPages(page: int)
    requires page >= 0
    ensures IncrementPage(page, 0) == 0
  {
  }

  /** A store update that may throw part-way: the state it leaves behind,
      and the error when it threw. */
  datatype Outcome = Outcome(page: int, thrown: Option<string>)

  /** The background-jobs cursor's incrementPage. The page is advanced
      before the pagination is read, so before any response arrived the
      call throws with the page already one further on. */
  function IncrementBackgroundJobsPage(page: int, maxPage: Option<int>): (r: Outcome)
    ensures r.thrown.Some? <==> maxPage.None?
    ensures maxPage.None? ==> r.page == page + 1
    ensures maxPage.Some? ==> r.page == IncrementPage(page, maxPage.value)
  {
    var advanced := page + 1;
    match maxPage
    case None => Outcome(advanced, Some("TypeError: Cannot read properties of null (reading 'max_page')"))
    case Some(m) => Outcome(if advanced > m then m else advanced, None)
  }

  /** Every call moves the page on by at most one, whether or not it throws,
      and only a call that did not throw can hold it back. */
  lemma IncrementBackgroundJobsPageMoves(page: int, maxPage: Option<int>)
    ensures IncrementBackgroundJobsPage(page, maxPage).page <= page + 1
    ensures IncrementBackgroundJobsPage(page, maxPage).page != page + 1 ==>
      IncrementBackgroundJobsPage(page, maxPage).thrown.None? && maxPage.value < page + 1
  {
  }

  /** Math.ceil(a / b) on exact quotients of naturals. */
  function CeilDiv(a: nat, b: nat): (r: nat)
    requires b > 0
    ensures r * b >= a
    ensures r == 0 || (r - 1) * b < a
  {
    var r := (a + b - 1) / b;
    assert (a + b - 1) == r * b + (a + b - 1) % b;
    r
  }

  /** `page < Math.ceil(recordCount / perPage)`. A zero page size divides
      to Infinity when there are records, so the test passes, and to NaN
      when there are none, so it fails. */
  predicate CanAdvance(page: int, recordCount: nat, perPage: nat) {
    if perPage == 0 then recordCount > 0 else page < CeilDiv(recordCount, perPage)
  }

  /** A next page exists exactly when the records run past the current
      page. */
  lemma CanAdvanceIff(page: int, recordCount: nat, perPage: nat)
    requires perPage > 0 && page >= 0
    ensures CanAdvance(page, recordCount, perPage) <==> page * perPage < recordCount
  {
    var r := CeilDiv(recordCount, perPage);
    if page < r {
      MulMonotone(page, r - 1, perPage);
    } else {
      MulMonotone(r, page, perPage);
    }
  }

  /** sidekiqJobsQueryParams. */
  datatype JobsQuery = JobsQuery(jobType: string, page: int)

  /** The pagination of the last jobs response. */
  datatype JobsPagination = JobsPagination(currPage: int, recordCount: nat, perPage: nat)

  /** A cursor move: the new query and whether it fetches. */
  datatype Move = Move(query: JobsQuery, fetches: bool)

  /** incrementJobsPage: one page on, and a fetch, only while pages remain. */
  function IncrementJobsPage(q: JobsQuery, p: JobsPagination): (r: Move)
    ensures r.fetches <==> CanAdvance(q.page, p.recordCount, p.perPage)
    ensures r.query.jobType == q.jobType
    ensures r.query.page == if r.fetches then q.page + 1 else q.page
  {
    if CanAdvance(q.page, p.recordCount, p.perPage) then Move(q.(page := q.page + 1), true)
    else Move(q, false)
  }

  /** decrementJobsPage: one page back, and a fetch, only above page 1. */
  function DecrementJobsPage(q: JobsQuery): (r: Move)
    ensures r.fetches <==> q.page > 1
    ensures r.query.jobType == q.jobType
    ensures r.query.page == if r.fetches then q.page - 1 else q.page
  {
    if q.page > 1 then Move(q.(page := q.page - 1), true) else Move(q, false)
  }

  /** The jobs cursor never moves onto a page that starts past the last
      record, and never below page 1. */
  lemma JobsPageStaysOnRecords(q: JobsQuery, p: JobsPagination)
    requires p.perPage > 0 && q.page >= 1
    ensures IncrementJobsPage(q, p).fetches ==> (IncrementJobsPage(q, p).query.page - 1) * p.perPage < p.recordCount
    ensures DecrementJobsPage(q).query.page >= 1
  {
    CanAdvanceIff(q.page, p.recordCount, p.perPage);
  }

  /** A forward move followed by a backward one returns to the same page. */
  lemma JobsPageMovesInverse(q: JobsQuery, p: JobsPagination)
    requires q.page >= 1 && IncrementJobsPage(q, p).fetches
    ensures DecrementJobsPage(IncrementJobsPage(q, p).query).query == q
  {
  }

  /** The job lists a fetch can switch to. */
  datatype JobList = Retries | Scheduled | Dead | QueueJobs

  /** The jobType string each fetch sets. */
  function JobTypeName(l: JobList): string {
    match l
    case Retries => "retry"
    case Scheduled => "scheduled"
    case Dead => "dead"
    case QueueJobs => "queue"
  }

  /** fetchRetries, fetchScheduled, fetchDead and fetchJobsForQueue: switch
      the list, back to its first page, and fetch. */
  function FetchJobList(q: JobsQuery, l: JobList): (r: Move)
    ensures r.fetches && r.query.page == 1
    ensures r.query.jobType == JobTypeName(l)
  {
    Move(JobsQuery(JobTypeName(l), 1), true)
  }

  /** Switching lists forgets the old page and list entirely, and the four
      fetches address four different lists. */
  lemma FetchResets(q1: JobsQuery, q2: JobsQuery, l: JobList, l2: JobList)
    ensures FetchJobList(q1, l) == FetchJobList(q2, l)
    ensures l != l2 ==> FetchJobList(q1, l).query.jobType != FetchJobList(q1, l2).query.jobType
  {
  }

  /** A jobs response replaces the page with the server's current page. */
  function ReceiveJobs(q: JobsQuery, p: JobsPagination): (r: JobsQuery)
    ensures r.jobType == q.jobType && r.page == p.currPage
  {
    q.(page := p.currPage)
  }

  /** A timer handle; setTimeout returns a positive integer. */
  type Handle = h: int | h > 0 witness 1

  /** The live-polling part of historyData. */
  datatype Polling = Polling(livePolling: bool, timeout: Option<Handle>)

  /** What setLivePolling does to the timers. */
  datatype TimerEffect = NoTimerChange | ClearedTimer(h: Handle) | ScheduledTimer(h: Handle)

  /** setLivePolling: polling is on exactly when asked for and the span
      includes now. Turning it off clears a pending timer; turning it on
      schedules one (with the handle `newHandle`) unless one is pending. */
  function SetLivePolling(st: Polling, live: bool, includesNow: bool, newHandle: Handle): (r: (Polling, TimerEffect))
    ensures r.0.livePolling == (live && includesNow)
    ensures !r.0.livePolling ==> r.0.timeout.None?
    ensures r.0.livePolling ==> r.0.timeout.Some?
    ensures r.0.livePolling && st.timeout.Some? ==> r.0.timeout == st.timeout && r.1 == NoTimerChange
    ensures r.1.ScheduledTimer? <==> r.0.livePolling && st.timeout.None?
    ensures r.1.ClearedTimer? <==> !r.0.livePolling && st.timeout.Some?
    ensures r.1.ScheduledTimer? ==> r.0.timeout == Some(newHandle) && r.1.h == newHandle
    ensures r.1.ClearedTimer? ==> r.1.h == st.timeout.value
  {
    if !includesNow || !live then
      match st.timeout
      case Some(h) => (Polling(false, None), ClearedTimer(h))
      case None => (Polling(false, None), NoTimerChange)
    else
      match st.timeout
      case None => (Polling(true, Some(newHandle)), ScheduledTimer(newHandle))
      case Some(_) => (Polling(true, st.timeout), NoTimerChange)
  }

  /** Asking twice is asking once: the second call changes nothing and
      starts no second timer. */
  lemma SetLivePollingIdempotent(st: Polling, live: bool, includesNow: bool, newHandle: Handle, newHandle2: Handle)
    ensures var once := SetLivePolling(st, live, includesNow, newHandle).0;
      SetLivePolling(once, live, includesNow, newHandle2) == (once, NoTimerChange)
  {
  }

  /** The store's autorun: when the span stops including now, polling is
      switched off whatever was asked for. */
  function OnSpanChange(st: Polling, includesNow: bool, newHandle: Handle): (r: (Polling, TimerEffect))
    ensures !includesNow ==> r == SetLivePolling(st, false, includesNow, newHandle)
    ensures includesNow ==> r == (st, NoTimerChange)
  {
    if !includesNow then SetLivePolling(st, false, includesNow, newHandle) else (st, NoTimerChange)
  }

  /** A span that excludes now leaves no polling and no timer. */
  lemma PastSpanStopsPolling(st: Polling, live: bool, newHandle: Handle)
    ensures SetLivePolling(st, live, false, newHandle).0 == Polling(false, None)
    ensures OnSpanChange(st, false, newHandle).0 == Polling(false, None)
  {
  }
}
