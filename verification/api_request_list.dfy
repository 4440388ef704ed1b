/** The API-request listing: the requests of the project inside the
    resolved window, narrowed by the optional filters, ordered by the chosen
    column descending, one page of them. */
module ApiRequestList {
  import opened Wrappers
  import opened Seqs
  import opened Strings
  import opened TimespanHelper
  import opened TimespanRecord
  import opened ListQuery
  import BaseCommand

  /** An inclusive range of response statuses. */
  datatype StatusRange = StatusRange(lo: int, hi: int)

  /** The status-class labels STATUS_MAP knows. */
  const StatusLabels: seq<string> := ["1xx", "2xx", "3xx", "4xx", "5xx"]

  /** STATUS_MAP: a label `dxx` stands for the hundred statuses d00..d99. */
  function StatusMap(lbl: string): (r: Option<StatusRange>)
    ensures r.Some? <==> lbl in StatusLabels
    ensures r.Some? ==> 100 <= r.value.lo <= 500 && r.value.lo % 100 == 0 && r.value.hi == r.value.lo + 99
    ensures r.Some? ==> r.value.lo == (lbl[0] as int - '0' as int) * 100
  {
    match lbl
    case "1xx" => Some(StatusRange(100, 199))
    case "2xx" => Some(StatusRange(200, 299))
    case "3xx" => Some(StatusRange(300, 399))
    case "4xx" => Some(StatusRange(400, 499))
    case "5xx" => Some(StatusRange(500, 599))
    case _ => None
  }

  /** The label of a status's class. */
  function ClassLabel(status: int): string
    requires 100 <= status <= 599
  {
    [(status / 100 + '0' as int) as char, 'x', 'x']
  }

  /** The five ranges partition 100..599: a status in that span lies in the
      range of its own class and in no other, and no range holds anything
      outside it. */
  lemma StatusRangesPartition(status: int, lbl: string)
    ensures 100 <= status <= 599 ==> StatusMap(ClassLabel(status)).Some? && InRange(status, StatusMap(ClassLabel(status)).value)
    ensures StatusMap(lbl).Some? && InRange(status, StatusMap(lbl).value) ==>
      100 <= status <= 599 && lbl == ClassLabel(status)
  {
  }

  /** `status` lies in the range. */
  predicate InRange(status: int, r: StatusRange) {
    r.lo <= status <= r.hi
  }

  /** statuses_to_range: each known label's range, in the given order; an
      unknown label is dropped. */
  function StatusesToRange(statuses: seq<string>): (r: seq<StatusRange>)
    ensures |r| <= |statuses|
    ensures forall i :: 0 <= i < |r| ==> exists l :: l in statuses && StatusMap(l) == Some(r[i])
    decreases |statuses|
  {
    if |statuses| == 0 then []
    else
      var init := statuses[..|statuses| - 1];
      var lbl := statuses[|statuses| - 1];
      var rest := StatusesToRange(init);
      assert forall l :: l in init ==> l in statuses;
      match StatusMap(lbl)
      case Some(range) => rest + [range]
      case None => rest
  }

  /** The mapping works label by label: it distributes over concatenation,
      so the ranges come in the labels' order, and a single label gives its
      range or nothing. */
  lemma {:induction false} StatusesToRangeDistributes(a: seq<string>, b: seq<string>)
    ensures StatusesToRange(a + b) == StatusesToRange(a) + StatusesToRange(b)
    decreases |b|
  {
    if |b| == 0 {
      assert a + b == a;
    } else {
      var b' := b[..|b| - 1];
      assert (a + b)[..|a + b| - 1] == a + b';
      assert (a + b)[|a + b| - 1] == b[|b| - 1];
      StatusesToRangeDistributes(a, b');
    }
  }

  /** A single label maps to its range, or to nothing when unknown. */
  lemma StatusesToRangeSingle(lbl: string)
    ensures StatusesToRange([lbl]) == if lbl in StatusLabels then [StatusMap(lbl).value] else []
  {
    assert [lbl][..0] == [];
  }

  /** A stored API request, as far as the listing reads it. */
  datatype ApiRequest = ApiRequest(
    time: int, path: Option<string>, verb: Option<string>, responseStatus: Option<int>,
    dt: Option<real>, queryCount: Option<int>, errorClass: Option<string>, hasTrace: bool)

  /** A duration parameter as it arrives: a JSON integer or float, or text. */
  datatype NumericParam = IntParam(i: int) | FloatParam(x: real) | TextParam(s: string)

  /** What convert_to_numeric yields. */
  datatype Number = Int(i: int) | Float(x: real)

  /** ParamHelpers.convert_to_numeric: a number is passed through as it is;
      blank text is nil; other text is its `to_f` when positive and nil
      otherwise. `toF` is String#to_f. */
  function ConvertToNumeric(p: Option<NumericParam>, toF: string -> real): (r: Option<Number>)
    ensures p.None? ==> r.None?
    ensures p.Some? && p.value.IntParam? ==> r == Some(Int(p.value.i))
    ensures p.Some? && p.value.FloatParam? ==> r == Some(Float(p.value.x))
    ensures p.Some? && p.value.TextParam? ==> (r.Some? <==> !IsBlank(p.value.s) && toF(p.value.s) > 0.0)
    ensures p.Some? && p.value.TextParam? && r.Some? ==> r == Some(Float(toF(p.value.s)))
  {
    match p
    case None => None
    case Some(IntParam(i)) => Some(Int(i))
    case Some(FloatParam(x)) => Some(Float(x))
    case Some(TextParam(s)) =>
      if IsBlank(s) then None
      else
        var v := toF(s);
        if v > 0.0 then Some(Float(v)) else None
  }

  /** `ms / 1000`: integer division, rounding down, for an Integer; exact
      division for a Float. */
  function MsToSeconds(n: Number): (s: real)
    ensures n.Float? ==> s * 1000.0 == n.x
    ensures n.Int? ==> s * 1000.0 <= n.i as real < s * 1000.0 + 1000.0
  {
    match n
    case Int(i) => (i / 1000) as real
    case Float(x) => x / 1000.0
  }

  /** The request parameters the command reads. */
  datatype ListParams = ListParams(
    spanType: Option<string>, startDate: DateParam, endDate: DateParam,
    page: Option<string>, perPage: Option<string>,
    minDurationMs: Option<NumericParam>, maxDurationMs: Option<NumericParam>,
    errorClass: Option<string>, withTrace: Option<string>, withError: Option<string>, path: Option<string>,
    verbs: Option<seq<string>>, statuses: Option<seq<string>>, sort: Option<string>)

  /** Array#present?: given and not empty. */
  predicate ListPresent<T>(l: Option<seq<T>>) {
    l.Some? && |l.value| > 0
  }

  /** The conditions in force, each `None` when its parameter is absent. */
  datatype Filters = Filters(
    errorClass: Option<string>, withTrace: bool, withError: bool, path: Option<string>,
    minDt: Option<real>, maxDt: Option<real>, verbs: Option<seq<string>>, statusRanges: Option<seq<StatusRange>>)

  /** The filters the parameters switch on. Each applies only when its
      parameter is present; the duration bounds are converted from
      milliseconds to the seconds `dt` is stored in. */
  function FiltersOf(p: ListParams, toF: string -> real): (f: Filters)
    ensures f.errorClass.Some? <==> Present(p.errorClass)
    ensures f.path.Some? <==> Present(p.path)
    ensures f.withTrace <==> Present(p.withTrace)
    ensures f.withError <==> Present(p.withError)
    ensures f.verbs.Some? <==> ListPresent(p.verbs)
    ensures f.statusRanges.Some? <==> ListPresent(p.statuses)
    ensures f.minDt.Some? <==> ConvertToNumeric(p.minDurationMs, toF).Some?
    ensures f.minDt.Some? ==> f.minDt.value == MsToSeconds(ConvertToNumeric(p.minDurationMs, toF).value)
    ensures f.maxDt.Some? <==> ConvertToNumeric(p.maxDurationMs, toF).Some?
    ensures f.maxDt.Some? ==> f.maxDt.value == MsToSeconds(ConvertToNumeric(p.maxDurationMs, toF).value)
    ensures f.statusRanges.Some? ==> f.statusRanges.value == StatusesToRange(p.statuses.value)
    ensures f.errorClass.Some? ==> f.errorClass == p.errorClass
    ensures f.path.Some? ==> f.path == p.path
    ensures f.verbs.Some? ==> f.verbs == p.verbs
  {
    var minMs := ConvertToNumeric(p.minDurationMs, toF);
    var maxMs := ConvertToNumeric(p.maxDurationMs, toF);
    Filters(
      if Present(p.errorClass) then p.errorClass else None,
      Present(p.withTrace),
      Present(p.withError),
      if Present(p.path) then p.path else None,
      if minMs.Some? then Some(MsToSeconds(minMs.value)) else None,
      if maxMs.Some? then Some(MsToSeconds(maxMs.value)) else None,
      if ListPresent(p.verbs) then p.verbs else None,
      if ListPresent(p.statuses) then Some(StatusesToRange(p.statuses.value)) else None)
  }

  /** The WHERE clauses, ANDed: equality on error class, path and verb list
      membership, a non-NULL trace or error class, the duration bounds, and a
      status inside one of the ranges. A NULL column fails every comparison. */
  predicate Matches(f: Filters, r: ApiRequest) {
    && (f.errorClass.Some? ==> r.errorClass == f.errorClass)
    && (f.withTrace ==> r.hasTrace)
    && (f.withError ==> r.errorClass.Some?)
    && (f.path.Some? ==> r.path == f.path)
    && WithinBounds(r.dt, f.minDt, f.maxDt)
    && (f.verbs.Some? ==> r.verb.Some? && r.verb.value in f.verbs.value)
    && (f.statusRanges.Some? ==>
          && r.responseStatus.Some?
          && exists k :: 0 <= k < |f.statusRanges.value| && InRange(r.responseStatus.value, f.statusRanges.value[k]))
  }

  /** With no filter parameter given every request in the window is kept. */
  lemma AbsentParamsKeepAll(p: ListParams, toF: string -> real, r: ApiRequest)
    requires p.errorClass.None? && p.withTrace.None? && p.withError.None? && p.path.None?
    requires p.minDurationMs.None? && p.maxDurationMs.None? && p.verbs.None? && p.statuses.None?
    ensures Matches(FiltersOf(p, toF), r)
  {
  }

  /** with_error keeps exactly the requests that recorded an error class. */
  lemma WithErrorKeepsErrors(p: ListParams, toF: string -> real, r: ApiRequest)
    requires Present(p.withError)
    ensures Matches(FiltersOf(p, toF), r) ==> r.errorClass.Some?
  {
  }

  /** A status filter keeps a request exactly when its status is in the
      class of one of the known labels; with only unknown labels it keeps
      nothing. */
  lemma StatusFilterByClass(p: ListParams, toF: string -> real, r: ApiRequest)
    requires ListPresent(p.statuses)
    ensures Matches(FiltersOf(p, toF), r) ==>
      r.responseStatus.Some? && 100 <= r.responseStatus.value <= 599 && ClassLabel(r.responseStatus.value) in p.statuses.value
    ensures (forall l :: l in p.statuses.value ==> l !in StatusLabels) ==> !Matches(FiltersOf(p, toF), r)
  {
    var f := FiltersOf(p, toF);
    var ranges := StatusesToRange(p.statuses.value);
    if Matches(f, r) {
      var k :| 0 <= k < |ranges| && InRange(r.responseStatus.value, ranges[k]);
      var l :| l in p.statuses.value && StatusMap(l) == Some(ranges[k]);
      StatusRangesPartition(r.responseStatus.value, l);
    }
  }

  /** A minimum of 1500 ms sent as text compares `dt` with 1.5 seconds; sent
      as a JSON integer it compares with 1 second, since Integer division
      rounds down. */
  lemma MinDurationUnits(p: ListParams, toF: string -> real)
    requires p.minDurationMs == Some(TextParam("1500")) && toF("1500") == 1500.0
    ensures FiltersOf(p, toF).minDt == Some(1.5)
    ensures FiltersOf(p.(minDurationMs := Some(IntParam(1500))), toF).minDt == Some(1.0)
  {
    assert !IsBlankSpace("1500"[0]);
  }

  /** The sort columns. */
  datatype SortColumn = ByDuration | ByQueryCount | ByTime

  /** The sort dispatch: "duration" and "query_count" choose those columns;
      anything else, including no sort, is by time. */
  function SortColumnOf(sort: Option<string>): (c: SortColumn)
    ensures c == ByDuration <==> sort == Some("duration")
    ensures c == ByQueryCount <==> sort == Some("query_count")
  {
    match sort
    case Some("duration") => ByDuration
    case Some("query_count") => ByQueryCount
    case _ => ByTime
  }

  /** The value a request is ordered by under a sort column. */
  function SortKey(c: SortColumn): ApiRequest -> Option<real> {
    match c
    case ByDuration => (r: ApiRequest) => r.dt
    case ByQueryCount => (r: ApiRequest) => if r.queryCount.Some? then Some(r.queryCount.value as real) else None
    case ByTime => (r: ApiRequest) => Some(r.time as real)
  }

  /** A request is selected when it lies in the window and passes the
      filters. */
  predicate Selected(p: ListParams, span: (int, int), toF: string -> real, x: ApiRequest) {
    InWindow(x.time, Some(span.0), Some(span.1)) && Matches(FiltersOf(p, toF), x)
  }

  /** The whole ordered relation before paging. */
  function Query(p: ListParams, span: (int, int), toF: string -> real, stored: seq<ApiRequest>): (r: seq<ApiRequest>)
    ensures forall x :: multiset(r)[x] == (if Selected(p, span, toF, x) then multiset(stored)[x] else 0)
    ensures forall i, j :: 0 <= i < j < |r| ==> DescLeq(SortKey(SortColumnOf(p.sort))(r[i]), SortKey(SortColumnOf(p.sort))(r[j]))
  {
    var f := FiltersOf(p, toF);
    var window := ForTimespan(stored, (x: ApiRequest) => x.time, Some(span.0), Some(span.1));
    OrderDesc(Filter(window, (x: ApiRequest) => Matches(f, x)), SortKey(SortColumnOf(p.sort)))
  }

  /** The command's result: a page of requests and the resolved window. */
  datatype ListResult = ListResult(requests: seq<ApiRequest>, startTime: int, endTime: int)

  /** _execute: resolve the window, then one page of the ordered relation. */
  function Execute(p: ListParams, clock: Clock, readers: DateReaders, toF: string -> real,
                   stored: seq<ApiRequest>): (r: Result<ListResult, Error>)
    ensures r.Ok? <==> ConvertTimespanToTimes(p.spanType, p.startDate, p.endDate, clock, readers).Ok?
    ensures r.Ok? ==>
      var span := ConvertTimespanToTimes(p.spanType, p.startDate, p.endDate, clock, readers).value;
      && r.value.startTime == span.0 && r.value.endTime == span.1
      && |r.value.requests| <= BaseCommand.PerPageParam(p.perPage)
      && r.value.requests == Page(Query(p, span, toF, stored), BaseCommand.PageParam(p.page), BaseCommand.PerPageParam(p.perPage))
  {
    var span :- ConvertTimespanToTimes(p.spanType, p.startDate, p.endDate, clock, readers);
    Ok(ListResult(Page(Query(p, span, toF, stored), BaseCommand.PageParam(p.page), BaseCommand.PerPageParam(p.perPage)),
                  span.0, span.1))
  }

  /** Every listed request is a stored one inside the window that passes
      every filter in force. */
  lemma ListedRequestsQualify(p: ListParams, span: (int, int), toF: string -> real, stored: seq<ApiRequest>, x: ApiRequest)
    requires x in Query(p, span, toF, stored)
    ensures x in stored && span.0 <= x.time <= span.1 && Matches(FiltersOf(p, toF), x)
  {
    var r := Query(p, span, toF, stored);
    assert multiset(r)[x] > 0;
  }
}
