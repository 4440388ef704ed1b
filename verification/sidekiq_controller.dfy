/** The request logic of the Sidekiq API controller: which job set a job
    type names, which actions may be applied to a job or to a whole set,
    how a job key is split, which queue names are accepted, and the
    pagination record of a listing. Redis and the job sets themselves are
    not modelled: whether a key finds a job is a parameter. */
module SidekiqController {
  import opened Wrappers
  import opened Strings

  /** PER_PAGE. */
  const PerPage: nat := 20

  /** The job sets a request can address, by their symbols. */
  datatype JobType = Scheduled | Retry | Dead

  /** The symbol job_set_from_params pairs with each set. */
  function SymbolName(t: JobType): string {
    match t
    case Scheduled => "scheduled"
    case Retry => "retry"
    case Dead => "dead"
  }

  /** The sorted-set name index_by_type pages through for each set. */
  function SetName(t: JobType): string {
    match t
    case Scheduled => "schedule"
    case Retry => "retry"
    case Dead => "dead"
  }

  /** The alternative spelling accepted for each set. */
  function AltName(t: JobType): string {
    match t
    case Scheduled => "schedule"
    case Retry => "retries"
    case Dead => "morgue"
  }

  /** job_set_from_params: the set a `job_type` param names, if any. */
  function JobTypeOf(p: Option<string>): (r: Option<JobType>)
    ensures r == Some(Scheduled) <==> p == Some("scheduled") || p == Some("schedule")
    ensures r == Some(Retry) <==> p == Some("retries") || p == Some("retry")
    ensures r == Some(Dead) <==> p == Some("dead") || p == Some("morgue")
  {
    match p
    case None => None
    case Some(s) =>
      if s == "scheduled" || s == "schedule" then Some(Scheduled)
      else if s == "retries" || s == "retry" then Some(Retry)
      else if s == "dead" || s == "morgue" then Some(Dead)
      else None
  }

  /** Every set is reachable by its symbol, its set name and its
      alternative spelling, and by no other string. */
  lemma AliasesName(t: JobType, s: string)
    ensures JobTypeOf(Some(s)) == Some(t) <==> s == SymbolName(t) || s == SetName(t) || s == AltName(t)
  {
  }

  /** What index_by_type lists: a page of a sorted set, a page of a queue,
      or nothing (404). The page param is handed to the paginator. */
  datatype Listing =
    | SortedJobs(setName: string, page: Option<string>)
    | QueuedJobs(queueName: Option<string>, page: Option<string>)
    | ListingNotFound

  /** index_by_type. */
  function IndexByType(jobType: Option<string>, queueName: Option<string>, page: Option<string>): (r: Listing)
    ensures r.SortedJobs? <==> JobTypeOf(jobType).Some?
    ensures r.SortedJobs? ==> r == SortedJobs(SetName(JobTypeOf(jobType).value), page)
    ensures r.QueuedJobs? <==> jobType == Some("queued") || jobType == Some("queue")
    ensures r.QueuedJobs? ==> r == QueuedJobs(queueName, page)
  {
    match jobType
    case None => ListingNotFound
    case Some(s) =>
      if s == "scheduled" || s == "schedule" then SortedJobs("schedule", page)
      else if s == "retries" || s == "retry" then SortedJobs("retry", page)
      else if s == "dead" || s == "morgue" then SortedJobs("dead", page)
      else if s == "queued" || s == "queue" then QueuedJobs(queueName, page)
      else ListingNotFound
  }

  /** UPDATE_MAP: the actions one job of a set accepts. */
  function UpdateActions(t: JobType): set<string> {
    match t
    case Scheduled => {"delete", "add_to_queue"}
    case Retry => {"delete", "retry", "kill"}
    case Dead => {"delete", "retry"}
  }

  /** UPDATE_ALL_MAP: the actions a whole set accepts; the scheduled set
      has no entry. */
  function UpdateAllActions(t: JobType): Option<set<string>> {
    match t
    case Scheduled => None
    case Retry => Some({"clear", "retry_all", "kill_all"})
    case Dead => Some({"clear", "retry_all"})
  }

  /** `params[:key].split('-', 2)`: the text before the first "-" and
      everything after it; a key without "-" is all `at` and no `jid`, and
      the empty key splits into nothing. */
  function SplitKey(key: string): (r: (Option<string>, Option<string>))
    ensures key == "" ==> r == (None, None)
    ensures key != "" && '-' !in key ==> r == (Some(key), None)
    ensures '-' in key ==> r.0.Some? && r.1.Some? && '-' !in r.0.value && r.0.value + "-" + r.1.value == key
  {
    if key == "" then (None, None)
    else if '-' !in key then (Some(key), None)
    else
      var i := IndexOf(key, '-');
      assert key == key[..i] + "-" + key[i + 1..];
      (Some(key[..i]), Some(key[i + 1..]))
  }

  /** A key built from a dash-free score and any jid splits back into the
      two, however many dashes the jid holds. */
  lemma SplitKeyJoin(at: string, jid: string)
    requires '-' !in at
    ensures SplitKey(at + "-" + jid) == (Some(at), Some(jid))
  {
    IndexOfAfterPrefix(at, '-', jid);
    assert (at + "-" + jid)[..|at|] == at;
    assert (at + "-" + jid)[|at| + 1..] == jid;
  }

  /** Whether a job set finds a job under a split key: the Redis lookup,
      outside the model. */
  type Lookup = (JobType, Option<string>, Option<string>) -> bool

  /** The outcome of a request on jobs. */
  datatype Reply =
    | NotFound
    | ShowJob(jobSet: JobType, at: Option<string>, jid: Option<string>)
    | Performed(action: string)
    | Raised(message: string)

  /** show: the job under the key in the named set, or 404. */
  function Show(jobType: Option<string>, key: string, found: Lookup): (r: Reply)
    ensures r.ShowJob? <==> JobTypeOf(jobType).Some? && found(JobTypeOf(jobType).value, SplitKey(key).0, SplitKey(key).1)
    ensures !r.ShowJob? ==> r == NotFound
  {
    match JobTypeOf(jobType)
    case None => NotFound
    case Some(t) =>
      var (at, jid) := SplitKey(key);
      if found(t, at, jid) then ShowJob(t, at, jid) else NotFound
  }

  /** update: applies the named action to the job under the key when the
      set accepts it; every other request is a 404. */
  function Update(jobType: Option<string>, key: string, jobAction: Option<string>, found: Lookup): (r: Reply)
    ensures r.Performed? <==>
      && JobTypeOf(jobType).Some?
      && found(JobTypeOf(jobType).value, SplitKey(key).0, SplitKey(key).1)
      && jobAction.Some? && jobAction.value in UpdateActions(JobTypeOf(jobType).value)
    ensures r.Performed? ==> r.action == jobAction.value
    ensures !r.Performed? ==> r == NotFound
  {
    match JobTypeOf(jobType)
    case None => NotFound
    case Some(t) =>
      var (at, jid) := SplitKey(key);
      if !found(t, at, jid) then NotFound
      else if jobAction.Some? && jobAction.value in UpdateActions(t) then Performed(jobAction.value)
      else NotFound
  }

  /** update_all: applies the named action to a whole set when the set
      accepts it. The scheduled set has no entry, and asking it raises. */
  function UpdateAll(jobType: Option<string>, jobAction: Option<string>): (r: Reply)
    ensures JobTypeOf(jobType) == Some(Scheduled) ==> r.Raised?
    ensures r.Performed? <==>
      && JobTypeOf(jobType).Some?
      && UpdateAllActions(JobTypeOf(jobType).value).Some?
      && jobAction.Some? && jobAction.value in UpdateAllActions(JobTypeOf(jobType).value).value
    ensures r.Performed? ==> r.action == jobAction.value
    ensures !r.Performed? && !r.Raised? ==> r == NotFound
  {
    match JobTypeOf(jobType)
    case None => NotFound
    case Some(t) =>
      match UpdateAllActions(t)
      case None => Raised("undefined method 'include?' for nil")
      case Some(actions) =>
        if jobAction.Some? && jobAction.value in actions then Performed(jobAction.value) else NotFound
  }

  /** The (set, action) pairs a single job accepts, listed. */
  const SingleJobActions: set<(JobType, string)> := {
    (Scheduled, "delete"), (Scheduled, "add_to_queue"),
    (Retry, "delete"), (Retry, "retry"), (Retry, "kill"),
    (Dead, "delete"), (Dead, "retry")
  }

  /** The (set, action) pairs a whole set accepts, listed. */
  const WholeSetActions: set<(JobType, string)> := {
    (Retry, "clear"), (Retry, "retry_all"), (Retry, "kill_all"),
    (Dead, "clear"), (Dead, "retry_all")
  }

  /** A found job is acted on exactly for the listed pairs. */
  lemma UpdateWhitelist(t: JobType, key: string, action: string, found: Lookup)
    requires found(t, SplitKey(key).0, SplitKey(key).1)
    ensures Update(Some(SymbolName(t)), key, Some(action), found) == Performed(action) <==> (t, action) in SingleJobActions
    ensures Update(Some(SymbolName(t)), key, Some(action), found) != Performed(action) ==>
      Update(Some(SymbolName(t)), key, Some(action), found) == NotFound
  {
    assert JobTypeOf(Some(SymbolName(t))) == Some(t);
  }

  /** A set is acted on as a whole exactly for the listed pairs, and the
      scheduled set raises whatever the action. */
  lemma UpdateAllWhitelist(t: JobType, action: string)
    ensures UpdateAll(Some(SymbolName(t)), Some(action)) == Performed(action) <==> (t, action) in WholeSetActions
    ensures t == Scheduled <==> UpdateAll(Some(SymbolName(t)), Some(action)).Raised?
  {
    assert JobTypeOf(Some(SymbolName(t))) == Some(t);
  }

  /** A character of the class `[a-z_:.\-0-9]` under the `i` flag. */
  predicate QueueNameChar(c: char) {
    ('a' <= c <= 'z') || ('A' <= c <= 'Z') || ('0' <= c <= '9') || c == '_' || c == ':' || c == '.' || c == '-'
  }

  /** `queue_name =~ /\A[a-z_:.\-0-9]+\z/i`, matched one character at a
      time as the regex engine does. */
  function MatchesQueuePattern(s: string): (b: bool)
    decreases |s|
  {
    |s| > 0 && QueueNameChar(s[0]) && (|s| == 1 || MatchesQueuePattern(s[1..]))
  }

  /** The guard of show_queue and clear_queue lets a name through. */
  predicate ValidQueueName(p: Option<string>) {
    p.Some? && MatchesQueuePattern(p.value)
  }

  /** The pattern accepts exactly the non-empty names built from its
      character class. */
  lemma {:induction false} QueuePatternChars(s: string)
    ensures MatchesQueuePattern(s) <==> |s| > 0 && forall i :: 0 <= i < |s| ==> QueueNameChar(s[i])
    decreases |s|
  {
    if |s| > 1 {
      QueuePatternChars(s[1..]);
      assert forall i :: 1 <= i < |s| ==> s[i] == s[1..][i - 1];
    }
  }

  /** Sidekiq's default queue name passes. */
  lemma DefaultQueueNameValid()
    ensures ValidQueueName(Some("default"))
  {
    QueuePatternChars("default");
  }

  /** Letters of either case, digits and the punctuation of the class pass. */
  lemma ValidQueueNameExamples()
    ensures ValidQueueName(Some("Hi_2:v.b-"))
  {
    QueuePatternChars("Hi_2:v.b-");
  }

  /** A name with a space or a slash, the empty name and no name fail. */
  lemma InvalidQueueNameExamples()
    ensures !ValidQueueName(Some("a b"))
    ensures !ValidQueueName(Some("a/b"))
    ensures !ValidQueueName(Some(""))
    ensures !ValidQueueName(None)
  {
    QueuePatternChars("a b");
    assert !QueueNameChar("a b"[1]);
    QueuePatternChars("a/b");
    assert !QueueNameChar("a/b"[1]);
  }

  /** What a queue request renders: 404, the queue, or the error Rails
      raises when an action renders twice. */
  datatype QueueReply = QueueNotFound | QueueRendered(name: Option<string>) | DoubleRender

  /** clear_queue as written: the 404 for a bad name is rendered but the
      action goes on, so the queue is cleared and the second render raises.
      The result is the list of queues cleared and the reply. */
  function ClearQueueAsWritten(p: Option<string>): (r: (seq<Option<string>>, QueueReply))
    ensures r.0 == [p]
    ensures r.1 == DoubleRender <==> !ValidQueueName(p)
  {
    if !ValidQueueName(p) then ([p], DoubleRender) else ([p], QueueRendered(p))
  }

  /** clear_queue as evidently intended: a bad name stops at the 404. */
  function ClearQueue(p: Option<string>): (r: (seq<Option<string>>, QueueReply))
    ensures |r.0| > 0 <==> ValidQueueName(p)
    ensures r.1 == QueueNotFound <==> !ValidQueueName(p)
    ensures r.1 != DoubleRender
  {
    if !ValidQueueName(p) then ([], QueueNotFound) else ([p], QueueRendered(p))
  }

  /** The discrepancy on "a b": as written the queue is cleared and the
      request raises; as intended nothing is cleared and the reply is 404. */
  lemma ClearQueueInvalidName()
    ensures ClearQueueAsWritten(Some("a b")) == ([Some("a b")], DoubleRender)
    ensures ClearQueue(Some("a b")) == ([], QueueNotFound)
  {
    InvalidQueueNameExamples();
  }

  /** On valid names the two readings agree. */
  lemma ClearQueueAgreesOnValidNames(p: Option<string>)
    requires ValidQueueName(p)
    ensures ClearQueueAsWritten(p) == ClearQueue(p)
  {
  }

  /** show_queue as written: the 404 is followed by a second render. */
  function ShowQueueAsWritten(p: Option<string>): (r: QueueReply)
    ensures r == DoubleRender <==> !ValidQueueName(p)
    ensures r != QueueNotFound
  {
    if !ValidQueueName(p) then DoubleRender else QueueRendered(p)
  }

  /** show_queue as evidently intended. */
  function ShowQueue(p: Option<string>): (r: QueueReply)
    ensures r == QueueNotFound <==> !ValidQueueName(p)
    ensures r != DoubleRender
  {
    if !ValidQueueName(p) then QueueNotFound else QueueRendered(p)
  }

  /** The discrepancy on "a b", and agreement on every valid name. */
  lemma ShowQueueInvalidName(p: Option<string>)
    ensures ShowQueueAsWritten(Some("a b")) == DoubleRender && ShowQueue(Some("a b")) == QueueNotFound
    ensures ValidQueueName(p) ==> ShowQueueAsWritten(p) == ShowQueue(p)
  {
    InvalidQueueNameExamples();
  }

  /** The pagination record of a listing. */
  datatype Pagination = Pagination(currPage: int, recordCount: int, perPage: nat)

  /** pagination: the paginator's page and total with the fixed page size. */
  function PaginationOf(currentPage: int, totalSize: int): (r: Pagination)
    ensures r.perPage == 20 && r.currPage == currentPage && r.recordCount == totalSize
  {
    Pagination(currentPage, totalSize, PerPage)
  }
}
