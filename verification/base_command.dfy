/** The command object every query command derives from: it runs its body
    at most once, guards its accessors, and coerces the paging parameters. */
module BaseCommand {
  import opened Wrappers
  import opened Strings

  /** What a command remembers between calls. The `result` slot is set to
      nil at construction and never assigned again. */
  datatype Command = Command(hasExecuted: bool)

  /** The exceptions the command raises itself, and the body's own. */
  datatype CommandError<E> = AlreadyExecuted | NotExecuted | Raised(error: E)

  /** A freshly constructed command. */
  const Fresh: Command := Command(false)

  /** execute: a second call raises; otherwise the body runs and its value is
      returned. The executed flag is set only after the body returns, so a
      body that raises leaves the command runnable. */
  function Execute<R, E>(c: Command, body: Result<R, E>): (out: (Result<R, CommandError<E>>, Command))
    ensures out.0.Ok? <==> !c.hasExecuted && body.Ok?
    ensures out.0.Ok? ==> out.0.value == body.value
    ensures out.1.hasExecuted <==> c.hasExecuted || body.Ok?
    ensures c.hasExecuted ==> out.0 == Err(AlreadyExecuted)
    ensures !c.hasExecuted && body.Err? ==> out.0 == Err(Raised(body.error))
  {
    if c.hasExecuted then (Err(AlreadyExecuted), c)
    else match body
      case Ok(v) => (Ok(v), Command(true))
      case Err(e) => (Err(Raised(e)), c)
  }

  /** result: raises before a successful execute; afterwards it is the
      never-assigned slot, nil. */
  function ResultOf<R, E>(c: Command): (r: Result<Option<R>, CommandError<E>>)
    ensures r.Ok? <==> c.hasExecuted
    ensures r.Ok? ==> r.value == None
    ensures r.Err? ==> r.error == NotExecuted
  {
    if c.hasExecuted then Ok(None) else Err(NotExecuted)
  }

  /** errors: raises before a successful execute (with the AlreadyExecuted
      error, as written); afterwards it is the empty list set at
      construction. */
  function ErrorsOf<E>(c: Command): (r: Result<seq<string>, CommandError<E>>)
    ensures r.Ok? <==> c.hasExecuted
    ensures r.Ok? ==> r.value == []
    ensures r.Err? ==> r.error == AlreadyExecuted
  {
    if c.hasExecuted then Ok([]) else Err(AlreadyExecuted)
  }

  /** Whatever the bodies, a command succeeds at most once: after any
      successful execute, every later execute raises AlreadyExecuted. */
  lemma ExecuteOnce<R, E>(c: Command, first: Result<R, E>, second: Result<R, E>)
    requires Execute(c, first).0.Ok?
    ensures Execute(Execute(c, first).1, second).0 == Err(AlreadyExecuted)
    ensures ResultOf<R, E>(Execute(c, first).1) == Ok(None)
  {
  }

  /** A body that raised can be run again, and until one succeeds the
      accessors keep raising. */
  lemma FailedExecuteRetries<R, E>(first: E, second: R)
    ensures Execute<R, E>(Fresh, Err(first)).1 == Fresh
    ensures ResultOf<R, E>(Execute<R, E>(Fresh, Err(first)).1) == Err(NotExecuted)
    ensures Execute<R, E>(Execute<R, E>(Fresh, Err(first)).1, Ok(second)).0 == Ok(second)
  {
  }

  /** page: the parameter's integer value when positive, otherwise 1. */
  function PageParam(p: Option<string>): (r: nat)
    ensures r >= 1
    ensures ParamToI(p) > 0 ==> r == ParamToI(p)
  {
    var i := ParamToI(p);
    if i > 0 then i else 1
  }

  /** per_page: the parameter's integer value when positive, otherwise 20. */
  function PerPageParam(p: Option<string>): (r: nat)
    ensures r >= 1
    ensures ParamToI(p) > 0 ==> r == ParamToI(p)
  {
    var i := ParamToI(p);
    if i > 0 then i else 20
  }

  /** A positive number sent as decimal text is used as the page and page
      size; a missing, zero, negative or non-numeric one falls back to the
      defaults. */
  lemma PagingParams(n: nat)
    ensures n >= 1 ==> PageParam(Some(NatToDigits(n))) == n && PerPageParam(Some(NatToDigits(n))) == n
    ensures PageParam(None) == 1 && PerPageParam(None) == 20
    ensures PageParam(Some("-" + NatToDigits(n))) == 1 && PerPageParam(Some("-" + NatToDigits(n))) == 20
    ensures PageParam(Some("abc")) == 1 && PerPageParam(Some("abc")) == 20
  {
    ToIRoundTrip(n);
    var neg := "-" + NatToDigits(n);
    assert TrimLeft(neg) == neg;
    assert neg[1..] == NatToDigits(n);
    ToIOfNonNumeric("abc");
  }
}
