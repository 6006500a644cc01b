/**
 * The asynchronous mail service: the same three routes as the synchronous
 * one, but the error bodies carry no exception class, and every route runs
 * inside a wrapper that turns a run that outlives its 30-second limit into
 * 504 and an exception escaping the route into 500.
 *
 * The mail API's answer and the fate of the worker run are inputs. As
 * written, the worker that runs a route body has no request bound, so every
 * request ends in the wrapper's 500; IntendedRoute is the wrapper with the
 * request carried over, and the routes below are modelled as it would run them.
 */
module AsyncService {
  import opened Optional
  import opened MailShaping

  /** How the worker run of a route ended. */
  datatype RunOutcome = Completed(response: Response) | TimedOut | Crashed(details: string)

  const TimeoutResponse: Response :=
    Response(504, ErrorBody("Request timeout", Some("The operation took too long to complete"), None))

  /** async_route: the route's own response, or the wrapper's 504 or 500. */
  function AsyncRoute(run: RunOutcome): (r: Response)
    ensures run.Completed? ==> r == run.response
    ensures run.TimedOut? ==> r.status == 504 && r.body.ErrorBody? && r.body.error == "Request timeout"
    ensures run.Crashed? ==> r == Response(500, ErrorBody("Internal server error", Some(run.details), None))
  {
    match run
    case Completed(response) => response
    case TimedOut => TimeoutResponse
    case Crashed(details) => Response(500, ErrorBody("Internal server error", Some(details), None))
  }

  /**
   * Whether the code running a route body can see the request being served.
   * The wrapper only creates the route's coroutine on the serving thread;
   * its body runs on a pool thread with a fresh event loop, and that thread
   * does not inherit the request context.
   */
  datatype RequestContext = Bound | Unbound

  /** The context the route bodies run in, as the wrapper is written. */
  const WorkerContext: RequestContext := Unbound

  /** The first sentence of the framework's error for reading `request` with no request bound. */
  const OutsideRequestContext: string := "Working outside of request context."

  /**
   * The worker run of a route body. Every route reads `request.method` before
   * its own `try`, so without a bound request that first read raises and the
   * route's own outcome never happens.
   */
  function RunIn(context: RequestContext, run: RunOutcome): (outcome: RunOutcome)
    ensures context == Bound ==> outcome == run
    ensures context == Unbound ==> outcome.Crashed? && outcome.details == OutsideRequestContext
  {
    if context == Bound then run else Crashed(OutsideRequestContext)
  }

  /** A request as the service is written: the body runs in the worker's context. */
  function AsWrittenRoute(run: RunOutcome): Response {
    AsyncRoute(RunIn(WorkerContext, run))
  }

  /**
   * As written, every request to every route, OPTIONS included, gets the
   * wrapper's 500 "Internal server error": neither the route's own answer
   * nor the 504 timeout reaches the client.
   */
  lemma AsWrittenEveryRequestFails(run: RunOutcome)
    ensures AsWrittenRoute(run) == Response(500, ErrorBody("Internal server error", Some(OutsideRequestContext), None))
    ensures AsWrittenRoute(run).status != 200 && AsWrittenRoute(run).status != 504
  {
  }

  /** A request with the request context carried over to the worker, as the wrapper evidently intends. */
  function IntendedRoute(run: RunOutcome): (r: Response)
    ensures r == AsyncRoute(run)
    ensures run.Completed? ==> r == run.response
  {
    AsyncRoute(RunIn(Bound, run))
  }

  /**
   * With the context carried over, the search route's own answer reaches
   * the client when the run completes: 200 exactly for a valid body and a
   * successful fetch, 400 exactly for a missing name.
   */
  lemma IntendedSearchReachesClient(request: Option<SearchRequest>, reply: Result<Option<MessagePage>, Failure>)
    ensures var r := IntendedRoute(Completed(SearchEmails(request, reply).response));
      && RouteStatus(r.status)
      && (r.status == 200 <==> ValidateSearch(request).Ok? && reply.Ok?)
      && (r.status == 400 <==> ValidateSearch(request) == Err(MissingName))
  {
  }

  /** An error response with the exception's text only. */
  function ErrorReply(message: string, e: Failure): Response {
    Response(ErrorStatus(e), ErrorBody(message, Some(e.details), None))
  }

  /** The statuses the routes themselves send; a timeout never comes from a route. */
  predicate RouteStatus(status: nat) {
    status == 200 || status == 400 || status == 401 || status == 500
  }

  /** GET /api/auth/user, inside the wrapper. */
  function GetCurrentUser(reply: Result<Option<User>, Failure>): (r: Response)
    ensures RouteStatus(r.status)
    ensures r.status == 200 <==> reply.Ok? && reply.value.Some?
    ensures r.status == 401 <==> reply.Err? && reply.error.ODataError?
    ensures r.status == 200 ==> r.body.UserBody? && r.body.user.email == UserEmail(reply.value.value)
    ensures r.status != 200 ==> r.body.ErrorBody? && r.body.kind.None?
    ensures r.status == 401 ==> r.body.error == "Authentication failed"
    ensures r.status == 500 ==> r.body.error == "Failed to get user info"
  {
    match reply
    case Ok(Some(user)) => Response(200, UserBody(UserRecord(user)))
    case Ok(None) => ErrorReply("Failed to get user info", NoneAttribute("display_name"))
    case Err(ODataError(details)) => ErrorReply("Authentication failed", ODataError(details))
    case Err(e) => ErrorReply("Failed to get user info", e)
  }

  /** GET /api/emails/recent: min(count, 100) inbox messages, 25 by default. */
  function GetRecentEmails(count: Option<int>, reply: Result<Option<MessagePage>, Failure>): (x: Exchange)
    ensures RouteStatus(x.response.status)
    ensures x.query == Some(MailQuery(None, RecentCount(count)))
    ensures x.response.status == 200 <==> reply.Ok?
    ensures x.response.status == 401 <==> reply.Err? && reply.error.ODataError?
    ensures reply.Ok? ==>
      var b := x.response.body;
      && b.EmailsBody? && b.employeeName.None?
      && b.emails == ShapedEmails(reply.value)
      && (b.hasMore <==> HasMore(reply.value))
    ensures reply.Err? ==> x.response.body == ErrorBody("Failed to fetch emails", Some(reply.error.details), None)
  {
    var query := MailQuery(None, RecentCount(count));
    match reply
    case Ok(page) => Exchange(Some(query), EmailsReply(page, None))
    case Err(e) => Exchange(Some(query), ErrorReply("Failed to fetch emails", e))
  }

  /** POST /api/emails/search: the body checks come before any mail query. */
  function SearchEmails(request: Option<SearchRequest>, reply: Result<Option<MessagePage>, Failure>): (x: Exchange)
    ensures RouteStatus(x.response.status)
    ensures x.query.Some? <==> ValidateSearch(request).Ok?
    ensures x.query.Some? ==>
      var p := ValidateSearch(request).value;
      x.query.value == MailQuery(Some(SubjectSearch(p.employeeName)), p.count) && x.query.value.top <= MaxCount
    ensures x.response.status == 400 <==> ValidateSearch(request) == Err(MissingName)
    ensures x.response.status == 400 ==> x.response == MissingNameResponse
    ensures x.response.status == 200 <==> x.query.Some? && reply.Ok?
    ensures x.response.status == 401 <==> x.query.Some? && reply.Err? && reply.error.ODataError?
    ensures x.response.status == 200 ==>
      var b := x.response.body;
      && b.EmailsBody?
      && b.employeeName == request.value.employeeName
      && b.emails == ShapedEmails(reply.value)
      && (b.hasMore <==> HasMore(reply.value))
    ensures x.response.status == 401 || x.response.status == 500 ==>
      x.response.body.ErrorBody? && x.response.body.error == "Failed to search emails" && x.response.body.kind.None?
  {
    match ValidateSearch(request)
    case Err(MissingName) => Exchange(None, MissingNameResponse)
    case Err(Raised(e)) => Exchange(None, ErrorReply("Failed to search emails", e))
    case Ok(p) =>
      var query := MailQuery(Some(SubjectSearch(p.employeeName)), p.count);
      match reply
      case Ok(page) => Exchange(Some(query), EmailsReply(page, Some(p.employeeName)))
      case Err(e) => Exchange(Some(query), ErrorReply("Failed to search emails", e))
  }

  /**
   * Through the wrapper, a client sees 504 exactly when the run timed out:
   * no route sends 504 on its own.
   */
  lemma TimeoutIsTheOnly504(request: Option<SearchRequest>, reply: Result<Option<MessagePage>, Failure>, count: Option<int>, user: Result<Option<User>, Failure>, timedOut: bool)
    ensures AsyncRoute(if timedOut then TimedOut else Completed(SearchEmails(request, reply).response)).status == 504 <==> timedOut
    ensures AsyncRoute(if timedOut then TimedOut else Completed(GetRecentEmails(count, reply).response)).status == 504 <==> timedOut
    ensures AsyncRoute(if timedOut then TimedOut else Completed(GetCurrentUser(user))).status == 504 <==> timedOut
  {
  }
}
