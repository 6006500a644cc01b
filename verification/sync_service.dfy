/**
 * The routes of the synchronous mail service: the signed-in user, the
 * recent inbox page and the employee search. Each error names the
 * exception's class in a `type` member; an OData error from the mail
 * service is reported as 401, anything else as 500.
 *
 * The mail API's answer is an input: `reply` is what the call returns or
 * raises if the route makes it.
 */
module SyncService {
  import opened Optional
  import opened MailShaping

  /** An error response carrying the exception's text and class name. */
  function ErrorReply(message: string, e: Failure): Response {
    Response(ErrorStatus(e), ErrorBody(message, Some(e.details), Some(KindOf(e))))
  }

  /**
   * GET /api/auth/user: the user's name, e-mail (mail or, failing that, the
   * principal name) and principal name; a user-less answer raises.
   */
  function GetCurrentUser(reply: Result<Option<User>, Failure>): (r: Response)
    ensures r.status == 200 <==> reply.Ok? && reply.value.Some?
    ensures r.status == 401 <==> reply.Err? && reply.error.ODataError?
    ensures r.status == 200 ==> r.body.UserBody? && r.body.user.email == UserEmail(reply.value.value)
    ensures r.status != 200 ==> r.body.ErrorBody? && r.body.kind.Some?
    ensures r.status == 401 ==> r.body.error == "Authentication failed"
    ensures r.status == 500 ==> r.body.error == "Failed to get user info"
  {
    match reply
    case Ok(Some(user)) => Response(200, UserBody(UserRecord(user)))
    case Ok(None) => ErrorReply("Failed to get user info", NoneAttribute("display_name"))
    case Err(ODataError(details)) => ErrorReply("Authentication failed", ODataError(details))
    case Err(e) => ErrorReply("Failed to get user info", e)
  }

  /**
   * GET /api/emails/recent: always asks the inbox for min(count, 100)
   * messages (25 by default) and shapes whatever page comes back.
   */
  function GetRecentEmails(count: Option<int>, reply: Result<Option<MessagePage>, Failure>): (x: Exchange)
    ensures x.query == Some(MailQuery(None, RecentCount(count)))
    ensures x.response.status == 200 <==> reply.Ok?
    ensures x.response.status == 401 <==> reply.Err? && reply.error.ODataError?
    ensures reply.Ok? ==>
      var b := x.response.body;
      && b.EmailsBody? && b.employeeName.None?
      && |b.emails| == |Messages(reply.value)|
      && b.emails == ShapedEmails(reply.value)
      && (b.hasMore <==> HasMore(reply.value))
    ensures reply.Err? ==> x.response.body == ErrorBody("Failed to fetch emails", Some(reply.error.details), Some(KindOf(reply.error)))
  {
    var query := MailQuery(None, RecentCount(count));
    match reply
    case Ok(page) => Exchange(Some(query), EmailsReply(page, None))
    case Err(e) => Exchange(Some(query), ErrorReply("Failed to fetch emails", e))
  }

  /**
   * POST /api/emails/search: checks the body, then asks for the messages
   * whose subject mentions the name, and echoes the name with the results.
   */
  function SearchEmails(request: Option<SearchRequest>, reply: Result<Option<MessagePage>, Failure>): (x: Exchange)
    ensures x.query.Some? <==> ValidateSearch(request).Ok?
    ensures x.query.Some? ==>
      var p := ValidateSearch(request).value;
      x.query.value == MailQuery(Some(SubjectSearch(p.employeeName)), p.count) && x.query.value.top <= MaxCount
    ensures x.response.status == 400 <==> ValidateSearch(request) == Err(MissingName)
    ensures x.response.status == 400 ==> x.response == MissingNameResponse
    ensures x.response.status == 200 <==> x.query.Some? && reply.Ok?
    ensures x.response.status == 401 <==> x.query.Some? && reply.Err? && reply.error.ODataError?
    ensures x.response.status == 200 ==>
      var b := x.response.body;
      && b.EmailsBody?
      && b.employeeName == request.value.employeeName
      && b.emails == ShapedEmails(reply.value)
      && (b.hasMore <==> HasMore(reply.value))
    ensures x.response.status == 401 || x.response.status == 500 ==>
      x.response.body.ErrorBody? && x.response.body.error == "Failed to search emails" && x.response.body.kind.Some?
  {
    match ValidateSearch(request)
    case Err(MissingName) => Exchange(None, MissingNameResponse)
    case Err(Raised(e)) => Exchange(None, ErrorReply("Failed to search emails", e))
    case Ok(p) =>
      var query := MailQuery(Some(SubjectSearch(p.employeeName)), p.count);
      match reply
      case Ok(page) => Exchange(Some(query), EmailsReply(page, Some(p.employeeName)))
      case Err(e) => Exchange(Some(query), ErrorReply("Failed to search emails", e))
  }
}
