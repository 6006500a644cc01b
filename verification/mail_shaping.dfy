/**
 * What the three mail services share: the mail API's message records,
 * their conversion to the JSON e-mail record (sender defaults, 200-character
 * body preview), the page's "more results" flag, the count cap, the
 * employee-name check, the user e-mail fallback, the mapping from a failed
 * call to an HTTP status, and the response records.
 *
 * The mail API itself is not modelled: its answers arrive as values.
 */
module MailShaping {
  import opened Optional
  import opened Strings

  // ---------------------------------------------------------------- mail API records

  datatype EmailAddress = EmailAddress(name: Option<string>, address: Option<string>)

  /** A message's `from_` field. */
  datatype Recipient = Recipient(emailAddress: Option<EmailAddress>)

  datatype ItemBody = ItemBody(content: Option<string>)

  /** A message as the mail API returns it; every field may be missing. The date is kept in its ISO text form. */
  datatype Message = Message(
    subject: Option<string>,
    sender: Option<Recipient>,
    receivedDateTime: Option<string>,
    isRead: Option<bool>,
    hasAttachments: Option<bool>,
    body: Option<ItemBody>)

  /** One page of messages and the link to the next page, if any. */
  datatype MessagePage = MessagePage(value: Option<seq<Message>>, nextLink: Option<string>)

  datatype User = User(displayName: Option<string>, mail: Option<string>, userPrincipalName: Option<string>)

  /** Why a mail API call failed: an OData error from the service, or any other exception by class name. */
  datatype Failure = ODataError(details: string) | OtherError(kind: string, details: string)

  // ---------------------------------------------------------------- JSON records

  datatype SenderJson = SenderJson(name: Option<string>, address: Option<string>)

  datatype EmailJson = EmailJson(
    subject: Option<string>,
    sender: SenderJson,
    receivedDateTime: Option<string>,
    isRead: Option<bool>,
    hasAttachments: Option<bool>,
    bodyPreview: Option<string>)

  datatype UserJson = UserJson(displayName: Option<string>, email: Option<string>, userPrincipalName: Option<string>)

  /** The JSON bodies the services send. */
  datatype Body =
    | UserBody(user: UserJson)
    | EmailsBody(emails: seq<EmailJson>, employeeName: Option<string>, hasMore: bool)
    | ErrorBody(error: string, details: Option<string>, kind: Option<string>)
    | AuthStatusBody(authenticated: Option<bool>, lastAuthTime: Option<int>, needsAuth: bool)
    | DeviceCodeBody(deviceCode: Option<string>, deviceCodeUrl: string, hasActiveCode: bool)

  datatype Response = Response(status: nat, body: Body)

  /** A mail query: the search text (none for the inbox listing) and the page size. */
  datatype MailQuery = MailQuery(search: Option<string>, top: int)

  // ---------------------------------------------------------------- shaping

  const PreviewLength: nat := 200
  const Unknown := "Unknown"

  /**
   * bodyPreview: the first 200 characters and "..." when the content is
   * longer, the content itself otherwise, "" when there is no body.
   */
  function BodyPreview(body: Option<ItemBody>): Option<string> {
    if body.Some? && body.value.content.Some? && body.value.content.value != "" && |body.value.content.value| > PreviewLength then
      Some(body.value.content.value[..PreviewLength] + "...")
    else if body.Some? then body.value.content
    else Some("")
  }

  /**
   * The preview is "" without a body and missing without content; a long
   * content is cut to exactly 200 characters plus "..." (203 in all); a
   * short one is kept whole. Either way the preview starts with the
   * content's first 200 characters.
   */
  lemma BodyPreviewSpec(body: Option<ItemBody>)
    ensures body.None? ==> BodyPreview(body) == Some("")
    ensures body.Some? && body.value.content.None? ==> BodyPreview(body).None?
    ensures body.Some? && body.value.content.Some? ==>
      var c := body.value.content.value;
      var p := BodyPreview(body);
      && p.Some?
      && (|c| > PreviewLength ==> |p.value| == PreviewLength + 3 && p.value[..PreviewLength] == c[..PreviewLength] && p.value[PreviewLength..] == "...")
      && (|c| <= PreviewLength ==> p.value == c)
  {
  }

  /** The JSON sender: the address record's fields when there is one, "Unknown" for both otherwise. */
  function SenderOf(m: Message): (s: SenderJson)
    ensures m.sender.Some? && m.sender.value.emailAddress.Some? ==>
      s.name == m.sender.value.emailAddress.value.name && s.address == m.sender.value.emailAddress.value.address
    ensures (m.sender.None? || m.sender.value.emailAddress.None?) ==> s == SenderJson(Some(Unknown), Some(Unknown))
  {
    if m.sender.Some? && m.sender.value.emailAddress.Some? then
      SenderJson(m.sender.value.emailAddress.value.name, m.sender.value.emailAddress.value.address)
    else SenderJson(Some(Unknown), Some(Unknown))
  }

  function ShapeMessage(m: Message): EmailJson {
    EmailJson(m.subject, SenderOf(m), m.receivedDateTime, m.isRead, m.hasAttachments, BodyPreview(m.body))
  }

  /** The messages of a page; none when there is no page or no value. */
  function Messages(page: Option<MessagePage>): seq<Message> {
    if page.Some? && page.value.value.Some? then page.value.value.value else []
  }

  /** One e-mail record per message, in order. */
  function ShapeAll(ms: seq<Message>): (emails: seq<EmailJson>)
    ensures |emails| == |ms|
    ensures forall i :: 0 <= i < |ms| ==> emails[i] == ShapeMessage(ms[i])
  {
    seq(|ms|, i requires 0 <= i < |ms| => ShapeMessage(ms[i]))
  }

  /** The e-mail records of a page. */
  function ShapedEmails(page: Option<MessagePage>): seq<EmailJson> {
    ShapeAll(Messages(page))
  }

  /** The loop appending one record per message of the page. */
  method ShapePage(page: Option<MessagePage>) returns (emails: seq<EmailJson>)
    ensures emails == ShapedEmails(page)
  {
    emails := [];
    if page.Some? && page.value.value.Some? && page.value.value.value != [] {
      var ms := page.value.value.value;
      for i := 0 to |ms|
        invariant |emails| == i
        invariant forall k :: 0 <= k < i ==> emails[k] == ShapeMessage(ms[k])
      {
        emails := emails + [ShapeMessage(ms[i])];
      }
    }
  }

  /** hasMore: a page with a next link. */
  predicate HasMore(page: Option<MessagePage>) {
    page.Some? && page.value.nextLink.Some?
  }

  // ---------------------------------------------------------------- request checks

  const MaxCount: int := 100

  /** min(count, 100). */
  function CapCount(count: int): (r: int)
    ensures r <= MaxCount && r <= count
    ensures r == count || r == MaxCount
  {
    if count < MaxCount then count else MaxCount
  }

  /** Capping twice is capping once, and a larger request never gets a smaller page. */
  lemma CapCountSpec(a: int, b: int)
    ensures CapCount(CapCount(a)) == CapCount(a)
    ensures a <= b ==> CapCount(a) <= CapCount(b)
    ensures a <= MaxCount ==> CapCount(a) == a
  {
  }

  /** `not employee_name` fails: the name is missing or empty. */
  predicate NameGiven(employeeName: Option<string>) {
    employeeName.Some? && employeeName.value != ""
  }

  /** `user.mail or user.user_principal_name`. */
  function UserEmail(u: User): (email: Option<string>)
    ensures u.mail.Some? && u.mail.value != "" ==> email == u.mail
    ensures !(u.mail.Some? && u.mail.value != "") ==> email == u.userPrincipalName
  {
    if u.mail.Some? && u.mail.value != "" then u.mail else u.userPrincipalName
  }

  function UserRecord(u: User): UserJson {
    UserJson(u.displayName, UserEmail(u), u.userPrincipalName)
  }

  /** An OData error is an authentication problem (401); anything else is a server error (500). */
  function ErrorStatus(e: Failure): (status: nat)
    ensures status == 401 <==> e.ODataError?
    ensures status == 500 <==> e.OtherError?
  {
    match e
    case ODataError(_) => 401
    case OtherError(_, _) => 500
  }

  function KindOf(e: Failure): string {
    match e
    case ODataError(_) => "ODataError"
    case OtherError(kind, _) => kind
  }

  /** The exception Python raises when an attribute is read from None. */
  function NoneAttribute(attribute: string): Failure {
    OtherError("AttributeError", "'NoneType' object has no attribute '" + attribute + "'")
  }

  // ---------------------------------------------------------------- search request

  /**
   * The `count` member of a search request body: absent, an integer, or a
   * JSON value of another Python type (null, text, list, ...), by type name.
   */
  datatype CountField = Absent | Number(n: int) | NotANumber(typeName: string)

  /** A search request body; `employeeName` is None when absent or null. A null body is no request at all. */
  datatype SearchRequest = SearchRequest(employeeName: Option<string>, count: CountField)

  /** What a valid search request asks for: a non-empty name and a capped page size. */
  datatype SearchParams = SearchParams(employeeName: string, count: int)

  /** Why a search stops before any mail query: no name, or an exception while reading the body. */
  datatype Rejection = MissingName | Raised(failure: Failure)

  const SearchDefault: int := 50
  const RecentDefault: int := 25

  /**
   * The body checks of the search routes, in their order: reading a member
   * of a null body raises, `min(count, 100)` raises on a non-number, and
   * only then is a missing or empty name refused.
   */
  function ValidateSearch(request: Option<SearchRequest>): (r: Result<SearchParams, Rejection>)
    ensures r.Ok? <==> request.Some? && !request.value.count.NotANumber? && NameGiven(request.value.employeeName)
    ensures r == Err(MissingName) <==>
      request.Some? && !request.value.count.NotANumber? && !NameGiven(request.value.employeeName)
    ensures r.Err? && r.error.Raised? ==> r.error.failure.OtherError?
    ensures r.Ok? ==>
      && r.value.employeeName == request.value.employeeName.value
      && r.value.employeeName != ""
      && r.value.count <= MaxCount
      && (request.value.count.Absent? ==> r.value.count == SearchDefault)
      && (request.value.count.Number? ==> r.value.count == CapCount(request.value.count.n))
  {
    if request.None? then Err(Raised(NoneAttribute("get")))
    else match request.value.count
      case NotANumber(typeName) =>
        Err(Raised(OtherError("TypeError", "'<' not supported between instances of 'int' and '" + typeName + "'")))
      case Absent =>
        if NameGiven(request.value.employeeName) then Ok(SearchParams(request.value.employeeName.value, CapCount(SearchDefault)))
        else Err(MissingName)
      case Number(n) =>
        if NameGiven(request.value.employeeName) then Ok(SearchParams(request.value.employeeName.value, CapCount(n)))
        else Err(MissingName)
  }

  const MissingNameResponse: Response := Response(400, ErrorBody("Employee name is required", None, None))

  /**
   * The recent-emails page size: the `count` query argument (None when it
   * is absent or not an integer), 25 by default, capped at 100.
   */
  function RecentCount(count: Option<int>): (r: int)
    ensures r <= MaxCount
    ensures count.None? ==> r == RecentDefault
    ensures count.Some? && count.value <= MaxCount ==> r == count.value
  {
    CapCount(count.GetOr(RecentDefault))
  }

  /**
   * The search text that restricts a mail query to subjects mentioning the
   * name: the name in double quotes after `subject:`.
   */
  function SubjectSearch(employeeName: string): (search: string)
    ensures |search| == |employeeName| + 10
    ensures search[..9] == "subject:\"" && search[9..|search| - 1] == employeeName && search[|search| - 1] == '"'
  {
    "subject:\"" + employeeName + "\""
  }

  /** A route's response and the mail query it made, if it reached the mail API. */
  datatype Exchange = Exchange(query: Option<MailQuery>, response: Response)

  /** A successful page as the services send it. */
  function EmailsReply(page: Option<MessagePage>, employeeName: Option<string>): Response {
    Response(200, EmailsBody(ShapedEmails(page), employeeName, HasMore(page)))
  }
}
