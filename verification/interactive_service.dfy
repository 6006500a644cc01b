/**
 * The interactive mail service: device-code sign-in whose state lives in
 * module globals (the authenticated flag, the time of the last successful
 * call, the device code and its verification URL), a status check that
 * trusts a success from the last 30 minutes, and an employee search that
 * keeps only the messages whose subject mentions the name.
 *
 * The clock and the mail API are inputs: `now` is the current time in
 * seconds, and `probe`/`reply` are what the mail API returns or raises if
 * the call is made. Every failure is reported as 500.
 */
module InteractiveService {
  import opened Optional
  import opened Strings
  import opened Seqs
  import opened MailShaping

  /** Seconds for which a successful call is trusted without asking the mail API. */
  const RecentAuthWindow: int := 1800

  const DefaultDeviceCodeUrl: string := "https://microsoft.com/devicelogin"

  // ---------------------------------------------------------------- subject filter

  /** The search's own filter: a non-empty subject containing the name, ignoring case. */
  predicate MentionsName(m: Message, employeeName: string) {
    m.subject.Some? && m.subject.value != "" && ContainsIgnoringCase(m.subject.value, employeeName)
  }

  function Mentioning(employeeName: string): Message -> bool {
    m => MentionsName(m, employeeName)
  }

  /** The messages of the page that the search keeps, in their order. */
  function MatchingMessages(page: Option<MessagePage>, employeeName: string): seq<Message> {
    Filter(Messages(page), Mentioning(employeeName))
  }

  /** The e-mail records the search sends. */
  function MatchingEmails(page: Option<MessagePage>, employeeName: string): seq<EmailJson> {
    ShapeAll(MatchingMessages(page, employeeName))
  }

  /**
   * The search keeps exactly the messages that mention the name, in their
   * original order and every copy of them, one per mentioning position of
   * the page, and shapes each one;
   * every record sent has a subject mentioning the name.
   */
  lemma MatchingEmailsSpec(page: Option<MessagePage>, employeeName: string)
    ensures |MatchingEmails(page, employeeName)| <= |Messages(page)|
    ensures IsSubsequence(MatchingMessages(page, employeeName), Messages(page))
    ensures forall m :: m in Messages(page) ==> (m in MatchingMessages(page, employeeName) <==> MentionsName(m, employeeName))
    ensures forall m :: m in Messages(page) && MentionsName(m, employeeName) ==>
      ShapeMessage(m) in MatchingEmails(page, employeeName)
    ensures forall e :: e in MatchingEmails(page, employeeName) ==>
      e.subject.Some? && e.subject.value != "" && ContainsIgnoringCase(e.subject.value, employeeName)
    ensures forall m ::
      multiset(MatchingMessages(page, employeeName))[m] == if MentionsName(m, employeeName) then multiset(Messages(page))[m] else 0
    ensures |MatchingEmails(page, employeeName)| ==
      |set i | 0 <= i < |Messages(page)| && MentionsName(Messages(page)[i], employeeName)|
  {
    var ms := Messages(page);
    var kept := MatchingMessages(page, employeeName);
    FilterIsSubsequence(ms, Mentioning(employeeName));
    MatchingMessagesCount(page, employeeName);
    forall m | m in ms
      ensures m in kept <==> MentionsName(m, employeeName)
    {
      FilterMembership(ms, Mentioning(employeeName), m);
    }
    forall m | m in ms && MentionsName(m, employeeName)
      ensures ShapeMessage(m) in MatchingEmails(page, employeeName)
    {
      var i :| 0 <= i < |kept| && kept[i] == m;
      assert MatchingEmails(page, employeeName)[i] == ShapeMessage(m);
    }
    forall e | e in MatchingEmails(page, employeeName)
      ensures e.subject.Some? && e.subject.value != "" && ContainsIgnoringCase(e.subject.value, employeeName)
    {
      var i :| 0 <= i < |kept| && MatchingEmails(page, employeeName)[i] == e;
      assert kept[i] in kept;
    }
  }

  /** Every copy of a mentioning message is kept: one message per mentioning position of the page. */
  lemma MatchingMessagesCount(page: Option<MessagePage>, employeeName: string)
    ensures forall m ::
      multiset(MatchingMessages(page, employeeName))[m] == if MentionsName(m, employeeName) then multiset(Messages(page))[m] else 0
    ensures |MatchingMessages(page, employeeName)| ==
      |set i | 0 <= i < |Messages(page)| && MentionsName(Messages(page)[i], employeeName)|
  {
    var ms := Messages(page);
    forall m
      ensures multiset(MatchingMessages(page, employeeName))[m] == if MentionsName(m, employeeName) then multiset(ms)[m] else 0
    {
      FilterCount(ms, Mentioning(employeeName), m);
    }
    FilterLength(ms, Mentioning(employeeName));
    assert Positions(ms, Mentioning(employeeName)) == set i | 0 <= i < |ms| && MentionsName(ms[i], employeeName);
  }

  /** One more message of the page adds its shaped record exactly when it mentions the name. */
  lemma MatchingStep(ms: seq<Message>, i: nat, employeeName: string)
    requires i < |ms|
    ensures ShapeAll(Filter(ms[..i + 1], Mentioning(employeeName))) ==
      ShapeAll(Filter(ms[..i], Mentioning(employeeName))) + (if MentionsName(ms[i], employeeName) then [ShapeMessage(ms[i])] else [])
  {
    var before := Filter(ms[..i], Mentioning(employeeName));
    FilterAppend(ms[..i], ms[i], Mentioning(employeeName));
    assert ms[..i + 1] == ms[..i] + [ms[i]];
    if MentionsName(ms[i], employeeName) {
      assert ShapeAll(before + [ms[i]]) == ShapeAll(before) + [ShapeMessage(ms[i])];
    }
  }

  /** The loop of the search: shape and append each message that mentions the name. */
  method FilterAndShape(page: Option<MessagePage>, employeeName: string) returns (emails: seq<EmailJson>)
    ensures emails == MatchingEmails(page, employeeName)
  {
    emails := [];
    if page.Some? && page.value.value.Some? && page.value.value.value != [] {
      var ms := page.value.value.value;
      for i := 0 to |ms|
        invariant emails == ShapeAll(Filter(ms[..i], Mentioning(employeeName)))
      {
        MatchingStep(ms, i, employeeName);
        if ms[i].subject.Some? && ms[i].subject.value != "" && ContainsIgnoringCase(ms[i].subject.value, employeeName) {
          emails := emails + [ShapeMessage(ms[i])];
        }
      }
      assert ms[..|ms|] == ms;
    }
  }

  // ---------------------------------------------------------------- service state

  /** A probe answer that proves the sign-in: a user with a display name. */
  predicate HasDisplayName(user: Option<User>) {
    user.Some? && user.value.displayName.Some? && user.value.displayName.value != ""
  }

  /** An error response naming the exception's class; this service reports every failure as 500. */
  function ErrorReply(message: string, e: Failure): (r: Response)
    ensures r.status == 500 && r.body.ErrorBody? && r.body.error == message && r.body.kind == Some(KindOf(e))
  {
    Response(500, ErrorBody(message, Some(e.details), Some(KindOf(e))))
  }

  function DeviceCodeUrlOrDefault(url: Option<string>): (r: string)
    ensures url.Some? && url.value != "" ==> r == url.value
    ensures !(url.Some? && url.value != "") ==> r == DefaultDeviceCodeUrl
  {
    if url.Some? && url.value != "" then url.value else DefaultDeviceCodeUrl
  }

  /** The module globals of the interactive service. */
  class Service {
    var authenticated: bool
    var currentDeviceCode: Option<string>
    var deviceCodeUrl: Option<string>
    var lastSuccessfulAuth: Option<int>

    /** At start-up nobody is signed in and no device code has been issued. */
    constructor ()
      ensures !authenticated && lastSuccessfulAuth.None?
      ensures currentDeviceCode.None? && deviceCodeUrl.None?
    {
      authenticated := false;
      currentDeviceCode := None;
      deviceCodeUrl := None;
      lastSuccessfulAuth := None;
    }

    /** A truthy last success less than 30 minutes before `now`. */
    predicate RecentlyAuthenticated(now: int)
      reads this
    {
      lastSuccessfulAuth.Some? && lastSuccessfulAuth.value != 0 && now - lastSuccessfulAuth.value < RecentAuthWindow
    }

    /** device_code_callback: remembers the code to show and where to enter it. */
    method DeviceCodeCallback(verificationUri: string, userCode: string, expiresIn: int)
      modifies this
      ensures currentDeviceCode == Some(userCode) && deviceCodeUrl == Some(verificationUri)
      ensures authenticated == old(authenticated) && lastSuccessfulAuth == old(lastSuccessfulAuth)
    {
      currentDeviceCode := Some(userCode);
      deviceCodeUrl := Some(verificationUri);
    }

    /**
     * check_authentication_status: true without asking the mail API after a
     * recent success; otherwise a probe with a display name is a success, a
     * raising probe clears the flag, and any other answer leaves everything
     * as it was and yields no value at all.
     */
    method CheckAuthenticationStatus(now: int, probe: Result<Option<User>, Failure>) returns (status: Option<bool>, probed: bool)
      modifies this
      ensures probed <==> !old(RecentlyAuthenticated(now))
      ensures !probed ==> status == Some(true) && authenticated && lastSuccessfulAuth == old(lastSuccessfulAuth)
      ensures probed && probe.Ok? && HasDisplayName(probe.value) ==>
        status == Some(true) && authenticated && lastSuccessfulAuth == Some(now)
      ensures probed && probe.Err? ==>
        status == Some(false) && !authenticated && lastSuccessfulAuth == old(lastSuccessfulAuth)
      ensures probed && probe.Ok? && !HasDisplayName(probe.value) ==>
        status.None? && authenticated == old(authenticated) && lastSuccessfulAuth == old(lastSuccessfulAuth)
      ensures currentDeviceCode == old(currentDeviceCode) && deviceCodeUrl == old(deviceCodeUrl)
    {
      if RecentlyAuthenticated(now) {
        authenticated := true;
        return Some(true), false;
      }
      probed := true;
      match probe
      case Err(_) =>
        authenticated := false;
        status := Some(false);
      case Ok(user) =>
        if HasDisplayName(user) {
          authenticated := true;
          lastSuccessfulAuth := Some(now);
          status := Some(true);
        } else {
          status := None;
        }
    }

    /**
     * GET /api/auth/status: the check's answer, the time of the last
     * success, and `needsAuth` exactly when the answer is not true.
     */
    method GetAuthStatus(now: int, probe: Result<Option<User>, Failure>) returns (r: Response)
      modifies this
      ensures r.status == 200 && r.body.AuthStatusBody?
      ensures r.body.needsAuth <==> r.body.authenticated != Some(true)
      ensures r.body.lastAuthTime == lastSuccessfulAuth
      ensures r.body.authenticated == Some(true) <==>
        old(RecentlyAuthenticated(now)) || (probe.Ok? && HasDisplayName(probe.value))
      ensures r.body.authenticated == Some(false) <==> !old(RecentlyAuthenticated(now)) && probe.Err?
      ensures authenticated <==> r.body.authenticated == Some(true) || (r.body.authenticated.None? && old(authenticated))
      ensures lastSuccessfulAuth ==
        if !old(RecentlyAuthenticated(now)) && probe.Ok? && HasDisplayName(probe.value) then Some(now) else old(lastSuccessfulAuth)
      ensures currentDeviceCode == old(currentDeviceCode) && deviceCodeUrl == old(deviceCodeUrl)
    {
      var status, _ := CheckAuthenticationStatus(now, probe);
      r := Response(200, AuthStatusBody(status, lastSuccessfulAuth, status != Some(true)));
    }

    /** GET /api/auth/device-code: the stored code, its URL (or the default) and whether a code is stored. */
    method GetDeviceCode() returns (r: Response)
      ensures r.status == 200 && r.body.DeviceCodeBody?
      ensures r.body.deviceCode == currentDeviceCode
      ensures r.body.hasActiveCode <==> currentDeviceCode.Some?
      ensures r.body.deviceCodeUrl == DeviceCodeUrlOrDefault(deviceCodeUrl)
    {
      r := Response(200, DeviceCodeBody(currentDeviceCode, DeviceCodeUrlOrDefault(deviceCodeUrl), currentDeviceCode.Some?));
    }

    /**
     * GET /api/auth/user: any answer from the mail API marks the sign-in as
     * successful, even one without a user, which then fails on reading it.
     */
    method GetUser(now: int, reply: Result<Option<User>, Failure>) returns (r: Response)
      modifies this
      ensures reply.Ok? ==> authenticated && lastSuccessfulAuth == Some(now)
      ensures reply.Err? ==> authenticated == old(authenticated) && lastSuccessfulAuth == old(lastSuccessfulAuth)
      ensures currentDeviceCode == old(currentDeviceCode) && deviceCodeUrl == old(deviceCodeUrl)
      ensures r.status == 200 <==> reply.Ok? && reply.value.Some?
      ensures r.status == 200 ==> r.body == UserBody(UserRecord(reply.value.value))
      ensures r.status != 200 ==> r.status == 500 && r.body.ErrorBody? && r.body.error == "Failed to get user info"
    {
      match reply
      case Err(e) =>
        r := ErrorReply("Failed to get user info", e);
      case Ok(user) =>
        authenticated := true;
        lastSuccessfulAuth := Some(now);
        if user.Some? {
          r := Response(200, UserBody(UserRecord(user.value)));
        } else {
          r := ErrorReply("Failed to get user info", NoneAttribute("display_name"));
        }
    }

    /**
     * POST /api/emails/search: checks the body, searches for the bare name,
     * marks the sign-in as successful once the mail API answers, and sends
     * the messages whose subject mentions the name.
     */
    method SearchEmails(now: int, request: Option<SearchRequest>, reply: Result<Option<MessagePage>, Failure>)
      returns (x: Exchange)
      modifies this
      ensures x.query.Some? <==> ValidateSearch(request).Ok?
      ensures x.query.Some? ==>
        var p := ValidateSearch(request).value;
        x.query.value == MailQuery(Some(p.employeeName), p.count) && x.query.value.top <= MaxCount
      ensures x.response.status == 400 <==> ValidateSearch(request) == Err(MissingName)
      ensures x.response.status == 400 ==> x.response == MissingNameResponse
      ensures x.response.status == 200 <==> x.query.Some? && reply.Ok?
      ensures x.response.status == 200 ==>
        var name := ValidateSearch(request).value.employeeName;
        x.response.body == EmailsBody(MatchingEmails(reply.value, name), Some(name), HasMore(reply.value))
      ensures x.response.status != 200 && x.response.status != 400 ==>
        x.response.status == 500 && x.response.body.ErrorBody? && x.response.body.error == "Failed to search emails"
      ensures x.response.status == 200 ==> authenticated && lastSuccessfulAuth == Some(now)
      ensures x.response.status != 200 ==> authenticated == old(authenticated) && lastSuccessfulAuth == old(lastSuccessfulAuth)
      ensures currentDeviceCode == old(currentDeviceCode) && deviceCodeUrl == old(deviceCodeUrl)
    {
      match ValidateSearch(request)
      case Err(MissingName) =>
        x := Exchange(None, MissingNameResponse);
      case Err(Raised(e)) =>
        x := Exchange(None, ErrorReply("Failed to search emails", e));
      case Ok(p) =>
        var query := MailQuery(Some(p.employeeName), p.count);
        match reply
        case Err(e) =>
          x := Exchange(Some(query), ErrorReply("Failed to search emails", e));
        case Ok(page) =>
          authenticated := true;
          lastSuccessfulAuth := Some(now);
          var emails := FilterAndShape(page, p.employeeName);
          x := Exchange(Some(query), Response(200, EmailsBody(emails, Some(p.employeeName), HasMore(page))));
    }
  }

  /**
   * A success is trusted for 30 minutes: right after a successful search the
   * status check answers true without asking the mail API, for any probe.
   */
  method SearchThenCheck(now: int, later: int, request: Option<SearchRequest>, reply: Result<Option<MessagePage>, Failure>, probe: Result<Option<User>, Failure>)
    returns (searched: Response, status: Option<bool>, probed: bool)
    ensures searched.status == 200 && now != 0 && now <= later < now + RecentAuthWindow ==>
      status == Some(true) && !probed
  {
    var service := new Service();
    var x := service.SearchEmails(now, request, reply);
    searched := x.response;
    status, probed := service.CheckAuthenticationStatus(later, probe);
  }
}
