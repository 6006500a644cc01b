/**
 * The token cache wrapped around the device-code credential of the
 * synchronous mail service: a token is reused until five minutes before it
 * expires, and otherwise a new one is requested and remembered.
 *
 * The clock and the underlying credential are inputs: `now` is the current
 * time in seconds and `reply` is what the credential answers if asked.
 */
module TokenCache {
  import opened Optional

  datatype AccessToken = AccessToken(token: string, expiresOn: int)

  /** The underlying credential's answer: a token, or the exception it raises. */
  datatype CredentialReply = Issued(accessToken: AccessToken) | Raised(error: string)

  /** Seconds before expiry at which a cached token is no longer used. */
  const BufferSeconds: int := 300

  /** A cached token is used: both fields are truthy and the buffer has not been reached. */
  predicate Reusable(cachedToken: Option<string>, tokenExpiry: Option<int>, now: int) {
    && cachedToken.Some? && cachedToken.value != ""
    && tokenExpiry.Some? && tokenExpiry.value != 0
    && now < tokenExpiry.value - BufferSeconds
  }

  class CachedTokenCredential {
    var cachedToken: Option<string>
    var tokenExpiry: Option<int>

    /** A new cache holds neither a token nor an expiry. */
    constructor ()
      ensures cachedToken.None? && tokenExpiry.None?
    {
      cachedToken := None;
      tokenExpiry := None;
    }

    /**
     * get_token: the cached token while it is reusable, without asking the
     * credential; otherwise the credential's token, which replaces the
     * cached one. A raising credential leaves the cache as it was.
     */
    method GetToken(now: int, reply: CredentialReply) returns (result: Result<AccessToken, string>, calledCredential: bool)
      modifies this
      ensures calledCredential <==> !old(Reusable(cachedToken, tokenExpiry, now))
      ensures !calledCredential ==>
        result == Ok(AccessToken(old(cachedToken).value, old(tokenExpiry).value)) && unchanged(this)
      ensures calledCredential && reply.Issued? ==>
        result == Ok(reply.accessToken)
        && cachedToken == Some(reply.accessToken.token) && tokenExpiry == Some(reply.accessToken.expiresOn)
      ensures calledCredential && reply.Raised? ==> result == Err(reply.error) && unchanged(this)
    {
      if Reusable(cachedToken, tokenExpiry, now) {
        return Ok(AccessToken(cachedToken.value, tokenExpiry.value)), false;
      }
      calledCredential := true;
      match reply
      case Raised(error) =>
        result := Err(error);
      case Issued(accessToken) =>
        cachedToken := Some(accessToken.token);
        tokenExpiry := Some(accessToken.expiresOn);
        result := Ok(accessToken);
    }
  }

  /**
   * Two requests on a fresh cache: the first always reaches the credential;
   * when it yields a truthy token and expiry and the second request comes
   * before the five-minute buffer, the second returns the same token
   * without reaching the credential; from the buffer on it asks again.
   */
  method TwoRequests(now1: int, now2: int, reply1: CredentialReply, reply2: CredentialReply)
    returns (first: Result<AccessToken, string>, second: Result<AccessToken, string>, calls: nat)
    ensures calls >= 1
    ensures first == (match reply1 case Issued(t) => Ok(t) case Raised(e) => Err(e))
    ensures reply1.Issued? && reply1.accessToken.token != "" && reply1.accessToken.expiresOn != 0
            && now2 < reply1.accessToken.expiresOn - BufferSeconds ==>
      second == first && calls == 1
    ensures reply1.Issued? && now2 >= reply1.accessToken.expiresOn - BufferSeconds ==> calls == 2
    ensures reply1.Raised? ==> calls == 2
  {
    var cache := new CachedTokenCredential();
    var called1, called2;
    first, called1 := cache.GetToken(now1, reply1);
    second, called2 := cache.GetToken(now2, reply2);
    calls := (if called1 then 1 else 0) + (if called2 then 1 else 0);
  }

  /** The reuse window ends exactly at expiry minus the buffer. */
  lemma ReuseWindow(token: string, expiry: int, now: int)
    requires token != "" && expiry != 0
    ensures Reusable(Some(token), Some(expiry), now) <==> now < expiry - BufferSeconds
    ensures !Reusable(Some(token), Some(expiry), expiry - BufferSeconds)
    ensures !Reusable(None, Some(expiry), now) && !Reusable(Some(token), None, now)
  {
  }
}
