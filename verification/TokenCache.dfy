/** The OAuth token cache: what each section under the mutex does to the cached token. */
module TokenCache {
  import opened Wrappers
  import opened Text

  const SECOND: int := 1_000_000_000

  /** The two fields the mutex protects; times are nanoseconds of one monotone clock. */
  datatype Cache = Cache(token: string, expiresAt: int)

  /** What the token endpoint gave: an error of any kind, or a decoded body. */
  datatype Reply = NoReply | Reply(accessToken: string, tokenType: string, expiresIn: int)

  datatype TokenError = NotBearer | NotPositive | EmptyToken

  predicate Usable(cache: Cache, now: int) {
    cache.token != "" && now < cache.expiresAt
  }

  predicate Acceptable(reply: Reply) {
    && reply.Reply?
    && ToLower(TrimSpace(reply.tokenType)) == "bearer"
    && reply.expiresIn > 0
    && TrimSpace(reply.accessToken) != ""
  }

  function Expiry(received: int, expiresIn: int, tokenSkew: int): int {
    received + (expiresIn - tokenSkew) * SECOND
  }

  class TokenResponse {
    var accessToken: string
    var tokenType: string
    var expiresIn: int

    constructor (accessToken: string, tokenType: string, expiresIn: int)
      ensures this.accessToken == accessToken && this.tokenType == tokenType && this.expiresIn == expiresIn
    {
      this.accessToken, this.tokenType, this.expiresIn := accessToken, tokenType, expiresIn;
    }

    /** Rewrites the token type in place, then checks the three rules in order. */
    method Validate() returns (error: Option<TokenError>)
      modifies this`tokenType
      ensures tokenType == ToLower(TrimSpace(old(tokenType)))
      ensures error.None? <==> Acceptable(Reply(accessToken, old(tokenType), expiresIn))
      ensures error == Some(NotBearer) <==> tokenType != "bearer"
      ensures error == Some(NotPositive) <==> tokenType == "bearer" && expiresIn <= 0
    {
      tokenType := ToLower(TrimSpace(tokenType));
      if tokenType != "bearer" {
        return Some(NotBearer);
      }
      if expiresIn <= 0 {
        return Some(NotPositive);
      }
      if TrimSpace(accessToken) == "" {
        return Some(EmptyToken);
      }
      return None;
    }
  }

  class TokenManager {
    const tokenSkew: int
    const override: string
    const credentialsPresent: bool
    var cached: string
    var expiresAt: int

    constructor (tokenSkew: int, override: string, credentialsPresent: bool)
      ensures this.tokenSkew == tokenSkew && this.override == override && this.credentialsPresent == credentialsPresent
      ensures Contents() == Cache("", 0)
    {
      this.tokenSkew, this.override, this.credentialsPresent := tokenSkew, override, credentialsPresent;
      cached, expiresAt := "", 0;
    }

    function Contents(): Cache
      reads this
    {
      Cache(cached, expiresAt)
    }

    /** The first section under the mutex. */
    method CachedToken(now: int) returns (token: string)
      ensures token != "" ==> Usable(Contents(), now) && token == cached
      ensures Usable(Contents(), now) ==> token != ""
    {
      if cached != "" && now < expiresAt {
        return cached;
      }
      return "";
    }

    /** One token request; `received` and `checked` are the two readings of the clock. */
    method FetchToken(reply: Reply, received: int, checked: int) returns (token: Option<string>, expiry: int)
      requires received <= checked
      ensures token.Some? <==> credentialsPresent && Acceptable(reply) && checked < Expiry(received, reply.expiresIn, tokenSkew)
      ensures token.Some? ==> token.value == reply.accessToken && expiry == Expiry(received, reply.expiresIn, tokenSkew)
      ensures token.Some? ==> checked < expiry == received + (reply.expiresIn - tokenSkew) * 1_000_000_000
    {
      if !credentialsPresent || reply.NoReply? {
        return None, 0;
      }
      var response := new TokenResponse(reply.accessToken, reply.tokenType, reply.expiresIn);
      var invalid := response.Validate();
      if invalid.Some? {
        return None, 0;
      }
      expiry := received + (response.expiresIn - tokenSkew) * SECOND;
      if !(checked < expiry) {
        return None, 0;
      }
      return Some(response.accessToken), expiry;
    }

    /** The second section under the mutex: look again, fetch only if that fails, store only on success. */
    method Refresh(now: int, reply: Reply, received: int, checked: int) returns (token: Option<string>)
      requires now <= received <= checked
      modifies this
      ensures Usable(old(Contents()), now) ==> Contents() == old(Contents()) && token == Some(cached)
      ensures !Usable(old(Contents()), now) && token.None? ==> Contents() == old(Contents())
      ensures !Usable(old(Contents()), now) && token.Some? ==>
        && Acceptable(reply) && checked < expiresAt && token.value == reply.accessToken
        && Contents() == Cache(token.value, Expiry(received, reply.expiresIn, tokenSkew))
      ensures !Usable(old(Contents()), now) ==>
        (token.Some? <==> credentialsPresent && Acceptable(reply) && checked < Expiry(received, reply.expiresIn, tokenSkew))
    {
      if cached != "" && now < expiresAt {
        return Some(cached);
      }
      var expiry;
      token, expiry := FetchToken(reply, received, checked);
      if token.Some? {
        cached := token.value;
        expiresAt := expiry;
      }
    }

    /** A whole call that no other caller interrupts: `first` and `second` are the clock under the
        mutex in the two sections. */
    method GetAccessToken(first: int, second: int, reply: Reply, received: int, checked: int) returns (token: Option<string>)
      requires first <= second <= received <= checked
      modifies this
      ensures override != "" ==> token == Some(override) && Contents() == old(Contents())
      ensures override == "" && Usable(old(Contents()), first) ==> token == Some(old(cached)) && Contents() == old(Contents())
      ensures override == "" && !Usable(old(Contents()), first) ==>
        if credentialsPresent && Acceptable(reply) && checked < Expiry(received, reply.expiresIn, tokenSkew)
        then token == Some(reply.accessToken) && Contents() == Cache(reply.accessToken, Expiry(received, reply.expiresIn, tokenSkew))
        else token == None && Contents() == old(Contents())
    {
      if override != "" {
        return Some(override);
      }
      var hit := CachedToken(first);
      if hit != "" {
        return Some(hit);
      }
      token := Refresh(second, reply, received, checked);
    }
  }
}
