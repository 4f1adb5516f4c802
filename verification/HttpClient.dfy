/** The control loop of webrtc/base/httpclient.cc: retries, redirections and proxy authentication,
    and why they come to an end.  There is no cache. */
module HttpClients {
  import opened HttpParsing
  import opened HttpPump

  const MAX_REDIRECTS: nat := 5
  const HC_SEE_OTHER: nat := 303
  const HC_PROXY_AUTHENTICATION_REQUIRED: nat := 407
  const HC_INTERNAL_SERVER_ERROR: nat := 500

  datatype RedirectAction = REDIRECT_DEFAULT | REDIRECT_ALWAYS | REDIRECT_NEVER
  datatype HttpAuthResult = HAR_RESPONSE | HAR_IGNORE | HAR_CREDENTIALS

  predicate HttpCodeIsInformational(code: nat) { code / 100 == 1 }

  predicate HttpCodeIsRedirection(code: nat) { code / 100 == 3 }

  /** The end of an operation of HttpBase, with what the client looks at then: the response code,
      whether there is a location, the first words of the proxy's challenges, whether the verb is
      GET or HEAD, and whether the request document can be sent again. */
  datatype Completion = Completion(mode: HttpMode, err: HttpError, code: nat, location: bool,
                                   challenges: seq<string>, getOrHead: bool, rewinds: bool)

  /** What the stream pool answers to a request: a stream, or nothing. */
  datatype PoolAnswer = Granted | Refused(rewinds: bool)

  /** The connections a client can still ask for without a new start by its user: the retries left,
      and a full set of them for each start that a redirection or an authentication can cause. */
  function Budget(retries: nat, attempt: nat, redirects: nat, authenticated: bool): nat {
    (if attempt < retries then retries - attempt else 0) + LaterStarts(redirects, authenticated) * (retries + 1)
  }

  function LaterStarts(redirects: nat, authenticated: bool): nat {
    (if authenticated then 0 else 1) + (if redirects < MAX_REDIRECTS then 2 * (MAX_REDIRECTS - redirects) else 0)
  }

  lemma FewerStarts(a: nat, b: nat, n: nat)
    requires a < b
    ensures a * n + n <= b * n
    decreases b
  {
    if b > a + 1 {
      FewerStarts(a, b - 1, n);
    }
    OneStartLess(b - 1, b, n);
  }

  lemma MoreStarts(a: nat, b: nat, n: nat)
    requires a <= b
    ensures a * n <= b * n
  {
    if a < b {
      FewerStarts(a, b, n);
    }
  }

  predicate Supported(authMethod: string) {
    EqualIgnoringCase(authMethod, "basic") || EqualIgnoringCase(authMethod, "digest")
  }

  /** One of the challenges is for an authentication method that the client knows. */
  predicate KnowsOne(challenges: seq<string>) {
    exists i :: 0 <= i < |challenges| && Supported(challenges[i])
  }

  lemma OneStartLess(a: nat, b: nat, n: nat)
    requires a + 1 == b
    ensures a * n + n == b * n
  {
  }

  predicate ConnectionLost(err: HttpError) {
    err == HE_DISCONNECTED || err == HE_CONNECT_FAILED || err == HE_SOCKET_ERROR
  }

  ghost predicate GrantsAll(pool: nat -> PoolAnswer) {
    forall n :: pool(n).Granted?
  }

  lemma BudgetOfStart(retries: nat, redirects: nat, authenticated: bool)
    ensures Budget(retries, 0, redirects, authenticated) + 1 <= 2 * (MAX_REDIRECTS + 1) * (retries + 1)
    ensures redirects == 0 && !authenticated ==>
              Budget(retries, 0, redirects, authenticated) + 1 == 2 * (MAX_REDIRECTS + 1) * (retries + 1)
  {
    var n, starts, most := retries + 1, LaterStarts(redirects, authenticated), 2 * (MAX_REDIRECTS + 1) - 1;
    MoreStarts(starts, most, n);
    OneStartLess(most, most + 1, n);
  }

  class HttpClient {
    const retries_: nat
    const redirect_action_: RedirectAction
    // PROXY_HTTPS == proxy_.type, and whether it has a user name.
    const proxied: bool
    const hasUsername: bool
    var attempt_: nat
    var redirects_: nat
    // The authentication method of context_, if there is one.
    var context_: Option<string>
    // Requests to the stream pool, and calls of SignalHttpClientComplete.
    var requests: nat
    var results: seq<HttpError>
    // What `requests` may become before the next start by the user.
    ghost var limit: int

    /** Every request made and still possible is within the limit. */
    ghost predicate Paid()
      reads this
    {
      requests + Left() <= limit
    }

    function Left(): nat
      reads this
    {
      Budget(retries_, attempt_, redirects_, context_.Some?)
    }

    constructor (retries: nat, action: RedirectAction, proxied: bool, hasUsername: bool)
      ensures requests == 0 && redirects_ == 0 && context_ == None && results == []
      ensures retries_ == retries && redirect_action_ == action && this.proxied == proxied && this.hasUsername == hasUsername
    {
      retries_, redirect_action_, this.proxied, this.hasUsername := retries, action, proxied, hasUsername;
      attempt_, redirects_, context_, requests, results, limit := 0, 0, None, 0, [], 0;
    }

    /** A call that made requests has reported something exactly if the last of them was refused, and
        then one error. */
    predicate Reported(before: seq<HttpError>, pool: nat -> PoolAnswer)
      reads this
    {
      && requests > 0 && before <= results
      && |results| == |before| + (if pool(requests - 1).Granted? then 0 else 1)
      && forall i :: |before| <= i < |results| ==> results[i] != HE_NONE
    }

    /** Between the phases of a transaction there is nothing to do. */
    predicate BetweenPhases(c: Completion) {
      c.err == HE_NONE && (c.mode == HM_CONNECT || c.mode == HM_SEND || HttpCodeIsInformational(c.code))
    }

    /** A completion after which the client tries to go on with another request. */
    predicate TriesAgain(c: Completion)
      reads this
    {
      if c.err != HE_NONE then ConnectionLost(c.err) && c.code == HC_INTERNAL_SERVER_ERROR && attempt_ < retries_
      else !BetweenPhases(c) && (ShouldRedirect(c) || (c.code == HC_PROXY_AUTHENTICATION_REQUIRED && proxied))
    }

    predicate ShouldRedirect(c: Completion)
      reads this
    {
      && redirect_action_ != REDIRECT_NEVER && HttpCodeIsRedirection(c.code) && c.location && redirects_ < MAX_REDIRECTS
      && (redirect_action_ == REDIRECT_ALWAYS || c.code == HC_SEE_OTHER || c.getOrHead)
    }

    /** HttpAuthenticate, as far as the context is concerned; Negotiate and NTLM are not supported. */
    method HttpAuthenticate(authMethod: string) returns (result: HttpAuthResult)
      modifies this`context_
      ensures result == HAR_RESPONSE ==> old(context_) == None && context_ == Some(authMethod)
      ensures result != HAR_RESPONSE ==> context_ == old(context_)
      ensures result == HAR_RESPONSE <==>
                old(context_) == None && hasUsername
                && (EqualIgnoringCase(authMethod, "basic") || EqualIgnoringCase(authMethod, "digest"))
      ensures result == HAR_CREDENTIALS ==> old(context_).Some? || !hasUsername
      ensures result == HAR_IGNORE && old(context_) == None ==> !Supported(authMethod)
    {
      if context_.Some? && context_.value != authMethod {
        return HAR_IGNORE;
      }
      if Supported(authMethod) {
        if context_.Some? || !hasUsername {
          return HAR_CREDENTIALS;
        }
        context_ := Some(authMethod);
        return HAR_RESPONSE;
      }
      result := HAR_IGNORE;
    }

    /** The loop over the challenges: whether one is to be answered by a new start.  Only a client that
        has not answered yet answers, and only a method that it knows. */
    method Authenticate(c: Completion) returns (answered: bool, err: HttpError)
      modifies this`context_
      ensures answered <==> old(context_) == None && hasUsername && c.rewinds && KnowsOne(c.challenges)
      ensures err == if old(context_) == None && hasUsername && !c.rewinds && KnowsOne(c.challenges) then HE_STREAM else HE_NONE
      ensures old(context_) == None && hasUsername && KnowsOne(c.challenges) ==> context_.Some?
      ensures !(old(context_) == None && hasUsername && KnowsOne(c.challenges)) ==> context_ == old(context_)
    {
      answered, err := false, HE_NONE;
      for i := 0 to |c.challenges|
        invariant context_ == old(context_) ==>
                    err == HE_NONE && (old(context_) == None ==> forall j :: 0 <= j < i ==> !Supported(c.challenges[j]))
        invariant context_ != old(context_) ==>
                    && old(context_) == None && context_.Some? && hasUsername && !c.rewinds && err == HE_STREAM
                    && KnowsOne(c.challenges)
      {
        var result := HttpAuthenticate(c.challenges[i]);
        match result {
          case HAR_RESPONSE =>
            if !c.rewinds {
              err := HE_STREAM;
            } else {
              return true, err;
            }
          case HAR_IGNORE =>
          case HAR_CREDENTIALS => return false, err;
        }
      }
    }

    /** A completion that costs exactly one request, if the pool grants it: a retry, or a start when
        all retries are used up and the answered challenge or the redirection is the next one. */
    predicate CostsOne(c: Completion)
      reads this
    {
      || (ConnectionLost(c.err) && c.code == HC_INTERNAL_SERVER_ERROR && attempt_ < retries_ && c.rewinds)
      || (c.err == HE_NONE && c.mode == HM_RECV && attempt_ >= retries_ && c.rewinds &&
          (if ShouldRedirect(c) then context_.Some?
           else c.code == HC_PROXY_AUTHENTICATION_REQUIRED && proxied && hasUsername && context_ == None &&
                c.challenges != [] && Supported(c.challenges[0])))
    }

    /** HttpClient::connect.  `pool` answers the n-th request; a refusal completes at once. */
    method Connect(code: nat, pool: nat -> PoolAnswer)
      modifies this
      ensures requests > old(requests) && requests + Left() <= old(requests + Left()) + 1 && limit == old(limit)
      ensures GrantsAll(pool) ==>
                requests == old(requests) + 1 && attempt_ == old(attempt_) && redirects_ == old(redirects_) && context_ == old(context_)
      ensures Reported(old(results), pool)
      decreases Left(), 2
    {
      var answer := pool(requests);
      requests := requests + 1;
      if answer.Refused? {
        OnHttpComplete(Completion(HM_CONNECT, HE_CONNECT_FAILED, code, false, [], false, answer.rewinds), pool);
      }
    }

    /** The part of HttpClient::start that concerns the loop.  It does nothing for a client that is
        `busy` with an operation, and for a request that is `encoded` by a transfer encoding. */
    method Start(busy: bool, encoded: bool, code: nat, pool: nat -> PoolAnswer) returns (ok: bool)
      modifies this
      ensures ok == !(busy || encoded) && limit == old(limit)
      ensures !ok ==> requests == old(requests) && attempt_ == old(attempt_) && redirects_ == old(redirects_) &&
                      context_ == old(context_) && results == old(results)
      ensures ok ==>
                && requests > old(requests)
                && requests + Left() <= old(requests) + Budget(retries_, 0, old(redirects_), old(context_).Some?) + 1
      ensures ok ==> Reported(old(results), pool)
      ensures ok && GrantsAll(pool) ==>
                requests == old(requests) + 1 && attempt_ == 0 && redirects_ == old(redirects_) && context_ == old(context_)
      decreases Budget(retries_, 0, redirects_, context_.Some?), 3
    {
      if busy || encoded {
        return false;
      }
      attempt_ := 0;
      Connect(code, pool);
      ok := true;
    }

    /** A start by the user: from here on there are at most 12 * (retries_ + 1) requests, until the user starts or resets the client again. */
    method UserStart(busy: bool, encoded: bool, code: nat, pool: nat -> PoolAnswer) returns (ok: bool)
      modifies this
      ensures ok == !(busy || encoded)
      ensures if ok then Paid() && limit == old(requests) + 12 * (retries_ + 1)
              else requests == old(requests) && limit == old(limit) && (old(Paid()) ==> Paid())
      ensures ok && GrantsAll(pool) && old(redirects_) == 0 && old(context_) == None ==> requests + Left() == limit
    {
      ok := !(busy || encoded);
      if ok {
        limit := requests + 2 * (MAX_REDIRECTS + 1) * (retries_ + 1);
      }
      BudgetOfStart(retries_, redirects_, context_.Some?);
      ok := Start(busy, encoded, code, pool);
    }

    /** HttpClient::onHttpComplete.  Whatever the pool answers, the calls it causes come to an end,
        and every further request to the pool is paid from the budget. */
    method OnHttpComplete(c: Completion, pool: nat -> PoolAnswer)
      modifies this
      ensures requests >= old(requests) && requests + Left() <= old(requests + Left()) && limit == old(limit)
      ensures old(Paid()) ==> Paid()
      ensures GrantsAll(pool) && old(CostsOne(c)) ==>
                requests == old(requests) + 1 && requests + Left() == old(requests + Left())
      // A completion makes requests, or belongs to the middle of a transaction, or is reported once:
      // with its own error, or with HE_STREAM if the request cannot be sent again.
      ensures requests > old(requests) ==> old(TriesAgain(c)) && Reported(old(results), pool)
      ensures requests == old(requests) ==>
                if BetweenPhases(c) then results == old(results)
                else results == old(results) + [c.err] || (old(TriesAgain(c)) && !c.rewinds && results == old(results) + [HE_STREAM])
      ensures !BetweenPhases(c) && !old(TriesAgain(c)) ==> results == old(results) + [c.err] && requests == old(requests)
      ensures old(TriesAgain(c)) && c.rewinds && c.code != HC_PROXY_AUTHENTICATION_REQUIRED ==> requests > old(requests)
      // An error is met by another attempt if the connection failed before a response came and attempts
      // are left; if the request cannot be sent again, that is what is reported.
      ensures c.err in {HE_DISCONNECTED, HE_CONNECT_FAILED, HE_SOCKET_ERROR} && c.code == 500 && old(attempt_) < retries_ ==>
                if c.rewinds then requests > old(requests)
                else requests == old(requests) && results == old(results) + [HE_STREAM]
      ensures GrantsAll(pool) && c.rewinds &&
              c.err in {HE_DISCONNECTED, HE_CONNECT_FAILED, HE_SOCKET_ERROR} && c.code == 500 && old(attempt_) < retries_ ==>
                && requests == old(requests) + 1 && attempt_ == old(attempt_) + 1
                && redirects_ == old(redirects_) && context_ == old(context_)
      // Any other error is reported, and nothing else happens; between the phases of a transaction
      // nothing is reported or requested.
      ensures c.err != HE_NONE &&
              !(c.err in {HE_DISCONNECTED, HE_CONNECT_FAILED, HE_SOCKET_ERROR} && c.code == 500 && old(attempt_) < retries_) ==>
                requests == old(requests) && results == old(results) + [c.err]
      ensures c.err == HE_NONE && (c.mode == HM_CONNECT || c.mode == HM_SEND || 100 <= c.code < 200) ==>
                requests == old(requests) && results == old(results) && context_ == old(context_)
      // A response with a 3xx code and a location is followed up to five times: always, if the client
      // is set up so, else for 303, GET and HEAD; and never, if it is set up so.
      ensures c.err == HE_NONE && c.mode != HM_CONNECT && c.mode != HM_SEND && 300 <= c.code < 400 ==>
                var follows := c.location && old(redirects_) < 5 && redirect_action_ != REDIRECT_NEVER &&
                               (redirect_action_ == REDIRECT_ALWAYS || c.code == 303 || c.getOrHead);
                if !follows then requests == old(requests) && results == old(results) + [HE_NONE]
                else if c.code != 303 && !c.rewinds then requests == old(requests) && results == old(results) + [HE_STREAM]
                else
                  && requests > old(requests)
                  && (GrantsAll(pool) ==>
                        requests == old(requests) + 1 && attempt_ == 0 && redirects_ == old(redirects_) + 1 && context_ == None)
      // A challenge of a proxy is answered once, with a method that the client knows.
      ensures c.err == HE_NONE && c.mode != HM_CONNECT && c.mode != HM_SEND && c.code == 407 && proxied ==>
                if !(old(context_) == None && hasUsername && KnowsOne(c.challenges)) then
                  requests == old(requests) && results == old(results) + [HE_NONE]
                else if !c.rewinds then requests == old(requests) && results == old(results) + [HE_STREAM]
                else
                  && requests > old(requests)
                  && (GrantsAll(pool) ==>
                        requests == old(requests) + 1 && attempt_ == 0 && redirects_ == old(redirects_) && context_.Some?)
      // Every other response is the result.
      ensures c.err == HE_NONE && c.mode != HM_CONNECT && c.mode != HM_SEND &&
              !(100 <= c.code < 200) && !(300 <= c.code < 400) && !(c.code == 407 && proxied) ==>
                requests == old(requests) && results == old(results) + [HE_NONE]
      decreases Left(), 1
    {
      var err := c.err;
      if ConnectionLost(err) && c.code == HC_INTERNAL_SERVER_ERROR && attempt_ < retries_ {
        attempt_ := attempt_ + 1;
        if c.rewinds {
          Connect(c.code, pool);
          return;
        }
        err := HE_STREAM;
      } else if err != HE_NONE {
      } else if c.mode == HM_CONNECT {
        return;
      } else if c.mode == HM_SEND || HttpCodeIsInformational(c.code) {
        return;
      } else if ShouldRedirect(c) {
        if c.code == HC_SEE_OTHER || c.rewinds {
          Redirect(pool);
          return;
        }
        err := HE_STREAM;
      } else if c.code == HC_PROXY_AUTHENTICATION_REQUIRED && proxied {
        var answered;
        answered, err := Challenge(c, pool);
        if answered {
          return;
        }
      }
      results := results + [err];
    }

    method Challenge(c: Completion, pool: nat -> PoolAnswer) returns (answered: bool, err: HttpError)
      modifies this
      ensures requests >= old(requests) && requests + Left() <= old(requests + Left()) && limit == old(limit)
      ensures answered <==> old(context_) == None && hasUsername && c.rewinds && KnowsOne(c.challenges)
      ensures GrantsAll(pool) && answered && old(attempt_) >= retries_ ==> requests + Left() == old(requests + Left())
      ensures GrantsAll(pool) && answered ==>
                requests == old(requests) + 1 && attempt_ == 0 && redirects_ == old(redirects_) && context_.Some?
      ensures if answered then requests > old(requests) && Reported(old(results), pool)
              else
                && requests == old(requests) && results == old(results)
                && attempt_ == old(attempt_) && redirects_ == old(redirects_)
                && err == if old(context_) == None && hasUsername && KnowsOne(c.challenges) then HE_STREAM else HE_NONE
      decreases Left(), 0
    {
      ghost var before := context_.Some?;
      answered, err := Authenticate(c);
      MoreStarts(LaterStarts(redirects_, context_.Some?), LaterStarts(redirects_, before), retries_ + 1);
      if answered {
        OneStartLess(LaterStarts(redirects_, true), LaterStarts(redirects_, false), retries_ + 1);
        var ok := Start(false, false, HC_INTERNAL_SERVER_ERROR, pool);
      }
    }

    method Redirect(pool: nat -> PoolAnswer)
      requires redirects_ < MAX_REDIRECTS
      modifies this
      ensures requests >= old(requests) && requests + Left() <= old(requests + Left()) && limit == old(limit)
      ensures GrantsAll(pool) && old(context_).Some? && old(attempt_) >= retries_ ==>
                requests + Left() == old(requests + Left())
      ensures GrantsAll(pool) ==>
                requests == old(requests) + 1 && attempt_ == 0 && redirects_ == old(redirects_) + 1 && context_ == None
      ensures requests > old(requests) && Reported(old(results), pool)
      decreases Left(), 0
    {
      var n := retries_ + 1;
      FewerStarts(LaterStarts(redirects_ + 1, false), LaterStarts(redirects_, context_.Some?), n);
      OneStartLess(LaterStarts(redirects_ + 1, false), LaterStarts(redirects_, true), n);
      redirects_ := redirects_ + 1;
      context_ := None;
      var ok := Start(false, false, HC_INTERNAL_SERVER_ERROR, pool);
    }
  }

  /** The bound is attained: lose every connection as long as there are retries, then challenge, then
      redirect, and so on. */
  method WorstCase(retries: nat) returns (client: HttpClient)
    ensures client.requests == 12 * (retries + 1)
    ensures client.retries_ == retries
  {
    client := new HttpClient(retries, REDIRECT_ALWAYS, true, true);
    var pool: nat -> PoolAnswer := _ => Granted;
    var ok := client.UserStart(false, false, HC_INTERNAL_SERVER_ERROR, pool);
    while client.Left() > 0
      invariant client.requests + client.Left() == client.limit == 2 * (MAX_REDIRECTS + 1) * (retries + 1)
      invariant client.retries_ == retries && client.proxied && client.hasUsername && client.redirect_action_ == REDIRECT_ALWAYS
      decreases client.Left()
    {
      var c;
      if client.attempt_ < retries {
        c := Completion(HM_RECV, HE_DISCONNECTED, HC_INTERNAL_SERVER_ERROR, false, [], true, true);
      } else if client.context_ == None {
        c := Completion(HM_RECV, HE_NONE, HC_PROXY_AUTHENTICATION_REQUIRED, false, ["basic"], true, true);
      } else {
        c := Completion(HM_RECV, HE_NONE, 302, true, [], true, true);
        NoStartsLeft(retries, client.attempt_, client.redirects_);
      }
      client.OnHttpComplete(c, pool);
    }
  }

  lemma NoStartsLeft(retries: nat, attempt: nat, redirects: nat)
    requires attempt >= retries && Budget(retries, attempt, redirects, true) > 0
    ensures redirects < MAX_REDIRECTS
  {
  }
}
