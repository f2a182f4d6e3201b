/** app-server/src/api/auth.rs: the two steps of the Pocket OAuth handshake.
    `get_request_token` opens a session holding Pocket's request token and a
    fresh CSRF token and redirects the browser to Pocket with an encrypted
    state token; `get_access_token` takes that state token back, checks it
    against the session and stores the access token Pocket hands out. */
module Auth {
  import opened Wrappers
  import opened Errors
  import opened Http
  import opened TypedResponses
  import opened OAuth
  import opened Sessions
  import opened Store
  import opened Pocket

  /** `Config`: the JWS signing secret and the JWE encryption key. */
  datatype Config = Config(signingSecret: Secret, encryptionKey: Key)

  /** The cookie lifetime, `Duration::minutes(60)`, in seconds. */
  const SessionLifetime: int := 60 * 60

  const StoreFailedText: string := "Failed to store session"
  /** `format!("Failed parse header value: {e}")` with the text of
      `InvalidHeaderValue`. */
  const ParseHeaderFailedText: string := "Failed parse header value: failed to parse header value"
  const MissingStateText: string := "Missing state param"
  const SessionMissingText: string := "Couldn't find the session"
  const EmptySessionText: string := "Empty session"
  const NoCsrfText: string := "CSRF token missing in session"
  const CsrfMismatchText: string := "CSRF token doesn't match"

  /** The record `get_request_token` stores. */
  function InitialSession(code: string, csrf: string): (d: SessionData)
    ensures d == Sessions.Default().(requestToken := Some(code), csrfToken := Some(csrf))
  {
    SessionData(Some(code), None, Some(csrf), None)
  }

  /** The authorisation URI: Pocket's authorise page with the request token,
      a redirect back to the app and the state token twice, once inside the
      redirect URI (with `?` escaped as `%3F`) and once as its own parameter. */
  function AuthUri(code: string, redirectUrl: string, token: string): (uri: string)
    ensures uri == AuthorizeUri(code, redirectUrl) + "%3Fstate=" + token + "&state=" + token
    ensures ValidHeaderValue(uri) <==> ValidHeaderValue(code) && ValidHeaderValue(redirectUrl) && ValidHeaderValue(token)
  {
    var uri := AuthorizeUrl + "?request_token=" + code + "&redirect_uri=" + redirectUrl + "%3Fstate=" + token + "&state=" + token;
    ValidHeaderValueConcat(AuthorizeUri(code, redirectUrl) + "%3Fstate=" + token + "&state=", token);
    ValidHeaderValueConcat(AuthorizeUri(code, redirectUrl) + "%3Fstate=" + token, "&state=");
    ValidHeaderValueConcat(AuthorizeUri(code, redirectUrl) + "%3Fstate=", token);
    ValidHeaderValueConcat(AuthorizeUri(code, redirectUrl), "%3Fstate=");
    assert ValidHeaderValue("%3Fstate=") && ValidHeaderValue("&state=");
    uri
  }

  /** The `Set-Cookie` value of `Cookie::build(COOKIE_NAME, cookie)
      .http_only(true).expires(..).path("/")`, in the order the cookie crate
      writes the attributes. */
  function SessionCookieHeader(cookie: string, expires: string): (h: string)
    ensures |h| == |CookieName| + 1 + |cookie| + 28 + |expires|
    ensures h[..|CookieName| + 1] == CookieName + "="
    ensures h[|CookieName| + 1..|CookieName| + 1 + |cookie|] == cookie
    ensures h[|CookieName| + 1 + |cookie|..|CookieName| + 1 + |cookie| + 28] == "; HttpOnly; Path=/; Expires="
    ensures h[|CookieName| + 1 + |cookie| + 28..] == expires
    ensures ValidHeaderValue(h) <==> ValidHeaderValue(cookie) && ValidHeaderValue(expires)
  {
    var h := CookieName + "=" + cookie + "; HttpOnly; Path=/; Expires=" + expires;
    ValidHeaderValueConcat(CookieName + "=" + cookie + "; HttpOnly; Path=/; Expires=", expires);
    ValidHeaderValueConcat(CookieName + "=" + cookie, "; HttpOnly; Path=/; Expires=");
    ValidHeaderValueConcat(CookieName + "=", cookie);
    assert ValidHeaderValue(CookieName + "=") && ValidHeaderValue("; HttpOnly; Path=/; Expires=");
    h
  }

  /** Read back, the header is the `ID` pair followed by the attributes
      HttpOnly, Path=/ and Expires, in that order, when neither the cookie
      nor the date holds a `;`. */
  lemma SessionCookieParses(cookie: string, expires: string)
    requires ';' !in cookie && ';' !in expires
    ensures SplitOn(SessionCookieHeader(cookie, expires), ';') ==
              [CookieName + "=" + cookie, " HttpOnly", " Path=/", " Expires=" + expires]
  {
    SessionCookieJoin(cookie, expires);
    SplitJoin([CookieName + "=" + cookie, " HttpOnly", " Path=/", " Expires=" + expires], ';');
  }

  /** The session cookie is its four pieces joined with `;`. */
  lemma SessionCookieJoin(cookie: string, expires: string)
    ensures JoinOn([CookieName + "=" + cookie, " HttpOnly", " Path=/", " Expires=" + expires], ';') ==
              CookieName + "=" + cookie + "; HttpOnly; Path=/; Expires=" + expires
  {
    var parts := [CookieName + "=" + cookie, " HttpOnly", " Path=/", " Expires=" + expires];
    assert JoinOn(parts[3..], ';') == " Expires=" + expires;
    assert JoinOn(parts[2..], ';') == " Path=/" + [';'] + " Expires=" + expires by { assert parts[2..][1..] == parts[3..]; }
    assert JoinOn(parts[1..], ';') == " HttpOnly" + [';'] + " Path=/" + [';'] + " Expires=" + expires by { assert parts[1..][1..] == parts[2..]; }
    assert "; HttpOnly; Path=/; Expires=" == [';'] + " HttpOnly" + [';'] + " Path=/" + [';'] + " Expires=";
  }

  // ---------------------------------------------------------------------
  // get_request_token

  /** What `get_request_token` answers. `csrfEntropy` and `nonceEntropy`
      are the random bytes behind the CSRF token and the JWE nonce;
      `issued` is the store's answer to `store_session`. */
  function RequestTokenResult(c: Crypto<OAuthState>, config: Config, pocket: Client,
                              csrfEntropy: seq<byte>, nonceEntropy: seq<byte>, issued: Option<string>): Result<TypedResponse<()>, Error>
    requires |csrfEntropy| >= 32 && |nonceEntropy| >= 12
  {
    match pocket.requestToken
    case Err(m) => Err(From(PocketyError(m)))
    case Ok(code) =>
      if issued.None? then Err(Api(InternalServerError(StoreFailedText)))
      else
        match IntoToken(c, OAuthState(code, issued.value, CsrfTokenOf(csrfEntropy)), config.signingSecret, config.encryptionKey, nonceEntropy)
        case Err(e) => Err(e)
        case Ok(token) =>
          var uri := AuthUri(code, pocket.redirectUrl, token);
          if !ValidHeaderValue(uri) then Err(Api(InternalServerError(ParseHeaderFailedText)))
          else Ok(WithStatus(WithHeaders(New(None), Some(map[Location := uri])), StatusSeeOther))
  }

  /** The store after `get_request_token`: the new session is stored as soon
      as Pocket has answered and the store has accepted it. */
  function RequestTokenStore(sessions: map<string, Session<SessionData>>, pocket: Client,
                             csrfEntropy: seq<byte>, issued: Option<string>): map<string, Session<SessionData>>
    requires |csrfEntropy| >= 32
  {
    if pocket.requestToken.Ok? && issued.Some? then
      sessions[issued.value := map[SessionKey := InitialSession(pocket.requestToken.value, CsrfTokenOf(csrfEntropy))]]
    else sessions
  }

  /** `get_request_token`. */
  method GetRequestToken(store: MemoryStore<SessionData>, c: Crypto<OAuthState>, config: Config, pocket: Client,
                         csrfEntropy: seq<byte>, nonceEntropy: seq<byte>, issued: Option<string>)
    returns (r: Result<TypedResponse<()>, Error>)
    requires store.Valid() && |csrfEntropy| >= 32 && |nonceEntropy| >= 12
    requires issued.Some? ==> issued.value !in store.sessions && ValidHeaderValue(issued.value)
    modifies store
    ensures store.Valid()
    ensures r == RequestTokenResult(c, config, pocket, csrfEntropy, nonceEntropy, issued)
    ensures store.sessions == RequestTokenStore(old(store.sessions), pocket, csrfEntropy, issued)
  {
    if pocket.requestToken.Err? {
      return Err(From(PocketyError(pocket.requestToken.error)));
    }
    var code := pocket.requestToken.value;
    var csrfToken := GenerateCsrfToken(csrfEntropy);
    var sessionData := Sessions.Default().(requestToken := Some(code), csrfToken := Some(csrfToken));
    var session: Session<SessionData> := map[SessionKey := sessionData];
    var stored := store.StoreSession(session, issued);
    if stored.None? {
      return Err(Api(InternalServerError(StoreFailedText)));
    }
    var sessionCookie := stored.value;
    var token :- IntoToken(c, OAuthState(code, sessionCookie, csrfToken), config.signingSecret, config.encryptionKey, nonceEntropy);
    var authUri := AuthUri(code, pocket.redirectUrl, token);
    if !ValidHeaderValue(authUri) {
      return Err(Api(InternalServerError(ParseHeaderFailedText)));
    }
    var headers: HeaderMap := map[Location := authUri];
    r := Ok(WithStatus(WithHeaders(New(None), Some(headers)), StatusSeeOther));
  }

  /** When every step succeeds the answer is a bodiless 303 whose only
      header is the authorisation URI, and the state token inside it
      decrypts to the request token, the new session's cookie and the CSRF
      token stored in that session. */
  lemma RequestTokenRedirects(c: Crypto<OAuthState>, config: Config, pocket: Client,
                              csrfEntropy: seq<byte>, nonceEntropy: seq<byte>, cookie: string)
    requires Lawful(c) && |csrfEntropy| >= 32 && |nonceEntropy| >= 12
    requires RequestTokenResult(c, config, pocket, csrfEntropy, nonceEntropy, Some(cookie)).Ok?
    ensures var state := OAuthState(pocket.requestToken.value, cookie, CsrfTokenOf(csrfEntropy));
            var token := IntoToken(c, state, config.signingSecret, config.encryptionKey, nonceEntropy);
            var t := RequestTokenResult(c, config, pocket, csrfEntropy, nonceEntropy, Some(cookie)).value;
            && token.Ok?
            && t.statusCode == StatusSeeOther && t.body.None?
            && t.headers == Some(map[Location := AuthUri(pocket.requestToken.value, pocket.redirectUrl, token.value)])
            && FromToken(c, token.value, config.signingSecret, config.encryptionKey) == Ok(state)
  {
    var state := OAuthState(pocket.requestToken.value, cookie, CsrfTokenOf(csrfEntropy));
    StateRoundTrip(c, state, config.signingSecret, config.encryptionKey, nonceEntropy);
  }

  /** Failures of `get_request_token`: a Pocket failure or a store failure
      leaves the store as it was; a failure after the session was stored
      (token creation, header parsing) leaves that session behind. */
  lemma RequestTokenFailures(c: Crypto<OAuthState>, config: Config, pocket: Client,
                             csrfEntropy: seq<byte>, nonceEntropy: seq<byte>, issued: Option<string>,
                             sessions: map<string, Session<SessionData>>)
    requires |csrfEntropy| >= 32 && |nonceEntropy| >= 12
    requires RequestTokenResult(c, config, pocket, csrfEntropy, nonceEntropy, issued).Err?
    requires issued.Some? ==> issued.value !in sessions
    ensures var e := RequestTokenResult(c, config, pocket, csrfEntropy, nonceEntropy, issued).error;
            && (pocket.requestToken.Err? ==> e == Pocket(pocket.requestToken.error) && Errors.IntoResponse(e).status == StatusInternalServerError)
            && (pocket.requestToken.Ok? && issued.None? ==> e == Api(InternalServerError(StoreFailedText)))
            && (RequestTokenStore(sessions, pocket, csrfEntropy, issued) == sessions <==> pocket.requestToken.Err? || issued.None?)
  {
    if pocket.requestToken.Ok? && issued.Some? {
      var s := RequestTokenStore(sessions, pocket, csrfEntropy, issued);
      assert issued.value in s.Keys - sessions.Keys;
    }
  }

  // ---------------------------------------------------------------------
  // get_access_token

  /** `GetAccessTokenResponse`. */
  datatype AccessTokenBody = AccessTokenBody(username: string, state: Option<string>)

  /** The checks of `get_access_token` in the order the source makes them:
      the state is present and decrypts; Pocket hands out an access token;
      the session named by the state exists and holds a record; the record
      has a CSRF token and it equals the state's. On success, the decoded
      state, Pocket's answer and the stored record. */
  function AccessTokenCheck(c: Crypto<OAuthState>, config: Config, pocket: Client,
                            stateParam: Option<string>, sessions: map<string, Session<SessionData>>)
    : (r: Result<(OAuthState, AccessTokenReply, SessionData), Error>)
    ensures r.Ok? ==>
              && stateParam.Some?
              && FromToken(c, stateParam.value, config.signingSecret, config.encryptionKey) == Ok(r.value.0)
              && pocket.accessToken(r.value.0.requestToken) == Ok(r.value.1)
              && r.value.0.sessionCookie in sessions && SessionKey in sessions[r.value.0.sessionCookie]
              && r.value.2 == sessions[r.value.0.sessionCookie][SessionKey]
              && r.value.2.csrfToken == Some(r.value.0.csrfToken)
    ensures stateParam.None? ==> r == Err(Api(BadRequest(MissingStateText)))
    ensures stateParam.Some? && FromToken(c, stateParam.value, config.signingSecret, config.encryptionKey).Err? ==>
              r == Err(FromToken(c, stateParam.value, config.signingSecret, config.encryptionKey).error)
    ensures stateParam.Some? && FromToken(c, stateParam.value, config.signingSecret, config.encryptionKey).Ok? ==>
              var state := FromToken(c, stateParam.value, config.signingSecret, config.encryptionKey).value;
              var exchanged := pocket.accessToken(state.requestToken);
              && (exchanged.Err? ==> r == Err(Pocket(exchanged.error)))
              && (exchanged.Ok? && state.sessionCookie !in sessions ==> r == Err(Api(InternalServerError(SessionMissingText))))
              && (exchanged.Ok? && state.sessionCookie in sessions && SessionKey !in sessions[state.sessionCookie] ==>
                    r == Err(Api(InternalServerError(EmptySessionText))))
              && (exchanged.Ok? && state.sessionCookie in sessions && SessionKey in sessions[state.sessionCookie] ==>
                    var data := sessions[state.sessionCookie][SessionKey];
                    && (data.csrfToken.None? ==> r == Err(Api(InternalServerError(NoCsrfText))))
                    && (data.csrfToken.Some? && data.csrfToken.value != state.csrfToken ==> r == Err(Api(Unauthorized(CsrfMismatchText))))
                    && (data.csrfToken == Some(state.csrfToken) ==> r == Ok((state, exchanged.value, data))))
  {
    match stateParam
    case None => Err(Api(BadRequest(MissingStateText)))
    case Some(token) =>
      var state :- FromToken(c, token, config.signingSecret, config.encryptionKey);
      match pocket.accessToken(state.requestToken)
      case Err(m) => Err(From(PocketyError(m)))
      case Ok(reply) =>
        if state.sessionCookie !in sessions then Err(Api(InternalServerError(SessionMissingText)))
        else if SessionKey !in sessions[state.sessionCookie] then Err(Api(InternalServerError(EmptySessionText)))
        else
          var data := sessions[state.sessionCookie][SessionKey];
          if data.csrfToken.None? then Err(Api(InternalServerError(NoCsrfText)))
          else if state.csrfToken != data.csrfToken.value then Err(Api(Unauthorized(CsrfMismatchText)))
          else Ok((state, reply, data))
  }

  /** What `get_access_token` answers. `expires` is the formatted time
      `SessionLifetime` seconds from now. */
  function AccessTokenResult(c: Crypto<OAuthState>, config: Config, pocket: Client,
                             stateParam: Option<string>, sessions: map<string, Session<SessionData>>, expires: string)
    : Result<TypedResponse<AccessTokenBody>, Error>
  {
    var (state, reply, _) :- AccessTokenCheck(c, config, pocket, stateParam, sessions);
    Ok(WithHeaders(New(Some(AccessTokenBody(reply.username, reply.state))),
                   Some(map[SetCookie := SessionCookieHeader(state.sessionCookie, expires)])))
  }

  /** The store after `get_access_token`: only a request that passed every
      check adds the access token to its session's record. */
  function AccessTokenStore(c: Crypto<OAuthState>, config: Config, pocket: Client,
                            stateParam: Option<string>, sessions: map<string, Session<SessionData>>)
    : map<string, Session<SessionData>>
  {
    match AccessTokenCheck(c, config, pocket, stateParam, sessions)
    case Err(_) => sessions
    case Ok((state, reply, data)) =>
      sessions[state.sessionCookie := sessions[state.sessionCookie][SessionKey := data.(accessToken := Some(reply.accessToken))]]
  }

  /** `get_access_token`. The `parse().unwrap()` of the cookie header is an
      assertion here: the session cookie is a key of the store, so it is
      header-safe, and so is the formatted date. */
  method GetAccessToken(store: MemoryStore<SessionData>, c: Crypto<OAuthState>, config: Config, pocket: Client,
                        stateParam: Option<string>, now: int, httpDate: int -> string)
    returns (r: Result<TypedResponse<AccessTokenBody>, Error>)
    requires store.Valid()
    requires ValidHeaderValue(httpDate(now + SessionLifetime))
    modifies store
    ensures store.Valid()
    ensures r == AccessTokenResult(c, config, pocket, stateParam, old(store.sessions), httpDate(now + SessionLifetime))
    ensures store.sessions == AccessTokenStore(c, config, pocket, stateParam, old(store.sessions))
  {
    if stateParam.None? {
      return Err(Api(BadRequest(MissingStateText)));
    }
    var state :- FromToken(c, stateParam.value, config.signingSecret, config.encryptionKey);
    var res := pocket.accessToken(state.requestToken);
    if res.Err? {
      return Err(From(PocketyError(res.error)));
    }
    var loaded := store.LoadSession(state.sessionCookie);
    if loaded.None? {
      return Err(Api(InternalServerError(SessionMissingText)));
    }
    var session := loaded.value;
    if SessionKey !in session {
      return Err(Api(InternalServerError(EmptySessionText)));
    }
    var sessionData := session[SessionKey];
    if sessionData.csrfToken.None? {
      return Err(Api(InternalServerError(NoCsrfText)));
    }
    if state.csrfToken != sessionData.csrfToken.value {
      return Err(Api(Unauthorized(CsrfMismatchText)));
    }
    sessionData := sessionData.(accessToken := Some(res.value.accessToken));
    store.InsertIntoLoaded(state.sessionCookie, SessionKey, sessionData);
    var cookie := SessionCookieHeader(state.sessionCookie, httpDate(now + SessionLifetime));
    assert ValidHeaderValue(cookie);
    var headers: HeaderMap := map[SetCookie := cookie];
    r := Ok(WithHeaders(New(Some(AccessTokenBody(res.value.username, res.value.state))), Some(headers)));
  }

  /** Every failed check is answered with its error and leaves the store
      as it was: nothing is written before the last check has passed. */
  lemma AccessTokenFailures(c: Crypto<OAuthState>, config: Config, pocket: Client,
                            stateParam: Option<string>, sessions: map<string, Session<SessionData>>, expires: string)
    requires AccessTokenCheck(c, config, pocket, stateParam, sessions).Err?
    ensures AccessTokenResult(c, config, pocket, stateParam, sessions, expires) ==
              Err(AccessTokenCheck(c, config, pocket, stateParam, sessions).error)
    ensures AccessTokenStore(c, config, pocket, stateParam, sessions) == sessions
  {
  }

  /** A state token whose CSRF token differs from the one stored in the
      session it names is refused with 401, and nothing is stored. */
  lemma CsrfMismatchRejected(c: Crypto<OAuthState>, config: Config, pocket: Client,
                             token: string, sessions: map<string, Session<SessionData>>, expires: string, state: OAuthState)
    requires FromToken(c, token, config.signingSecret, config.encryptionKey) == Ok(state)
    requires pocket.accessToken(state.requestToken).Ok?
    requires state.sessionCookie in sessions && SessionKey in sessions[state.sessionCookie]
    requires sessions[state.sessionCookie][SessionKey].csrfToken.Some?
    requires sessions[state.sessionCookie][SessionKey].csrfToken.value != state.csrfToken
    ensures AccessTokenResult(c, config, pocket, Some(token), sessions, expires) == Err(Api(Unauthorized(CsrfMismatchText)))
    ensures Errors.IntoResponse(Api(Unauthorized(CsrfMismatchText))).status == StatusUnauthorized
    ensures AccessTokenStore(c, config, pocket, Some(token), sessions) == sessions
  {
  }

  /** Only the access token changes: the stored username stays as it was
      (Pocket's username is returned but not stored), and so do the request
      and CSRF tokens, so the same state token is accepted again. */
  lemma AccessTokenUpdate(c: Crypto<OAuthState>, config: Config, pocket: Client,
                          stateParam: Option<string>, sessions: map<string, Session<SessionData>>)
    requires AccessTokenCheck(c, config, pocket, stateParam, sessions).Ok?
    ensures var (state, reply, data) := AccessTokenCheck(c, config, pocket, stateParam, sessions).value;
            var after := AccessTokenStore(c, config, pocket, stateParam, sessions);
            && after.Keys == sessions.Keys
            && (forall k :: k in sessions && k != state.sessionCookie ==> after[k] == sessions[k])
            && after[state.sessionCookie][SessionKey] == data.(accessToken := Some(reply.accessToken))
            && AccessTokenCheck(c, config, pocket, stateParam, after).Ok?
  {
    var checked := AccessTokenCheck(c, config, pocket, stateParam, sessions).value;
    var after := AccessTokenStore(c, config, pocket, stateParam, sessions);
    var record: SessionData := after[checked.0.sessionCookie][SessionKey];
    assert record.csrfToken == checked.2.csrfToken;
  }

  /** The whole handshake. After `get_request_token` stored a session under
      `cookie`, handing the state token from the redirect to
      `get_access_token` succeeds (when Pocket does), sets the `ID` cookie
      to `cookie`, and a later request carrying that cookie is given the
      record with both of Pocket's tokens and the CSRF token. */
  lemma Handshake(c: Crypto<OAuthState>, config: Config, pocket: Client,
                  csrfEntropy: seq<byte>, nonceEntropy: seq<byte>, cookie: string,
                  sessions: map<string, Session<SessionData>>, expires: string)
    requires Lawful(c) && |csrfEntropy| >= 32 && |nonceEntropy| >= 12
    requires RequestTokenResult(c, config, pocket, csrfEntropy, nonceEntropy, Some(cookie)).Ok?
    requires pocket.accessToken(pocket.requestToken.value).Ok?
    ensures var code := pocket.requestToken.value;
            var csrf := CsrfTokenOf(csrfEntropy);
            var token := IntoToken(c, OAuthState(code, cookie, csrf), config.signingSecret, config.encryptionKey, nonceEntropy).value;
            var s1 := RequestTokenStore(sessions, pocket, csrfEntropy, Some(cookie));
            var r := AccessTokenResult(c, config, pocket, Some(token), s1, expires);
            var s2 := AccessTokenStore(c, config, pocket, Some(token), s1);
            && r.Ok?
            && r.value.headers == Some(map[SetCookie := SessionCookieHeader(cookie, expires)])
            && r.value.body == Some(AccessTokenBody(pocket.accessToken(code).value.username, pocket.accessToken(code).value.state))
            && FromRequestParts(Present([(CookieName, cookie)]), s2) ==
                 Ok(SessionData(Some(code), Some(pocket.accessToken(code).value.accessToken), Some(csrf), None))
  {
    RequestTokenRedirects(c, config, pocket, csrfEntropy, nonceEntropy, cookie);
  }
}
