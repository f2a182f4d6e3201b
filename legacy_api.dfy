/** app-server/src/api/mod.rs: the earlier handler set. Its login issues the
    session cookie together with the redirect, and exchanging the request
    token rotates the session: the old one is destroyed and a new one,
    under a new cookie, holds the tokens. */
module LegacyApi {
  import opened Wrappers
  import opened Errors
  import opened Http
  import opened TypedResponses
  import opened Sessions
  import opened Store
  import opened Pocket
  import Json

  /** How a handler ends: with its result, with the framework's own
      rejection of a missing or unreadable `Cookie` header (the
      `TypedHeader` extractor runs before the handler), or with a panic in
      one of its `unwrap`s. */
  datatype Outcome<T> = Returned(result: Result<T, Error>) | Rejected | Panicked

  /** `Duration::hours(1)`, in seconds. */
  const CookieLifetime: int := 60 * 60
  /** `Duration::days(7)`, in seconds. */
  const ArticlesWindow: int := 7 * 24 * 60 * 60

  const StoreFailedText: string := "failed to store session"
  const NoRequestTokenText: string := "I couldn't find your request token"
  const NoAccessTokenText: string := "I couldn't find your access_token"

  /** The login cookie: `"{COOKIE_NAME}={cookie}; Expires={expiration};
      SameSite=Lax; HttpOnly; Secure"`. */
  function LoginCookieHeader(cookie: string, expires: string): (h: string)
    ensures |h| == |CookieName| + 1 + |cookie| + 10 + |expires| + 32
    ensures h[..|CookieName| + 1] == CookieName + "="
    ensures h[|CookieName| + 1..|CookieName| + 1 + |cookie|] == cookie
    ensures h[|CookieName| + 1 + |cookie|..|CookieName| + 11 + |cookie|] == "; Expires="
    ensures h[|CookieName| + 11 + |cookie|..|CookieName| + 11 + |cookie| + |expires|] == expires
    ensures h[|CookieName| + 11 + |cookie| + |expires|..] == "; SameSite=Lax; HttpOnly; Secure"
    ensures ValidHeaderValue(h) <==> ValidHeaderValue(cookie) && ValidHeaderValue(expires)
  {
    var h := CookieName + "=" + cookie + "; Expires=" + expires + "; SameSite=Lax; HttpOnly; Secure";
    ValidHeaderValueConcat(CookieName + "=" + cookie + "; Expires=" + expires, "; SameSite=Lax; HttpOnly; Secure");
    ValidHeaderValueConcat(CookieName + "=" + cookie + "; Expires=", expires);
    ValidHeaderValueConcat(CookieName + "=" + cookie, "; Expires=");
    ValidHeaderValueConcat(CookieName + "=", cookie);
    assert ValidHeaderValue(CookieName + "=") && ValidHeaderValue("; Expires=") && ValidHeaderValue("; SameSite=Lax; HttpOnly; Secure");
    h
  }

  /** The rotated cookie: `"{COOKIE_NAME}={cookie}; SameSite=Lax; HttpOnly;
      Secure"`, with no expiry. */
  function RotatedCookieHeader(cookie: string): (h: string)
    ensures |h| == |CookieName| + 1 + |cookie| + 32
    ensures h[..|CookieName| + 1] == CookieName + "="
    ensures h[|CookieName| + 1..|CookieName| + 1 + |cookie|] == cookie
    ensures h[|CookieName| + 1 + |cookie|..] == "; SameSite=Lax; HttpOnly; Secure"
    ensures ValidHeaderValue(h) <==> ValidHeaderValue(cookie)
  {
    var h := CookieName + "=" + cookie + "; SameSite=Lax; HttpOnly; Secure";
    ValidHeaderValueConcat(CookieName + "=" + cookie, "; SameSite=Lax; HttpOnly; Secure");
    ValidHeaderValueConcat(CookieName + "=", cookie);
    assert ValidHeaderValue(CookieName + "=") && ValidHeaderValue("; SameSite=Lax; HttpOnly; Secure");
    h
  }

  /** Read back, the login cookie is the `ID` pair, its expiry and then
      SameSite=Lax, HttpOnly and Secure, when neither the cookie nor the
      date holds a `;`. */
  lemma LoginCookieParses(cookie: string, expires: string)
    requires ';' !in cookie && ';' !in expires
    ensures SplitOn(LoginCookieHeader(cookie, expires), ';') ==
              [CookieName + "=" + cookie, " Expires=" + expires, " SameSite=Lax", " HttpOnly", " Secure"]
  {
    LoginCookieJoin(cookie, expires);
    SplitJoin([CookieName + "=" + cookie, " Expires=" + expires, " SameSite=Lax", " HttpOnly", " Secure"], ';');
  }

  /** The login cookie is its five pieces joined with `;`. */
  lemma LoginCookieJoin(cookie: string, expires: string)
    ensures JoinOn([CookieName + "=" + cookie, " Expires=" + expires, " SameSite=Lax", " HttpOnly", " Secure"], ';') ==
              CookieName + "=" + cookie + "; Expires=" + expires + "; SameSite=Lax; HttpOnly; Secure"
  {
    var parts := [CookieName + "=" + cookie, " Expires=" + expires, " SameSite=Lax", " HttpOnly", " Secure"];
    SecureAttributesJoin();
    assert parts[2..] == [" SameSite=Lax", " HttpOnly", " Secure"];
    assert JoinOn(parts[1..], ';') == " Expires=" + expires + "; SameSite=Lax; HttpOnly; Secure" by {
      assert parts[1..][1..] == parts[2..];
      assert [';'] + " SameSite=Lax; HttpOnly; Secure" == "; SameSite=Lax; HttpOnly; Secure";
    }
    assert [';'] + " Expires=" == "; Expires=";
  }

  /** The attributes both cookies of this handler set end with, joined. */
  lemma SecureAttributesJoin()
    ensures JoinOn([" SameSite=Lax", " HttpOnly", " Secure"], ';') == " SameSite=Lax; HttpOnly; Secure"
  {
    var parts := [" SameSite=Lax", " HttpOnly", " Secure"];
    assert JoinOn(parts[2..], ';') == " Secure";
    assert JoinOn(parts[1..], ';') == " HttpOnly" + [';'] + " Secure" by { assert parts[1..][1..] == parts[2..]; }
  }


  /** Read back, the rotated cookie is the `ID` pair and SameSite=Lax,
      HttpOnly and Secure, with no expiry: a cookie for the browser
      session only. */
  lemma RotatedCookieParses(cookie: string)
    requires ';' !in cookie
    ensures SplitOn(RotatedCookieHeader(cookie), ';') ==
              [CookieName + "=" + cookie, " SameSite=Lax", " HttpOnly", " Secure"]
  {
    RotatedCookieJoin(cookie);
    SplitJoin([CookieName + "=" + cookie, " SameSite=Lax", " HttpOnly", " Secure"], ';');
  }

  /** The rotated cookie is its four pieces joined with `;`. */
  lemma RotatedCookieJoin(cookie: string)
    ensures JoinOn([CookieName + "=" + cookie, " SameSite=Lax", " HttpOnly", " Secure"], ';') ==
              CookieName + "=" + cookie + "; SameSite=Lax; HttpOnly; Secure"
  {
    var parts := [CookieName + "=" + cookie, " SameSite=Lax", " HttpOnly", " Secure"];
    SecureAttributesJoin();
    assert parts[1..] == [" SameSite=Lax", " HttpOnly", " Secure"];
    assert [';'] + " SameSite=Lax; HttpOnly; Secure" == "; SameSite=Lax; HttpOnly; Secure";
  }


  // ---------------------------------------------------------------------
  // get_request_token

  /** How `get_request_token` ends; `issued` is the store's answer and
      `expires` the formatted time one hour from now. */
  function RequestTokenOutcome(pocket: Client, issued: Option<string>, expires: string): Outcome<TypedResponse<()>> {
    match pocket.requestToken
    case Err(m) => Returned(Err(From(PocketyError(m))))
    case Ok(code) =>
      if issued.None? then Returned(Err(Cookie(StoreFailedText)))
      else
        var uri := AuthorizeUri(code, pocket.redirectUrl);
        if !ValidHeaderValue(uri) then Panicked
        else
          var headers := map[SetCookie := LoginCookieHeader(issued.value, expires), Location := uri];
          Returned(Ok(WithStatus(WithHeaders(New(None), Some(headers)), StatusSeeOther)))
  }

  /** The store after `get_request_token`. */
  function RequestTokenStore(sessions: map<string, Session<SessionData>>, pocket: Client, issued: Option<string>)
    : map<string, Session<SessionData>>
  {
    if pocket.requestToken.Ok? && issued.Some? then
      sessions[issued.value := map[SessionKey := Sessions.Default().(requestToken := Some(pocket.requestToken.value))]]
    else sessions
  }

  /** `get_request_token`. The `parse().unwrap()` of the cookie cannot
      panic (the store's cookie and the formatted date are header-safe);
      that of the authorisation URI panics when Pocket's code or the
      redirect URL is not. */
  method GetRequestToken(store: MemoryStore<SessionData>, pocket: Client, issued: Option<string>,
                         now: int, formatTime: int -> string)
    returns (o: Outcome<TypedResponse<()>>)
    requires store.Valid()
    requires issued.Some? ==> issued.value !in store.sessions && ValidHeaderValue(issued.value)
    requires ValidHeaderValue(formatTime(now + CookieLifetime))
    modifies store
    ensures store.Valid()
    ensures o == RequestTokenOutcome(pocket, issued, formatTime(now + CookieLifetime))
    ensures store.sessions == RequestTokenStore(old(store.sessions), pocket, issued)
  {
    if pocket.requestToken.Err? {
      return Returned(Err(From(PocketyError(pocket.requestToken.error))));
    }
    var code := pocket.requestToken.value;
    var authUri := AuthorizeUri(code, pocket.redirectUrl);
    var sessionData := Sessions.Default().(requestToken := Some(code));
    var session: Session<SessionData> := map[SessionKey := sessionData];
    var cookieExpiration := formatTime(now + CookieLifetime);
    var stored := store.StoreSession(session, issued);
    if stored.None? {
      return Returned(Err(Cookie(StoreFailedText)));
    }
    var cookie := LoginCookieHeader(stored.value, cookieExpiration);
    assert ValidHeaderValue(cookie);
    var headers: HeaderMap := map[SetCookie := cookie];
    if !ValidHeaderValue(authUri) {
      return Panicked;
    }
    headers := headers[Location := authUri];
    o := Returned(Ok(WithStatus(WithHeaders(New(None), Some(headers)), StatusSeeOther)));
  }

  /** A successful login stores a record holding only the request token,
      and answers 303 with exactly two headers: the session cookie naming
      that record and the authorisation URI. */
  lemma RequestTokenIssuesCookie(pocket: Client, cookie: string, expires: string, sessions: map<string, Session<SessionData>>)
    requires RequestTokenOutcome(pocket, Some(cookie), expires).Returned?
    requires RequestTokenOutcome(pocket, Some(cookie), expires).result.Ok?
    ensures var t := RequestTokenOutcome(pocket, Some(cookie), expires).result.value;
            && t.statusCode == StatusSeeOther && t.body.None?
            && t.headers.Some? && t.headers.value.Keys == {SetCookie, Location}
            && t.headers.value[SetCookie] == LoginCookieHeader(cookie, expires)
            && t.headers.value[Location] == AuthorizeUri(pocket.requestToken.value, pocket.redirectUrl)
            && FromRequestParts(Present([(CookieName, cookie)]), RequestTokenStore(sessions, pocket, Some(cookie))) ==
                 Ok(SessionData(Some(pocket.requestToken.value), None, None, None))
  {
    assert Http.CookieGet([(CookieName, cookie)], CookieName) == Some(cookie);
  }

  // ---------------------------------------------------------------------
  // get_access_token

  /** `GetAccessTokenResponse` of this file. */
  datatype AccessTokenBody = AccessTokenBody(username: string, state: Option<string>)

  /** The record a successful exchange stores under the new cookie. */
  function RotatedSession(requestToken: string, reply: AccessTokenReply): (d: SessionData)
    ensures d.requestToken == Some(requestToken) && d.accessToken == Some(reply.accessToken)
    ensures d.username == Some(reply.username) && d.csrfToken.None?
  {
    SessionData(Some(requestToken), Some(reply.accessToken), None, Some(reply.username))
  }

  /** How `get_access_token` ends: the header and the session extractor
      first, then the request token guard, then Pocket, then the rotation,
      where a store failure panics. */
  function AccessTokenOutcome(pocket: Client, header: CookieHeader, sessions: map<string, Session<SessionData>>,
                              issued: Option<string>): Outcome<TypedResponse<AccessTokenBody>>
  {
    if !header.Present? then Rejected
    else
      match FromRequestParts(header, sessions)
      case Err(e) => Returned(Err(e))
      case Ok(data) =>
        match data.requestToken
        case None => Returned(Err(Pockety(NoRequestTokenText)))
        case Some(requestToken) =>
          match pocket.accessToken(requestToken)
          case Err(m) => Returned(Err(From(PocketyError(m))))
          case Ok(reply) =>
            if issued.None? then Panicked
            else Returned(Ok(WithHeaders(New(Some(AccessTokenBody(reply.username, reply.state))),
                                         Some(map[SetCookie := RotatedCookieHeader(issued.value)]))))
  }

  /** The store after `get_access_token`: once Pocket has answered, the
      request's session is gone, and a new one is stored when the store
      accepts it. */
  function AccessTokenStore(pocket: Client, header: CookieHeader, sessions: map<string, Session<SessionData>>,
                            issued: Option<string>): map<string, Session<SessionData>>
  {
    if header.Present? && FromRequestParts(header, sessions).Ok? then
      var data := FromRequestParts(header, sessions).value;
      if data.requestToken.Some? && pocket.accessToken(data.requestToken.value).Ok? then
        var previous := CookieGet(header.pairs, CookieName).value;
        var rest := sessions - {previous};
        if issued.Some? then
          rest[issued.value := map[SessionKey := RotatedSession(data.requestToken.value, pocket.accessToken(data.requestToken.value).value)]]
        else rest
      else sessions
    else sessions
  }

  /** `get_access_token`. The two `unwrap`s before `destroy_session` cannot
      panic: the extractor has just found the cookie and its session. */
  method GetAccessToken(store: MemoryStore<SessionData>, pocket: Client, header: CookieHeader, issued: Option<string>)
    returns (o: Outcome<TypedResponse<AccessTokenBody>>)
    requires store.Valid()
    requires issued.Some? ==> issued.value !in store.sessions && ValidHeaderValue(issued.value)
    modifies store
    ensures store.Valid()
    ensures o == AccessTokenOutcome(pocket, header, old(store.sessions), issued)
    ensures store.sessions == AccessTokenStore(pocket, header, old(store.sessions), issued)
  {
    if !header.Present? {
      return Rejected;
    }
    var extracted := FromRequestParts(header, store.sessions);
    if extracted.Err? {
      return Returned(Err(extracted.error));
    }
    var sessionData := extracted.value;
    if sessionData.requestToken.None? {
      return Returned(Err(Pockety(NoRequestTokenText)));
    }
    var requestToken := sessionData.requestToken.value;
    var res := pocket.accessToken(requestToken);
    if res.Err? {
      return Returned(Err(From(PocketyError(res.error))));
    }
    var cookie := CookieGet(header.pairs, CookieName);
    assert cookie.Some?;
    var loaded := store.LoadSession(cookie.value);
    assert loaded.Some?;
    store.DestroySession(cookie.value);
    var session: Session<SessionData> := map[SessionKey := RotatedSession(requestToken, res.value)];
    var stored := store.StoreSession(session, issued);
    if stored.None? {
      return Panicked;
    }
    var setCookie := RotatedCookieHeader(stored.value);
    assert ValidHeaderValue(setCookie);
    var headers: HeaderMap := map[SetCookie := setCookie];
    o := Returned(Ok(WithHeaders(New(Some(AccessTokenBody(res.value.username, res.value.state))), Some(headers))));
  }

  /** A successful exchange rotates the session: the request's cookie no
      longer loads anything, the new cookie loads the record with the
      request token, the access token and the username, and every other
      session is untouched. */
  lemma AccessTokenRotates(pocket: Client, header: CookieHeader, sessions: map<string, Session<SessionData>>, cookie: string)
    requires header.Present?
    requires AccessTokenOutcome(pocket, header, sessions, Some(cookie)).Returned?
    requires AccessTokenOutcome(pocket, header, sessions, Some(cookie)).result.Ok?
    requires cookie !in sessions
    ensures var previous := CookieGet(header.pairs, CookieName).value;
            var data := FromRequestParts(header, sessions).value;
            var reply := pocket.accessToken(data.requestToken.value).value;
            var after := AccessTokenStore(pocket, header, sessions, Some(cookie));
            && previous !in after
            && FromRequestParts(header, after) == Err(Cookie(Sessions.NoSessionText))
            && FromRequestParts(Present([(CookieName, cookie)]), after) == Ok(RotatedSession(data.requestToken.value, reply))
            && (forall k :: k in sessions && k != previous ==> k in after && after[k] == sessions[k])
            && AccessTokenOutcome(pocket, header, sessions, Some(cookie)).result.value.headers ==
                 Some(map[SetCookie := RotatedCookieHeader(cookie)])
            && AccessTokenOutcome(pocket, header, sessions, Some(cookie)).result.value.body ==
                 Some(AccessTokenBody(reply.username, reply.state))
            && AccessTokenOutcome(pocket, header, sessions, Some(cookie)).result.value.statusCode == StatusOk
  {
    assert Http.CookieGet([(CookieName, cookie)], CookieName) == Some(cookie);
  }

  /** A session without a request token is refused before Pocket is asked:
      the outcome is the same whatever Pocket would answer, and the store
      is untouched. */
  lemma NoRequestTokenNoPocketCall(pocket1: Client, pocket2: Client, header: CookieHeader,
                                   sessions: map<string, Session<SessionData>>, issued: Option<string>)
    requires header.Present? && FromRequestParts(header, sessions).Ok?
    requires FromRequestParts(header, sessions).value.requestToken.None?
    ensures AccessTokenOutcome(pocket1, header, sessions, issued) == AccessTokenOutcome(pocket2, header, sessions, issued)
    ensures AccessTokenOutcome(pocket1, header, sessions, issued) == Returned(Err(Pockety(NoRequestTokenText)))
    ensures AccessTokenStore(pocket1, header, sessions, issued) == sessions
  {
  }

  /** When the store refuses the new session the handler panics after the
      old one was destroyed: the user is logged out and the access token is
      lost. */
  lemma StoreFailureLosesSession(pocket: Client, header: CookieHeader, sessions: map<string, Session<SessionData>>)
    requires header.Present? && FromRequestParts(header, sessions).Ok?
    requires FromRequestParts(header, sessions).value.requestToken.Some?
    requires pocket.accessToken(FromRequestParts(header, sessions).value.requestToken.value).Ok?
    ensures AccessTokenOutcome(pocket, header, sessions, None) == Panicked
    ensures FromRequestParts(header, AccessTokenStore(pocket, header, sessions, None)).Err?
    ensures |AccessTokenStore(pocket, header, sessions, None)| == |sessions| - 1
  {
  }

  // ---------------------------------------------------------------------
  // get_articles and get_session_info

  /** `GetArticlesResponse`. */
  datatype ArticlesBody = ArticlesBody(articles: seq<Json.Json>)

  /** `get_articles` after the extractor: without an access token no call
      is made; otherwise Pocket is asked for the items of the last seven
      days. */
  function GetArticles(pocket: Client, data: SessionData, now: int): (r: Result<TypedResponse<ArticlesBody>, Error>)
    ensures data.accessToken.None? ==> r == Err(Pockety(NoAccessTokenText))
    ensures data.accessToken.Some? ==>
              (r.Ok? <==> pocket.retrieve(data.accessToken.value, now - ArticlesWindow).Ok?)
    ensures r.Ok? ==> r.value == New(Some(ArticlesBody(pocket.retrieve(data.accessToken.value, now - ArticlesWindow).value)))
    ensures r.Err? && data.accessToken.Some? ==> r.error == Pocket(pocket.retrieve(data.accessToken.value, now - ArticlesWindow).error)
  {
    match data.accessToken
    case None => Err(Pockety(NoAccessTokenText))
    case Some(accessToken) =>
      match pocket.retrieve(accessToken, now - ArticlesWindow)
      case Ok(articles) => Ok(New(Some(ArticlesBody(articles))))
      case Err(m) => Err(From(PocketyError(m)))
  }

  /** Without an access token the answer does not depend on Pocket, and it
      is a 500. */
  lemma ArticlesGuard(pocket1: Client, pocket2: Client, data: SessionData, now: int)
    requires data.accessToken.None?
    ensures GetArticles(pocket1, data, now) == GetArticles(pocket2, data, now)
    ensures Errors.IntoResponse(GetArticles(pocket1, data, now).error).status == StatusInternalServerError
  {
  }

  /** `GetSessionInfoResponse`. */
  datatype SessionInfoBody = SessionInfoBody(username: Option<string>)

  /** `get_session_info`: the session's username, as stored. */
  function GetSessionInfo(data: SessionData): (r: TypedResponse<SessionInfoBody>)
    ensures r.body == Some(SessionInfoBody(data.username))
    ensures r.headers.None? && r.statusCode == StatusOk
  {
    New(Some(SessionInfoBody(data.username)))
  }

  /** After a rotation, the session info under the new cookie reports the
      username Pocket returned. */
  lemma SessionInfoAfterLogin(pocket: Client, header: CookieHeader, sessions: map<string, Session<SessionData>>, cookie: string)
    requires header.Present?
    requires AccessTokenOutcome(pocket, header, sessions, Some(cookie)).Returned?
    requires AccessTokenOutcome(pocket, header, sessions, Some(cookie)).result.Ok?
    requires cookie !in sessions
    ensures var after := AccessTokenStore(pocket, header, sessions, Some(cookie));
            var body := AccessTokenOutcome(pocket, header, sessions, Some(cookie)).result.value.body.value;
            && FromRequestParts(Present([(CookieName, cookie)]), after).Ok?
            && GetSessionInfo(FromRequestParts(Present([(CookieName, cookie)]), after).value).body ==
                 Some(SessionInfoBody(Some(body.username)))
  {
    AccessTokenRotates(pocket, header, sessions, cookie);
  }
}
