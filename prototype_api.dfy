/** server/src/api/mod.rs: the prototype's handlers. The request token is
    handed to the browser in a JSON body, and the access token exchange
    creates the session under a random 32-character id. */
module ProtoApi {
  import opened Wrappers
  import opened Http
  import TypedResponses
  import opened Store
  import opened ProtoServer
  import Errors
  import Pocket
  import Sessions
  import Json

  /** The prototype's `Pockety`: its request and access token calls answer
      with a bare token; `retrieve` maps a `since` time to the items. */
  datatype Client = Client(
    redirectUrl: string,
    requestToken: Result<string, string>,
    accessToken: string -> Result<string, string>,
    retrieve: int -> Result<seq<Json.Json>, string>)

  const StoreFailedText: string := "Failed to store session"
  /** `Duration::days(7)`, in seconds. */
  const ArticlesWindow: int := 7 * 24 * 60 * 60

  /** `GetRequestTokenResponse`. */
  datatype RequestTokenBody = RequestTokenBody(requestToken: string, authUri: string)

  /** `get_request_token`: the request token and the authorisation URI in
      the body, default headers and status, and no session. */
  function GetRequestToken(pocket: Client): (r: Result<TypedResponses.TypedResponse<RequestTokenBody>, Error>)
    ensures r.Err? <==> pocket.requestToken.Err?
    ensures r.Err? ==> r.error == Converted(Errors.PocketyError(pocket.requestToken.error))
    ensures r.Ok? ==> r.value == TypedResponses.Default().(body := Some(RequestTokenBody(pocket.requestToken.value,
                                   Pocket.AuthorizeUri(pocket.requestToken.value, pocket.redirectUrl))))
    ensures r.Ok? ==> r.value.headers.None? && r.value.statusCode == StatusOk
  {
    match pocket.requestToken
    case Err(m) => Err(Converted(Errors.PocketyError(m)))
    case Ok(requestToken) =>
      Ok(TypedResponses.Default().(body := Some(RequestTokenBody(requestToken, Pocket.AuthorizeUri(requestToken, pocket.redirectUrl)))))
  }

  // ---------------------------------------------------------------------
  // the session id

  /** The number of characters `rand::distributions::Alphanumeric` draws
      from: `A`-`Z`, `a`-`z`, `0`-`9`. */
  const AlphabetSize: nat := 62
  const SessionIdLength: nat := 32

  /** The `k`-th character of Alphanumeric's alphabet, in its order. */
  function AlphanumericChar(k: nat): (c: char)
    requires k < AlphabetSize
    ensures IsAlphanumeric(c)
  {
    if k < 26 then (('A' as int) + k) as char
    else if k < 52 then (('a' as int) + (k - 26)) as char
    else (('0' as int) + (k - 52)) as char
  }

  predicate IsAlphanumeric(c: char) {
    ('A' <= c <= 'Z') || ('a' <= c <= 'z') || ('0' <= c <= '9')
  }

  /** Every alphanumeric character is drawn by exactly one sample value. */
  lemma AlphanumericCharBijective(j: nat, k: nat, c: char)
    requires j < AlphabetSize && k < AlphabetSize
    ensures AlphanumericChar(j) == AlphanumericChar(k) ==> j == k
    ensures IsAlphanumeric(c) ==> exists m :: 0 <= m < AlphabetSize && AlphanumericChar(m) == c
  {
    if IsAlphanumeric(c) {
      var m := if 'A' <= c <= 'Z' then c as int - 'A' as int
               else if 'a' <= c <= 'z' then c as int - 'a' as int + 26
               else c as int - '0' as int + 52;
      assert AlphanumericChar(m) == c;
    }
  }

  /** The id a stream of samples (indices into the alphabet) yields. */
  function SessionIdOf(samples: seq<nat>): (id: string)
    requires |samples| >= SessionIdLength
    requires forall i :: 0 <= i < |samples| ==> samples[i] < AlphabetSize
    ensures |id| == SessionIdLength
    ensures forall i :: 0 <= i < |id| ==> IsAlphanumeric(id[i])
  {
    seq(SessionIdLength, i requires 0 <= i < SessionIdLength => AlphanumericChar(samples[i]))
  }

  /** `thread_rng().sample_iter(&Alphanumeric).take(32).map(char::from).collect()`. */
  method GenerateSessionId(samples: seq<nat>) returns (id: string)
    requires |samples| >= SessionIdLength
    requires forall i :: 0 <= i < |samples| ==> samples[i] < AlphabetSize
    ensures id == SessionIdOf(samples)
  {
    id := [];
    var i := 0;
    while i < SessionIdLength
      invariant 0 <= i <= SessionIdLength
      invariant |id| == i
      invariant forall j :: 0 <= j < i ==> id[j] == AlphanumericChar(samples[j])
    {
      id := id + [AlphanumericChar(samples[i])];
      i := i + 1;
    }
  }

  /** Different first 32 samples give different ids. */
  lemma SessionIdInjective(s1: seq<nat>, s2: seq<nat>)
    requires |s1| >= SessionIdLength && |s2| >= SessionIdLength
    requires forall i :: 0 <= i < |s1| ==> s1[i] < AlphabetSize
    requires forall i :: 0 <= i < |s2| ==> s2[i] < AlphabetSize
    requires s1[..SessionIdLength] != s2[..SessionIdLength]
    ensures SessionIdOf(s1) != SessionIdOf(s2)
  {
    var i :| 0 <= i < SessionIdLength && s1[i] != s2[i];
    AlphanumericCharBijective(s1[i], s2[i], 'A');
    assert SessionIdOf(s1)[i] != SessionIdOf(s2)[i];
  }

  // ---------------------------------------------------------------------
  // get_access_token

  /** `GetAccessTokenResponse` of the prototype. */
  datatype AccessTokenBody = AccessTokenBody(accessToken: string, sessionId: string)

  /** `"{COOKIE_NAME}={cookie}; SameSite=Lax; Path=/; HttpOnly"`. */
  function SessionCookieHeader(cookie: string): (h: string)
    ensures |h| == |CookieName| + 1 + |cookie| + 32
    ensures h[..|CookieName| + 1] == CookieName + "="
    ensures h[|CookieName| + 1..|CookieName| + 1 + |cookie|] == cookie
    ensures h[|CookieName| + 1 + |cookie|..] == "; SameSite=Lax; Path=/; HttpOnly"
    ensures ValidHeaderValue(h) <==> ValidHeaderValue(cookie)
  {
    var h := CookieName + "=" + cookie + "; SameSite=Lax; Path=/; HttpOnly";
    ValidHeaderValueConcat(CookieName + "=" + cookie, "; SameSite=Lax; Path=/; HttpOnly");
    ValidHeaderValueConcat(CookieName + "=", cookie);
    assert ValidHeaderValue(CookieName + "=") && ValidHeaderValue("; SameSite=Lax; Path=/; HttpOnly");
    h
  }

  /** Read back, the prototype's cookie is the `POCKETY_AUTH` pair and
      SameSite=Lax, Path=/ and HttpOnly, with no expiry. */
  lemma SessionCookieParses(cookie: string)
    requires ';' !in cookie
    ensures SplitOn(SessionCookieHeader(cookie), ';') ==
              [CookieName + "=" + cookie, " SameSite=Lax", " Path=/", " HttpOnly"]
  {
    SessionCookieJoin(cookie);
    SplitJoin([CookieName + "=" + cookie, " SameSite=Lax", " Path=/", " HttpOnly"], ';');
  }

  /** The prototype's cookie is its four pieces joined with `;`. */
  lemma SessionCookieJoin(cookie: string)
    ensures JoinOn([CookieName + "=" + cookie, " SameSite=Lax", " Path=/", " HttpOnly"], ';') ==
              CookieName + "=" + cookie + "; SameSite=Lax; Path=/; HttpOnly"
  {
    var parts := [CookieName + "=" + cookie, " SameSite=Lax", " Path=/", " HttpOnly"];
    assert JoinOn(parts[3..], ';') == " HttpOnly";
    assert JoinOn(parts[2..], ';') == " Path=/" + [';'] + " HttpOnly" by { assert parts[2..][1..] == parts[3..]; }
    assert JoinOn(parts[1..], ';') == " SameSite=Lax" + [';'] + " Path=/" + [';'] + " HttpOnly" by { assert parts[1..][1..] == parts[2..]; }
    assert "; SameSite=Lax; Path=/; HttpOnly" == [';'] + " SameSite=Lax" + [';'] + " Path=/" + [';'] + " HttpOnly";
  }

  /** What `get_access_token` answers, as written: the `Set-Cookie` header
      map is built but the response is `..Default::default()`, so it
      carries no headers. */
  function AccessTokenResult(pocket: Client, requestToken: string, samples: seq<nat>, issued: Option<string>)
    : (r: Result<TypedResponses.TypedResponse<AccessTokenBody>, Error>)
    requires |samples| >= SessionIdLength
    requires forall i :: 0 <= i < |samples| ==> samples[i] < AlphabetSize
  {
    match pocket.accessToken(requestToken)
    case Err(m) => Err(Converted(Errors.PocketyError(m)))
    case Ok(accessToken) =>
      if issued.None? then Err(Cookie(StoreFailedText))
      else Ok(TypedResponses.Default().(body := Some(AccessTokenBody(accessToken, SessionIdOf(samples)))))
  }

  /** The same answer with the built header map attached, as the handler
      evidently intends. */
  function IntendedAccessTokenResult(pocket: Client, requestToken: string, samples: seq<nat>, issued: Option<string>)
    : (r: Result<TypedResponses.TypedResponse<AccessTokenBody>, Error>)
    requires |samples| >= SessionIdLength
    requires forall i :: 0 <= i < |samples| ==> samples[i] < AlphabetSize
  {
    match AccessTokenResult(pocket, requestToken, samples, issued)
    case Err(e) => Err(e)
    case Ok(t) => Ok(t.(headers := Some(map[SetCookie := SessionCookieHeader(issued.value)])))
  }

  /** The store after `get_access_token`. */
  function AccessTokenStore(sessions: map<string, Session<SessionData>>, pocket: Client, requestToken: string,
                            samples: seq<nat>, issued: Option<string>): map<string, Session<SessionData>>
    requires |samples| >= SessionIdLength
    requires forall i :: 0 <= i < |samples| ==> samples[i] < AlphabetSize
  {
    if pocket.accessToken(requestToken).Ok? && issued.Some? then
      sessions[issued.value := map[Sessions.SessionKey := SessionData(SessionIdOf(samples), pocket.accessToken(requestToken).value)]]
    else sessions
  }

  /** `get_access_token`, with the request token taken from the request
      body. The cookie's `parse().unwrap()` cannot panic: the store's
      cookie values are header-safe. */
  method GetAccessToken(store: MemoryStore<SessionData>, pocket: Client, requestToken: string,
                        samples: seq<nat>, issued: Option<string>)
    returns (r: Result<TypedResponses.TypedResponse<AccessTokenBody>, Error>)
    requires store.Valid()
    requires |samples| >= SessionIdLength
    requires forall i :: 0 <= i < |samples| ==> samples[i] < AlphabetSize
    requires issued.Some? ==> issued.value !in store.sessions && ValidHeaderValue(issued.value)
    modifies store
    ensures store.Valid()
    ensures r == AccessTokenResult(pocket, requestToken, samples, issued)
    ensures store.sessions == AccessTokenStore(old(store.sessions), pocket, requestToken, samples, issued)
  {
    var accessToken := pocket.accessToken(requestToken);
    if accessToken.Err? {
      return Err(Converted(Errors.PocketyError(accessToken.error)));
    }
    var sessionId := GenerateSessionId(samples);
    var sessionData := SessionData(sessionId, accessToken.value);
    var session: Session<SessionData> := map[Sessions.SessionKey := sessionData];
    var stored := store.StoreSession(session, issued);
    if stored.None? {
      return Err(Cookie(StoreFailedText));
    }
    var cookie := SessionCookieHeader(stored.value);
    assert ValidHeaderValue(cookie);
    var headers: HeaderMap := map[SetCookie := cookie];
    r := Ok(TypedResponses.Default().(body := Some(AccessTokenBody(sessionData.accessToken, sessionData.sessionId))));
  }

  /** As written, a successful exchange stores the session but sends no
      cookie: the response's headers are the JSON defaults, so the browser
      is never told the `POCKETY_AUTH` value and the new session cannot be
      reached. */
  lemma AsWrittenSendsNoCookie(pocket: Client, requestToken: string, samples: seq<nat>, cookie: string,
                               serialize: AccessTokenBody -> Json.Json)
    requires |samples| >= SessionIdLength
    requires forall i :: 0 <= i < |samples| ==> samples[i] < AlphabetSize
    requires pocket.accessToken(requestToken).Ok?
    ensures AccessTokenResult(pocket, requestToken, samples, Some(cookie)).Ok?
    ensures AccessTokenResult(pocket, requestToken, samples, Some(cookie)).value.headers.None?
    ensures SetCookie !in Http.JsonHeaders
  {
  }

  /** The intended answer sets the `POCKETY_AUTH` cookie to the value the
      store issued, and a request carrying it back is given the stored
      record: the new id and Pocket's access token, both echoed in the
      body. */
  lemma IntendedSetsSessionCookie(sessions: map<string, Session<SessionData>>, pocket: Client, requestToken: string,
                                  samples: seq<nat>, cookie: string)
    requires |samples| >= SessionIdLength
    requires forall i :: 0 <= i < |samples| ==> samples[i] < AlphabetSize
    requires pocket.accessToken(requestToken).Ok?
    ensures var r := IntendedAccessTokenResult(pocket, requestToken, samples, Some(cookie));
            var after := AccessTokenStore(sessions, pocket, requestToken, samples, Some(cookie));
            && r.Ok?
            && r.value.headers == Some(map[SetCookie := SessionCookieHeader(cookie)])
            && r.value.body == Some(AccessTokenBody(pocket.accessToken(requestToken).value, SessionIdOf(samples)))
            && FromRequestParts(Present([(CookieName, cookie)]), after) ==
                 Ok(SessionData(SessionIdOf(samples), pocket.accessToken(requestToken).value))
    ensures forall e :: IntendedAccessTokenResult(pocket, requestToken, samples, None) == Err(e) <==>
                        AccessTokenResult(pocket, requestToken, samples, None) == Err(e)
  {
    assert Http.CookieGet([(CookieName, cookie)], CookieName) == Some(cookie);
  }

  /** A store failure is a `Cookie` error and stores nothing; a Pocket
      failure stores nothing either. */
  lemma AccessTokenFailures(sessions: map<string, Session<SessionData>>, pocket: Client, requestToken: string, samples: seq<nat>)
    requires |samples| >= SessionIdLength
    requires forall i :: 0 <= i < |samples| ==> samples[i] < AlphabetSize
    ensures pocket.accessToken(requestToken).Ok? ==>
              AccessTokenResult(pocket, requestToken, samples, None) == Err(Cookie(StoreFailedText))
    ensures AccessTokenStore(sessions, pocket, requestToken, samples, None) == sessions
    ensures pocket.accessToken(requestToken).Err? ==>
              forall issued :: AccessTokenStore(sessions, pocket, requestToken, samples, issued) == sessions
  {
  }

  /** `GetArticlesResponse` of the prototype. */
  datatype ArticlesBody = ArticlesBody(articles: seq<Json.Json>)

  /** `get_articles` of the prototype: the items of the last seven days,
      with no session involved. */
  function GetArticles(pocket: Client, now: int): (r: Result<TypedResponses.TypedResponse<ArticlesBody>, Error>)
    ensures r.Ok? <==> pocket.retrieve(now - ArticlesWindow).Ok?
    ensures r.Ok? ==> r.value.body == Some(ArticlesBody(pocket.retrieve(now - ArticlesWindow).value))
    ensures r.Ok? ==> r.value.headers.None? && r.value.statusCode == StatusOk
    ensures r.Err? ==> r.error == Converted(Errors.PocketyError(pocket.retrieve(now - ArticlesWindow).error))
  {
    match pocket.retrieve(now - ArticlesWindow)
    case Ok(articles) => Ok(TypedResponses.Default().(body := Some(ArticlesBody(articles))))
    case Err(m) => Err(Converted(Errors.PocketyError(m)))
  }
}
