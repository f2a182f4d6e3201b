/** app-server/src/session.rs: the session record and the extractor that
    turns a request's `Cookie` header into it. */
module Sessions {
  import opened Wrappers
  import opened Errors
  import Http
  import TypedResponses

  /** `SessionData`. */
  datatype SessionData = SessionData(
    requestToken: Option<string>,
    accessToken: Option<string>,
    csrfToken: Option<string>,
    username: Option<string>)

  /** `SessionData::default()`. */
  function Default(): (d: SessionData)
    ensures d.requestToken.None? && d.accessToken.None? && d.csrfToken.None? && d.username.None?
  {
    SessionData(None, None, None, None)
  }

  /** The key every handler stores its record under. */
  const SessionKey: string := "session"

  const MissingHeaderText: string := "missing Cookie header"
  /** The braces are part of the text: the source does not format it. */
  const UnreadableHeaderText: string := "unexpected error getting Cookie header(s): {e}"
  const MissingCookieText: string := "missing cookie"
  const NoSessionText: string := "failed to load session"
  const NoRecordText: string := "session not found"

  /** The extractor pattern shared by both servers, for a cookie name and a
      record type: header, then cookie, then session, then record; every
      failure is an `Error::Cookie`, and nothing is written. */
  function LoadRecord<D>(cookieName: string, header: Http.CookieHeader, sessions: map<string, map<string, D>>): (r: Result<D, Error>)
    ensures header.Missing? ==> r == Err(Cookie(MissingHeaderText))
    ensures header.Unreadable? ==> r == Err(Cookie(UnreadableHeaderText))
    ensures header.Present? && Http.CookieGet(header.pairs, cookieName).None? ==> r == Err(Cookie(MissingCookieText))
    ensures header.Present? && Http.CookieGet(header.pairs, cookieName).Some? ==>
              var cookie := Http.CookieGet(header.pairs, cookieName).value;
              && (cookie !in sessions ==> r == Err(Cookie(NoSessionText)))
              && (cookie in sessions && SessionKey !in sessions[cookie] ==> r == Err(Cookie(NoRecordText)))
              && (cookie in sessions && SessionKey in sessions[cookie] ==> r == Ok(sessions[cookie][SessionKey]))
    ensures r.Err? ==> r.error.Cookie?
  {
    match header
    case Missing => Err(Cookie(MissingHeaderText))
    case Unreadable => Err(Cookie(UnreadableHeaderText))
    case Present(pairs) =>
      match Http.CookieGet(pairs, cookieName)
      case None => Err(Cookie(MissingCookieText))
      case Some(cookie) =>
        if cookie !in sessions then Err(Cookie(NoSessionText))
        else if SessionKey !in sessions[cookie] then Err(Cookie(NoRecordText))
        else Ok(sessions[cookie][SessionKey])
  }

  /** `impl FromRequestParts for SessionData`, with cookie `ID`. It succeeds
      exactly when the `ID` cookie names a stored session holding a record,
      and then returns that record unchanged. */
  function FromRequestParts(header: Http.CookieHeader, sessions: map<string, map<string, SessionData>>): (r: Result<SessionData, Error>)
    ensures r.Ok? <==>
              header.Present? && Http.CookieGet(header.pairs, TypedResponses.CookieName).Some? &&
              Http.CookieGet(header.pairs, TypedResponses.CookieName).value in sessions &&
              SessionKey in sessions[Http.CookieGet(header.pairs, TypedResponses.CookieName).value]
    ensures r.Ok? ==> r.value == sessions[Http.CookieGet(header.pairs, TypedResponses.CookieName).value][SessionKey]
    ensures r.Err? ==> r.error.Cookie?
  {
    LoadRecord(TypedResponses.CookieName, header, sessions)
  }

  /** A rejected session is always answered with 400 Bad Request. */
  lemma RejectionIsBadRequest(header: Http.CookieHeader, sessions: map<string, map<string, SessionData>>)
    requires FromRequestParts(header, sessions).Err?
    ensures IntoResponse(FromRequestParts(header, sessions).error).status == Http.StatusBadRequest
  {
  }

  /** A record can only be found under the cookie the request names: a
      request naming cookie `v` sees the session stored under `v` and no
      other, whatever else the store holds. */
  lemma ExtractionIsLocal(header: Http.CookieHeader, s1: map<string, map<string, SessionData>>, s2: map<string, map<string, SessionData>>, v: string)
    requires header.Present? && Http.CookieGet(header.pairs, TypedResponses.CookieName) == Some(v)
    requires (v in s1) == (v in s2) && (v in s1 ==> s1[v] == s2[v])
    ensures FromRequestParts(header, s1) == FromRequestParts(header, s2)
  {
  }
}
