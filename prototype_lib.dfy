/** server/src/lib.rs: the prototype crate's cookie name, session record and
    session extractor. Its `TypedResponse` (`Default`, `into_response`) is
    the one of module TypedResponses. */
module ProtoServer {
  import opened Wrappers
  import Errors
  import Http
  import Sessions

  /** `COOKIE_NAME` of the prototype. */
  const CookieName: string := "POCKETY_AUTH"

  /** The prototype's `SessionData`. */
  datatype SessionData = SessionData(sessionId: string, accessToken: string)

  /** The prototype's error type. server/src/error.rs is not part of this
      model: only its `Cookie` variant is known, and a library error that
      `?` converts is kept as it came. */
  datatype Error = Cookie(msg: string) | Converted(cause: Errors.LibraryError)

  /** `impl FromRequestParts for SessionData`: the same chain as the
      app-server extractor, with cookie `POCKETY_AUTH` and this record. */
  function FromRequestParts(header: Http.CookieHeader, sessions: map<string, map<string, SessionData>>): (r: Result<SessionData, Error>)
    ensures header.Missing? ==> r == Err(Cookie(Sessions.MissingHeaderText))
    ensures header.Unreadable? ==> r == Err(Cookie(Sessions.UnreadableHeaderText))
    ensures r.Ok? <==>
              header.Present? && Http.CookieGet(header.pairs, CookieName).Some? &&
              Http.CookieGet(header.pairs, CookieName).value in sessions &&
              Sessions.SessionKey in sessions[Http.CookieGet(header.pairs, CookieName).value]
    ensures r.Ok? ==> r.value == sessions[Http.CookieGet(header.pairs, CookieName).value][Sessions.SessionKey]
    ensures r.Err? ==> r.error.Cookie?
  {
    match Sessions.LoadRecord(CookieName, header, sessions)
    case Ok(data) => Ok(data)
    case Err(e) => Err(Cookie(e.msg))
  }

  /** The app's `ID` cookie is not the prototype's: a request carrying only
      an `ID` cookie is refused with "missing cookie". */
  lemma OtherCookieIgnored(value: string, sessions: map<string, map<string, SessionData>>)
    ensures FromRequestParts(Http.Present([("ID", value)]), sessions) == Err(Cookie(Sessions.MissingCookieText))
  {
    assert Http.CookieGet([("ID", value)], CookieName) == None by {
      assert ("ID", value).0 != CookieName;
    }
  }
}
