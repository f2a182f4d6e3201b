/** The interface of the `pockety` Pocket client as the app-server handlers
    use it. Every call to Pocket is an input: the value or the error message
    the call would produce. */
module Pocket {
  import opened Wrappers
  import Json
  import Http

  /** What Pocket answers to `get_access_token`. */
  datatype AccessTokenReply = AccessTokenReply(accessToken: string, username: string, state: Option<string>)

  /** `Pockety`: its redirect URL and the answers of its calls.
      `retrieve` maps an access token and a `since` time (seconds) to the
      items Pocket returns, kept as JSON values. */
  datatype Client = Client(
    redirectUrl: string,
    requestToken: Result<string, string>,
    accessToken: string -> Result<AccessTokenReply, string>,
    retrieve: (string, int) -> Result<seq<Json.Json>, string>)

  /** `Pockety::AUTHORIZE_URL` / `PocketyUrl::AUTHORIZE`. */
  const AuthorizeUrl: string := "https://getpocket.com/auth/authorize"

  /** Pocket's authorise page for a request token, redirecting back to
      `redirectUrl`: the interpolation `"{AUTHORIZE}?request_token={code}
      &redirect_uri={redirect_url}"`, with no escaping of either value. */
  function AuthorizeUri(code: string, redirectUrl: string): (uri: string)
    ensures |uri| == |AuthorizeUrl| + 15 + |code| + 14 + |redirectUrl|
    ensures uri[..|AuthorizeUrl| + 15] == AuthorizeUrl + "?request_token="
    ensures uri[|AuthorizeUrl| + 15..|AuthorizeUrl| + 15 + |code|] == code
    ensures uri[|AuthorizeUrl| + 15 + |code|..|AuthorizeUrl| + 29 + |code|] == "&redirect_uri="
    ensures uri[|uri| - |redirectUrl|..] == redirectUrl
    ensures Http.ValidHeaderValue(uri) <==> Http.ValidHeaderValue(code) && Http.ValidHeaderValue(redirectUrl)
  {
    var uri := AuthorizeUrl + "?request_token=" + code + "&redirect_uri=" + redirectUrl;
    AuthorizeUriValid(code, redirectUrl);
    Http.ConcatSlices(AuthorizeUrl + "?request_token=", code, "&redirect_uri=" + redirectUrl);
    Http.ConcatSlices(AuthorizeUrl + "?request_token=" + code, "&redirect_uri=", redirectUrl);
    uri
  }

  /** The fixed parts of the authorise URI are header-safe, so the whole is
      exactly when the two values are. */
  lemma AuthorizeUriValid(code: string, redirectUrl: string)
    ensures Http.ValidHeaderValue(AuthorizeUrl + "?request_token=" + code + "&redirect_uri=" + redirectUrl) <==>
              Http.ValidHeaderValue(code) && Http.ValidHeaderValue(redirectUrl)
  {
    Http.ValidHeaderValueConcat(AuthorizeUrl + "?request_token=" + code + "&redirect_uri=", redirectUrl);
    Http.ValidHeaderValueConcat(AuthorizeUrl + "?request_token=" + code, "&redirect_uri=");
    Http.ValidHeaderValueConcat(AuthorizeUrl + "?request_token=", code);
    assert Http.ValidHeaderValue(AuthorizeUrl + "?request_token=") && Http.ValidHeaderValue("&redirect_uri=");
  }

  /** Read back, the query string is the request token's parameter and
      then the redirect's, when neither value holds a `&`. */
  lemma AuthorizeUriParses(code: string, redirectUrl: string)
    requires '&' !in code && '&' !in redirectUrl
    ensures Http.SplitOn(AuthorizeUri(code, redirectUrl), '&') ==
              [AuthorizeUrl + "?request_token=" + code, "redirect_uri=" + redirectUrl]
  {
    var parts := [AuthorizeUrl + "?request_token=" + code, "redirect_uri=" + redirectUrl];
    assert Http.JoinOn(parts[1..], '&') == "redirect_uri=" + redirectUrl;
    assert Http.JoinOn(parts, '&') == AuthorizeUrl + "?request_token=" + code + "&redirect_uri=" + redirectUrl;
    assert '&' !in AuthorizeUrl + "?request_token=" + code;
    Http.SplitJoin(parts, '&');
  }

  /** Different request tokens give different URIs for the same redirect: the
      token can be read back from the URI. */
  lemma AuthorizeUriInjective(code1: string, code2: string, redirectUrl: string)
    requires AuthorizeUri(code1, redirectUrl) == AuthorizeUri(code2, redirectUrl)
    ensures code1 == code2
  {
    var u := AuthorizeUri(code1, redirectUrl);
    assert |code1| == |code2|;
    assert code1 == u[|AuthorizeUrl| + 15..|AuthorizeUrl| + 15 + |code1|];
  }
}
