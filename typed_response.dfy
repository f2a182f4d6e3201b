/** `TypedResponse`, the response builder of app-server/src/lib.rs (the
    prototype server/src/lib.rs has the same type, `Default` and
    `into_response`), and the session cookie's name. */
module TypedResponses {
  import opened Wrappers
  import opened Json
  import Http

  /** `COOKIE_NAME`. */
  const CookieName: string := "ID"

  datatype TypedResponse<B> = TypedResponse(body: Option<B>, headers: Option<Http.HeaderMap>, statusCode: nat)

  /** `impl Default for TypedResponse`. */
  function Default<B>(): (r: TypedResponse<B>)
    ensures r.body.None? && r.headers.None? && r.statusCode == Http.StatusOk
  {
    TypedResponse(None, None, Http.StatusOk)
  }

  /** `TypedResponse::new(body)`: the given body, everything else default. */
  function New<B>(body: Option<B>): (r: TypedResponse<B>)
    ensures r.body == body && r.headers == Default<B>().headers && r.statusCode == Default<B>().statusCode
  {
    Default().(body := body)
  }

  /** `.headers(h)`: replaces the headers only. */
  function WithHeaders<B>(t: TypedResponse<B>, headers: Option<Http.HeaderMap>): (r: TypedResponse<B>)
    ensures r.headers == headers
    ensures r.body == t.body && r.statusCode == t.statusCode
  {
    t.(headers := headers)
  }

  /** `.status_code(s)`: replaces the status only. */
  function WithStatus<B>(t: TypedResponse<B>, statusCode: nat): (r: TypedResponse<B>)
    ensures r.statusCode == statusCode
    ensures r.body == t.body && r.headers == t.headers
  {
    t.(statusCode := statusCode)
  }

  /** `Json(body)`: an absent body serialises to `null`. */
  function BodyJson<B>(body: Option<B>, serialize: B -> Json): Json {
    match body
    case None => JNull
    case Some(b) => serialize(b)
  }

  /** `impl IntoResponse for TypedResponse`: start from the JSON response,
      overwrite its whole header map when headers were set, then set the
      status. */
  method IntoResponse<B>(t: TypedResponse<B>, serialize: B -> Json) returns (r: Http.Response)
    ensures r.status == t.statusCode
    ensures t.headers.Some? ==> r.headers == t.headers.value
    ensures t.headers.None? ==> r.headers == Http.JsonHeaders
    ensures r.body == BodyJson(t.body, serialize)
  {
    var response := Http.Response(Http.StatusOk, Http.JsonHeaders, BodyJson(t.body, serialize));
    if t.headers.Some? {
      response := response.(headers := t.headers.value);
    }
    response := response.(status := t.statusCode);
    r := response;
  }

  /** The two setters touch disjoint fields, so their order does not matter,
      and `new(b).headers(h).status_code(s)` is exactly `(b, h, s)`. */
  lemma SettersCommute<B>(t: TypedResponse<B>, h: Option<Http.HeaderMap>, s: nat)
    ensures WithStatus(WithHeaders(t, h), s) == WithHeaders(WithStatus(t, s), h)
    ensures WithStatus(WithHeaders(New(t.body), h), s) == TypedResponse(t.body, h, s)
  {
  }
}
