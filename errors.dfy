/** The application error type of app-server/src/error.rs, its `From`
    conversions and the mapping of an error to an HTTP response. */
module Errors {
  import opened Json
  import Http

  datatype ApiError =
    | BadRequest(msg: string)
    | InternalServerError(msg: string)
    | Unauthorized(msg: string)

  /** `Error`. `Jwt`, `Pockety` and `Db` are used by oauth.rs, api/mod.rs and
      db.rs but not declared in error.rs; they are kept as extra variants and
      fall into the catch-all arm of the response mapping. */
  datatype Error =
    | Cookie(msg: string)
    | Pocket(msg: string)
    | Api(api: ApiError)
    | Jwt(msg: string)
    | Pockety(msg: string)
    | Db(msg: string)

  /** The library errors that `?` converts, each carrying its `to_string()`. */
  datatype LibraryError =
    | PocketyError(message: string)
    | AsyncSessionError(message: string)
    | SerdeJsonError(message: string)
    | AxumError(message: string)
    | BiscuitError(message: string)

  /** The inner message of an error. */
  function Message(e: Error): string {
    match e
    case Api(a) => a.msg
    case _ => e.msg
  }

  /** The five `impl From<_> for Error`. */
  function From(e: LibraryError): (r: Error)
    ensures r.Pocket? <==> e.PocketyError?
    ensures r.Cookie? <==> e.AsyncSessionError? || e.SerdeJsonError?
    ensures r.Api? <==> e.AxumError? || e.BiscuitError?
    ensures r.Api? ==> r.api.InternalServerError?
    ensures !r.Jwt? && !r.Pockety? && !r.Db?
    ensures Message(r) == e.message
  {
    match e
    case PocketyError(m) => Pocket(m)
    case AsyncSessionError(m) => Cookie(m)
    case SerdeJsonError(m) => Cookie(m)
    case AxumError(m) => Api(InternalServerError(m))
    case BiscuitError(m) => Api(InternalServerError(m))
  }

  const BadRequestText: string := "Bad Request"
  const UnauthorizedText: string := "Unauthorized"
  const InternalServerErrorText: string := "Internal Server Error"

  function ErrorBody(category: string): Json {
    JObj(map["error" := JStr(category)])
  }

  /** `impl IntoResponse for Error`. */
  function IntoResponse(e: Error): (r: Http.Response)
    ensures r.status == Http.StatusBadRequest <==> e.Cookie? || (e.Api? && e.api.BadRequest?)
    ensures r.status == Http.StatusUnauthorized <==> e.Api? && e.api.Unauthorized?
    ensures r.status in {Http.StatusBadRequest, Http.StatusUnauthorized, Http.StatusInternalServerError}
    ensures r.status == Http.StatusBadRequest ==> r.body == ErrorBody(BadRequestText)
    ensures r.status == Http.StatusUnauthorized ==> r.body == ErrorBody(UnauthorizedText)
    ensures r.status == Http.StatusInternalServerError ==> r.body == ErrorBody(InternalServerErrorText)
    ensures r.headers == Http.JsonHeaders
  {
    var (status, text) :=
      match e
      case Cookie(_) => (Http.StatusBadRequest, BadRequestText)
      case Api(BadRequest(_)) => (Http.StatusBadRequest, BadRequestText)
      case Api(Unauthorized(_)) => (Http.StatusUnauthorized, UnauthorizedText)
      case _ => (Http.StatusInternalServerError, InternalServerErrorText);
    Http.Response(status, Http.JsonHeaders, ErrorBody(text))
  }

  /** The same error with its inner message replaced. */
  function WithMessage(e: Error, m: string): (r: Error)
    ensures Message(r) == m
  {
    match e
    case Cookie(_) => Cookie(m)
    case Pocket(_) => Pocket(m)
    case Api(BadRequest(_)) => Api(BadRequest(m))
    case Api(InternalServerError(_)) => Api(InternalServerError(m))
    case Api(Unauthorized(_)) => Api(Unauthorized(m))
    case Jwt(_) => Jwt(m)
    case Pockety(_) => Pockety(m)
    case Db(_) => Db(m)
  }

  /** The inner message never reaches the client: changing it leaves the
      response unchanged, and the body's only string is a category text. */
  lemma ResponseHidesMessage(e: Error, m: string)
    ensures IntoResponse(WithMessage(e, m)) == IntoResponse(e)
    ensures IntoResponse(e).body.JObj? && IntoResponse(e).body.fields.Keys == {"error"}
    ensures IntoResponse(e).body.fields["error"] in
              {JStr(BadRequestText), JStr(UnauthorizedText), JStr(InternalServerErrorText)}
  {
  }

  /** Every library error reachable through `?` maps to 400 (session/serde)
      or 500 (everything else); none maps to 401. */
  lemma ConvertedErrorStatus(e: LibraryError)
    ensures IntoResponse(From(e)).status ==
              if e.AsyncSessionError? || e.SerdeJsonError? then Http.StatusBadRequest
              else Http.StatusInternalServerError
  {
  }
}
