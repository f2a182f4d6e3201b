# just-links: the login handshake, its siblings and the front end's pure logic

This project is a Dafny model of the core of just-links, a reading-list app built on Pocket. It has a Rust back end (`app-server`), a prototype back end (`server`) and a SvelteKit front end (`web`). Each part below is modelled and its properties are proved.

- **The Pocket OAuth handshake** (`app-server/src/api/auth.rs`):
  - `get_request_token` stores a pending session that holds Pocket's request token and a fresh CSRF token.
  - It then redirects the browser to Pocket. The redirect carries a state token, signed and then encrypted, that names the session.
  - `get_access_token` decrypts the state token and exchanges the request token with Pocket. It loads the session, compares the CSRF tokens and writes the access token into the stored record.
  - The session store (`async_session::MemoryStore`) is a class, `Store.MemoryStore`, whose `sessions` map the handlers change in place. The handlers are methods proved against pure functions of the old store. The lemmas cover success, every failure, and the whole handshake end to end.
- **The state token and random tokens** (`app-server/src/oauth.rs`):
  - sign-then-encrypt and decrypt-then-verify, with the biscuit cryptography given as a `Crypto` value of four functions;
  - the round-trip law as the only assumption;
  - the 12-byte nonce;
  - the 43-character CSRF token: 32 random bytes in unpadded base64url, as in section 5 of RFC 4648. Its encoder and decoder are written out and proved inverse.
- **The cookie-to-session extractor** (`app-server/src/session.rs`) and the prototype's copy of it (`server/src/lib.rs`).
- **The earlier, rotating handler set** (`app-server/src/api/mod.rs`):
  - login issues the cookie itself;
  - the token exchange destroys the old session and stores a new one;
  - the `get_articles` guard and `get_session_info`.
- **The prototype's handlers** (`server/src/api/mod.rs`): authorise-URI composition, the 32-character alphanumeric session id, and session creation.
- **Errors and the response builder** (`app-server/src/error.rs`, `app-server/src/lib.rs`): the error type, its `From` conversions, the status and body mapping, and `TypedResponse`.
- **Pocket item to database rows** (`convert_*` in `app-server/src/db.rs`). This includes Rust's `bool` and `i32` parsing and the truncating `as i32` cast, written out explicitly (`RustParse`).
- **The front end's pure logic:**
  - the `isNumeric` route matcher;
  - `handleLoginRedirect` and `ARTICLES_PER_PAGE` (`WebUtils.ArticlesPerPage`);
  - the `syncArticles` statechart;
  - the zod response validators of `schemas.ts` and `types.ts`, over a JSON datatype (`Zod`, `Schemas`, `Types`).

Inputs the code takes from the outside world are parameters of the model:
- random bytes and samples;
- the cookie value the store issues, or its failure;
- Pocket's answers;
- the current time and its formatting.

Where the code and its description disagree, the model follows the code:
- The rotating `get_access_token` builds its new `SessionData` without the `csrf_token` field (app-server/src/api/mod.rs:123-127). The model stores `None` there.
- The error variants `Jwt`, `Pockety` and `Db` are used but not declared in error.rs. They are extra variants that fall into the catch-all 500 arm.
- `get_access_token` in auth.rs sets the same cookie value back and does not rotate the session.
- `from_token` never checks the issuer.

## Model

| member | source | states |
|---|---|---|
| Sessions.Default | app-server/src/session.rs:14-20 | `SessionData::default()` has all four fields `None`. |
| Sessions.LoadRecord | app-server/src/session.rs:30-68 | The extractor chain. A missing header, an unreadable header, a missing cookie, an unknown session and a session without a record each give their own `Error::Cookie`. Otherwise the stored record is returned unchanged. |
| Sessions.FromRequestParts | app-server/src/session.rs:22-69 | Succeeds exactly when the `ID` cookie names a stored session holding a `"session"` record. It then returns that record, and every error is a `Cookie` error. |
| Sessions.RejectionIsBadRequest | app-server/src/error.rs:57-58 | A rejected extraction is answered 400. |
| Sessions.ExtractionIsLocal | app-server/src/session.rs:54-67 | The result depends only on the session stored under the request's cookie. |
| Http.CookieGet | app-server/src/session.rs:54-56 | A cookie is found iff a pair with that name is present. The value found is that of the first such pair. |
| Store.MemoryStore.LoadSession | app-server/src/api/auth.rs:157-166 | `load_session(..).ok().flatten()`: some session iff the cookie is stored, and then the stored session. |
| Store.MemoryStore.StoreSession | app-server/src/api/auth.rs:72-83 | Stores the session under the issued fresh cookie and returns that cookie. On a store failure it returns nothing and stores nothing. |
| Store.MemoryStore.DestroySession | app-server/src/api/mod.rs:110-116 | Removes exactly the given cookie's session. |
| Store.MemoryStore.InsertIntoLoaded | app-server/src/api/auth.rs:192-193 | `session.insert` on a loaded session updates that one key of that one stored session. |
| Auth.InitialSession | app-server/src/api/auth.rs:58-71 | The pending record is the default with the request token and the CSRF token set. |
| Auth.AuthUri | app-server/src/api/auth.rs:91-101 | The authorise URI with `%3Fstate=<token>&state=<token>` appended. It parses as a header value iff its three parts do. |
| Auth.SessionCookieHeader | app-server/src/api/auth.rs:195-208 | The `Set-Cookie` value is `ID=`, the cookie, `; HttpOnly; Path=/; Expires=` and the date, each at its position. It is header-safe iff the cookie value and the date are. |
| Auth.SessionCookieParses | app-server/src/api/auth.rs:195-208 | Split at `;`, the value reads back as the pair `ID=<cookie>` and then the attributes HttpOnly, Path=/ and Expires=<date>, when neither value holds a `;`. |
| Auth.GetRequestToken | app-server/src/api/auth.rs:41-109 | The handler's answer and the new store are those of its specification functions, and the store invariant is kept. |
| Auth.RequestTokenRedirects | app-server/src/api/auth.rs:85-108 | On success: a bodiless 303, the location as the only header, and a state token that decrypts to (request token, the new session's cookie, the stored CSRF token). |
| Auth.RequestTokenFailures | app-server/src/api/auth.rs:52-83 | A Pocket failure is a 500 `Pocket` error and a store failure is `InternalServerError`. The store is unchanged iff one of these two happened. |
| Auth.AccessTokenCheck | app-server/src/api/auth.rs:135-189 | Every outcome, in the source's order. A missing state is `BadRequest`. A decryption error is passed on. A Pocket failure is `Pocket`, whether or not the session exists. Then come "Couldn't find the session", "Empty session", "CSRF token missing in session" and the 401 on a CSRF mismatch. Passing with the state, Pocket's answer and the stored record happens iff every check holds. |
| Auth.AccessTokenFailures | app-server/src/api/auth.rs:150-189 | A failed check is the handler's error, and the store is left as it was. |
| Auth.GetAccessToken | app-server/src/api/auth.rs:124-215 | The handler's answer and the new store are those of its specification functions, and the store invariant is kept. |
| Auth.CsrfMismatchRejected | app-server/src/api/auth.rs:176-189 | A CSRF token differing from the stored one gives `Unauthorized` (401), and nothing is stored. |
| Auth.AccessTokenUpdate | app-server/src/api/auth.rs:191-193 | On success only the named session's record changes, and only its access token. The same state token passes the checks again. |
| Auth.Handshake | app-server/src/api/auth.rs:41-215 | The redirect's state token, handed back, succeeds. It sets the `ID` cookie to the same value and echoes Pocket's username and state. The cookie then loads a record with both tokens and the CSRF token. |
| OAuth.JustLinksClaims | app-server/src/oauth.rs:80-86 | The payload goes in `private`. The only registered claim is the issuer `https://just-links.dev`. |
| OAuth.JwsEncode | app-server/src/oauth.rs:76-99 | Signs the just-links claims with an HS256 header. A library error becomes `Error::Jwt`. |
| OAuth.JweEncrypt | app-server/src/oauth.rs:102-128 | Encrypts with A256GCMKW/A256GCM under the 12-byte nonce. A result still in decrypted form is the "Failed to encrypt token" error. |
| OAuth.JweDecrypt | app-server/src/oauth.rs:131-160 | Decrypts with A256GCMKW/A256GCM. A decoded payload is returned without a signature check; an encoded one is verified with HS256. Only the private claims are returned. |
| OAuth.IntoToken | app-server/src/oauth.rs:50-56 | Sign, then encrypt. A signing error stops before encryption. |
| OAuth.FromToken | app-server/src/oauth.rs:58-64 | Decrypt, then verify. |
| OAuth.RoundTrip | app-server/src/oauth.rs:176-203 | Decrypting what was signed and encrypted, with the same secret and key, returns the payload. |
| OAuth.StateRoundTrip | app-server/src/oauth.rs:50-64 | `from_token(into_token(state)) == state`. |
| OAuth.IssuerNotChecked | app-server/src/oauth.rs:152-158 | Whatever registered claims the verified token holds, its private claims are accepted. |
| OAuth.DecodedPayloadSkipsVerification | app-server/src/oauth.rs:152-153 | For a payload that decrypts to decoded form, the result does not depend on the verifier. |
| OAuth.FillBytes | app-server/src/oauth.rs:68-69 | Fills the buffer in place with the first bytes of the random stream. |
| OAuth.NonceOf | app-server/src/oauth.rs:162-166 | The nonce is 12 bytes. |
| OAuth.GeneratedNonce | app-server/src/oauth.rs:162-166 | `generated_nonce` returns the first 12 random bytes. |
| OAuth.CsrfTokenOf | app-server/src/oauth.rs:67-71 | The CSRF token has 43 characters, all from `[A-Za-z0-9-_]`. |
| OAuth.GenerateCsrfToken | app-server/src/oauth.rs:67-71 | `generate_csrf_token` encodes the first 32 random bytes, and the token decodes back to them. |
| OAuth.CsrfTokenInjective | app-server/src/oauth.rs:67-71 | Different random draws give different CSRF tokens. |
| Base64Url.Encode | app-server/src/oauth.rs:70 | Unpadded base64url output has four characters per three bytes, plus two or three for a trailing one or two bytes, all from the URL-safe alphabet. |
| Base64Url.DecodeEncode | app-server/src/oauth.rs:70 | Decoding the encoding gives the bytes back. |
| Base64Url.EncodeInjective | app-server/src/oauth.rs:70 | Different byte strings encode differently. |
| Pocket.AuthorizeUri | app-server/src/api/mod.rs:55-60 | `AUTHORIZE ?request_token=<code>&redirect_uri=<url>`, position by position, with `&redirect_uri=` between the code and the URL. It is header-safe iff the code and the URL are. |
| Pocket.AuthorizeUriParses | app-server/src/api/mod.rs:55-60 | Split at `&`, the URI reads back as the request-token parameter and then `redirect_uri=<url>`, when neither value holds a `&`. |
| Pocket.AuthorizeUriInjective | app-server/src/api/mod.rs:55-60 | For a fixed redirect URL, the URI determines the request token. |
| Errors.From | app-server/src/error.rs:22-50 | pockety errors become `Pocket`; async_session and serde_json errors become `Cookie`; axum and biscuit errors become `Api(InternalServerError)`. The message is kept. |
| Errors.IntoResponse | app-server/src/error.rs:52-70 | 400 iff `Cookie` or `BadRequest`; 401 iff `Unauthorized`; otherwise 500. The body is `{"error": <category>}` for each. |
| Errors.ResponseHidesMessage | app-server/src/error.rs:64-66 | The inner message never reaches the response. The body's only key is `error`, holding one of the three category texts. |
| Errors.ConvertedErrorStatus | app-server/src/error.rs:22-62 | Every library error converted by `?` maps to 400 (session and serde errors) or 500; none maps to 401. |
| TypedResponses.Default | app-server/src/lib.rs:58-68 | No body, no headers, status 200. The prototype's `Default` (server/src/lib.rs, lines 32-43) is the same value. |
| TypedResponses.New | app-server/src/lib.rs:39-44 | The given body with default headers and status. |
| TypedResponses.WithHeaders | app-server/src/lib.rs:46-48 | Replaces the headers; body and status are unchanged. |
| TypedResponses.WithStatus | app-server/src/lib.rs:50-55 | Replaces the status; body and headers are unchanged. |
| TypedResponses.IntoResponse | app-server/src/lib.rs:75-82 | The status is the builder's. Set headers replace the JSON defaults wholesale; otherwise the defaults stay. The body is the JSON of the optional body. The prototype's `into_response` (server/src/lib.rs, lines 49-56) is the same. |
| TypedResponses.SettersCommute | app-server/src/lib.rs:46-55 | The two setters commute, and `new(b).headers(h).status_code(s)` is exactly `(b, h, s)`. |
| LegacyApi.LoginCookieHeader | app-server/src/api/mod.rs:76-78 | `ID=`, the cookie, `; Expires=`, the date and `; SameSite=Lax; HttpOnly; Secure`, each at its position. It is header-safe iff the cookie and the date are. |
| LegacyApi.LoginCookieParses | app-server/src/api/mod.rs:76-78 | Split at `;`, the value reads back as `ID=<cookie>`, Expires=<date>, SameSite=Lax, HttpOnly and Secure, when neither value holds a `;`. |
| LegacyApi.RotatedCookieHeader | app-server/src/api/mod.rs:138 | `ID=`, the cookie, then exactly `; SameSite=Lax; HttpOnly; Secure` to the end. It is header-safe iff the cookie is. |
| LegacyApi.RotatedCookieParses | app-server/src/api/mod.rs:138 | Split at `;`, the value reads back as `ID=<cookie>`, SameSite=Lax, HttpOnly and Secure, with no Expires attribute, when the cookie holds no `;`. |
| LegacyApi.GetRequestToken | app-server/src/api/mod.rs:46-89 | The handler's outcome and the new store are those of its specification functions. |
| LegacyApi.RequestTokenIssuesCookie | app-server/src/api/mod.rs:62-88 | On success: a 303 with exactly `Set-Cookie` and `Location`. The stored record has only the request token, and the cookie loads it. |
| LegacyApi.RotatedSession | app-server/src/api/mod.rs:119-129 | The new record holds the request token, the access token and the username, and no CSRF token. |
| LegacyApi.GetAccessToken | app-server/src/api/mod.rs:98-159 | The handler's outcome, including panics, and the new store are those of its specification functions. |
| LegacyApi.AccessTokenRotates | app-server/src/api/mod.rs:109-151 | On success the old cookie no longer loads a session, and the new cookie loads the rotated record. Other sessions are untouched. The `Set-Cookie` is the rotated one, the body echoes Pocket's username and state, and the status is 200. |
| LegacyApi.NoRequestTokenNoPocketCall | app-server/src/api/mod.rs:104-158 | Without a request token the outcome is the `Pockety` error whatever Pocket would answer, and the store is untouched. |
| LegacyApi.StoreFailureLosesSession | app-server/src/api/mod.rs:131-137 | If the store refuses the new session, the handler panics after destroying the old one, and the request's session is gone. |
| LegacyApi.GetArticles | app-server/src/api/mod.rs:166-186 | With no access token the result is the `Pockety` error. With one, it is Pocket's items since seven days ago, or the converted Pocket error. |
| LegacyApi.ArticlesGuard | app-server/src/api/mod.rs:181-185 | Without an access token the answer does not depend on Pocket, and it is a 500. |
| LegacyApi.GetSessionInfo | app-server/src/api/mod.rs:193-197 | The body is the session's username as stored, with default headers and status. |
| LegacyApi.SessionInfoAfterLogin | app-server/src/api/mod.rs:193-197 | After a rotation, the session info under the new cookie reports Pocket's username. |
| ProtoServer.FromRequestParts | server/src/lib.rs:83-122 | The same chain with cookie `POCKETY_AUTH`: missing or unreadable headers are `Cookie` errors. It succeeds iff the cookie names a session with a record, which is returned unchanged. |
| ProtoServer.OtherCookieIgnored | server/src/lib.rs:18 | A request carrying only the app's `ID` cookie gets "missing cookie". |
| ProtoApi.GetRequestToken | server/src/api/mod.rs:29-49 | The body is (request token, authorise URI) with default headers and status. Pocket's error is passed on. |
| ProtoApi.AlphanumericChar | server/src/api/mod.rs:73-77 | Each sample draws an alphanumeric character. |
| ProtoApi.AlphanumericCharBijective | server/src/api/mod.rs:73-77 | Distinct samples draw distinct characters, and every alphanumeric character is drawn by some sample. |
| ProtoApi.SessionIdOf | server/src/api/mod.rs:73-77 | The session id is 32 characters from `[A-Za-z0-9]`. |
| ProtoApi.GenerateSessionId | server/src/api/mod.rs:73-77 | The loop builds exactly the id of the first 32 samples. |
| ProtoApi.SessionIdInjective | server/src/api/mod.rs:73-77 | Different first 32 samples give different ids. |
| ProtoApi.SessionCookieHeader | server/src/api/mod.rs:93 | `POCKETY_AUTH=`, the cookie, then exactly `; SameSite=Lax; Path=/; HttpOnly` to the end. It is header-safe iff the cookie is. |
| ProtoApi.SessionCookieParses | server/src/api/mod.rs:93 | Split at `;`, the value reads back as `POCKETY_AUTH=<cookie>`, SameSite=Lax, Path=/ and HttpOnly, when the cookie holds no `;`. |
| ProtoApi.GetAccessToken | server/src/api/mod.rs:64-107 | The handler's answer and the new store are those of its specification functions. The stored record is (new id, access token). |
| ProtoApi.AsWrittenSendsNoCookie | server/src/api/mod.rs:93-106 | As written, a successful exchange answers with no headers, so no `Set-Cookie` is sent. |
| ProtoApi.IntendedSetsSessionCookie | server/src/api/mod.rs:93-101 | With the headers attached, the cookie is the issued value and loads the stored (id, access token) record. The body echoes both. |
| ProtoApi.AccessTokenFailures | server/src/api/mod.rs:69-92 | A store failure is the `Cookie` error. Neither a store failure nor a Pocket failure stores anything. |
| ProtoApi.GetArticles | server/src/api/mod.rs:109-124 | The body is `GetArticlesResponse` holding Pocket's items from seven days ago, with default headers and status 200. Otherwise it is Pocket's error. |
| RustParse.ParseBool | app-server/src/db.rs:91-99 | `str::parse::<bool>` accepts exactly "true" and "false". |
| RustParse.ParseI32 | app-server/src/db.rs:119-121 | A parsed value lies in the i32 range. The empty string, "+" and "-" fail, and a success is an optional sign followed by digits. |
| RustParse.ParseFormatI32 | app-server/src/db.rs:145-158 | Parsing the decimal text of any i32 gives it back. |
| RustParse.FormatI32Injective | app-server/src/db.rs:145-158 | Different i32 values have different decimal text. |
| RustParse.Wrap32 | app-server/src/db.rs:105 | `as i32` lands in range, is congruent modulo 2^32, and is the identity on i32 values. |
| RustParse.Wrap32Periodic | app-server/src/db.rs:124-125 | The cast is periodic with period 2^32. |
| Db.Flag | app-server/src/db.rs:109-116 | A Pocket flag is false iff it is `Some("0")`. |
| Db.ParseOptionalI32 | app-server/src/db.rs:119-121 | Some iff present and i32-parsable, and then the parsed value. |
| Db.Wrap32Option | app-server/src/db.rs:124-125 | Present iff present before, and then the cast value. |
| Db.ConvertArticle | app-server/src/db.rs:81-129 | Always `Ok`, with `user_id` and the copied fields unchanged. `favorite` iff `Some("true")`; `is_article` and `is_index` false iff `Some("0")`. Status, `has_image` and `has_video` lie in 0..255, and the two flags keep Pocket's value. `word_count` is the i32 parse. `sort_id`, `time_to_read` and `listen_duration_estimate` are the `as i32` casts of Pocket's values. |
| Db.ConvertVideo | app-server/src/db.rs:140-161 | Copies ids, src and vid. An unparsable height or width becomes 0, and `length` is its optional i32 parse. |
| Db.ConvertImage | app-server/src/db.rs:178-199 | Copies ids, src, credit and caption. An unparsable height or width becomes 0. |
| Db.ConvertAuthor | app-server/src/db.rs:216-221 | `author_id = id.0`, with name and url unchanged. |
| Db.ConvertVideos | app-server/src/db.rs:131-167 | Always `Ok`: one row per video in order, or none when there are no videos. |
| Db.ConvertImages | app-server/src/db.rs:169-205 | Always `Ok`: one row per image in order, or none. |
| Db.ConvertAuthors | app-server/src/db.rs:207-227 | Always `Ok`: one row per author in order, or none. |
| Db.NumbersRoundTrip | app-server/src/db.rs:145-158 | A height and width written as i32 text are stored as that number. |
| Db.RowsBelongToArticle | app-server/src/db.rs:131-227 | Every produced row carries the given article id. |
| IsNumeric.MatchesAnchoredIff | web/src/params/isNumeric.ts:4 | An anchored `^[c]{min,max}$` matches iff the length is in range and every character is in the class. |
| IsNumeric.Match | web/src/params/isNumeric.ts:3-5 | `match(v)` iff `v` has 1 to 4 characters, all ASCII digits. |
| IsNumeric.Examples | web/src/params/isNumeric.ts:4 | "" and "12345" are rejected, and "0", "0007" and "9999" accepted. Signs, dots, spaces and a trailing newline are rejected. |
| WebUtils.HandleLoginRedirect | web/src/lib/utils.ts:10-13 | `"/login?redirectTo=" + pathname + search`, without encoding, of length 18 plus the two parts. |
| WebUtils.RedirectTarget | web/src/lib/utils.ts:10-13 | Strips the login prefix: some iff the prefix is there, and the prefix plus the result is the input. |
| WebUtils.RedirectRoundTrip | web/src/lib/utils.ts:10-13 | Stripping the prefix from the redirect gives back `pathname + search`. |
| WebUtils.OnlyPathAndSearch | web/src/lib/utils.ts:11 | Two URLs give the same redirect iff their `pathname + search` agree; host and hash do not matter. |
| SyncArticles.Step | web/src/lib/syncArticlesMachine.ts:3-41 | An event with a transition moves to its target, with that state's entry title. Any other event leaves the machine unchanged. |
| SyncArticles.Transitions | web/src/lib/syncArticlesMachine.ts:9-39 | The only moves are: idle+sync→syncing, syncing+synced→synced, syncing+syncFailed→idle, and synced+timer→idle. `sync` while syncing does nothing. |
| SyncArticles.RunKeepsTitle | web/src/lib/syncArticlesMachine.ts:11-32 | Any run of events keeps the title equal to the state's title. |
| SyncArticles.ServiceTitleMatchesState | web/src/lib/syncArticlesMachine.ts:43 | The started service, after any events, shows "Just Links", "Syncing..." or "Synced!" as its state is idle, syncing or synced. |
| SyncArticles.EntryConditions | web/src/lib/syncArticlesMachine.ts:11-32 | `synced` is entered only from syncing on `synced`, and `syncing` only from idle on `sync`. |
| Zod.ObjectValid | web/src/routes/schemas.ts:3-68 | An object passes `z.object` iff each field does. |
| Zod.Parse | web/src/routes/schemas.ts:3-68 | `safeParse` succeeds iff the value is valid. |
| Zod.ObjectOutputKeys | web/src/routes/schemas.ts:3-68 | The parsed object has a key exactly for each field that was given or has a default; unknown keys are dropped. |
| Zod.ObjectOutputField | web/src/routes/schemas.ts:61-63 | A given field's parsed value is that of the given value, and an absent field with a default gets the default's. |
| Zod.OutputIdempotent | web/src/routes/schemas.ts:3-68 | For a schema without repeated keys, the parsed value passes the schema and parses to itself. |
| Schemas.ImageValid | web/src/routes/schemas.ts:3-11 | An image is valid iff its seven keys all hold strings. |
| Schemas.VideoValid | web/src/routes/schemas.ts:14-21 | A video is valid iff its five required keys hold strings and a present `length` is a string. The parsed video has no `height`. |
| Schemas.ArticleLayout | web/src/routes/schemas.ts:24-53 | The article schema's 28 fields: where each required string, optional string and optional number sits. |
| Schemas.ArticleValidStrings | web/src/routes/schemas.ts:24-45 | A valid article has its 14 required strings, and strings at its present optional string keys. |
| Schemas.ArticleValidRest | web/src/routes/schemas.ts:37-50 | A valid article has numbers at its present number keys, and valid images and videos in its present arrays. |
| Schemas.ArticleValidShape | web/src/routes/schemas.ts:24-53 | A valid article has the article shape. |
| Schemas.ArticleShapeValid | web/src/routes/schemas.ts:24-53 | An object of the article shape is valid; `domain_metadata` may hold anything. |
| Schemas.ArticleValid | web/src/routes/schemas.ts:24-53 | An article is valid iff it has the article shape. |
| Schemas.MissingArticlesDefault | web/src/routes/schemas.ts:61-63 | An object without `articles` is valid and parses to `{articles: []}`. |
| Schemas.UsernameResponses | web/src/routes/schemas.ts:56-68 | The session and authz responses accept exactly objects whose `username`, if present, is a string. |
| Schemas.UsernameParse | web/src/routes/schemas.ts:56-68 | Parsing keeps only `username`, and both response schemas parse alike. |
| Types.ImageValid | web/src/lib/types.ts:3-11 | The camelCase image validator: valid iff its seven keys hold strings. |
| Types.VideoValid | web/src/lib/types.ts:14-21 | The camelCase video: five required strings and an optional `length`, with no `height` in the output. |
| Types.ArticleLayout | web/src/lib/types.ts:24-53 | The camelCase article schema's 28 field positions. |
| Types.ArticleValidStrings | web/src/lib/types.ts:24-45 | The 14 camelCase required strings and the optional strings. |
| Types.ArticleValidRest | web/src/lib/types.ts:37-50 | `sortId`, `timeToRead` and `listenDurationEstimate` are numbers when present, and the arrays hold valid items. |
| Types.ArticleValidShape | web/src/lib/types.ts:24-53 | A valid camelCase article has the shape. |
| Types.ArticleShapeValid | web/src/lib/types.ts:24-53 | An object of the camelCase shape is valid. |
| Types.ArticleValid | web/src/lib/types.ts:24-53 | A camelCase article is valid iff it has the camelCase shape. |
| Types.MissingArticlesDefault | web/src/lib/types.ts:61-63 | A missing `articles` parses to `[]`. |
| Types.UsernameResponses | web/src/lib/types.ts:56-68 | Both responses accept exactly objects with an optional string `username`. |
| Types.UsernameParse | web/src/lib/types.ts:56-68 | Parsing keeps only `username`, in both responses alike. |
| Types.SnakeOfInjective | web/src/lib/types.ts:3-53 | Joining words with `_` is injective on words without `_`. |
| Types.RenamedFunctional | web/src/lib/types.ts:3-53 | A snake_case name has exactly one camelCase rename. |
| Types.ItemImageRenamed | web/src/lib/types.ts:3-11 | The camelCase image schema is the snake_case one with every key renamed and nothing else changed. |
| Types.ItemVideoRenamed | web/src/lib/types.ts:14-21 | The same for the video schema. |
| Types.UsernameResponsesRenamed | web/src/lib/types.ts:56-68 | The same for the session and authz response schemas. |

## Left out

- Real cryptography (HS256, AES-GCM key wrap) and the biscuit error texts: the operations are parameters, and only the round trip exercised by the oauth.rs test is assumed.
- Randomness (`thread_rng`): the random bytes and Alphanumeric samples are parameters.
- The pockety HTTP client: its answers are parameters (`Pocket.Client`). `Pockety::AUTHORIZE_URL` is taken to be `https://getpocket.com/auth/authorize`, because the crate is not part of this model.
- The internals of `async_session::MemoryStore`: how cookie values map to session ids, expiry, serialisation failures of `session.insert`, and the store's own error path (merged with `None`, as every caller does). The store's answer to `store_session` is a parameter.
- The clock and date formatting: "now" is a parameter and the HTTP date format a function parameter.
- Concurrency, async scheduling and tracing output.
- The unwraps of `cookie.parse()` and `cookies.get(..)` shown to be unreachable are assertions. The reachable one in the rotating handler is the `Panicked` outcome.
- LegacyApi.GetAccessToken: `load_session` and `destroy_session` are taken to succeed, as the store here cannot fail on a session the extractor has just found. A missing `Cookie` header is the framework's own rejection (`Rejected`), whose response is not modelled.
- The SQL functions of db.rs (`fetch_user`, `create_new_user_if_not_exists`, the article upserts), which run inside Postgres. The Pocket item type is defined from the fields the conversions read.
- app-server/src/api/articles.rs (the same access-token guard as `LegacyApi.GetArticles`), both `main.rs` files, and server/src/error.rs, which is not part of this model. The prototype's error is modelled as `Cookie(msg)` or the converted library error.
- Browser and framework glue: service workers, hooks, fetch wrappers, page loaders and the Svelte store, and the `cn` class-name helper of utils.ts.
- The 2000 ms delay of the `synced` state: time is not modelled, and the timer is an event.
- zod beyond what the schemas use (refinements, coercion, error messages).
- Types.ItemImageRenamed, Types.ItemVideoRenamed, Types.UsernameResponsesRenamed: the snake_case to camelCase correspondence is proved for the image, video and username schemas only. For the 28-field article schema and the articles response, the same statement exceeds the verifier's resource limit. Those two validators are characterised by their own iff lemmas (`Types.ArticleValid`, `Types.MissingArticlesDefault`) instead.
- Zod.OutputIdempotent: it needs distinct keys, which is not proved for the article schemas (the comparison of 28 literal keys exceeds the resource limit). So idempotence is not applied to the article schemas.

## Findings

| source | as written | input that shows it | evidently intended | confidence | as-written member | corrected member |
|---|---|---|---|---|---|---|
| server/src/api/mod.rs:93-106 | `get_access_token` builds the `POCKETY_AUTH` Set-Cookie header map, then returns `TypedResponse { body, ..Default::default() }`, so the response carries no headers | any request for which Pocket returns an access token and the store issues a cookie | the header map is attached, so the browser receives the cookie naming the session just stored | not executed | ProtoApi.AsWrittenSendsNoCookie | ProtoApi.IntendedSetsSessionCookie |
