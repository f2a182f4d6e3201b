/** app-server/src/oauth.rs: the "state" token that carries a pending
    handshake through Pocket's redirect (sign with JWS, then encrypt with
    JWE), and the random CSRF token and nonce.

    The cryptography of the `biscuit` crate is not modelled. It is given to
    the model as a `Crypto` value of four functions, and the only law assumed
    of them (`Lawful`) is the round trip exercised by the module's test:
    verifying with the signing secret what was signed gives the claims back,
    and decrypting with the encryption key what was encrypted gives the
    signed token back. */
module OAuth {
  import opened Wrappers
  import opened Errors
  import Base64Url

  type byte = Base64Url.byte

  /** Secrets and keys are opaque to the model. */
  type Secret = string
  type Key = string

  const JustLinksIssuer: string := "https://just-links.dev"

  /** The payload of the state token. */
  datatype OAuthState = OAuthState(requestToken: string, sessionCookie: string, csrfToken: string)

  datatype SignatureAlgorithm = HS256 | OtherSignatureAlgorithm(name: string)
  datatype KeyManagementAlgorithm = A256GCMKW | OtherKeyManagementAlgorithm(name: string)
  datatype ContentEncryptionAlgorithm = A256GCM | OtherContentEncryptionAlgorithm(name: string)

  /** The JWS header; every field but the algorithm is left at its default. */
  datatype JwsHeader = JwsHeader(algorithm: SignatureAlgorithm)
  datatype JweHeader = JweHeader(cekAlgorithm: KeyManagementAlgorithm, encAlgorithm: ContentEncryptionAlgorithm)

  /** `RegisteredClaims` (times as seconds). */
  datatype RegisteredClaims = RegisteredClaims(
    issuer: Option<string>,
    subject: Option<string>,
    audience: Option<string>,
    expiry: Option<int>,
    notBefore: Option<int>,
    issuedAt: Option<int>,
    id: Option<string>)

  datatype ClaimsSet<T> = ClaimsSet(registered: RegisteredClaims, private: T)

  /** `jws::Compact`: a token is either decoded (header and claims, no
      signature) or a signed compact string. */
  datatype JwsCompact<T> = Decoded(header: JwsHeader, payload: ClaimsSet<T>) | Encoded(compact: string)

  /** `jwe::Compact`: plaintext with its header, or an encrypted compact string. */
  datatype JweCompact<T> = Decrypted(header: JweHeader, payload: JwsCompact<T>) | Encrypted(compact: string)

  /** `JwsEncoded<T>`, the signed token handed from signing to encryption. */
  datatype JwsEncoded<T> = JwsEncoded(jws: JwsCompact<T>)

  /** The four `biscuit` operations the code calls, each failing with the
      library's error text:
      - `sign`: `JWT::new_decoded(header, claims).into_encoded(secret)`;
      - `verify`: `into_decoded(secret, algorithm)` then `payload()`;
      - `encrypt`: `JWE::new_decrypted(header, jws).encrypt(key, AES_GCM { nonce })`;
      - `decrypt`: `JWE::new_encrypted(token).into_decrypted(key, cek, enc)` then `payload()`. */
  datatype Crypto<!T> = Crypto(
    sign: (JwsHeader, ClaimsSet<T>, Secret) -> Result<string, string>,
    verify: (string, Secret, SignatureAlgorithm) -> Result<ClaimsSet<T>, string>,
    encrypt: (JweHeader, JwsCompact<T>, Key, seq<byte>) -> Result<JweCompact<T>, string>,
    decrypt: (string, Key, KeyManagementAlgorithm, ContentEncryptionAlgorithm) -> Result<JwsCompact<T>, string>)

  /** The round-trip law, the only property of the cryptography assumed. */
  ghost predicate Lawful<T(!new)>(c: Crypto<T>) {
    && (forall h, claims, s :: c.sign(h, claims, s).Ok? ==>
          c.verify(c.sign(h, claims, s).value, s, h.algorithm) == Ok(claims))
    && (forall h, p, k, n :: c.encrypt(h, p, k, n).Ok? && c.encrypt(h, p, k, n).value.Encrypted? ==>
          c.decrypt(c.encrypt(h, p, k, n).value.compact, k, h.cekAlgorithm, h.encAlgorithm) == Ok(p))
  }

  const SigningHeader: JwsHeader := JwsHeader(HS256)
  const EncryptionHeader: JweHeader := JweHeader(A256GCMKW, A256GCM)

  /** The claims `jws_encode` signs: the payload as private claims, the
      issuer set and every other registered claim absent. */
  function JustLinksClaims<T>(payload: T): (claims: ClaimsSet<T>)
    ensures claims.private == payload
    ensures claims.registered.issuer == Some(JustLinksIssuer)
    ensures claims.registered == RegisteredClaims(Some(JustLinksIssuer), None, None, None, None, None, None)
  {
    ClaimsSet(RegisteredClaims(Some(JustLinksIssuer), None, None, None, None, None, None), payload)
  }

  /** `Jwt::jws_encode`: sign the claims with HS256. */
  function JwsEncode<T>(c: Crypto<T>, payload: T, secret: Secret): (r: Result<JwsEncoded<T>, Error>)
    ensures r.Ok? <==> c.sign(SigningHeader, JustLinksClaims(payload), secret).Ok?
    ensures r.Ok? ==> r.value.jws == Encoded(c.sign(SigningHeader, JustLinksClaims(payload), secret).value)
    ensures r.Err? ==> r.error == Jwt(c.sign(SigningHeader, JustLinksClaims(payload), secret).error)
  {
    match c.sign(SigningHeader, JustLinksClaims(payload), secret)
    case Ok(compact) => Ok(JwsEncoded(Encoded(compact)))
    case Err(e) => Err(Jwt(e))
  }

  /** The nonce drawn from the random stream: its first 12 bytes (96 bits). */
  function NonceOf(entropy: seq<byte>): (nonce: seq<byte>)
    requires |entropy| >= 12
    ensures |nonce| == 12
  {
    entropy[..12]
  }

  /** `Jwt::jwe_encrypt`: encrypt with A256GCMKW / A256GCM under a fresh
      nonce; an encryption that comes back still decrypted is an error, never
      a plaintext token. */
  function JweEncrypt<T>(c: Crypto<T>, signed: JwsEncoded<T>, key: Key, entropy: seq<byte>): (r: Result<string, Error>)
    requires |entropy| >= 12
    ensures r.Ok? <==> (c.encrypt(EncryptionHeader, signed.jws, key, NonceOf(entropy)).Ok? && c.encrypt(EncryptionHeader, signed.jws, key, NonceOf(entropy)).value.Encrypted?)
    ensures r.Ok? ==> r.value == c.encrypt(EncryptionHeader, signed.jws, key, NonceOf(entropy)).value.compact
    ensures c.encrypt(EncryptionHeader, signed.jws, key, NonceOf(entropy)).Ok? &&
            c.encrypt(EncryptionHeader, signed.jws, key, NonceOf(entropy)).value.Decrypted? ==>
              r == Err(Jwt("Failed to encrypt token"))
  {
    match c.encrypt(EncryptionHeader, signed.jws, key, NonceOf(entropy))
    case Err(e) => Err(Jwt(e))
    case Ok(Encrypted(compact)) => Ok(compact)
    case Ok(Decrypted(_, _)) => Err(Jwt("Failed to encrypt token"))
  }

  /** `Jwt::jwe_decrypt`: decrypt with A256GCMKW / A256GCM; a payload that
      is already decoded is returned as it stands, a signed one is verified
      with HS256 (never with the algorithm named in the token). Only the
      private claims are returned: the issuer is checked on neither branch. */
  function JweDecrypt<T>(c: Crypto<T>, token: string, key: Key, secret: Secret): (r: Result<T, Error>)
    ensures c.decrypt(token, key, A256GCMKW, A256GCM).Err? ==>
              r == Err(Api(InternalServerError(c.decrypt(token, key, A256GCMKW, A256GCM).error)))
    ensures c.decrypt(token, key, A256GCMKW, A256GCM).Ok? && c.decrypt(token, key, A256GCMKW, A256GCM).value.Decoded? ==>
              r == Ok(c.decrypt(token, key, A256GCMKW, A256GCM).value.payload.private)
    ensures c.decrypt(token, key, A256GCMKW, A256GCM).Ok? && c.decrypt(token, key, A256GCMKW, A256GCM).value.Encoded? ==>
              var v := c.verify(c.decrypt(token, key, A256GCMKW, A256GCM).value.compact, secret, HS256);
              r == if v.Ok? then Ok(v.value.private) else Err(Jwt(v.error))
  {
    match c.decrypt(token, key, A256GCMKW, A256GCM)
    case Err(e) => Err(From(BiscuitError(e)))
    case Ok(Decoded(_, claims)) => Ok(claims.private)
    case Ok(Encoded(compact)) =>
      match c.verify(compact, secret, HS256)
      case Ok(claims) => Ok(claims.private)
      case Err(e) => Err(Jwt(e))
  }

  /** `OAuthState::into_token`: sign, then encrypt; a signing error stops
      before encryption. */
  function IntoToken(c: Crypto<OAuthState>, state: OAuthState, secret: Secret, key: Key, entropy: seq<byte>): (r: Result<string, Error>)
    requires |entropy| >= 12
    ensures JwsEncode(c, state, secret).Err? ==> r == Err(JwsEncode(c, state, secret).error)
    ensures JwsEncode(c, state, secret).Ok? ==> r == JweEncrypt(c, JwsEncode(c, state, secret).value, key, entropy)
  {
    var signed :- JwsEncode(c, state, secret);
    JweEncrypt(c, signed, key, entropy)
  }

  /** `OAuthState::from_token`: decrypt, then verify. */
  function FromToken(c: Crypto<OAuthState>, token: string, secret: Secret, key: Key): (r: Result<OAuthState, Error>)
    ensures r == JweDecrypt(c, token, key, secret)
  {
    JweDecrypt(c, token, key, secret)
  }

  /** The round trip of the module's test: with the same secret and key,
      decrypting what was signed and encrypted returns the payload. */
  lemma RoundTrip<T(!new)>(c: Crypto<T>, payload: T, secret: Secret, key: Key, entropy: seq<byte>)
    requires Lawful(c) && |entropy| >= 12
    requires JwsEncode(c, payload, secret).Ok?
    requires JweEncrypt(c, JwsEncode(c, payload, secret).value, key, entropy).Ok?
    ensures JweDecrypt(c, JweEncrypt(c, JwsEncode(c, payload, secret).value, key, entropy).value, key, secret) == Ok(payload)
  {
    var claims := JustLinksClaims(payload);
    var signed := JwsEncode(c, payload, secret).value;
    assert c.verify(signed.jws.compact, secret, HS256) == Ok(claims);
    var token := JweEncrypt(c, signed, key, entropy).value;
    assert c.decrypt(token, key, A256GCMKW, A256GCM) == Ok(signed.jws);
  }

  /** The same round trip for the state token itself. */
  lemma StateRoundTrip(c: Crypto<OAuthState>, state: OAuthState, secret: Secret, key: Key, entropy: seq<byte>)
    requires Lawful(c) && |entropy| >= 12
    requires IntoToken(c, state, secret, key, entropy).Ok?
    ensures FromToken(c, IntoToken(c, state, secret, key, entropy).value, secret, key) == Ok(state)
  {
    RoundTrip(c, state, secret, key, entropy);
  }

  /** The issuer is never checked: whatever registered claims the verified
      token carries, `from_token` returns its private claims. */
  lemma IssuerNotChecked(c: Crypto<OAuthState>, token: string, secret: Secret, key: Key, compact: string, claims: ClaimsSet<OAuthState>)
    requires c.decrypt(token, key, A256GCMKW, A256GCM) == Ok(Encoded(compact))
    requires c.verify(compact, secret, HS256) == Ok(claims)
    ensures FromToken(c, token, secret, key) == Ok(claims.private)
  {
  }

  /** A decrypted payload that is already decoded is accepted without any
      signature check: changing the verifier changes nothing. */
  lemma DecodedPayloadSkipsVerification(c: Crypto<OAuthState>, verify: (string, Secret, SignatureAlgorithm) -> Result<ClaimsSet<OAuthState>, string>,
                                        token: string, secret: Secret, key: Key)
    requires c.decrypt(token, key, A256GCMKW, A256GCM).Ok? && c.decrypt(token, key, A256GCMKW, A256GCM).value.Decoded?
    ensures FromToken(c.(verify := verify), token, secret, key) == FromToken(c, token, secret, key)
  {
  }

  /** `thread_rng().fill_bytes(buf)`: fills the buffer in place from the
      random stream, given here as the sequence of bytes it yields. */
  method FillBytes(buf: array<byte>, entropy: seq<byte>)
    requires |entropy| >= buf.Length
    modifies buf
    ensures buf[..] == entropy[..buf.Length]
  {
    var i := 0;
    while i < buf.Length
      invariant 0 <= i <= buf.Length
      invariant buf[..i] == entropy[..i]
    {
      buf[i] := entropy[i];
      i := i + 1;
    }
  }

  /** `Jwt::generated_nonce`: a 12-byte buffer filled with random bytes. */
  method GeneratedNonce(entropy: seq<byte>) returns (nonce: seq<byte>)
    requires |entropy| >= 12
    ensures |nonce| == 12
    ensures nonce == NonceOf(entropy)
  {
    var buf := new byte[12];
    FillBytes(buf, entropy);
    nonce := buf[..];
  }

  /** The CSRF token for a random stream: its first 32 bytes (256 bits),
      base64 URL-safe without padding. */
  function CsrfTokenOf(entropy: seq<byte>): (token: string)
    requires |entropy| >= 32
    ensures |token| == 43
    ensures forall i :: 0 <= i < |token| ==> Base64Url.IsUrlSafeChar(token[i])
  {
    Base64Url.Encode(entropy[..32])
  }

  /** `generate_csrf_token`. */
  method GenerateCsrfToken(entropy: seq<byte>) returns (token: string)
    requires |entropy| >= 32
    ensures token == CsrfTokenOf(entropy)
    ensures Base64Url.Decode(token) == Some(entropy[..32])
  {
    var bytes := new byte[32];
    FillBytes(bytes, entropy);
    token := Base64Url.Encode(bytes[..]);
    Base64Url.DecodeEncode(bytes[..]);
  }

  /** Distinct random draws give distinct CSRF tokens. */
  lemma CsrfTokenInjective(e1: seq<byte>, e2: seq<byte>)
    requires |e1| >= 32 && |e2| >= 32
    requires e1[..32] != e2[..32]
    ensures CsrfTokenOf(e1) != CsrfTokenOf(e2)
  {
    if CsrfTokenOf(e1) == CsrfTokenOf(e2) {
      Base64Url.EncodeInjective(e1[..32], e2[..32]);
    }
  }
}
