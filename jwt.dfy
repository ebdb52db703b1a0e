/** The token service of internal/pkg/auth/jwt.go.

    HMAC signing and the JWS compact serialization belong to golang-jwt and
    are not modelled bit for bit:
    - signing is an ideal MAC: the tag of (method, key, claims) is the value
      Signature(alg, key, claims), so a tag verifies under one key and one
      set of claims only;
    - serialization is a Codec given as a parameter, and the round-trip
      lemmas require that decoding an encoding gives the token back.
    Instants are nanoseconds; registered date claims hold whole seconds
    (RFC 7519 NumericDate, truncated as golang-jwt does by default). */
module Jwt {

  import opened Wrappers
  import opened Time
  import AuthMiddleware

  const DefaultTokenDuration: Duration := 24 * Hour
  const DefaultIssuer: string := "go-backend-template"

  datatype SigningMethod = HS256 | HS384 | HS512 | RS256 | ES256 | PS256 | EdDSA | NoSignature

  /** The keyfunc accepts only the HMAC family. */
  predicate IsHmac(m: SigningMethod) {
    m.HS256? || m.HS384? || m.HS512?
  }

  /** The registered claims this service writes or golang-jwt checks. */
  datatype RegisteredClaims = RegisteredClaims(
    issuer: string,
    issuedAt: Option<Instant>,
    expiresAt: Option<Instant>,
    notBefore: Option<Instant>)

  datatype CustomClaims = CustomClaims(userId: int, role: string, registered: RegisteredClaims)

  datatype Signature = Signature(alg: SigningMethod, key: string, claims: CustomClaims)

  datatype Token = Token(alg: SigningMethod, claims: CustomClaims, signature: Signature)

  /** The compact serialization: `encode` is SignedString's output, `decode` is
      what ParseWithClaims reads back (None for a malformed string). */
  datatype Codec = Codec(encode: Token -> string, decode: string -> Option<Token>)

  /** Decoding an encoding gives the token back, and encodings are never empty
      (a JWS compact serialization always holds two dots). */
  ghost predicate RoundTrips(codec: Codec) {
    forall t: Token {:trigger codec.encode(t)} :: codec.decode(codec.encode(t)) == Some(t) && codec.encode(t) != ""
  }

  datatype TokenError = ErrInvalidToken | ErrExpiredToken {
    function Message(): (m: string)
      ensures m == "invalid token" <==> this == ErrInvalidToken
      ensures m == "token has expired" <==> this == ErrExpiredToken
    {
      match this
      case ErrInvalidToken => "invalid token"
      case ErrExpiredToken => "token has expired"
    }
  }

  datatype JWTConfig = JWTConfig(secretKey: string, tokenDuration: Duration, issuer: string)

  datatype JWTService = JWTService(secretKey: string, tokenDuration: Duration, issuer: string) {
    /** What NewJWTService guarantees of every service it builds. */
    predicate Valid() {
      secretKey != "" && tokenDuration != 0 && issuer != ""
    }
  }

  /** NewJWTService: an empty secret is an error; a zero duration becomes 24h and
      an empty issuer "go-backend-template"; everything else is kept as given. */
  function NewJWTService(config: JWTConfig): (r: Result<JWTService, string>)
    ensures r.Failure? <==> config.secretKey == ""
    ensures r.Failure? ==> r.error == "secret key is required"
    ensures r.Success? ==> r.value.Valid() && r.value.secretKey == config.secretKey
    ensures r.Success? && config.tokenDuration != 0 ==> r.value.tokenDuration == config.tokenDuration
    ensures r.Success? && config.issuer != "" ==> r.value.issuer == config.issuer
    ensures r.Success? && config.tokenDuration == 0 ==> r.value.tokenDuration == DefaultTokenDuration
    ensures r.Success? && config.issuer == "" ==> r.value.issuer == DefaultIssuer
  {
    if config.secretKey == "" then Failure("secret key is required")
    else
      var tokenDuration := if config.tokenDuration == 0 then DefaultTokenDuration else config.tokenDuration;
      var issuer := if config.issuer == "" then DefaultIssuer else config.issuer;
      Success(JWTService(config.secretKey, tokenDuration, issuer))
  }

  /** Every service is a fixed point of the defaulting: rebuilding it from its own
      settings changes nothing. */
  lemma NewJWTServiceIsIdempotent(config: JWTConfig)
    requires NewJWTService(config).Success?
    ensures var s := NewJWTService(config).value;
            NewJWTService(JWTConfig(s.secretKey, s.tokenDuration, s.issuer)) == Success(s)
  {
  }

  /** Each default applies on its own, whatever the other field holds, and a
      negative duration is kept as given. */
  lemma NewJWTServiceDefaults(secret: string, d: Duration, issuer: string)
    requires secret != ""
    ensures NewJWTService(JWTConfig(secret, 0, issuer)).value.tokenDuration == 24 * Hour
    ensures NewJWTService(JWTConfig(secret, d, "")).value.issuer == "go-backend-template"
    ensures NewJWTService(JWTConfig(secret, 0, "")) == Success(JWTService(secret, 24 * Hour, "go-backend-template"))
    ensures d < 0 ==> NewJWTService(JWTConfig(secret, d, issuer)).value.tokenDuration == d
  {
  }

  /** The claims GenerateToken signs. */
  function IssuedClaims(s: JWTService, userId: int, role: string, now: Instant): (c: CustomClaims)
    ensures c.userId == userId && c.role == role && c.registered.issuer == s.issuer
    ensures c.registered.notBefore == None
    ensures c.registered.issuedAt.Some? && c.registered.issuedAt.value <= now < c.registered.issuedAt.value + Second
    ensures c.registered.expiresAt.Some?
    ensures c.registered.expiresAt.value <= now + s.tokenDuration < c.registered.expiresAt.value + Second
    ensures c.registered.issuedAt.value % Second == 0 && c.registered.expiresAt.value % Second == 0
  {
    CustomClaims(userId, role,
      RegisteredClaims(s.issuer, Some(TruncateToSecond(now)), Some(TruncateToSecond(now + s.tokenDuration)), None))
  }

  function Sign(alg: SigningMethod, key: string, claims: CustomClaims): Signature {
    Signature(alg, key, claims)
  }

  /** GenerateToken: the HS256 token of IssuedClaims, serialized. */
  function GenerateToken(s: JWTService, codec: Codec, userId: int, role: string, now: Instant): (r: string)
    ensures RoundTrips(codec) ==>
              && codec.decode(r).Some?
              && codec.decode(r).value.alg == HS256
              && codec.decode(r).value.claims == IssuedClaims(s, userId, role, now)
              && Authentic(s, codec.decode(r).value)
  {
    var claims := IssuedClaims(s, userId, role, now);
    codec.encode(Token(HS256, claims, Sign(HS256, s.secretKey, claims)))
  }

  /** golang-jwt's expiry test: expired unless now is strictly before "exp". */
  predicate Expired(rc: RegisteredClaims, now: Instant) {
    rc.expiresAt.Some? && !(now < rc.expiresAt.value)
  }

  predicate NotYetValid(rc: RegisteredClaims, now: Instant) {
    rc.notBefore.Some? && now < rc.notBefore.value
  }

  /** The keyfunc accepts the method and the tag matches under this service's key. */
  predicate Authentic(s: JWTService, t: Token) {
    IsHmac(t.alg) && t.signature == Sign(t.alg, s.secretKey, t.claims)
  }

  /** ValidateToken: decoding, the keyfunc's method check and the signature come
      first; then the claims. A failure whose causes include expiry reports
      ErrExpiredToken; every other failure reports ErrInvalidToken. */
  function ValidateToken(s: JWTService, codec: Codec, tokenString: string, now: Instant): (r: Result<AuthMiddleware.Claims, TokenError>)
    ensures r.Success? <==>
              && codec.decode(tokenString).Some?
              && Authentic(s, codec.decode(tokenString).value)
              && !Expired(codec.decode(tokenString).value.claims.registered, now)
              && !NotYetValid(codec.decode(tokenString).value.claims.registered, now)
    ensures r.Success? ==>
              var c := codec.decode(tokenString).value.claims;
              r.value == AuthMiddleware.Claims(c.userId, c.role)
    ensures r == Failure(ErrExpiredToken) <==>
              && codec.decode(tokenString).Some?
              && Authentic(s, codec.decode(tokenString).value)
              && Expired(codec.decode(tokenString).value.claims.registered, now)
  {
    match codec.decode(tokenString)
    case None => Failure(ErrInvalidToken)
    case Some(t) =>
      if !IsHmac(t.alg) then Failure(ErrInvalidToken)
      else if t.signature != Sign(t.alg, s.secretKey, t.claims) then Failure(ErrInvalidToken)
      else
        var rc := t.claims.registered;
        if Expired(rc, now) then Failure(ErrExpiredToken)
        else if NotYetValid(rc, now) then Failure(ErrInvalidToken)
        else Success(AuthMiddleware.Claims(t.claims.userId, t.claims.role))
  }

  /** A generated token validates, under the same service, to the identity it was
      issued for until its truncated expiry, and is reported expired from then on. */
  lemma GenerateThenValidate(s: JWTService, codec: Codec, userId: int, role: string, issuedAt: Instant, now: Instant)
    requires RoundTrips(codec)
    ensures var exp := TruncateToSecond(issuedAt + s.tokenDuration);
            ValidateToken(s, codec, GenerateToken(s, codec, userId, role, issuedAt), now)
            == if now < exp then Success(AuthMiddleware.Claims(userId, role)) else Failure(ErrExpiredToken)
  {
    var claims := IssuedClaims(s, userId, role, issuedAt);
    var t := Token(HS256, claims, Sign(HS256, s.secretKey, claims));
    assert codec.decode(codec.encode(t)) == Some(t);
  }

  /** With a duration of at least a second, a token validates at the moment it is issued. */
  lemma FreshTokenValidates(s: JWTService, codec: Codec, userId: int, role: string, now: Instant)
    requires RoundTrips(codec) && s.tokenDuration >= Second
    ensures ValidateToken(s, codec, GenerateToken(s, codec, userId, role, now), now)
            == Success(AuthMiddleware.Claims(userId, role))
  {
    GenerateThenValidate(s, codec, userId, role, now, now);
  }

  /** A negative duration, which NewJWTService keeps, issues tokens that are
      already expired when issued. */
  lemma NegativeDurationIssuesExpiredTokens(s: JWTService, codec: Codec, userId: int, role: string, now: Instant)
    requires RoundTrips(codec) && s.tokenDuration < 0
    ensures ValidateToken(s, codec, GenerateToken(s, codec, userId, role, now), now) == Failure(ErrExpiredToken)
  {
    GenerateThenValidate(s, codec, userId, role, now, now);
  }

  /** A token issued under one secret is invalid under any other, expired or not. */
  lemma OtherSecretIsInvalid(s1: JWTService, s2: JWTService, codec: Codec, userId: int, role: string, issuedAt: Instant, now: Instant)
    requires RoundTrips(codec) && s1.secretKey != s2.secretKey
    ensures ValidateToken(s2, codec, GenerateToken(s1, codec, userId, role, issuedAt), now) == Failure(ErrInvalidToken)
  {
    var claims := IssuedClaims(s1, userId, role, issuedAt);
    var t := Token(HS256, claims, Sign(HS256, s1.secretKey, claims));
    assert codec.decode(codec.encode(t)) == Some(t);
  }

  /** A token whose header names a method outside the HMAC family is invalid,
      whatever its signature and claims. */
  lemma NonHmacIsInvalid(s: JWTService, codec: Codec, t: Token, now: Instant)
    requires RoundTrips(codec) && !IsHmac(t.alg)
    ensures ValidateToken(s, codec, codec.encode(t), now) == Failure(ErrInvalidToken)
  {
    assert codec.decode(codec.encode(t)) == Some(t);
  }

  /** Expiry is reported even when "nbf" is also in the future; "nbf" alone makes
      the token invalid. */
  lemma ExpiryTakesPrecedence(s: JWTService, codec: Codec, t: Token, now: Instant)
    requires RoundTrips(codec) && Authentic(s, t) && NotYetValid(t.claims.registered, now)
    ensures Expired(t.claims.registered, now) ==> ValidateToken(s, codec, codec.encode(t), now) == Failure(ErrExpiredToken)
    ensures !Expired(t.claims.registered, now) ==> ValidateToken(s, codec, codec.encode(t), now) == Failure(ErrInvalidToken)
  {
    assert codec.decode(codec.encode(t)) == Some(t);
  }

  /** The service as the middleware's validator at one instant; the error text is
      the TokenError's message. */
  function AsValidator(s: JWTService, codec: Codec, now: Instant): AuthMiddleware.Validator {
    (tokenString: string) =>
      match ValidateToken(s, codec, tokenString, now)
      case Success(claims) => Success(claims)
      case Failure(e) => Failure(e.Message())
  }

  /** A request carrying "Bearer " + a token this service issued passes RequireAuth's
      checks with the issued identity until expiry, and afterwards is rejected as
      "invalid token" with data "token has expired". */
  lemma IssuedTokenAuthenticates(s: JWTService, codec: Codec, userId: int, role: string, issuedAt: Instant, now: Instant)
    requires RoundTrips(codec)
    ensures var header := AuthMiddleware.BearerPrefix + GenerateToken(s, codec, userId, role, issuedAt);
            var d := AuthMiddleware.Authenticate(header, AsValidator(s, codec, now));
            if now < TruncateToSecond(issuedAt + s.tokenDuration)
            then d == AuthMiddleware.Continue(AuthMiddleware.Claims(userId, role))
            else d == AuthMiddleware.Reject(AuthMiddleware.MsgInvalidToken, Some("token has expired"))
  {
    var claims := IssuedClaims(s, userId, role, issuedAt);
    var t := Token(HS256, claims, Sign(HS256, s.secretKey, claims));
    assert codec.decode(codec.encode(t)) == Some(t) && codec.encode(t) != "";
    GenerateThenValidate(s, codec, userId, role, issuedAt, now);
    AuthMiddleware.BearerTokenIsValidated(GenerateToken(s, codec, userId, role, issuedAt), AsValidator(s, codec, now));
  }
}
