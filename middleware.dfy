/** The request gates of internal/app/server/middleware/auth/auth.go.

    Each gate acts on one request's gin context: it either hands the request
    on (`proceeded`) or aborts it with a JSON error. The header parsing of
    RequireAuth and the admin-or-self test are pure functions; the gate
    methods are specified by them. */
module AuthMiddleware {

  import opened Wrappers
  import opened Text
  import opened Gin
  import opened HandlerContext
  import Entity

  const AuthorizationHeader: string := "Authorization"
  const BearerPrefix: string := "Bearer "
  const VaryHeader: string := "Vary"

  const MsgHeaderRequired: string := "authorization header is required"
  const MsgInvalidFormat: string := "invalid authorization header format"
  const MsgTokenRequired: string := "token is required"
  const MsgInvalidToken: string := "invalid token"
  const MsgInsufficientPermissions: string := "insufficient permissions"

  /** The identity a validated token carries. */
  datatype Claims = Claims(userId: int, role: string)

  /** IJWTValidator.ValidateToken: claims, or the error's text. */
  type Validator = string -> Result<Claims, string>

  /** What RequireAuth decides from the Authorization header. */
  datatype AuthDecision = Continue(claims: Claims) | Reject(message: string, data: Option<string>)

  /** The JSON body of an aborted request: "message", and "data" when present. */
  function ErrorBody(message: string, data: Option<string>): Json {
    match data
    case None => JObject(map["message" := JString(message)])
    case Some(d) => JObject(map["message" := JString(message), "data" := JString(d)])
  }

  /** The checks of RequireAuth, in order: header present, "Bearer " prefix,
      non-empty token, validator. */
  function Authenticate(header: string, validate: Validator): (r: AuthDecision)
    ensures r.Continue? <==>
              HasPrefix(header, BearerPrefix) && |header| > |BearerPrefix|
              && validate(header[|BearerPrefix|..]).Success?
    ensures r.Continue? ==> validate(header[|BearerPrefix|..]) == Success(r.claims)
    ensures r.Reject? ==>
              r.message in {MsgHeaderRequired, MsgInvalidFormat, MsgTokenRequired, MsgInvalidToken}
    ensures r.Reject? && r.data.Some? ==>
              && r.message == MsgInvalidToken && |header| > |BearerPrefix|
              && validate(header[|BearerPrefix|..]) == Failure(r.data.value)
  {
    if header == "" then Reject(MsgHeaderRequired, None)
    else if !HasPrefix(header, BearerPrefix) then Reject(MsgInvalidFormat, None)
    else
      var token := TrimPrefix(header, BearerPrefix);
      if token == "" then Reject(MsgTokenRequired, None)
      else match validate(token)
        case Failure(e) => Reject(MsgInvalidToken, Some(e))
        case Success(claims) => Continue(claims)
  }

  /** The three rejections before validation do not depend on the validator:
      it is not consulted for an empty header, a header without the exact
      "Bearer " prefix, or a bare "Bearer ". */
  lemma EarlyRejectionsIgnoreValidator(header: string, v1: Validator, v2: Validator)
    requires header == "" || !HasPrefix(header, BearerPrefix) || header == BearerPrefix
    ensures Authenticate(header, v1) == Authenticate(header, v2)
    ensures header == "" ==> Authenticate(header, v1) == Reject(MsgHeaderRequired, None)
    ensures header != "" && !HasPrefix(header, BearerPrefix) ==>
              Authenticate(header, v1) == Reject(MsgInvalidFormat, None)
    ensures header == BearerPrefix ==> Authenticate(header, v1) == Reject(MsgTokenRequired, None)
  {
  }

  /** A header "Bearer " + token with a non-empty token hands exactly that token
      to the validator: failure becomes "invalid token" with the error text as
      data, success continues with the claims. */
  lemma BearerTokenIsValidated(token: string, validate: Validator)
    requires token != ""
    ensures Authenticate(BearerPrefix + token, validate) ==
              match validate(token)
              case Failure(e) => Reject(MsgInvalidToken, Some(e))
              case Success(claims) => Continue(claims)
  {
    assert (BearerPrefix + token)[..|BearerPrefix|] == BearerPrefix;
    assert (BearerPrefix + token)[|BearerPrefix|..] == token;
  }

  /** Only one prefix is removed: "Bearer Bearer x" validates "Bearer x". */
  lemma OnePrefixRemoved(validate: Validator)
    ensures Authenticate("Bearer Bearer x", validate) == Authenticate(BearerPrefix + "Bearer x", validate)
    ensures Authenticate("Bearer Bearer x", validate).Continue? <==> validate("Bearer x").Success?
  {
    assert "Bearer Bearer x" == BearerPrefix + "Bearer x";
    BearerTokenIsValidated("Bearer x", validate);
  }

  /** The prefix is case-sensitive and includes its space. */
  lemma PrefixIsExact(validate: Validator)
    ensures Authenticate("bearer abc", validate) == Reject(MsgInvalidFormat, None)
    ensures Authenticate("Bearer", validate) == Reject(MsgInvalidFormat, None)
    ensures Authenticate("Basic abc", validate) == Reject(MsgInvalidFormat, None)
    ensures Authenticate("abc", validate) == Reject(MsgInvalidFormat, None)
  {
    assert "bearer abc"[..7] != BearerPrefix by { assert "bearer abc"[0] != BearerPrefix[0]; }
    assert "Basic abc"[..7] != BearerPrefix by { assert "Basic abc"[1] != BearerPrefix[1]; }
  }

  /** Go's int-to-int32 conversion: keep the low 32 bits, read as two's complement. */
  function Int32Wrap(x: int): (r: int)
    ensures -0x8000_0000 <= r < 0x8000_0000
    ensures (x - r) % 0x1_0000_0000 == 0
  {
    var m := x % 0x1_0000_0000;
    if m >= 0x8000_0000 then m - 0x1_0000_0000 else m
  }

  predicate IsScalarValue(r: int) {
    0 <= r <= 0xD7FF || 0xE000 <= r <= 0x10FFFF
  }

  /** Go's string(rune(x)): the one character with that code point, or U+FFFD
      when the wrapped value is a surrogate, negative or above U+10FFFF. */
  function RuneString(x: int): (s: string)
    ensures |s| == 1
    ensures IsScalarValue(Int32Wrap(x)) ==> s[0] as int == Int32Wrap(x)
    ensures !IsScalarValue(Int32Wrap(x)) ==> s == "\U{FFFD}"
  {
    var r := Int32Wrap(x);
    if IsScalarValue(r) then [r as char] else "\U{FFFD}"
  }

  /** The admin-or-self test of RequireAdminOrSelf, as written: an admin passes;
      anyone else passes only when the path parameter is non-empty and equals
      string(rune(userId)). */
  function AdminOrSelfAllows(role: string, userId: int, paramId: string): (b: bool)
    ensures role == Entity.RoleAdmin ==> b
    ensures paramId == "" ==> (b <==> role == Entity.RoleAdmin)
    ensures b && role != Entity.RoleAdmin ==> |paramId| == 1
  {
    role == Entity.RoleAdmin || (paramId != "" && paramId == RuneString(userId))
  }

  /** A non-admin is admitted exactly by the one-character parameter whose code
      point is the id (wrapped to 32 bits), or U+FFFD for ids that are not a code point. */
  lemma SelfTestIsCodePointEquality(role: string, userId: int, paramId: string)
    requires role != Entity.RoleAdmin
    ensures AdminOrSelfAllows(role, userId, paramId) <==>
              |paramId| == 1
              && (if IsScalarValue(Int32Wrap(userId)) then paramId[0] as int == Int32Wrap(userId)
                  else paramId[0] == '\U{FFFD}')
  {
    var s := RuneString(userId);
    if |paramId| == 1 && IsScalarValue(Int32Wrap(userId)) && paramId[0] as int == Int32Wrap(userId) {
      assert paramId == [paramId[0]] && s == [s[0]];
    }
    if |paramId| == 1 && !IsScalarValue(Int32Wrap(userId)) && paramId[0] == '\U{FFFD}' {
      assert paramId == [paramId[0]];
    }
  }

  /** Examples: user 55 reaches "/users/7" ('7' is U+0037), user 7 does not. */
  lemma SelfTestExamples()
    ensures AdminOrSelfAllows(Entity.RoleUser, 55, "7")
    ensures !AdminOrSelfAllows(Entity.RoleUser, 7, "7")
    ensures AdminOrSelfAllows(Entity.RoleAdmin, 7, "anything")
    ensures !AdminOrSelfAllows(Entity.RoleUser, 55, "")
  {
    assert RuneString(55) == "7";
  }

  /** No non-admin is ever admitted by their own id written in decimal. */
  lemma DecimalIdNeverMatches(role: string, userId: nat)
    requires role != Entity.RoleAdmin
    ensures !AdminOrSelfAllows(role, userId, NatString(userId))
  {
    var p := NatString(userId);
    if userId < 10 {
      assert p[0] as int == 48 + userId by {
        assert NatString(userId) == [DigitChar(userId)];
      }
      assert Int32Wrap(userId) == userId;
      assert RuneString(userId)[0] as int == userId;
    }
  }

  /** Ids that agree modulo 2^32 are indistinguishable to the self test. */
  lemma SelfTestWrapsAround(role: string, userId: int, paramId: string)
    ensures AdminOrSelfAllows(role, userId, paramId) == AdminOrSelfAllows(role, userId + 0x1_0000_0000, paramId)
  {
    assert Int32Wrap(userId) == Int32Wrap(userId + 0x1_0000_0000);
  }

  /** The self test as evidently intended: the path parameter, read as a decimal
      integer, is the caller's id. */
  function AdminOrSelfIntended(role: string, userId: int, paramId: string): (b: bool)
    ensures role == Entity.RoleAdmin ==> b
    ensures paramId == IntString(userId) ==> b
    ensures b && role != Entity.RoleAdmin ==> paramId != "" && ParseInt(paramId) == Some(userId)
  {
    IntStringRoundTrip(userId);
    role == Entity.RoleAdmin || ParseInt(paramId) == Some(userId)
  }

  /** Under the intended test a non-admin reaches the path of id exactly when id is theirs. */
  lemma IntendedSelfTestIsIdEquality(role: string, userId: int, id: int)
    requires role != Entity.RoleAdmin
    ensures AdminOrSelfIntended(role, userId, IntString(id)) <==> id == userId
  {
    IntStringRoundTrip(id);
  }

  /** The intended test on the documented cases: user 7 reaches "7" but not "8". */
  lemma IntendedSelfTestExamples()
    ensures AdminOrSelfIntended(Entity.RoleUser, 7, "7")
    ensures !AdminOrSelfIntended(Entity.RoleUser, 7, "8")
    ensures AdminOrSelfIntended(Entity.RoleAdmin, 7, "anything")
  {
    assert IntString(7) == "7";
    IntendedSelfTestIsIdEquality(Entity.RoleUser, 7, 7);
    assert IntString(8) == "8";
    IntendedSelfTestIsIdEquality(Entity.RoleUser, 7, 8);
  }

  /** The middleware holds a token validator; the gates it builds act on one request each. */
  datatype Middleware = Middleware(validator: Validator) {

    /** RequireAuth: sets "Vary: Authorization", then either installs the token's
        identity and continues, or aborts with 401 and the decision's message. */
    method RequireAuth(c: Context)
      modifies c
      ensures c.responseHeaders == old(c.responseHeaders)[VaryHeader := AuthorizationHeader]
      ensures match Authenticate(c.GetHeader(AuthorizationHeader), validator)
              case Continue(claims) =>
                && c.keys == WithIdentity(old(c.keys), claims.userId, claims.role)
                && c.proceeded && c.aborted == old(c.aborted)
                && c.status == old(c.status) && c.body == old(c.body)
              case Reject(message, data) =>
                && c.keys == old(c.keys) && c.proceeded == old(c.proceeded)
                && c.aborted && c.status == 401 && c.body == Some(ErrorBody(message, data))
    {
      c.Header(VaryHeader, AuthorizationHeader);
      var authHeader := c.GetHeader(AuthorizationHeader);
      if authHeader == "" {
        c.AbortWithStatusJSON(401, ErrorBody(MsgHeaderRequired, None));
        return;
      }
      if !HasPrefix(authHeader, BearerPrefix) {
        c.AbortWithStatusJSON(401, ErrorBody(MsgInvalidFormat, None));
        return;
      }
      var tokenString := TrimPrefix(authHeader, BearerPrefix);
      if tokenString == "" {
        c.AbortWithStatusJSON(401, ErrorBody(MsgTokenRequired, None));
        return;
      }
      var result := validator(tokenString);
      if result.Failure? {
        c.AbortWithStatusJSON(401, ErrorBody(MsgInvalidToken, Some(result.error)));
        return;
      }
      var claims := result.value;
      SetUserId(c, claims.userId);
      SetUserRole(c, claims.role);
      c.Next();
    }

    /** RequireRole: continues when the context role is one of the allowed roles,
        otherwise aborts with 403. */
    method RequireRole(c: Context, allowedRoles: seq<string>)
      modifies c
      ensures c.keys == old(c.keys) && c.responseHeaders == old(c.responseHeaders)
      ensures GetUserRole(c) in allowedRoles ==>
                c.proceeded && c.aborted == old(c.aborted) && c.status == old(c.status) && c.body == old(c.body)
      ensures GetUserRole(c) !in allowedRoles ==>
                && c.proceeded == old(c.proceeded) && c.aborted && c.status == 403
                && c.body == Some(ErrorBody(MsgInsufficientPermissions, None))
    {
      var userRole := GetUserRole(c);
      var i := 0;
      while i < |allowedRoles|
        invariant 0 <= i <= |allowedRoles|
        invariant userRole !in allowedRoles[..i]
      {
        if userRole == allowedRoles[i] {
          c.Next();
          return;
        }
        i := i + 1;
      }
      assert allowedRoles[..i] == allowedRoles;
      c.AbortWithStatusJSON(403, ErrorBody(MsgInsufficientPermissions, None));
    }

    /** RequireAdmin: RequireRole with the single role "admin". */
    method RequireAdmin(c: Context)
      modifies c
      ensures c.keys == old(c.keys) && c.responseHeaders == old(c.responseHeaders)
      ensures GetUserRole(c) == Entity.RoleAdmin ==>
                c.proceeded && c.aborted == old(c.aborted) && c.status == old(c.status) && c.body == old(c.body)
      ensures GetUserRole(c) != Entity.RoleAdmin ==>
                && c.proceeded == old(c.proceeded) && c.aborted && c.status == 403
                && c.body == Some(ErrorBody(MsgInsufficientPermissions, None))
    {
      RequireRole(c, [Entity.RoleAdmin]);
    }

    /** RequireAdminOrSelf: continues when AdminOrSelfAllows holds for the context
        identity and the named path parameter, otherwise aborts with 403. */
    method RequireAdminOrSelf(c: Context, paramName: string)
      modifies c
      ensures c.keys == old(c.keys) && c.responseHeaders == old(c.responseHeaders)
      ensures AdminOrSelfAllows(GetUserRole(c), GetUserId(c), c.Param(paramName)) ==>
                c.proceeded && c.aborted == old(c.aborted) && c.status == old(c.status) && c.body == old(c.body)
      ensures !AdminOrSelfAllows(GetUserRole(c), GetUserId(c), c.Param(paramName)) ==>
                && c.proceeded == old(c.proceeded) && c.aborted && c.status == 403
                && c.body == Some(ErrorBody(MsgInsufficientPermissions, None))
    {
      var userRole := GetUserRole(c);
      var userId := GetUserId(c);
      if userRole == Entity.RoleAdmin {
        c.Next();
        return;
      }
      var paramId := c.Param(paramName);
      if paramId != "" {
        if paramId == RuneString(userId) {
          c.Next();
          return;
        }
      }
      c.AbortWithStatusJSON(403, ErrorBody(MsgInsufficientPermissions, None));
    }
  }

  /** New: a missing validator is an error. */
  function New(jwtValidator: Option<Validator>): (r: Result<Middleware, string>)
    ensures r.Failure? <==> jwtValidator.None?
    ensures r.Failure? ==> r.error == "jwt validator is required"
    ensures r.Success? ==> r.value.validator == jwtValidator.value
  {
    match jwtValidator
    case None => Failure("jwt validator is required")
    case Some(v) => Success(Middleware(v))
  }

  /** An empty role list, or one made only of valid roles, rejects a context
      where no role was set. */
  lemma UnsetRoleIsRejected(allowedRoles: seq<string>)
    requires forall i :: 0 <= i < |allowedRoles| ==> Entity.IsValidRole(allowedRoles[i])
    ensures StringAt(map[], ContextKeyUserRole) !in allowedRoles
  {
    if "" in allowedRoles {
      var i :| 0 <= i < |allowedRoles| && allowedRoles[i] == "";
      Entity.RejectedRoles();
    }
  }
}
