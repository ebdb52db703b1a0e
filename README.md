# go-backend-template: authentication, authorization and account core in Dafny

This project models the core of a Go HTTP backend template that keeps user
accounts. The core covers:

- **Password hashing**: a bcrypt wrapper with a clamped work factor and the 72-byte input limit.
- **Session tokens**: JWTs signed with HMAC, carrying a user id and a role, with an expiry.
- **Request gates**: Gin middleware that authenticates a bearer token and enforces role,
  admin and self-or-admin access.
- **The user service**: create, read, list, update, change password, delete and login.
- **Storage**: the repository the service uses, and validation of the Postgres configuration.
- **Errors**: the domain error taxonomy, with its messages and HTTP statuses.
- **Handler helpers**: the shared helpers that turn errors into JSON responses.
- **DTOs**: request validation and response mapping.

## How the model is organised

There is one Dafny module per Go source file of the core. Three shared modules support
them: `Wrappers` (Option, Result, Outcome), `Text` (decimal rendering, prefixes,
`strings.TrimSpace`, UTF-8 length) and `Time` (instants in nanoseconds, Unix seconds).

- **Pure code becomes datatypes and functions with lemmas.** This covers `entity`,
  `domain`, `password`, `jwt`, `dto` and the Postgres `Config`.
- **Code that mutates state becomes classes and methods.**
  - `Gin.Context` is a class. The request headers and path parameters are fixed. The
    context key store, response headers, abort flag, "next handler ran" flag, status and
    JSON body are fields that the methods update.
  - The middleware gates and the base-handler helpers are methods that modify a context.
    Each gate is specified by a pure decision function (`Authenticate`, `AdminOrSelfAllows`).
  - `Repository.MemoryRepository` stands in for the Postgres repository:
    - the users table is a `map<int, User>`;
    - `nextId` is the SERIAL counter;
    - `clock` is the database's `NOW()`;
    - `faults` lets any operation fail with a chosen error, which puts every error path
      of the service within reach.

    Each operation is specified by a pure outcome function over the state.
  - `UserService.Service` is a class holding the repository and the hasher. A ghost
    `calls` trace records every collaborator call in order. This lets the contracts state
    which calls happen and which do not. For example, `Compare` is never reached for an
    inactive account, and nothing is written when an update changes nothing.
- **bcrypt is an ideal digest**: `"$2a$"`, then the two-digit effective cost, then `"$"`,
  then a 22-character salt, then the password. The salt is a parameter and stands for
  bcrypt's randomness.
- **HMAC is an ideal MAC**: the signature is the free value
  `Signature(alg, key, claims)`.
- **Serialization is a parameter.** The JWT compact serialization is a `Codec` parameter
  (encode, decode). The round-trip lemmas require only that decoding an encoding gives
  the token back.
- **The clock is a parameter.** `time.Now()` becomes an `Instant` passed in.

### Behaviour kept as the code has it

- **Self-or-admin test.** The gate is meant to admit an admin or the user themselves
  (the comment at `internal/app/server/middleware/auth/auth.go:115`), which calls for
  equality between the caller's id and the path id. The code compares `paramId == string(rune(userId))` at
  `internal/app/server/middleware/auth/auth.go:131`. The model keeps the code's test in
  `AdminOrSelfAllows`, wrapped to 32 bits, with U+FFFD for ids that are not code points.
  It proves that a non-admin is never admitted by their own id written in decimal
  (`DecimalIdNeverMatches`). See "## Findings".
- **Unknown errors.** `HandleDomainError` answers an error that is not a domain error
  with status 500 and that error's own text (`internal/app/server/handler/base.go:42`).
  It does not use a generic message.
- **Negative token duration.** A negative `TokenDuration` is kept as given at
  `internal/pkg/auth/jwt.go:43-46`, so every token it issues is already expired
  (`NegativeDurationIssuesExpiredTokens`).
- **Latent self test.** No route mounts `RequireAdminOrSelf` today, so the rune
  comparison above does not yet affect any request.

## Model

| member | source | states |
|---|---|---|
| Entity.IsValidRole | internal/pkg/entity/user.go:26-33 | a role is valid exactly when it belongs to the set of the three role constants |
| Entity.ValidRolesAreExactlyThree | internal/pkg/entity/user.go:19-33 | a role is valid exactly when it is one of admin, user, viewer, and these are three distinct strings |
| Entity.RejectedRoles | internal/pkg/entity/user.go:26-33 | role checking is exact: empty, unknown, differently cased and padded names are rejected |
| Entity.AdminIsValid | internal/pkg/entity/user.go:19-33 | the admin role used by the admin gate is itself a valid role |
| Domain.DomainError.Error | internal/pkg/domain/errors.go:23-130 | each kind's message starts with its fixed words: the internal message starts with its text and is that text alone exactly when there is no cause; the unauthorized and forbidden reasons and the invalid role follow their prefixes; a validation message starts with "validation error" and ends with its message; a not-found message starts with "user not found"; already-exists ends with the email; invalid credentials is one fixed text; the field-dependent forms are in MessageFormats |
| Domain.DomainError.HTTPStatus | internal/pkg/domain/errors.go:30-134 | every kind maps to one of 400, 401, 403, 404, 409, 500: 500 exactly for the internal kind; 401 exactly for unauthorized and invalid credentials; 400 exactly for validation and invalid role; 403 exactly for forbidden; 404 exactly for not found; 409 exactly for already exists |
| Domain.MessageFormats | internal/pkg/domain/errors.go:23-93 | an internal error with a cause renders as its text, ": " and the cause, and as its text alone without one; a validation error renders as "validation error on field 'F': M" with a field and "validation error: M" without; a not-found error renders with its id when non-zero, else with its email when non-empty, else as "user not found" |
| Domain.InternalMessageExamples | internal/pkg/domain/errors_test.go:13-36 | "database error: connection refused" with a cause, "something went wrong" without |
| Domain.ValidationFieldMessageExample | internal/pkg/domain/errors_test.go:75-79 | with the field 'email', the message names the field in quotes before the message |
| Domain.ValidationBareMessageExample | internal/pkg/domain/errors_test.go:80-84 | without a field, the message is "validation error: invalid request" |
| Domain.NotFoundIdMessageExample | internal/pkg/domain/errors_test.go:107-121 | id 123 renders as "user not found with id: 123" whatever the email, so the id takes precedence |
| Domain.NotFoundEmailMessageExample | internal/pkg/domain/errors_test.go:112-116 | an email without an id renders as "user not found with email: test@example.com" |
| Domain.NotFoundBareMessageExample | internal/pkg/domain/errors_test.go:122-126 | neither id nor email renders as "user not found" |
| Domain.StatusesAreAllUsed | internal/pkg/domain/errors.go:30-134 | every one of those six statuses is produced by some kind |
| Domain.NotFoundIdTakesPrecedence | internal/pkg/domain/errors.go:85-93 | a not-found error with a non-zero id renders the same whatever its email |
| Domain.NotFoundMessagesDistinguishIds | internal/pkg/domain/errors.go:85-93 | not-found errors for two different non-zero ids render differently (the id is printed with %d) |
| Domain.InvalidCredentialsIsOneValue | internal/pkg/domain/errors.go:113-121 | all invalid-credential errors are the same value, with the message "invalid email or password" and status 401 |
| Domain.MessageIdentifiesKind | internal/pkg/domain/errors.go:39-130 | for every kind except the internal one, the kind can be read back from the rendered message |
| Text.IntStringRoundTrip | internal/pkg/domain/errors.go:88 | the decimal rendering used for ids parses back to the same integer |
| Text.TrimSpace | internal/app/server/handler/user/dto.go:156 | the result has no leading or trailing white space, and is what remains after only white space is removed from both ends |
| Password.NewPasswordHasher | internal/pkg/auth/password.go:13-18 | the cost always lies in 4..31; an in-range cost is kept; anything else becomes 10 |
| Password.Hash | internal/pkg/auth/password.go:21-27 | a failure returns "" as digest; a success returns a "$2a$" digest that differs from the password; it fails with ErrPasswordTooLong exactly when the password has more than 72 UTF-8 bytes |
| Password.Compare | internal/pkg/auth/password.go:31-33 | a pass happens only on a well-formed digest |
| Password.HashThenCompare | internal/pkg/auth/password.go:21-33 | a digest from Hash verifies its own password under any hasher and, for the ideal digest, rejects every other password as a mismatch (see Left out on the 72-byte key) |
| Password.DifferentSaltsGiveDifferentDigests | internal/pkg/auth/password.go:21-27 | hashing one password with two different salts gives two different digests |
| Password.HashFailsOnlyWhenTooLong | internal/pkg/auth/password.go:13-27 | with a hasher from NewPasswordHasher, Hash fails only for passwords over 72 bytes (the cost error cannot arise) |
| Password.LongPasswordIsRejected | internal/pkg/auth/password_test.go:114-128 | a 101-byte password is refused with ErrPasswordTooLong |
| Password.NonDigestNeverVerifies | internal/pkg/auth/password.go:31-33 | Compare reports a malformed digest exactly when the string is not a well-formed digest, whatever the password; the example input "not-a-valid-hash" is one |
| Password.DigestParts | internal/pkg/auth/password.go:21-27 | a digest consists of the prefix, the two-digit cost, "$", the salt and the password |
| Password.CostTextValue | internal/pkg/auth/password.go:21-27 | the two-digit cost field reads back as the cost |
| Jwt.NewJWTService | internal/pkg/auth/jwt.go:38-58 | fails exactly when the secret is empty, with "secret key is required"; otherwise keeps the secret, keeps a non-zero duration and a non-empty issuer, and puts 24 hours for a zero duration and "go-backend-template" for an empty issuer, each independently of the other |
| Jwt.NewJWTServiceDefaults | internal/pkg/auth/jwt.go:43-51 | a zero duration becomes 24 hours whatever the issuer, and an empty issuer becomes "go-backend-template" whatever the duration; a negative duration is kept |
| Jwt.NewJWTServiceIsIdempotent | internal/pkg/auth/jwt.go:38-58 | rebuilding a service from its own settings gives the same service |
| Jwt.IssuedClaims | internal/pkg/auth/jwt.go:62-72 | the claims carry the user id, role and issuer, no not-before; issued-at and expiry are whole seconds, namely the last whole second at or before now and at or before now plus the duration |
| Jwt.GenerateToken | internal/pkg/auth/jwt.go:61-76 | under a round-tripping codec, the token decodes to an HS256 token carrying IssuedClaims, with a signature that is authentic under the service's secret |
| Jwt.TokenError.Message | internal/pkg/auth/jwt.go:11-14 | the two errors have the distinct texts "invalid token" and "token has expired" |
| Jwt.ValidateToken | internal/pkg/auth/jwt.go:79-103 | succeeds exactly for a decodable HMAC token with a valid signature under the service's secret that is neither expired nor not yet valid, and then returns its id and role; "token has expired" exactly for an authentic token past its expiry; otherwise "invalid token" |
| Jwt.GenerateThenValidate | internal/pkg/auth/jwt.go:61-103 | a generated token validates to its id and role until its truncated expiry, and is reported expired from then on |
| Jwt.FreshTokenValidates | internal/pkg/auth/jwt_test.go:60-74 | with a duration of at least one second, a token validates at the instant it is issued |
| Jwt.NegativeDurationIssuesExpiredTokens | internal/pkg/auth/jwt.go:43-46 | with a negative duration, every token issued is already expired |
| Jwt.OtherSecretIsInvalid | internal/pkg/auth/jwt_test.go:89-108 | a token signed under another secret is reported invalid, never expired, whatever the time |
| Jwt.NonHmacIsInvalid | internal/pkg/auth/jwt.go:80-85 | a token whose algorithm is not HMAC is invalid |
| Jwt.ExpiryTakesPrecedence | internal/pkg/auth/jwt.go:87-92 | for an authentic not-yet-valid token, expiry is reported when it also holds; otherwise "invalid token" |
| Jwt.IssuedTokenAuthenticates | internal/app/server/middleware/auth/auth.go:43-90 | a bearer header carrying a fresh token passes the authentication decision with the issued id and role |
| AuthMiddleware.Authenticate | internal/app/server/middleware/auth/auth.go:49-82 | continues exactly when the header starts with "Bearer " followed by a non-empty token that the validator accepts, and then carries the validator's claims; a rejection carries one of the four messages, and the validator's error is attached only to "invalid token" |
| AuthMiddleware.EarlyRejectionsIgnoreValidator | internal/app/server/middleware/auth/auth.go:49-72 | a missing header, a header without the prefix and a bare prefix are rejected with their own messages before the validator is consulted |
| AuthMiddleware.BearerTokenIsValidated | internal/app/server/middleware/auth/auth.go:65-82 | for "Bearer " plus a non-empty token, the decision is decided by the validator on that token alone |
| AuthMiddleware.OnePrefixRemoved | internal/app/server/middleware/auth/auth.go:66 | only one "Bearer " is removed, so the validator sees "Bearer x" |
| AuthMiddleware.PrefixIsExact | internal/app/server/middleware/auth/auth.go:57-63 | the prefix test is case- and space-exact: "bearer abc", "Bearer", "Basic abc" and "abc" are format errors |
| AuthMiddleware.Int32Wrap | internal/app/server/middleware/auth/auth.go:131 | the value lies in the int32 range and agrees with the input modulo 2^32 |
| AuthMiddleware.RuneString | internal/app/server/middleware/auth/auth.go:131 | one character: the code point of the wrapped id, or U+FFFD when that is not a Unicode scalar value |
| AuthMiddleware.AdminOrSelfAllows | internal/app/server/middleware/auth/auth.go:116-135 | an admin always passes; with an empty parameter only an admin passes; a non-admin passes only with a one-character parameter |
| AuthMiddleware.SelfTestIsCodePointEquality | internal/app/server/middleware/auth/auth.go:116-141 | a non-admin passes exactly when the parameter is the single character whose code point is their wrapped id (or U+FFFD) |
| AuthMiddleware.SelfTestExamples | internal/app/server/middleware/auth/auth.go:131 | user 55 passes for "7", user 7 does not; an admin passes for anything; an empty parameter never passes for a non-admin |
| AuthMiddleware.DecimalIdNeverMatches | internal/app/server/middleware/auth/auth.go:131 | no non-admin is admitted by their own id written in decimal |
| AuthMiddleware.SelfTestWrapsAround | internal/app/server/middleware/auth/auth.go:131 | ids equal modulo 2^32 are indistinguishable to the self test |
| AuthMiddleware.AdminOrSelfIntended | internal/app/server/middleware/auth/auth.go:115-135 | the corrected test: an admin always passes; the caller's own id in decimal passes; a non-admin passes only with a parameter that parses to their id |
| AuthMiddleware.IntendedSelfTestIsIdEquality | internal/app/server/middleware/auth/auth.go:131 | under the corrected test, a non-admin reaches the path of an id exactly when it is their own id |
| AuthMiddleware.IntendedSelfTestExamples | internal/app/server/middleware/auth/auth.go:115-135 | under the corrected test, user 7 reaches "7" but not "8", and an admin reaches anything |
| AuthMiddleware.New | internal/app/server/middleware/auth/auth.go:35-40 | fails exactly when no validator is given, with "jwt validator is required"; otherwise holds that validator |
| AuthMiddleware.UnsetRoleIsRejected | internal/app/server/middleware/auth/auth.go:93-108 | a context whose role was never set (read as "") is refused by any role gate that lists only valid roles |
| AuthMiddleware.Middleware.RequireAuth | internal/app/server/middleware/auth/auth.go:43-90 | sets Vary: Authorization; on Continue installs the claims' id and role and runs the next handler; on Reject aborts with 401 and the error body and sets nothing |
| AuthMiddleware.Middleware.RequireRole | internal/app/server/middleware/auth/auth.go:93-108 | runs the next handler exactly when the installed role is one of the allowed roles, otherwise aborts with 403 "insufficient permissions"; keys and headers unchanged |
| AuthMiddleware.Middleware.RequireAdmin | internal/app/server/middleware/auth/auth.go:111-113 | runs the next handler exactly for the admin role, otherwise aborts with 403 |
| AuthMiddleware.Middleware.RequireAdminOrSelf | internal/app/server/middleware/auth/auth.go:116-141 | runs the next handler exactly when AdminOrSelfAllows holds for the installed role, id and path parameter, otherwise aborts with 403 |
| Gin.Context.Set | internal/app/server/handler/context.go:22-29 | stores the value under the key and changes nothing else |
| Gin.Context.Header | internal/app/server/middleware/auth/auth.go:46 | sets the response header, or deletes it for an empty value, and changes nothing else |
| Gin.Context.Next | internal/app/server/middleware/auth/auth.go:88 | marks the next handler as run and changes nothing else |
| Gin.Context.JSON | internal/app/server/handler/base.go:48 | sets the status and the body, and changes nothing else; in particular it does not abort |
| Gin.Context.Status | internal/app/server/handler/base.go:50 | sets the status only |
| Gin.Context.AbortWithStatusJSON | internal/app/server/handler/base.go:60 | marks the context aborted with that status and body, and changes nothing else |
| HandlerContext.GetUserId | internal/app/server/handler/context.go:11-14 | the int stored under "user_id", or 0 when the key is unset or holds something else |
| HandlerContext.GetUserRole | internal/app/server/handler/context.go:16-19 | the string stored under "user_role", or "" when the key is unset or holds something else |
| HandlerContext.SetUserId | internal/app/server/handler/context.go:22-24 | stores the id under "user_id"; GetUserId then returns it |
| HandlerContext.SetUserRole | internal/app/server/handler/context.go:27-29 | stores the role under "user_role"; GetUserRole then returns it |
| HandlerContext.IdentityRoundTrip | internal/app/server/handler/context.go:6-29 | what is stored is read back, and an unset id and role read as 0 and "" |
| BaseHandler.ErrorBody | internal/app/server/handler/base.go:55-61 | the body holds "message", and "data" exactly when extra data is given, namely the first item |
| BaseHandler.DomainOutcome | internal/app/server/handler/base.go:35-43 | a domain error gives its own status and message; any other error gives 500 and its own text |
| BaseHandler.UnknownErrorsEchoText | internal/app/server/handler/base.go:41-42 | a non-domain error answers 500 with its own text, so different texts give different responses |
| BaseHandler.ServerErrorOnlyForInternal | internal/app/server/handler/base.go:35-43 | status 500 comes exactly from an internal domain error or a non-domain error |
| BaseHandler.BindingData | internal/app/server/handler/base.go:16-27 | validation failures become the list of their messages, in order; any other binding error becomes its text |
| BaseHandler.ResponseError | internal/app/server/handler/base.go:55-61 | aborts with the code and the error body, and changes nothing else |
| BaseHandler.HandleBindingError | internal/app/server/handler/base.go:16-27 | aborts with 400 "invalid request format" and the binding data |
| BaseHandler.HandleValidationError | internal/app/server/handler/base.go:30-32 | aborts with 400 and the message, without data |
| BaseHandler.HandleDomainError | internal/app/server/handler/base.go:35-43 | aborts with the DomainOutcome status and message |
| BaseHandler.HandleSuccess | internal/app/server/handler/base.go:46-52 | sets the status; the first datum becomes the body; with no data the body is left as it was; never aborts |
| UserDto.CreateUserRequest.Validate | internal/app/server/handler/user/dto.go:22-27 | fails exactly for an invalid role, with the invalid-role message |
| UserDto.UpdateUserRequest.Validate | internal/app/server/handler/user/dto.go:38-43 | an absent role passes; a present role fails exactly when it is invalid |
| UserDto.ChangePasswordRequest.Validate | internal/app/server/handler/user/dto.go:51-56 | fails exactly when the new password equals the current one, with its message |
| UserDto.GetUsersQuery.GetPage | internal/app/server/handler/user/dto.go:71-76 | at least 1; a given page of at least 1 is kept, otherwise 1 |
| UserDto.GetUsersQuery.GetSize | internal/app/server/handler/user/dto.go:78-83 | at least 1; a given size of at least 1 is kept, otherwise 20 |
| UserDto.GetUsersQuery.GetOnlyActive | internal/app/server/handler/user/dto.go:85-90 | true exactly when the parameter was given as true |
| UserDto.EmptyQueryDefaults | internal/app/server/handler/user/dto.go:71-90 | an empty query means page 1, size 20, all users; a zero page and a negative size fall back; a large size is kept |
| UserDto.ToUserResponse | internal/app/server/handler/user/dto.go:107-118 | copies id, email, username, name, role and active flag; the timestamps become their Unix seconds |
| UserDto.ResponseOmitsPassword | internal/app/server/handler/user/dto.go:95-118 | the response does not depend on the stored password |
| UserDto.ResponseKeepsIdentity | internal/app/server/handler/user/dto.go:107-118 | users that differ in id, email, role or active flag get different responses |
| UserDto.ToUserResponseList | internal/app/server/handler/user/dto.go:121-127 | one response per user, in order |
| UserDto.ValidateEmail | internal/app/server/handler/user/dto.go:155-164 | after trimming white space, passes exactly for a non-empty address of at most 255 bytes; "email is required" exactly for a blank address; "email must be less than 255 characters" exactly for a non-blank address over 255 bytes |
| UserDto.EmailLengthBoundary | internal/app/server/handler/user/dto.go:160-162 | an ASCII address without spaces passes up to 255 characters and is too long from 256 on |
| UserDto.BlankEmailIsRequired | internal/app/server/handler/user/dto.go:156-159 | an address of white space alone is "email is required" |
| UserDto.EmailPaddingIsIgnored | internal/app/server/handler/user/dto.go:156 | surrounding spaces do not change the result |
| PostgresConfig.Config.Validate | internal/pkg/repository/postgres/repository.go:36-53 | passes exactly when host, user, password and database name are non-empty and the port is in 1..65535; an empty host is always the reported error |
| PostgresConfig.ValidateReportsFirstFailure | internal/pkg/repository/postgres/repository.go:36-53 | the reported error is that of the first failing check, in the code's order |
| PostgresConfig.ReportedErrorIsFirst | internal/pkg/repository/postgres/repository.go:36-53 | a reported error's check fails, and every check before it passes |
| PostgresConfig.PortBoundaries | internal/pkg/repository/postgres/repository.go:40-42 | ports 0 and 65536 are refused, and 1 and 65535 are accepted |
| PostgresConfig.EffectiveSslMode | internal/pkg/repository/postgres/repository.go:66-69 | an empty mode becomes "disable"; a given mode is kept; never empty |
| PostgresConfig.PrepareConnection | internal/pkg/repository/postgres/repository.go:61-69 | fails exactly with the validation error; otherwise the config with the effective SSL mode, itself valid |
| Repository.Listing | internal/pkg/repository/postgres/user.go:113-158 | with onlyActive, every row is active |
| Repository.ListingIsNewestFirst | internal/pkg/repository/postgres/user.go:117-121 | the listing holds stored records, each under its own id, in strictly decreasing id order |
| Repository.ListingIsComplete | internal/pkg/repository/postgres/user.go:117-121 | every stored record (active, when onlyActive) appears in the listing |
| Repository.Page | internal/pkg/repository/postgres/user.go:122-130 | the rows from the offset on, at most limit of them when limit is positive, all of them otherwise |
| Repository.ConsecutivePagesJoin | internal/pkg/repository/postgres/user.go:122-130 | two consecutive pages of one size join into the page of twice that size |
| Repository.MemoryRepository.InsertUser | internal/pkg/repository/postgres/user.go:12-42 | on success stores the record under a fresh id and advances the counter; a taken email is ErrDuplicateEmail and leaves the store as it was |
| Repository.MemoryRepository.GetUserById | internal/pkg/repository/postgres/user.go:45-76 | the stored record, or ErrUserNotFound |
| Repository.MemoryRepository.GetUserByEmail | internal/pkg/repository/postgres/user.go:79-110 | the stored record with that email, or ErrUserNotFound |
| Repository.MemoryRepository.GetUsers | internal/pkg/repository/postgres/user.go:113-158 | the requested page of the newest-first listing; a negative offset is a database error |
| Repository.MemoryRepository.GetUserCount | internal/pkg/repository/postgres/user.go:161-173 | the number of stored (active) records |
| Repository.MemoryRepository.ExistsUserByEmail | internal/pkg/repository/postgres/user.go:264-276 | whether some stored record has the email |
| Repository.MemoryRepository.UpdateUser | internal/pkg/repository/postgres/user.go:176-211 | rewrites email, username, name, role and active flag and stamps updated_at; an unknown id is ErrUserNotFound; an email held by another record is ErrDuplicateEmail |
| Repository.MemoryRepository.UpdateUserPassword | internal/pkg/repository/postgres/user.go:214-238 | replaces only the digest and stamps updated_at; an unknown id is ErrUserNotFound |
| Repository.MemoryRepository.DeleteUserById | internal/pkg/repository/postgres/user.go:241-261 | removes the record; an unknown id is ErrUserNotFound |
| UserService.LookupError | internal/app/server/service/user/service.go:86-91 | a not-found signal becomes the given not-found error; any other failure is "failed to get user" with its cause |
| UserService.InsertError | internal/app/server/service/user/service.go:71-77 | a duplicate-email signal becomes the already-exists error; any other failure is "failed to create user" with its cause |
| UserService.NewUserRecord | internal/app/server/service/user/service.go:61-68 | the new record keeps the input's fields, stores the digest, and is active |
| UserService.UpdateWritesOnlyDifferences | internal/app/server/service/user/service.go:134-198 | nothing is written unless a supplied field differs, and what is written is the stored record with the supplied fields |
| UserService.EmailCheckedOnlyWhenChanged | internal/app/server/service/user/service.go:147-158 | the email existence check does not matter unless the email changes |
| UserService.RoleValidatedOnlyWhenChanged | internal/app/server/service/user/service.go:172-179 | supplying the stored role is never an invalid-role error; a changed invalid role is |
| UserService.LoginFailuresCollapse | internal/app/server/service/user/service.go:245-266 | unknown email, inactive account and wrong password give the same error, message and status |
| UserService.LoginSuccessIsAuthentic | internal/app/server/service/user/service.go:245-266 | login succeeds exactly for an active account whose digest verifies the password, and returns that record; every failure is invalid credentials or internal |
| UserService.LoginWithCreatedPassword | internal/app/server/service/user/service.go:39-80 | an active account created with a password logs in with it and, for the ideal digest, with nothing else (see Left out) |
| UserService.ConsecutivePagesAdjoin | internal/app/server/service/user/service.go:113-130 | the offset size*(page-1) is non-negative, and pages page and page+1 adjoin without gap or overlap |
| UserService.PostgresSignalsAreNotRecognised | internal/pkg/repository/postgres/user.go:69 | an error that is not the package's signal, such as the Postgres repository's own "user not found" or "email already exists", gives status 500 for an unknown id, for an unknown login email and for a duplicate insert |
| UserService.PackageSignalsAreRecognised | internal/app/server/service/user/service.go:71-91 | with the package's signals the same three cases give 404, invalid credentials (401) and already-exists (409) |
| UserService.Service.CreateUser | internal/app/server/service/user/service.go:39-80 | every path: an invalid role calls nothing; a check failure or a taken email stops before hashing; a hash failure stops before insert; a duplicate on insert is already-exists; success stores the hashed record under a fresh id |
| UserService.Service.GetUserById | internal/app/server/service/user/service.go:84-93 | the stored record, not-found with the id, or an internal error |
| UserService.Service.GetUserByEmail | internal/app/server/service/user/service.go:95-104 | the stored record with that email, not-found with the email, or an internal error |
| UserService.Service.GetUsers | internal/app/server/service/user/service.go:113-130 | the page at offset size*(page-1) and the total count; the count is not asked for once listing fails |
| UserService.Service.UpdateUser | internal/app/server/service/user/service.go:134-198 | the outcome and new store are those of PlanUpdate on the fetched record; the email check is called only when the email changes; the write only when something differs |
| UserService.Service.ChangePassword | internal/app/server/service/user/service.go:202-229 | checks the current password before hashing; on success only the digest and updated_at change, the new password verifies and, when it differs from the current one, for the ideal digest the old one no longer does |
| UserService.Service.DeleteUser | internal/app/server/service/user/service.go:233-241 | removes the record, or reports not-found with the id, or an internal error |
| UserService.Service.Login | internal/app/server/service/user/service.go:245-266 | the outcome is LoginDecision on the lookup; Compare is called only for an active account |
| UserService.NewService | internal/app/server/service/user/service.go:23-35 | a missing repository, then a missing hasher, is an internal error; otherwise a service over the two |

## Findings

| source | as written | input that shows it | evidently intended | confidence | as-written member | corrected member |
|---|---|---|---|---|---|---|
| internal/app/server/middleware/auth/auth.go:131 | `paramId == string(rune(userId))` compares the path id with the one character whose code point is the caller's id | user 7 (role user) would be refused `/users/7` and user 55 admitted to it; the defect is latent, since no route mounts RequireAdminOrSelf (internal/app/server/routes/user.go:17-41, internal/app/server/routes/routes.go:13-18) | the path id parsed as a decimal integer equals the caller's id | high; not executed | AuthMiddleware.SelfTestExamples | AuthMiddleware.IntendedSelfTestIsIdEquality |
| internal/pkg/repository/postgres/user.go:69 | the Postgres repository returns its own `ErrNoUser` and `ErrDuplicateEmail` (internal/pkg/repository/postgres/errors.go:5-11), while the service matches only the repository package's `ErrUserNotFound` and `ErrDuplicateEmail` (internal/pkg/repository/errors.go:11-12); the server wires the Postgres repository into the service (internal/app/server/server.go:40,102) | GetUserById for an unknown id answers 500 instead of 404; Login with an unknown email answers 500 instead of 401; a duplicate caught by the insert answers 500 instead of 409 | the repository returns the package's signals | high; not executed | UserService.PostgresSignalsAreNotRecognised | UserService.PackageSignalsAreRecognised |

`AuthMiddleware.Middleware.RequireAdminOrSelf` deliberately keeps the as-written test,
because the model describes the code as it is. `AdminOrSelfIntended` is the corrected
test. Its lemmas (`IntendedSelfTestIsIdEquality`, `IntendedSelfTestExamples`) state what the
gate's own comment promises: admin, or the user themselves. The defect is latent: no
route in `internal/app/server/routes/user.go:17-41` mounts `RequireAdminOrSelf`, and the
routes' middleware interface (`internal/app/server/routes/routes.go:13-18`) does not list it.

The model's `MemoryRepository` signals with the repository package's values, which is what
the service's branches are written against. `PostgresSignalsAreNotRecognised` shows what
happens with the Postgres repository the server actually wires in: its `ErrNoUser` and
`ErrDuplicateEmail` (returned at `internal/pkg/repository/postgres/user.go:36,69,103,197,207,234,257`)
are not the values the service compares against, so they fall through to the internal
error. The same holds for the duplicate-email branch of `UpdateUser`
(`internal/app/server/service/user/service.go:190`).

## Left out

- **SQL and the database driver** (queries, timeouts, connection pool, `CreateTables`,
  `Close`, `DB`, `GetContext`). This is I/O. The in-memory repository captures the table's
  contents, the SERIAL ids, the unique email constraint and the sort order instead.
- **Repository failed inserts**: in Postgres, a failed insert consumes a SERIAL value. The
  model's counter advances only on success, so ids are fresh in both.
- **Repository ordering ties**: the listing orders by `created_at DESC`. Rows are stamped
  with a non-decreasing clock, so with equal timestamps the model orders by descending
  id, which the SQL leaves unspecified.
- **Repository error values**: the Postgres driver's own error values are not modelled.
  Other database failures are a `DatabaseError` carrying their text. The Postgres
  repository's own "not found" and "duplicate email" values are not the service's signals:
  with it, an unknown id gives 500 instead of 404, an unknown login email 500 instead of
  401, and a duplicate insert or update 500 instead of 409 (see "## Findings"). The
  in-memory repository returns the package's signals instead.
- **bcrypt internals**: Blowfish, one-wayness and the constant-time comparison. The
  digest is ideal and injective.
- **Password.HashThenCompare**: Compare is modelled as exact equality of the password
  with the one in the ideal digest. bcrypt's `CompareHashAndPassword` keys Blowfish with
  only the first 72 bytes of the password followed by a NUL, repeated cyclically, so it
  also accepts any longer password that agrees on those bytes. `Hash` refuses passwords
  over 72 bytes, but the login password and the current password of a password change
  have no maximum length (`internal/app/server/handler/user/dto.go:47,61`). "Rejects every
  other password" therefore holds only for the ideal digest.
- **UserService.LoginWithCreatedPassword**: "logs in with nothing else" holds only for the
  ideal digest; with real bcrypt, a login password longer than 72 bytes whose first 72
  bytes are the created password's also succeeds (see the line above).
- **Password.Compare**: bcrypt's malformed-digest errors (`ErrHashTooShort`,
  `InvalidHashPrefixError`, `HashVersionTooNewError`, `InvalidCostError`) are collapsed
  into one `ErrMalformedHash`. Only `$2a$` digests are recognised, while bcrypt also
  verifies `$2b$` and `$2y$` digests; the hasher itself only writes `$2a$`.
- **Password.Hash**: the text of bcrypt's invalid-cost error is kept as a plain
  `InvalidCostError(cost)`. `NewPasswordHasher` rules it out
  (`HashFailsOnlyWhenTooLong`).
- **HMAC-SHA256 and base64url serialization**: the signature is a free value and
  serialization a `Codec` parameter. Forgery resistance is an assumption of that ideal
  model, not a theorem about SHA-256. Real HMAC pads a key shorter than the
  block size with zero bytes, so two secrets that differ only by trailing NUL bytes sign
  identically; the ideal MAC treats every two secrets as different.
- **Jwt.OtherSecretIsInvalid**: holds for the ideal MAC. With real HMAC-SHA256 it fails for
  a second secret that is the first followed by NUL bytes (and not longer than 64 bytes).
- **Jwt.GenerateToken**: `SignedString` cannot fail for an HMAC key given as bytes, so
  the error result is not modelled.
- **Jwt.ValidateToken**: the issued-at and issuer claims are not checked, matching the
  library defaults the code relies on. Audience, leeway and JSON number formats are not
  modelled.
- **The clock**: `time.Now()` is a parameter. `AsValidator` fixes the instant of one
  request.
- **Gin itself**: routing, handler chains beyond "next ran / aborted", header
  canonicalisation and JSON encoding are left out. The context is modelled only in the
  parts the core reads and writes.
- **Request binding** (`binding` struct tags, `ShouldBind`): this is library
  reflection. Its outcome enters `HandleBindingError` as a `HandlerError`.
- **The remaining application code**: the user HTTP handler functions, routes, server
  start-up, configuration and `main`. These are wiring around the modelled core.
- **UserService.GetUsers**: Go's `int` overflow in `size*(page-1)` is not modelled;
  integers are unbounded.
- **Text**: strings are modelled as sequences of Unicode scalar values, i.e. valid UTF-8.
  Go strings are byte strings, so a header value, path parameter or request field holding
  invalid UTF-8 is not modelled; byte lengths (`Utf8Length`) are those of valid text.
- **Concurrency between the existence check and the insert**: this is not modelled.
  The store's unique-email rule, which covers it, is (`InsertUser` returns
  `ErrDuplicateEmail`).
