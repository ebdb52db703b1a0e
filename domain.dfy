/** The domain error taxonomy (internal/pkg/domain/errors.go): eight kinds of
    failure, each with a rendered message (Go's Error()) and an HTTP status. */
module Domain {

  import opened Wrappers
  import opened Text

  const StatusBadRequest: int := 400
  const StatusUnauthorized: int := 401
  const StatusForbidden: int := 403
  const StatusNotFound: int := 404
  const StatusConflict: int := 409
  const StatusInternalServerError: int := 500

  /** The statuses a domain error can carry. */
  const DomainStatuses: set<int> := {400, 401, 403, 404, 409, 500}

  /** One constructor per error struct. `err` is the wrapped Go error, by its text. */
  datatype DomainError =
    | InternalServerError(msg: string, err: Option<string>)
    | UnauthorizedError(reason: string)
    | ForbiddenError(reason: string)
    | ValidationError(field: string, message: string)
    | UserNotFoundError(id: int, email: string)
    | UserAlreadyExistsError(email: string)
    | InvalidCredentialsError
    | InvalidRoleError(role: string)
  {
    /** Error(): the rendered message of each kind. */
    function Error(): (m: string)
      ensures InternalServerError? ==> HasPrefix(m, msg) && (err.None? <==> m == msg)
      ensures UnauthorizedError? ==> HasPrefix(m, "unauthorized: ") && m[|"unauthorized: "|..] == reason
      ensures ForbiddenError? ==> HasPrefix(m, "forbidden: ") && m[|"forbidden: "|..] == reason
      ensures ValidationError? ==> HasPrefix(m, "validation error") && |m| >= |message| && m[|m| - |message|..] == message
      ensures UserNotFoundError? ==> HasPrefix(m, "user not found")
      ensures UserAlreadyExistsError? ==> m == "user already exists with email: " + email
      ensures InvalidCredentialsError? ==> m == "invalid email or password"
      ensures InvalidRoleError? ==> HasPrefix(m, "invalid role: ") && m[|"invalid role: "|..] == role
    {
      match this
      case InternalServerError(msg, err) =>
        if err.Some? then msg + ": " + err.value else msg
      case UnauthorizedError(reason) => "unauthorized: " + reason
      case ForbiddenError(reason) => "forbidden: " + reason
      case ValidationError(field, message) =>
        if field != "" then "validation error on field '" + field + "': " + message
        else "validation error: " + message
      case UserNotFoundError(id, email) =>
        if id != 0 then "user not found with id: " + IntString(id)
        else if email != "" then "user not found with email: " + email
        else "user not found"
      case UserAlreadyExistsError(email) => "user already exists with email: " + email
      case InvalidCredentialsError => "invalid email or password"
      case InvalidRoleError(role) => "invalid role: " + role
    }

    /** HTTPStatus(): a fixed status per kind, always one of DomainStatuses. */
    function HTTPStatus(): (code: int)
      ensures code in DomainStatuses
      ensures code == 500 <==> InternalServerError?
      ensures code == 401 <==> UnauthorizedError? || InvalidCredentialsError?
      ensures code == 400 <==> ValidationError? || InvalidRoleError?
      ensures code == 403 <==> ForbiddenError?
      ensures code == 404 <==> UserNotFoundError?
      ensures code == 409 <==> UserAlreadyExistsError?
    {
      match this
      case InternalServerError(_, _) => StatusInternalServerError
      case UnauthorizedError(_) => StatusUnauthorized
      case ForbiddenError(_) => StatusForbidden
      case ValidationError(_, _) => StatusBadRequest
      case UserNotFoundError(_, _) => StatusNotFound
      case UserAlreadyExistsError(_) => StatusConflict
      case InvalidCredentialsError => StatusUnauthorized
      case InvalidRoleError(_) => StatusBadRequest
    }
  }

  /** Every status of DomainStatuses is the status of some kind: the map is onto. */
  lemma StatusesAreAllUsed(code: int)
    requires code in DomainStatuses
    ensures exists e: DomainError :: e.HTTPStatus() == code
  {
    var e: DomainError;
    if code == 400 { e := ValidationError("", ""); }
    else if code == 401 { e := UnauthorizedError(""); }
    else if code == 403 { e := ForbiddenError(""); }
    else if code == 404 { e := UserNotFoundError(0, ""); }
    else if code == 409 { e := UserAlreadyExistsError(""); }
    else { e := InternalServerError("", None); }
    assert e.HTTPStatus() == code;
  }

  /** The three kinds whose message depends on which fields are set: a cause is
      appended after ": "; a validation error names its field only when it has one;
      a not-found error shows its id, else its email, else neither. */
  lemma MessageFormats(e: DomainError)
    ensures e.InternalServerError? && e.err.Some? ==> e.Error() == e.msg + ": " + e.err.value
    ensures e.InternalServerError? && e.err.None? ==> e.Error() == e.msg
    ensures e.ValidationError? && e.field != "" ==>
              e.Error() == "validation error on field '" + e.field + "': " + e.message
    ensures e.ValidationError? && e.field == "" ==> e.Error() == "validation error: " + e.message
    ensures e.UserNotFoundError? && e.id != 0 ==> e.Error() == "user not found with id: " + IntString(e.id)
    ensures e.UserNotFoundError? && e.id == 0 && e.email != "" ==>
              e.Error() == "user not found with email: " + e.email
    ensures e.UserNotFoundError? && e.id == 0 && e.email == "" ==> e.Error() == "user not found"
  {
  }

  /** The internal-error messages of errors_test.go, with and without a cause. */
  lemma InternalMessageExamples()
    ensures InternalServerError("database error", Some("connection refused")).Error()
              == "database error: connection refused"
    ensures InternalServerError("something went wrong", None).Error() == "something went wrong"
  {
  }

  /** The validation message of errors_test.go with the field 'email'. */
  lemma ValidationFieldMessageExample()
    ensures ValidationError("email", "must be a valid email").Error()
              == "validation error on field 'email': must be a valid email"
  {
    MessageFormats(ValidationError("email", "must be a valid email"));
  }

  /** The validation message of errors_test.go without a field. */
  lemma ValidationBareMessageExample()
    ensures ValidationError("", "invalid request").Error() == "validation error: invalid request"
  {
    MessageFormats(ValidationError("", "invalid request"));
  }

  /** The not-found messages of errors_test.go for id 123, alone or with an email
      (the id wins). */
  lemma NotFoundIdMessageExample(email: string)
    ensures UserNotFoundError(123, email).Error() == "user not found with id: 123"
  {
    assert NatString(12) == NatString(1) + [DigitChar(2)] == "12";
    assert IntString(123) == NatString(12) + [DigitChar(3)] == "123";
    MessageFormats(UserNotFoundError(123, email));
  }

  /** The not-found message of errors_test.go for an email and no id. */
  lemma NotFoundEmailMessageExample()
    ensures UserNotFoundError(0, "test@example.com").Error() == "user not found with email: test@example.com"
  {
    MessageFormats(UserNotFoundError(0, "test@example.com"));
  }

  /** The not-found message of errors_test.go with neither id nor email. */
  lemma NotFoundBareMessageExample()
    ensures UserNotFoundError(0, "").Error() == "user not found"
  {
    MessageFormats(UserNotFoundError(0, ""));
  }

  /** A UserNotFoundError with a non-zero id renders the same whatever its email. */
  lemma NotFoundIdTakesPrecedence(id: int, email1: string, email2: string)
    requires id != 0
    ensures UserNotFoundError(id, email1).Error() == UserNotFoundError(id, email2).Error()
  {
  }

  /** Two not-found errors for different non-zero ids render differently. */
  lemma NotFoundMessagesDistinguishIds(id1: int, id2: int, email1: string, email2: string)
    requires id1 != 0 && id2 != 0 && id1 != id2
    ensures UserNotFoundError(id1, email1).Error() != UserNotFoundError(id2, email2).Error()
  {
    var prefix := "user not found with id: ";
    IntStringInjective(id1, id2);
    assert (prefix + IntString(id1))[|prefix|..] == IntString(id1);
    assert (prefix + IntString(id2))[|prefix|..] == IntString(id2);
  }

  /** All InvalidCredentialsError values are one value, rendered one way, with status 401. */
  lemma InvalidCredentialsIsOneValue(e1: DomainError, e2: DomainError)
    requires e1.InvalidCredentialsError? && e2.InvalidCredentialsError?
    ensures e1 == e2 && e1.Error() == "invalid email or password" && e1.HTTPStatus() == 401
  {
  }

  /** The kinds, numbered in declaration order. */
  function KindIndex(e: DomainError): (k: int)
    ensures 0 <= k < 8
  {
    match e
    case InternalServerError(_, _) => 0
    case UnauthorizedError(_) => 1
    case ForbiddenError(_) => 2
    case ValidationError(_, _) => 3
    case UserNotFoundError(_, _) => 4
    case UserAlreadyExistsError(_) => 5
    case InvalidCredentialsError => 6
    case InvalidRoleError(_) => 7
  }

  /** Reads the kind back from a rendered message by its fixed leading words. */
  function KindOfMessage(m: string): int {
    if HasPrefix(m, "unauthorized: ") then 1
    else if HasPrefix(m, "forbidden: ") then 2
    else if HasPrefix(m, "validation error") then 3
    else if HasPrefix(m, "user not found") then 4
    else if HasPrefix(m, "user already exists with email: ") then 5
    else if m == "invalid email or password" then 6
    else if HasPrefix(m, "invalid role: ") then 7
    else 0
  }

  /** A string that differs from p at some position below |p| does not start with p. */
  lemma NotPrefixAt(m: string, p: string, i: int)
    requires 0 <= i < |p| && (i >= |m| || m[i] != p[i])
    ensures !HasPrefix(m, p)
  {
  }

  lemma StartsWith(p: string, rest: string)
    ensures HasPrefix(p + rest, p)
  {
    assert (p + rest)[..|p|] == p;
  }

  /** Every kind but the internal fault, whose text is free, can be told from its message. */
  lemma MessageIdentifiesKind(e: DomainError)
    requires !e.InternalServerError?
    ensures KindOfMessage(e.Error()) == KindIndex(e)
  {
    match e
    case UnauthorizedError(r) => StartsWith("unauthorized: ", r);
    case ForbiddenError(r) => ForbiddenKind(r);
    case ValidationError(f, msg) => ValidationKind(f, msg);
    case UserNotFoundError(id, email) => NotFoundKind(id, email);
    case UserAlreadyExistsError(email) => AlreadyExistsKind(email);
    case InvalidCredentialsError => InvalidCredentialsKind();
    case InvalidRoleError(r) => InvalidRoleKind(r);
  }

  lemma ForbiddenKind(r: string)
    ensures KindOfMessage(ForbiddenError(r).Error()) == 2
  {
    var m := "forbidden: " + r;
    assert ForbiddenError(r).Error() == m;
    NotPrefixAt(m, "unauthorized: ", 0);
    StartsWith("forbidden: ", r);
  }

  lemma ValidationKind(f: string, msg: string)
    ensures KindOfMessage(ValidationError(f, msg).Error()) == 3
  {
    var rest := if f != "" then " on field '" + f + "': " + msg else ": " + msg;
    var m := "validation error" + rest;
    assert ValidationError(f, msg).Error() == m;
    NotPrefixAt(m, "unauthorized: ", 0);
    NotPrefixAt(m, "forbidden: ", 0);
    StartsWith("validation error", rest);
  }

  lemma NotFoundKind(id: int, email: string)
    ensures KindOfMessage(UserNotFoundError(id, email).Error()) == 4
  {
    NotFoundPrefixKind(UserNotFoundError(id, email).Error());
  }

  lemma NotFoundPrefixKind(m: string)
    requires HasPrefix(m, "user not found")
    ensures KindOfMessage(m) == 4
  {
    assert m[..|"user not found"|] == "user not found";
    NotPrefixAt(m, "unauthorized: ", 1);
    NotPrefixAt(m, "forbidden: ", 0);
    NotPrefixAt(m, "validation error", 0);
  }

  lemma AlreadyExistsKind(email: string)
    ensures KindOfMessage(UserAlreadyExistsError(email).Error()) == 5
  {
    var m := "user already exists with email: " + email;
    assert UserAlreadyExistsError(email).Error() == m;
    NotPrefixAt(m, "unauthorized: ", 1);
    NotPrefixAt(m, "forbidden: ", 0);
    NotPrefixAt(m, "validation error", 0);
    NotPrefixAt(m, "user not found", 5);
    StartsWith("user already exists with email: ", email);
  }

  lemma InvalidRoleKind(r: string)
    ensures KindOfMessage(InvalidRoleError(r).Error()) == 7
  {
    var m := "invalid role: " + r;
    assert InvalidRoleError(r).Error() == m;
    NotPrefixAt(m, "unauthorized: ", 0);
    NotPrefixAt(m, "forbidden: ", 0);
    NotPrefixAt(m, "validation error", 0);
    NotPrefixAt(m, "user not found", 0);
    NotPrefixAt(m, "user already exists with email: ", 0);
    assert m[8] != "invalid email or password"[8];
    StartsWith("invalid role: ", r);
  }

  lemma InvalidCredentialsKind()
    ensures KindOfMessage(InvalidCredentialsError.Error()) == 6
  {
    var m := "invalid email or password";
    assert InvalidCredentialsError.Error() == m;
    NotPrefixAt(m, "unauthorized: ", 0);
    NotPrefixAt(m, "forbidden: ", 0);
    NotPrefixAt(m, "validation error", 0);
    NotPrefixAt(m, "user not found", 0);
    NotPrefixAt(m, "user already exists with email: ", 0);
  }
}
