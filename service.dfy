/** The account service of internal/app/server/service/user/service.go,
    over the in-memory repository and the password hasher.

    The ghost `calls` trace records, in order, every repository operation
    and every hash or compare the service performs, so contracts can say
    that a step was not reached. The per-call salt of Hash is a parameter. */
module UserService {

  import opened Wrappers
  import opened Entity
  import opened Domain
  import opened Repository
  import Password

  datatype Call = RepoCall(op: RepoOp) | HashCall | CompareCall

  datatype CreateUserInput = CreateUserInput(email: string, username: string, password: string, name: string, role: string)

  datatype UpdateUserInput = UpdateUserInput(
    id: int, email: Option<string>, username: Option<string>, name: Option<string>,
    role: Option<string>, isActive: Option<bool>)

  datatype ChangePasswordInput = ChangePasswordInput(userId: int, currentPassword: string, newPassword: string)

  datatype GetUsersInput = GetUsersInput(page: int, size: int, onlyActive: bool)

  datatype LoginInput = LoginInput(email: string, password: string)

  datatype GetUsersResult = GetUsersResult(users: seq<User>, totalCount: int)

  function Internal(msg: string, cause: string): DomainError {
    InternalServerError(msg, Some(cause))
  }

  /** A failed lookup: "not found" becomes the given error, anything else an internal error. */
  function LookupError(e: RepoError, notFound: DomainError): (d: DomainError)
    ensures e == ErrUserNotFound ==> d == notFound
    ensures e != ErrUserNotFound ==> d == Internal("failed to get user", e.Text())
  {
    if e == ErrUserNotFound then notFound else Internal("failed to get user", e.Text())
  }

  /** How CreateUser reports a failed insert: a duplicate-email signal is the
      already-exists error, anything else "failed to create user" with its cause. */
  function InsertError(e: RepoError, email: string): (d: DomainError)
    ensures e == ErrDuplicateEmail ==> d == UserAlreadyExistsError(email)
    ensures e != ErrDuplicateEmail ==> d == Internal("failed to create user", e.Text())
  {
    if e == ErrDuplicateEmail then UserAlreadyExistsError(email) else Internal("failed to create user", e.Text())
  }

  /** The texts of the Postgres repository's own not-found and duplicate values. */
  const PostgresNoUserText: string := "user not found"
  const PostgresDuplicateEmailText: string := "email already exists"

  /** The Postgres repository returns its own error values, which are not the
      repository package's signals the service tests for, so they reach the
      service as ordinary database failures: an unknown id, an unknown login
      email and a duplicate insert all end in status 500. */
  lemma PostgresSignalsAreNotRecognised(id: int, email: string, h: Password.PasswordHasher, password: string)
    ensures LookupError(DatabaseError(PostgresNoUserText), UserNotFoundError(id, "")).HTTPStatus() == 500
    ensures LoginDecision(Failure(DatabaseError(PostgresNoUserText)), h, password).error.HTTPStatus() == 500
    ensures InsertError(DatabaseError(PostgresDuplicateEmailText), email).HTTPStatus() == 500
  {
  }

  /** With the package's signals the same three cases get the statuses the service
      is written for: 404, 401 and 409. */
  lemma PackageSignalsAreRecognised(id: int, email: string, h: Password.PasswordHasher, password: string)
    ensures LookupError(ErrUserNotFound, UserNotFoundError(id, "")).HTTPStatus() == 404
    ensures LoginDecision(Failure(ErrUserNotFound), h, password) == Failure(InvalidCredentialsError)
    ensures InsertError(ErrDuplicateEmail, email) == UserAlreadyExistsError(email)
    ensures InsertError(ErrDuplicateEmail, email).HTTPStatus() == 409
  {
  }

  /** The record CreateUser hands to the repository (id and times are the store's to set). */
  function NewUserRecord(input: CreateUserInput, digest: string): (u: User)
    ensures u.email == input.email && u.username == input.username && u.name == input.name
    ensures u.role == input.role && u.password == digest && u.isActive
  {
    User(0, input.email, input.username, digest, input.name, input.role, true, 0, 0)
  }

  /** The offset GetUsers asks for. */
  function Offset(input: GetUsersInput): int {
    input.size * (input.page - 1)
  }

  // ---------- UpdateUser as a decision ----------

  predicate EmailChanges(input: UpdateUserInput, stored: User) {
    input.email.Some? && input.email.value != stored.email
  }

  predicate RoleChanges(input: UpdateUserInput, stored: User) {
    input.role.Some? && input.role.value != stored.role
  }

  /** Some supplied field differs from the stored record. */
  predicate Differs(input: UpdateUserInput, stored: User) {
    || EmailChanges(input, stored)
    || (input.username.Some? && input.username.value != stored.username)
    || (input.name.Some? && input.name.value != stored.name)
    || RoleChanges(input, stored)
    || (input.isActive.Some? && input.isActive.value != stored.isActive)
  }

  /** The stored record with every supplied field taken from the input. */
  function Applied(input: UpdateUserInput, stored: User): User {
    stored.(email := input.email.GetOr(stored.email),
            username := input.username.GetOr(stored.username),
            name := input.name.GetOr(stored.name),
            role := input.role.GetOr(stored.role),
            isActive := input.isActive.GetOr(stored.isActive))
  }

  datatype UpdatePlan = Reject(error: DomainError) | NoChange | Write(user: User)

  /** What UpdateUser decides once the record is fetched, given what the email
      existence check would answer. */
  function PlanUpdate(input: UpdateUserInput, stored: User, emailCheck: Result<bool, RepoError>): UpdatePlan {
    if EmailChanges(input, stored) && emailCheck.Failure? then
      Reject(Internal("failed to check email existence", emailCheck.error.Text()))
    else if EmailChanges(input, stored) && emailCheck.value then
      Reject(UserAlreadyExistsError(input.email.value))
    else if RoleChanges(input, stored) && !IsValidRole(input.role.value) then
      Reject(InvalidRoleError(input.role.value))
    else if Differs(input, stored) then Write(Applied(input, stored))
    else NoChange
  }

  /** Nothing is written unless a supplied field differs, and what is written is
      the stored record with the supplied fields. */
  lemma UpdateWritesOnlyDifferences(input: UpdateUserInput, stored: User, emailCheck: Result<bool, RepoError>)
    ensures !Differs(input, stored) ==> PlanUpdate(input, stored, emailCheck) == NoChange
    ensures PlanUpdate(input, stored, emailCheck).Write? ==>
              Differs(input, stored) && PlanUpdate(input, stored, emailCheck).user == Applied(input, stored)
    ensures PlanUpdate(input, stored, emailCheck).Write? ==> Applied(input, stored) != stored
  {
  }

  /** The email check only matters when the email changes. */
  lemma EmailCheckedOnlyWhenChanged(input: UpdateUserInput, stored: User, c1: Result<bool, RepoError>, c2: Result<bool, RepoError>)
    requires !EmailChanges(input, stored)
    ensures PlanUpdate(input, stored, c1) == PlanUpdate(input, stored, c2)
  {
  }

  /** The role is validated only when it changes: an invalid role equal to the
      stored one is no error; a changed invalid role is, unless the email check comes first. */
  lemma RoleValidatedOnlyWhenChanged(input: UpdateUserInput, stored: User, emailCheck: Result<bool, RepoError>)
    ensures input.role == Some(stored.role) ==>
              !(PlanUpdate(input, stored, emailCheck).Reject? && PlanUpdate(input, stored, emailCheck).error.InvalidRoleError?)
    ensures RoleChanges(input, stored) && !IsValidRole(input.role.value) && !EmailChanges(input, stored) ==>
              PlanUpdate(input, stored, emailCheck) == Reject(InvalidRoleError(input.role.value))
  {
  }

  // ---------- Login as a decision ----------

  /** Login once the account is looked up: unknown, inactive and wrong password
      all give InvalidCredentialsError. */
  function LoginDecision(lookup: Result<User, RepoError>, h: Password.PasswordHasher, password: string): Result<User, DomainError> {
    match lookup
    case Failure(e) => Failure(LookupError(e, InvalidCredentialsError))
    case Success(u) =>
      if !u.isActive then Failure(InvalidCredentialsError)
      else if Password.Compare(h, u.password, password).Fail? then Failure(InvalidCredentialsError)
      else Success(u)
  }

  /** Unknown email, inactive account and wrong password are indistinguishable:
      the same error value, so the same message and status. */
  lemma LoginFailuresCollapse(lookup: Result<User, RepoError>, h: Password.PasswordHasher, password: string)
    requires
      || lookup == Failure(ErrUserNotFound)
      || (lookup.Success? && !lookup.value.isActive)
      || (lookup.Success? && Password.Compare(h, lookup.value.password, password).Fail?)
    ensures LoginDecision(lookup, h, password) == Failure(InvalidCredentialsError)
    ensures LoginDecision(lookup, h, password).error.Error() == "invalid email or password"
    ensures LoginDecision(lookup, h, password).error.HTTPStatus() == 401
  {
  }

  /** Login succeeds only with the looked-up record of an active account whose
      digest verifies the password; every other failure is an internal error. */
  lemma LoginSuccessIsAuthentic(lookup: Result<User, RepoError>, h: Password.PasswordHasher, password: string)
    ensures LoginDecision(lookup, h, password).Success? <==>
              lookup.Success? && lookup.value.isActive && Password.Compare(h, lookup.value.password, password) == Pass
    ensures LoginDecision(lookup, h, password).Success? ==> LoginDecision(lookup, h, password).value == lookup.value
    ensures LoginDecision(lookup, h, password).Failure? ==>
              LoginDecision(lookup, h, password).error == InvalidCredentialsError
              || LoginDecision(lookup, h, password).error.InternalServerError?
  {
  }

  /** An active account created with password p logs in with p and with nothing else. */
  lemma LoginWithCreatedPassword(u: User, h: Password.PasswordHasher, salt: Password.Salt, p: string, q: string)
    requires Password.Hash(h, p, salt).err.None?
    requires u.password == Password.Hash(h, p, salt).digest && u.isActive
    ensures LoginDecision(Success(u), h, p) == Success(u)
    ensures q != p ==> LoginDecision(Success(u), h, q) == Failure(InvalidCredentialsError)
  {
    Password.HashThenCompare(h, p, salt, q, h);
  }

  /** Consecutive pages of the listing follow each other without gap or overlap. */
  lemma ConsecutivePagesAdjoin(rows: seq<User>, page: int, size: int)
    requires page >= 1 && size >= 1
    ensures var o := Offset(GetUsersInput(page, size, false));
            o >= 0 && Offset(GetUsersInput(page + 1, size, false)) == o + size
            && Page(rows, o, size) + Page(rows, o + size, size) == Page(rows, o, 2 * size)
  {
    var o := size * (page - 1);
    assert size * page == o + size;
    ConsecutivePagesJoin(rows, o, size);
  }

  class Service {
    const userRepo: MemoryRepository
    const passwordHasher: Password.PasswordHasher
    ghost var calls: seq<Call>

    predicate Valid()
      reads this, userRepo
    {
      userRepo.Valid()
    }

    constructor(userRepo: MemoryRepository, passwordHasher: Password.PasswordHasher)
      ensures this.userRepo == userRepo && this.passwordHasher == passwordHasher && calls == []
    {
      this.userRepo := userRepo;
      this.passwordHasher := passwordHasher;
      calls := [];
    }

    /** CreateUser: role check, email existence check, hash, insert, each failure
        returning before anything is stored. */
    method CreateUser(input: CreateUserInput, salt: Password.Salt) returns (r: Result<int, DomainError>)
      requires Valid()
      modifies this, userRepo
      ensures Valid() && userRepo.clock == old(userRepo.clock)
      ensures r.Failure? ==> userRepo.users == old(userRepo.users) && userRepo.nextId == old(userRepo.nextId)
      ensures r.Success? ==> r.value !in old(userRepo.users) && r.value in userRepo.users
      ensures !IsValidRole(input.role) ==> r == Failure(InvalidRoleError(input.role)) && calls == old(calls)
      ensures IsValidRole(input.role) && old(userRepo.ExistsOutcome(input.email)).Failure? ==>
                && r == Failure(Internal("failed to check email existence", old(userRepo.ExistsOutcome(input.email)).error.Text()))
                && calls == old(calls) + [RepoCall(ExistsUserByEmailOp)]
      ensures IsValidRole(input.role) && old(userRepo.ExistsOutcome(input.email)) == Success(true) ==>
                r == Failure(UserAlreadyExistsError(input.email)) && calls == old(calls) + [RepoCall(ExistsUserByEmailOp)]
      ensures IsValidRole(input.role) && old(userRepo.ExistsOutcome(input.email)) == Success(false) ==>
                var h := Password.Hash(passwordHasher, input.password, salt);
                && (h.err.Some? ==>
                      r == Failure(Internal("failed to hash password", h.err.value.Text()))
                      && calls == old(calls) + [RepoCall(ExistsUserByEmailOp), HashCall])
                && (h.err.None? ==>
                      var rec := NewUserRecord(input, h.digest);
                      && calls == old(calls) + [RepoCall(ExistsUserByEmailOp), HashCall, RepoCall(InsertUserOp)]
                      && match old(userRepo.InsertOutcome(rec))
                         case Failure(e) =>
                           r == Failure(InsertError(e, input.email))
                         case Success(id) =>
                           r == Success(id) && userRepo.users == old(userRepo.users)[id := userRepo.Inserted(rec, id)])
    {
      if !IsValidRole(input.role) {
        return Failure(InvalidRoleError(input.role));
      }
      calls := calls + [RepoCall(ExistsUserByEmailOp)];
      var taken := userRepo.ExistsUserByEmail(input.email);
      if taken.Failure? {
        return Failure(Internal("failed to check email existence", taken.error.Text()));
      }
      if taken.value {
        return Failure(UserAlreadyExistsError(input.email));
      }
      calls := calls + [HashCall];
      var hashed := Password.Hash(passwordHasher, input.password, salt);
      if hashed.err.Some? {
        return Failure(Internal("failed to hash password", hashed.err.value.Text()));
      }
      var user := NewUserRecord(input, hashed.digest);
      calls := calls + [RepoCall(InsertUserOp)];
      var inserted := userRepo.InsertUser(user);
      if inserted.Failure? {
        if inserted.error == ErrDuplicateEmail {
          return Failure(UserAlreadyExistsError(input.email));
        }
        return Failure(Internal("failed to create user", inserted.error.Text()));
      }
      return Success(inserted.value);
    }

    /** GetUserById: the stored record, UserNotFoundError{Id} or an internal error. */
    method GetUserById(id: int) returns (r: Result<User, DomainError>)
      modifies this
      ensures calls == old(calls) + [RepoCall(GetUserByIdOp)]
      ensures match userRepo.ByIdOutcome(id)
              case Failure(e) => r == Failure(LookupError(e, UserNotFoundError(id, "")))
              case Success(u) => r == Success(u)
    {
      calls := calls + [RepoCall(GetUserByIdOp)];
      var found := userRepo.GetUserById(id);
      if found.Failure? {
        if found.error == ErrUserNotFound {
          return Failure(UserNotFoundError(id, ""));
        }
        return Failure(Internal("failed to get user", found.error.Text()));
      }
      return Success(found.value);
    }

    /** GetUserByEmail: the stored record, UserNotFoundError{Email} or an internal error. */
    method GetUserByEmail(email: string) returns (r: Result<User, DomainError>)
      requires Valid()
      modifies this
      ensures calls == old(calls) + [RepoCall(GetUserByEmailOp)]
      ensures match userRepo.ByEmailOutcome(email)
              case Failure(e) => r == Failure(LookupError(e, UserNotFoundError(0, email)))
              case Success(u) => r == Success(u) && u.email == email
    {
      calls := calls + [RepoCall(GetUserByEmailOp)];
      var found := userRepo.GetUserByEmail(email);
      if found.Failure? {
        if found.error == ErrUserNotFound {
          return Failure(UserNotFoundError(0, email));
        }
        return Failure(Internal("failed to get user", found.error.Text()));
      }
      return Success(found.value);
    }

    /** GetUsers: the page at offset size*(page-1) of size rows, and the count,
        both passed on unchanged. */
    method GetUsers(input: GetUsersInput) returns (r: Result<GetUsersResult, DomainError>)
      modifies this
      ensures match userRepo.ListOutcome(Offset(input), input.size, input.onlyActive)
              case Failure(e) =>
                r == Failure(Internal("failed to get users", e.Text()))
                && calls == old(calls) + [RepoCall(GetUsersOp)]
              case Success(users) =>
                && calls == old(calls) + [RepoCall(GetUsersOp), RepoCall(GetUserCountOp)]
                && match userRepo.CountOutcome(input.onlyActive)
                   case Failure(e) => r == Failure(Internal("failed to get user count", e.Text()))
                   case Success(n) => r == Success(GetUsersResult(users, n))
    {
      var offset := input.size * (input.page - 1);
      calls := calls + [RepoCall(GetUsersOp)];
      var users := userRepo.GetUsers(offset, input.size, input.onlyActive);
      if users.Failure? {
        return Failure(Internal("failed to get users", users.error.Text()));
      }
      calls := calls + [RepoCall(GetUserCountOp)];
      var totalCount := userRepo.GetUserCount(input.onlyActive);
      if totalCount.Failure? {
        return Failure(Internal("failed to get user count", totalCount.error.Text()));
      }
      return Success(GetUsersResult(users.value, totalCount.value));
    }

    /** UpdateUser: fetch, apply the supplied fields that differ (checking a new
        email for uniqueness and a new role for validity), and write only when
        something differs. */
    method UpdateUser(input: UpdateUserInput) returns (r: Outcome<DomainError>)
      requires Valid()
      modifies this, userRepo
      ensures Valid() && userRepo.nextId == old(userRepo.nextId) && userRepo.clock == old(userRepo.clock)
      ensures r != Pass ==> userRepo.users == old(userRepo.users)
      ensures old(userRepo.ByIdOutcome(input.id)).Failure? ==>
                && r == Fail(LookupError(old(userRepo.ByIdOutcome(input.id)).error, UserNotFoundError(input.id, "")))
                && calls == old(calls) + [RepoCall(GetUserByIdOp)]
      ensures old(userRepo.ByIdOutcome(input.id)).Success? ==>
                var stored := old(userRepo.ByIdOutcome(input.id)).value;
                var plan := PlanUpdate(input, stored, old(userRepo.ExistsOutcome(input.email.GetOr(""))));
                && calls == old(calls) + [RepoCall(GetUserByIdOp)]
                             + (if EmailChanges(input, stored) then [RepoCall(ExistsUserByEmailOp)] else [])
                             + (if plan.Write? then [RepoCall(UpdateUserOp)] else [])
                && (plan.Reject? ==> r == Fail(plan.error))
                && (plan.NoChange? ==> r == Pass && userRepo.users == old(userRepo.users))
                && (plan.Write? ==>
                      match old(userRepo.UpdateOutcome(plan.user))
                      case Fail(e) =>
                        r == Fail(if e == ErrDuplicateEmail then UserAlreadyExistsError(plan.user.email)
                                  else Internal("failed to update user", e.Text()))
                      case Pass =>
                        r == Pass && userRepo.users == old(userRepo.users)[input.id := userRepo.Updated(stored, plan.user)])
    {
      calls := calls + [RepoCall(GetUserByIdOp)];
      var fetched := userRepo.GetUserById(input.id);
      if fetched.Failure? {
        if fetched.error == ErrUserNotFound {
          return Fail(UserNotFoundError(input.id, ""));
        }
        return Fail(Internal("failed to get user", fetched.error.Text()));
      }
      ghost var stored := fetched.value;
      assert stored.id == input.id;
      var user := fetched.value;
      var hasChanges := false;

      if input.email.Some? && input.email.value != user.email {
        calls := calls + [RepoCall(ExistsUserByEmailOp)];
        var taken := userRepo.ExistsUserByEmail(input.email.value);
        if taken.Failure? {
          return Fail(Internal("failed to check email existence", taken.error.Text()));
        }
        if taken.value {
          return Fail(UserAlreadyExistsError(input.email.value));
        }
        user := user.(email := input.email.value);
        hasChanges := true;
      }
      assert user.email == Applied(input, stored).email;

      if input.username.Some? && input.username.value != user.username {
        user := user.(username := input.username.value);
        hasChanges := true;
      }

      if input.name.Some? && input.name.value != user.name {
        user := user.(name := input.name.value);
        hasChanges := true;
      }

      if input.role.Some? && input.role.value != user.role {
        if !IsValidRole(input.role.value) {
          return Fail(InvalidRoleError(input.role.value));
        }
        user := user.(role := input.role.value);
        hasChanges := true;
      }

      if input.isActive.Some? && input.isActive.value != user.isActive {
        user := user.(isActive := input.isActive.value);
        hasChanges := true;
      }

      assert user == Applied(input, stored);
      assert hasChanges == Differs(input, stored);

      if hasChanges {
        calls := calls + [RepoCall(UpdateUserOp)];
        var updated := userRepo.UpdateUser(user);
        if updated.Fail? {
          if updated.error == ErrDuplicateEmail {
            return Fail(UserAlreadyExistsError(user.email));
          }
          return Fail(Internal("failed to update user", updated.error.Text()));
        }
      }
      return Pass;
    }

    /** ChangePassword: fetch, verify the current password, hash the new one and
        store it; nothing is stored on any failure. */
    method ChangePassword(input: ChangePasswordInput, salt: Password.Salt) returns (r: Outcome<DomainError>)
      requires Valid()
      modifies this, userRepo
      ensures Valid() && userRepo.nextId == old(userRepo.nextId) && userRepo.clock == old(userRepo.clock)
      ensures r != Pass ==> userRepo.users == old(userRepo.users)
      ensures old(userRepo.ByIdOutcome(input.userId)).Failure? ==>
                && r == Fail(LookupError(old(userRepo.ByIdOutcome(input.userId)).error, UserNotFoundError(input.userId, "")))
                && calls == old(calls) + [RepoCall(GetUserByIdOp)]
      ensures old(userRepo.ByIdOutcome(input.userId)).Success? ==>
                var stored := old(userRepo.ByIdOutcome(input.userId)).value;
                var h := Password.Hash(passwordHasher, input.newPassword, salt);
                && (Password.Compare(passwordHasher, stored.password, input.currentPassword).Fail? ==>
                      r == Fail(InvalidCredentialsError) && calls == old(calls) + [RepoCall(GetUserByIdOp), CompareCall])
                && (Password.Compare(passwordHasher, stored.password, input.currentPassword) == Pass && h.err.Some? ==>
                      r == Fail(Internal("failed to hash password", h.err.value.Text()))
                      && calls == old(calls) + [RepoCall(GetUserByIdOp), CompareCall, HashCall])
                && (Password.Compare(passwordHasher, stored.password, input.currentPassword) == Pass && h.err.None? ==>
                      && calls == old(calls) + [RepoCall(GetUserByIdOp), CompareCall, HashCall, RepoCall(UpdateUserPasswordOp)]
                      && match old(userRepo.PasswordUpdateOutcome(input.userId))
                         case Fail(e) => r == Fail(Internal("failed to update password", e.Text()))
                         case Pass =>
                           && r == Pass
                           && userRepo.users == old(userRepo.users)[input.userId := stored.(password := h.digest, updatedAt := userRepo.clock)])
      ensures r == Pass ==>
                && input.userId in userRepo.users
                && Password.Compare(passwordHasher, userRepo.users[input.userId].password, input.newPassword) == Pass
                && (input.currentPassword != input.newPassword ==>
                      Password.Compare(passwordHasher, userRepo.users[input.userId].password, input.currentPassword).Fail?)
    {
      calls := calls + [RepoCall(GetUserByIdOp)];
      var fetched := userRepo.GetUserById(input.userId);
      if fetched.Failure? {
        if fetched.error == ErrUserNotFound {
          return Fail(UserNotFoundError(input.userId, ""));
        }
        return Fail(Internal("failed to get user", fetched.error.Text()));
      }
      var user := fetched.value;
      calls := calls + [CompareCall];
      if Password.Compare(passwordHasher, user.password, input.currentPassword).Fail? {
        return Fail(InvalidCredentialsError);
      }
      calls := calls + [HashCall];
      var hashed := Password.Hash(passwordHasher, input.newPassword, salt);
      if hashed.err.Some? {
        return Fail(Internal("failed to hash password", hashed.err.value.Text()));
      }
      calls := calls + [RepoCall(UpdateUserPasswordOp)];
      var updated := userRepo.UpdateUserPassword(input.userId, hashed.digest);
      if updated.Fail? {
        return Fail(Internal("failed to update password", updated.error.Text()));
      }
      Password.HashThenCompare(passwordHasher, input.newPassword, salt, input.currentPassword, passwordHasher);
      return Pass;
    }

    /** DeleteUser: removes the record, or reports UserNotFoundError{Id} or an internal error. */
    method DeleteUser(id: int) returns (r: Outcome<DomainError>)
      requires Valid()
      modifies this, userRepo
      ensures Valid() && userRepo.nextId == old(userRepo.nextId) && userRepo.clock == old(userRepo.clock)
      ensures calls == old(calls) + [RepoCall(DeleteUserByIdOp)]
      ensures match old(userRepo.DeleteOutcome(id))
              case Fail(e) =>
                && r == Fail(if e == ErrUserNotFound then UserNotFoundError(id, "") else Internal("failed to delete user", e.Text()))
                && userRepo.users == old(userRepo.users)
              case Pass => r == Pass && userRepo.users == old(userRepo.users) - {id}
    {
      calls := calls + [RepoCall(DeleteUserByIdOp)];
      var deleted := userRepo.DeleteUserById(id);
      if deleted.Fail? {
        if deleted.error == ErrUserNotFound {
          return Fail(UserNotFoundError(id, ""));
        }
        return Fail(Internal("failed to delete user", deleted.error.Text()));
      }
      return Pass;
    }

    /** Login: LoginDecision on the account looked up by email; Compare is reached
        only for an active account. */
    method Login(input: LoginInput) returns (r: Result<User, DomainError>)
      requires Valid()
      modifies this
      ensures r == LoginDecision(userRepo.ByEmailOutcome(input.email), passwordHasher, input.password)
      ensures var lookup := userRepo.ByEmailOutcome(input.email);
              calls == old(calls) + [RepoCall(GetUserByEmailOp)]
                       + (if lookup.Success? && lookup.value.isActive then [CompareCall] else [])
    {
      calls := calls + [RepoCall(GetUserByEmailOp)];
      var found := userRepo.GetUserByEmail(input.email);
      if found.Failure? {
        if found.error == ErrUserNotFound {
          return Failure(InvalidCredentialsError);
        }
        return Failure(Internal("failed to get user", found.error.Text()));
      }
      var user := found.value;
      if !user.isActive {
        return Failure(InvalidCredentialsError);
      }
      calls := calls + [CompareCall];
      if Password.Compare(passwordHasher, user.password, input.password).Fail? {
        return Failure(InvalidCredentialsError);
      }
      return Success(user);
    }
  }

  /** NewService: a missing repository or hasher is an internal error, the
      repository checked first. */
  method NewService(userRepo: MemoryRepository?, passwordHasher: Option<Password.PasswordHasher>)
    returns (r: Result<Service, DomainError>)
    ensures userRepo == null ==>
              r == Failure(Internal("failed to create user service", "user repository is nil"))
    ensures userRepo != null && passwordHasher.None? ==>
              r == Failure(Internal("failed to create user service", "password hasher is nil"))
    ensures userRepo != null && passwordHasher.Some? ==>
              && r.Success? && fresh(r.value) && r.value.userRepo == userRepo
              && r.value.passwordHasher == passwordHasher.value && r.value.calls == []
  {
    if userRepo == null {
      return Failure(Internal("failed to create user service", "user repository is nil"));
    }
    if passwordHasher.None? {
      return Failure(Internal("failed to create user service", "password hasher is nil"));
    }
    var s := new Service(userRepo, passwordHasher.value);
    return Success(s);
  }
}
