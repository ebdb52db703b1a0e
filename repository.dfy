/** The user store the service depends on (the IUserRepository interface of
    internal/app/server/service/user/dependencies.go), as an in-memory table
    with the constraints of the users table: serial ids from 1, unique
    email, created_at and updated_at from the database clock. Failures of
    the database itself are injected per operation through `faults`; the
    service sees them as repository errors. */
module Repository {

  import opened Wrappers
  import opened Time
  import opened Entity

  /** The failure signals of internal/pkg/repository/errors.go, and any other
      database error by its text. */
  datatype RepoError = ErrUserNotFound | ErrDuplicateEmail | DatabaseError(cause: string) {
    function Text(): string {
      match this
      case ErrUserNotFound => "user not found"
      case ErrDuplicateEmail => "email already exists"
      case DatabaseError(cause) => cause
    }
  }

  datatype RepoOp =
    | InsertUserOp | GetUserByIdOp | GetUserByEmailOp | GetUsersOp | GetUserCountOp
    | ExistsUserByEmailOp | UpdateUserOp | UpdateUserPasswordOp | DeleteUserByIdOp

  const NegativeOffsetMessage: string := "OFFSET must not be negative"

  predicate HasEmail(users: map<int, User>, email: string) {
    exists id :: id in users && users[id].email == email
  }

  /** Some user other than `self` already has this email. */
  predicate EmailTakenByOther(users: map<int, User>, email: string, self: int) {
    exists id :: id in users && id != self && users[id].email == email
  }

  /** The table's constraints: ids in [1, nextId) and stored under themselves, emails unique. */
  predicate StoreInvariant(users: map<int, User>, nextId: int) {
    && nextId >= 1
    && (forall id :: id in users ==> 1 <= id < nextId && users[id].id == id)
    && (forall i, j :: i in users && j in users && users[i].email == users[j].email ==> i == j)
  }

  /** The rows of ids below hi, newest (highest id) first, only active ones when asked. */
  function Listing(users: map<int, User>, onlyActive: bool, hi: int): (rows: seq<User>)
    ensures onlyActive ==> forall k :: 0 <= k < |rows| ==> rows[k].isActive
    decreases hi
  {
    if hi <= 1 then []
    else
      var id := hi - 1;
      var row := if id in users && (!onlyActive || users[id].isActive) then [users[id]] else [];
      row + Listing(users, onlyActive, id)
  }

  /** Rows taken from the store under ids in [1, hi), strictly decreasing. */
  predicate NewestFirst(users: map<int, User>, rows: seq<User>, hi: int) {
    && (forall k :: 0 <= k < |rows| ==> 1 <= rows[k].id < hi && rows[k].id in users && users[rows[k].id] == rows[k])
    && (forall k, l :: 0 <= k < l < |rows| ==> rows[k].id > rows[l].id)
  }

  /** Putting a stored row in front of newest-first rows below its id keeps them newest first. */
  lemma PrependNewest(users: map<int, User>, id: int, rest: seq<User>)
    requires id in users && users[id].id == id && id >= 1
    requires NewestFirst(users, rest, id)
    ensures NewestFirst(users, [users[id]] + rest, id + 1)
  {
    var rows := [users[id]] + rest;
    assert forall k :: 0 < k < |rows| ==> rows[k] == rest[k - 1];
  }

  /** In a well-formed store the listing is newest first. */
  lemma {:induction false} ListingIsNewestFirst(users: map<int, User>, onlyActive: bool, hi: int)
    requires forall id :: id in users ==> users[id].id == id
    ensures NewestFirst(users, Listing(users, onlyActive, hi), hi)
    decreases hi
  {
    if hi > 1 {
      var id := hi - 1;
      ListingIsNewestFirst(users, onlyActive, id);
      var rest := Listing(users, onlyActive, id);
      if id in users && (!onlyActive || users[id].isActive) {
        PrependNewest(users, id, rest);
        assert Listing(users, onlyActive, hi) == [users[id]] + rest;
      } else {
        assert Listing(users, onlyActive, hi) == rest;
        WidenNewest(users, rest, id);
      }
    }
  }

  lemma WidenNewest(users: map<int, User>, rows: seq<User>, hi: int)
    requires NewestFirst(users, rows, hi)
    ensures NewestFirst(users, rows, hi + 1)
  {
  }

  /** Every matching user below hi is in the listing. */
  lemma {:induction false} ListingIsComplete(users: map<int, User>, onlyActive: bool, hi: int, id: int)
    requires id in users && 1 <= id < hi && (onlyActive ==> users[id].isActive)
    ensures users[id] in Listing(users, onlyActive, hi)
    decreases hi
  {
    var rest := Listing(users, onlyActive, hi - 1);
    var row := if hi - 1 in users && (!onlyActive || users[hi - 1].isActive) then [users[hi - 1]] else [];
    assert Listing(users, onlyActive, hi) == row + rest;
    if id < hi - 1 {
      ListingIsComplete(users, onlyActive, hi - 1, id);
      var k :| 0 <= k < |rest| && rest[k] == users[id];
      assert (row + rest)[|row| + k] == users[id];
    } else {
      assert row == [users[id]];
      assert (row + rest)[0] == users[id];
    }
  }

  /** OFFSET then LIMIT, where a limit of 0 or less means no limit. */
  function Page(rows: seq<User>, offset: nat, limit: int): (r: seq<User>)
    ensures |r| == (var rest := if offset >= |rows| then 0 else |rows| - offset;
                    if limit > 0 && limit < rest then limit else rest)
    ensures limit > 0 ==> |r| <= limit
    ensures offset <= |rows| ==> r == rows[offset..offset + |r|]
    ensures offset >= |rows| ==> r == []
  {
    var rest := if offset >= |rows| then [] else rows[offset..];
    if limit > 0 && limit < |rest| then rest[..limit] else rest
  }

  /** Two consecutive pages of one size make one page of twice the size. */
  lemma ConsecutivePagesJoin(rows: seq<User>, offset: nat, size: int)
    requires size > 0
    ensures Page(rows, offset, size) + Page(rows, offset + size, size) == Page(rows, offset, 2 * size)
  {
    var a, b, c := Page(rows, offset, size), Page(rows, offset + size, size), Page(rows, offset, 2 * size);
    if offset + size <= |rows| {
      assert a == rows[offset..offset + size];
      assert c == rows[offset..offset + |c|];
      assert b == rows[offset + size..offset + size + |b|];
      assert a + b == rows[offset..offset + size + |b|];
    }
  }

  class MemoryRepository {
    var users: map<int, User>
    var nextId: int
    var clock: Instant
    const faults: map<RepoOp, RepoError>

    predicate Valid()
      reads this
    {
      StoreInvariant(users, nextId)
    }

    constructor(clock: Instant, faults: map<RepoOp, RepoError>)
      ensures Valid() && users == map[] && nextId == 1
      ensures this.clock == clock && this.faults == faults
    {
      users := map[];
      nextId := 1;
      this.clock := clock;
      this.faults := faults;
    }

    /** The injected database failure of an operation, if any. */
    function Fault(op: RepoOp): Option<RepoError> {
      if op in faults then Some(faults[op]) else None
    }

    /** The database clock moves forward. */
    method Tick(d: nat)
      modifies this
      ensures clock == old(clock) + d && users == old(users) && nextId == old(nextId)
    {
      clock := clock + d;
    }

    /** The row an insert stores: the given fields under a fresh id, both times the clock. */
    function Inserted(u: User, id: int): User
      reads this
    {
      u.(id := id, createdAt := clock, updatedAt := clock)
    }

    function InsertOutcome(u: User): Result<int, RepoError>
      reads this
    {
      match Fault(InsertUserOp)
      case Some(e) => Failure(e)
      case None => if HasEmail(users, u.email) then Failure(ErrDuplicateEmail) else Success(nextId)
    }

    method InsertUser(u: User) returns (r: Result<int, RepoError>)
      requires Valid()
      modifies this
      ensures Valid() && clock == old(clock)
      ensures r == old(InsertOutcome(u))
      ensures r.Success? ==> users == old(users)[r.value := Inserted(u, r.value)] && nextId == r.value + 1
      ensures r.Failure? ==> users == old(users) && nextId == old(nextId)
    {
      if Fault(InsertUserOp).Some? {
        return Failure(Fault(InsertUserOp).value);
      }
      if HasEmail(users, u.email) {
        return Failure(ErrDuplicateEmail);
      }
      r := Success(nextId);
      users := users[nextId := Inserted(u, nextId)];
      nextId := nextId + 1;
    }

    function ByIdOutcome(id: int): Result<User, RepoError>
      reads this
    {
      match Fault(GetUserByIdOp)
      case Some(e) => Failure(e)
      case None => if id in users then Success(users[id]) else Failure(ErrUserNotFound)
    }

    method GetUserById(id: int) returns (r: Result<User, RepoError>)
      ensures r == ByIdOutcome(id)
    {
      if Fault(GetUserByIdOp).Some? {
        return Failure(Fault(GetUserByIdOp).value);
      }
      if id in users {
        return Success(users[id]);
      }
      return Failure(ErrUserNotFound);
    }

    /** The user with this email; in a valid store there is at most one. */
    ghost function ByEmailOutcome(email: string): Result<User, RepoError>
      reads this
    {
      match Fault(GetUserByEmailOp)
      case Some(e) => Failure(e)
      case None =>
        if HasEmail(users, email) then
          var id :| id in users && users[id].email == email; Success(users[id])
        else Failure(ErrUserNotFound)
    }

    method GetUserByEmail(email: string) returns (r: Result<User, RepoError>)
      requires Valid()
      ensures r == ByEmailOutcome(email)
      ensures r.Success? ==> r.value.email == email && r.value.id in users && users[r.value.id] == r.value
    {
      if Fault(GetUserByEmailOp).Some? {
        return Failure(Fault(GetUserByEmailOp).value);
      }
      if HasEmail(users, email) {
        var id :| id in users && users[id].email == email;
        return Success(users[id]);
      }
      return Failure(ErrUserNotFound);
    }

    function ListOutcome(offset: int, limit: int, onlyActive: bool): Result<seq<User>, RepoError>
      reads this
    {
      match Fault(GetUsersOp)
      case Some(e) => Failure(e)
      case None =>
        if offset < 0 then Failure(DatabaseError(NegativeOffsetMessage))
        else Success(Page(Listing(users, onlyActive, nextId), offset, limit))
    }

    /** GetUsers: newest first, OFFSET offset, LIMIT limit when limit > 0. */
    method GetUsers(offset: int, limit: int, onlyActive: bool) returns (r: Result<seq<User>, RepoError>)
      ensures r == ListOutcome(offset, limit, onlyActive)
    {
      if Fault(GetUsersOp).Some? {
        return Failure(Fault(GetUsersOp).value);
      }
      if offset < 0 {
        return Failure(DatabaseError(NegativeOffsetMessage));
      }
      return Success(Page(Listing(users, onlyActive, nextId), offset, limit));
    }

    function CountOutcome(onlyActive: bool): Result<int, RepoError>
      reads this
    {
      match Fault(GetUserCountOp)
      case Some(e) => Failure(e)
      case None => Success(|Listing(users, onlyActive, nextId)|)
    }

    method GetUserCount(onlyActive: bool) returns (r: Result<int, RepoError>)
      ensures r == CountOutcome(onlyActive)
    {
      if Fault(GetUserCountOp).Some? {
        return Failure(Fault(GetUserCountOp).value);
      }
      return Success(|Listing(users, onlyActive, nextId)|);
    }

    function ExistsOutcome(email: string): Result<bool, RepoError>
      reads this
    {
      match Fault(ExistsUserByEmailOp)
      case Some(e) => Failure(e)
      case None => Success(HasEmail(users, email))
    }

    method ExistsUserByEmail(email: string) returns (r: Result<bool, RepoError>)
      ensures r == ExistsOutcome(email)
    {
      if Fault(ExistsUserByEmailOp).Some? {
        return Failure(Fault(ExistsUserByEmailOp).value);
      }
      return Success(HasEmail(users, email));
    }

    /** The row UpdateUser leaves: the editable fields from u, password and
        created_at kept, updated_at the clock. */
    function Updated(stored: User, u: User): User
      reads this
    {
      stored.(email := u.email, username := u.username, name := u.name, role := u.role,
              isActive := u.isActive, updatedAt := clock)
    }

    function UpdateOutcome(u: User): Outcome<RepoError>
      reads this
    {
      match Fault(UpdateUserOp)
      case Some(e) => Fail(e)
      case None =>
        if u.id !in users then Fail(ErrUserNotFound)
        else if EmailTakenByOther(users, u.email, u.id) then Fail(ErrDuplicateEmail)
        else Pass
    }

    method UpdateUser(u: User) returns (r: Outcome<RepoError>)
      requires Valid()
      modifies this
      ensures Valid() && nextId == old(nextId) && clock == old(clock)
      ensures r == old(UpdateOutcome(u))
      ensures r == Pass ==> users == old(users)[u.id := Updated(old(users)[u.id], u)]
      ensures r != Pass ==> users == old(users)
    {
      if Fault(UpdateUserOp).Some? {
        return Fail(Fault(UpdateUserOp).value);
      }
      if u.id !in users {
        return Fail(ErrUserNotFound);
      }
      if EmailTakenByOther(users, u.email, u.id) {
        return Fail(ErrDuplicateEmail);
      }
      users := users[u.id := Updated(users[u.id], u)];
      r := Pass;
    }

    function PasswordUpdateOutcome(id: int): Outcome<RepoError>
      reads this
    {
      match Fault(UpdateUserPasswordOp)
      case Some(e) => Fail(e)
      case None => if id !in users then Fail(ErrUserNotFound) else Pass
    }

    method UpdateUserPassword(id: int, hashedPassword: string) returns (r: Outcome<RepoError>)
      requires Valid()
      modifies this
      ensures Valid() && nextId == old(nextId) && clock == old(clock)
      ensures r == old(PasswordUpdateOutcome(id))
      ensures r == Pass ==> users == old(users)[id := old(users)[id].(password := hashedPassword, updatedAt := clock)]
      ensures r != Pass ==> users == old(users)
    {
      if Fault(UpdateUserPasswordOp).Some? {
        return Fail(Fault(UpdateUserPasswordOp).value);
      }
      if id !in users {
        return Fail(ErrUserNotFound);
      }
      users := users[id := users[id].(password := hashedPassword, updatedAt := clock)];
      r := Pass;
    }

    function DeleteOutcome(id: int): Outcome<RepoError>
      reads this
    {
      match Fault(DeleteUserByIdOp)
      case Some(e) => Fail(e)
      case None => if id !in users then Fail(ErrUserNotFound) else Pass
    }

    method DeleteUserById(id: int) returns (r: Outcome<RepoError>)
      requires Valid()
      modifies this
      ensures Valid() && nextId == old(nextId) && clock == old(clock)
      ensures r == old(DeleteOutcome(id))
      ensures r == Pass ==> users == old(users) - {id}
      ensures r != Pass ==> users == old(users)
    {
      if Fault(DeleteUserByIdOp).Some? {
        return Fail(Fault(DeleteUserByIdOp).value);
      }
      if id !in users {
        return Fail(ErrUserNotFound);
      }
      users := users - {id};
      r := Pass;
    }
  }
}
