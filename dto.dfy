/** Request and response shapes of the user handler and their small checks
    (internal/app/server/handler/user/dto.go). The binding tags (required,
    min, max, email) are enforced by the web framework before these run and
    are not part of this model. */
module UserDto {

  import opened Wrappers
  import opened Time
  import opened Text
  import Entity

  const InvalidRoleSuffix: string := ", must be one of: admin, user, viewer"
  const SamePasswordMessage: string := "new password must be different from current password"
  const EmailRequiredMessage: string := "email is required"
  const EmailTooLongMessage: string := "email must be less than 255 characters"
  const MaxEmailBytes: int := 255
  const DefaultPage: int := 1
  const DefaultSize: int := 20

  function InvalidRoleMessage(role: string): string {
    "invalid role: " + role + InvalidRoleSuffix
  }

  datatype CreateUserRequest = CreateUserRequest(email: string, username: string, password: string, name: string, role: string) {
    /** Fails exactly when the role is outside the role set, naming the role. */
    function Validate(): (r: Outcome<string>)
      ensures r.Fail? <==> !Entity.IsValidRole(role)
      ensures r.Fail? ==> HasPrefix(r.error, "invalid role: " + role)
    {
      if !Entity.IsValidRole(role) then Fail(InvalidRoleMessage(role)) else Pass
    }
  }

  datatype UpdateUserRequest = UpdateUserRequest(
    email: Option<string>, username: Option<string>, name: Option<string>,
    role: Option<string>, isActive: Option<bool>)
  {
    /** An absent role passes; a present one fails exactly when it is outside the role set. */
    function Validate(): (r: Outcome<string>)
      ensures role.None? ==> r == Pass
      ensures role.Some? ==> (r.Fail? <==> !Entity.IsValidRole(role.value))
      ensures r.Fail? ==> HasPrefix(r.error, "invalid role: " + role.value)
    {
      if role.Some? && !Entity.IsValidRole(role.value) then Fail(InvalidRoleMessage(role.value)) else Pass
    }
  }

  datatype ChangePasswordRequest = ChangePasswordRequest(currentPassword: string, newPassword: string) {
    /** Fails exactly when the new password equals the current one. */
    function Validate(): (r: Outcome<string>)
      ensures r.Fail? <==> currentPassword == newPassword
      ensures r.Fail? ==> r.error == SamePasswordMessage
    {
      if currentPassword == newPassword then Fail(SamePasswordMessage) else Pass
    }
  }

  datatype LoginRequest = LoginRequest(email: string, password: string)

  datatype GetUsersQuery = GetUsersQuery(page: Option<int>, size: Option<int>, onlyActive: Option<bool>) {
    /** The page, 1 when absent or below 1; never below 1. */
    function GetPage(): (p: int)
      ensures p >= 1
      ensures page.Some? && page.value >= 1 ==> p == page.value
      ensures !(page.Some? && page.value >= 1) ==> p == DefaultPage
    {
      if page.None? || page.value < 1 then DefaultPage else page.value
    }

    /** The size, 20 when absent or below 1; never below 1 and not clamped above. */
    function GetSize(): (n: int)
      ensures n >= 1
      ensures size.Some? && size.value >= 1 ==> n == size.value
      ensures !(size.Some? && size.value >= 1) ==> n == DefaultSize
    {
      if size.None? || size.value < 1 then DefaultSize else size.value
    }

    /** Absent means false. */
    function GetOnlyActive(): (b: bool)
      ensures b <==> onlyActive == Some(true)
    {
      if onlyActive.None? then false else onlyActive.value
    }
  }

  /** The effective page and size of every query give a non-negative offset. */
  lemma QueryOffsetIsNonNegative(q: GetUsersQuery)
    ensures q.GetSize() * (q.GetPage() - 1) >= 0
  {
  }

  /** Missing or out-of-range parameters fall back to page 1, size 20, all users. */
  lemma EmptyQueryDefaults()
    ensures GetUsersQuery(None, None, None).GetPage() == 1
    ensures GetUsersQuery(None, None, None).GetSize() == 20
    ensures !GetUsersQuery(None, None, None).GetOnlyActive()
    ensures GetUsersQuery(Some(0), Some(-5), Some(false)) .GetPage() == 1
    ensures GetUsersQuery(Some(0), Some(-5), Some(false)).GetSize() == 20
    ensures GetUsersQuery(Some(3), Some(1000), None).GetSize() == 1000
  {
  }

  /** A user as the API shows it: no password, times as Unix seconds. */
  datatype UserResponse = UserResponse(
    id: int, email: string, username: string, name: string, role: string,
    isActive: bool, createdAt: int, updatedAt: int)

  /** ToUserResponse: every field but the password, with the instants in seconds. */
  function ToUserResponse(u: Entity.User): (r: UserResponse)
    ensures r.id == u.id && r.email == u.email && r.username == u.username && r.name == u.name
    ensures r.role == u.role && r.isActive == u.isActive
    ensures r.createdAt * Second <= u.createdAt < r.createdAt * Second + Second
    ensures r.updatedAt * Second <= u.updatedAt < r.updatedAt * Second + Second
  {
    UserResponse(u.id, u.email, u.username, u.name, u.role, u.isActive, Unix(u.createdAt), Unix(u.updatedAt))
  }

  /** The response never depends on the stored password. */
  lemma ResponseOmitsPassword(u: Entity.User, password: string)
    ensures ToUserResponse(u.(password := password)) == ToUserResponse(u)
  {
  }

  /** Two users who differ in anything but the password and sub-second times get
      different responses. */
  lemma ResponseKeepsIdentity(u: Entity.User, v: Entity.User)
    requires u.id != v.id || u.email != v.email || u.role != v.role || u.isActive != v.isActive
    ensures ToUserResponse(u) != ToUserResponse(v)
  {
  }

  /** ToUserResponseList: one response per user, in the same order. */
  method ToUserResponseList(users: seq<Entity.User>) returns (result: seq<UserResponse>)
    ensures |result| == |users|
    ensures forall i :: 0 <= i < |users| ==> result[i] == ToUserResponse(users[i])
  {
    result := [];
    for k := 0 to |users|
      invariant |result| == k
      invariant forall i :: 0 <= i < k ==> result[i] == ToUserResponse(users[i])
    {
      result := result + [ToUserResponse(users[k])];
    }
  }

  /** ValidateEmail: the address with surrounding white space removed must be
      non-empty and at most 255 bytes. */
  function ValidateEmail(email: string): (r: Outcome<string>)
    ensures r == Pass <==> TrimSpace(email) != "" && Utf8Length(TrimSpace(email)) <= MaxEmailBytes
    ensures r == Fail(EmailRequiredMessage) <==> TrimSpace(email) == ""
    ensures r == Fail(EmailTooLongMessage) <==> TrimSpace(email) != "" && Utf8Length(TrimSpace(email)) > MaxEmailBytes
  {
    var trimmed := TrimSpace(email);
    if trimmed == "" then Fail(EmailRequiredMessage)
    else if Utf8Length(trimmed) > MaxEmailBytes then Fail(EmailTooLongMessage)
    else Pass
  }

  /** The length boundary for an ASCII address without white space: up to 255
      characters pass, from 256 on it is too long. */
  lemma EmailLengthBoundary(email: string)
    requires |email| > 0
    requires forall k :: 0 <= k < |email| ==> email[k] as int < 0x80 && !IsSpace(email[k])
    ensures |email| <= 255 ==> ValidateEmail(email) == Pass
    ensures |email| > 255 ==> ValidateEmail(email) == Fail(EmailTooLongMessage)
  {
    TrimSpaceOfNoSpace(email);
    Utf8LengthOfAscii(email);
  }

  /** White space alone is a missing address. */
  lemma BlankEmailIsRequired()
    ensures ValidateEmail(" \t\n") == Fail(EmailRequiredMessage)
  {
    AllSpaceTrimsToEmpty(" \t\n");
  }

  /** Padding around an address does not change the verdict. */
  lemma EmailPaddingIsIgnored(w: string)
    requires |w| > 0 && !IsSpace(w[0]) && !IsSpace(w[|w| - 1])
    ensures ValidateEmail(" " + w + " ") == ValidateEmail(w)
  {
    TrimSpaceOfPadded(w);
    OuterNonSpaceTrimsToSelf(w);
  }

  lemma OuterNonSpaceTrimsToSelf(w: string)
    requires |w| > 0 && !IsSpace(w[0]) && !IsSpace(w[|w| - 1])
    ensures TrimSpace(w) == w
  {
    assert TrimLeftSpace(w) == w;
  }
}
