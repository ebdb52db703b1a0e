/** The identity the authentication gate installs in the request context
    (internal/app/server/handler/context.go). */
module HandlerContext {

  import opened Gin

  const ContextKeyUserId: string := "user_id"
  const ContextKeyUserRole: string := "user_role"

  /** The authenticated user's id; 0 when no gate has set one. */
  function GetUserId(c: Context): (id: int)
    reads c
    ensures ContextKeyUserId in c.keys && c.keys[ContextKeyUserId].IntValue? ==> id == c.keys[ContextKeyUserId].i
    ensures !(ContextKeyUserId in c.keys && c.keys[ContextKeyUserId].IntValue?) ==> id == 0
  {
    c.GetInt(ContextKeyUserId)
  }

  /** The authenticated user's role; "" when no gate has set one. */
  function GetUserRole(c: Context): (role: string)
    reads c
    ensures ContextKeyUserRole in c.keys && c.keys[ContextKeyUserRole].StringValue? ==> role == c.keys[ContextKeyUserRole].s
    ensures !(ContextKeyUserRole in c.keys && c.keys[ContextKeyUserRole].StringValue?) ==> role == ""
  {
    c.GetString(ContextKeyUserRole)
  }

  method SetUserId(c: Context, userId: int)
    modifies c
    ensures c.keys == old(c.keys)[ContextKeyUserId := IntValue(userId)]
    ensures GetUserId(c) == userId
    ensures c.responseHeaders == old(c.responseHeaders) && c.aborted == old(c.aborted)
    ensures c.proceeded == old(c.proceeded) && c.status == old(c.status) && c.body == old(c.body)
  {
    c.Set(ContextKeyUserId, IntValue(userId));
  }

  method SetUserRole(c: Context, role: string)
    modifies c
    ensures c.keys == old(c.keys)[ContextKeyUserRole := StringValue(role)]
    ensures GetUserRole(c) == role
    ensures c.responseHeaders == old(c.responseHeaders) && c.aborted == old(c.aborted)
    ensures c.proceeded == old(c.proceeded) && c.status == old(c.status) && c.body == old(c.body)
  {
    c.Set(ContextKeyUserRole, StringValue(role));
  }

  /** The key store after both setters have run. */
  function WithIdentity(keys: map<string, Value>, userId: int, role: string): map<string, Value> {
    keys[ContextKeyUserId := IntValue(userId)][ContextKeyUserRole := StringValue(role)]
  }

  /** Reading back an installed identity gives exactly what was installed, and a
      store where nothing was installed reads as id 0 and role "". */
  lemma IdentityRoundTrip(keys: map<string, Value>, userId: int, role: string)
    ensures IntAt(WithIdentity(keys, userId, role), ContextKeyUserId) == userId
    ensures StringAt(WithIdentity(keys, userId, role), ContextKeyUserRole) == role
    ensures IntAt(map[], ContextKeyUserId) == 0 && StringAt(map[], ContextKeyUserRole) == ""
  {
    assert ContextKeyUserId != ContextKeyUserRole by {
      assert ContextKeyUserId[5] != ContextKeyUserRole[5];
    }
  }
}
