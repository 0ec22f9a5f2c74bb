/** The `/admin` routes; every one sits behind `role_required(['admin'])`. */
module AdminRoutes {
  import opened Wrappers
  import opened Schemas
  import opened Models
  import opened Http

  const AdminsOnlyMsg := "Forbidden: Admins only"
  const UserNotFoundMsg := "User not found"

  /** This file's `role_required(['admin'])`. */
  function AdminGate(tok: Token): (r: Option<Response>)
    ensures r.None? <==> IsAdmin(tok)
    ensures r.Some? ==> r.value == Fail(Forbidden, AdminsOnlyMsg)
  {
    RoleRequired(tok, {AdminRole}, AdminsOnlyMsg)
  }

  /** `GET /admin/users`: one view per stored user, in key order. */
  function ListUsers(s: Store, tok: Token): (st: Step)
    ensures st.store == s
    ensures !IsAdmin(tok) <==> st.response == Fail(Forbidden, AdminsOnlyMsg)
    ensures IsAdmin(tok) ==> st.response.Users?
    ensures st.response.Users? ==>
      && (forall k :: 0 <= k < |st.response.users| ==>
            st.response.users[k].id in s.users
            && st.response.users[k] == ViewUser(st.response.users[k].id, s.users[st.response.users[k].id]))
      && (forall j, k :: 0 <= j < k < |st.response.users| ==> st.response.users[j].id < st.response.users[k].id)
      && (Valid(s) ==> forall id :: id in s.users ==> id in Ids(st.response.users, (v: UserView) => v.id))
  {
    match AdminGate(tok)
    case Some(refusal) => Step(refusal, s)
    case None =>
      var ks := KeysWhere(s.users, (u: User) => true, 0, s.nextUserId);
      var rows := seq(|ks|, k requires 0 <= k < |ks| => ViewUser(ks[k], s.users[ks[k]]));
      assert Ids(rows, (v: UserView) => v.id) == ks;
      Step(Users(rows), s)
  }

  /** The user columns an admin update may overwrite. */
  const UserPatchableFields: set<string> := {"username", "email", "role"}

  /** `data.get(key, current)` for username, email and role: no validation, no uniqueness check. */
  function PatchUser(u: User, body: Body): (p: User)
    ensures p.username == (if "username" in body then body["username"] else u.username)
    ensures p.email == (if "email" in body then body["email"] else u.email)
    ensures p.role == (if "role" in body then body["role"] else u.role)
    ensures p.passwordHash == u.passwordHash
  {
    User(
      if "username" in body then body["username"] else u.username,
      if "email" in body then body["email"] else u.email,
      u.passwordHash,
      if "role" in body then body["role"] else u.role)
  }

  /** `PUT /admin/users/<id>`. */
  function UpdateUser(s: Store, tok: Token, id: nat, body: Body): (st: Step)
    ensures !IsAdmin(tok) ==> st == Step(Fail(Forbidden, AdminsOnlyMsg), s)
    ensures IsAdmin(tok) && id !in s.users ==> st == Step(Fail(NotFound, UserNotFoundMsg), s)
    ensures st.response == UserUpdated <==> IsAdmin(tok) && id in s.users
    ensures st.response == UserUpdated ==>
      && st.store.users == s.users[id := PatchUser(s.users[id], body)]
      && st.store.users[id].passwordHash == s.users[id].passwordHash
      && st.store.tickets == s.tickets
      && st.store.audit == s.audit
      && st.store.nextUserId == s.nextUserId
      && st.store.nextTicketId == s.nextTicketId
      && st.store.nextAuditId == s.nextAuditId
    ensures st.response.IsError() ==> st.store == s
  {
    match AdminGate(tok)
    case Some(refusal) => Step(refusal, s)
    case None =>
      if id !in s.users then Step(Fail(NotFound, UserNotFoundMsg), s)
      else Step(UserUpdated, s.(users := s.users[id := PatchUser(s.users[id], body)]))
  }

  /** `DELETE /admin/users/<id>`: removes the user row only. */
  function DeleteUser(s: Store, tok: Token, id: nat): (st: Step)
    ensures !IsAdmin(tok) ==> st == Step(Fail(Forbidden, AdminsOnlyMsg), s)
    ensures IsAdmin(tok) && id !in s.users ==> st == Step(Fail(NotFound, UserNotFoundMsg), s)
    ensures st.response == UserDeleted <==> IsAdmin(tok) && id in s.users
    ensures st.response == UserDeleted ==>
      && st.store.users == s.users - {id}
      && |st.store.users| == |s.users| - 1
      && st.store.tickets == s.tickets
      && st.store.audit == s.audit
      && st.store.nextUserId == s.nextUserId
      && st.store.nextTicketId == s.nextTicketId
      && st.store.nextAuditId == s.nextAuditId
    ensures st.response.IsError() ==> st.store == s
  {
    match AdminGate(tok)
    case Some(refusal) => Step(refusal, s)
    case None =>
      if id !in s.users then Step(Fail(NotFound, UserNotFoundMsg), s)
      else Step(UserDeleted, s.(users := s.users - {id}))
  }
}
