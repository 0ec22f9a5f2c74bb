/** The `/auth` routes: register, login and me. */
module AuthRoutes {
  import opened Wrappers
  import opened Schemas
  import opened Models
  import opened Http

  const UserExistsMsg := "User already exists"
  const MissingCredentialsMsg := "Missing username or password"
  const InvalidCredentialsMsg := "Invalid credentials"
  const UserNotFoundMsg := "User not found"

  /** Some stored user already has this username or this email. */
  predicate UserExists(s: Store, username: string, email: string) {
    exists id :: id in s.users && (s.users[id].username == username || s.users[id].email == email)
  }

  /** `POST /auth/register`. */
  function Register(s: Store, body: Body, isEmail: string -> bool, hash: string -> string): (st: Step)
    ensures LoadRegistration(body, isEmail).Err? ==>
      st == Step(Invalid(BadRequest, LoadRegistration(body, isEmail).error), s)
    ensures LoadRegistration(body, isEmail).Ok? && UserExists(s, body["username"], body["email"]) ==>
      st == Step(Fail(Conflict, UserExistsMsg), s)
    ensures st.response == Registered <==>
      LoadRegistration(body, isEmail).Ok? && !UserExists(s, body["username"], body["email"])
    ensures st.response == Registered ==>
      && st.store.users == s.users[s.nextUserId := User(body["username"], body["email"], hash(body["password"]), body["role"])]
      && st.store.tickets == s.tickets
      && st.store.audit == s.audit
      && st.store.nextUserId == s.nextUserId + 1
      && st.store.nextTicketId == s.nextTicketId
      && st.store.nextAuditId == s.nextAuditId
      && (Valid(s) ==> s.nextUserId !in s.users && |st.store.users| == |s.users| + 1)
    ensures st.response.IsError() ==> st.store == s
  {
    match LoadRegistration(body, isEmail)
    case Err(errors) => Step(Invalid(BadRequest, errors), s)
    case Ok(reg) =>
      var role := Lower(reg.role);
      if UserExists(s, reg.username, reg.email) then
        Step(Fail(Conflict, UserExistsMsg), s)
      else
        LowerKeepsValidRole(reg.role);
        var user := User(reg.username, reg.email, hash(reg.password), role);
        Step(Registered, s.(users := s.users[s.nextUserId := user], nextUserId := s.nextUserId + 1))
  }

  /**
   * `User.query.filter_by(username=name).first()`: the lowest-keyed user with
   * that username. Usernames are unique after registration, but an admin
   * update may make two users share one.
   */
  function FindByUsername(s: Store, name: string): (r: Option<nat>)
    ensures r.Some? ==> r.value in s.users && s.users[r.value].username == name
    ensures r.Some? ==> forall id :: id in s.users && s.users[id].username == name ==> r.value <= id
    ensures r.None? ==> forall id :: id in s.users && id < s.nextUserId ==> s.users[id].username != name
    ensures Valid(s) && r.None? ==> forall id :: id in s.users ==> s.users[id].username != name
  {
    var ks := KeysWhere(s.users, (u: User) => u.username == name, 0, s.nextUserId);
    if |ks| == 0 then None else Some(ks[0])
  }

  /** `POST /auth/login`: never changes the store. */
  function Login(s: Store, body: Body, check: (string, string) -> bool): (st: Step)
    ensures st.store == s
    ensures ("username" !in body || body["username"] == "" || "password" !in body || body["password"] == "") ==>
      st.response == Fail(BadRequest, MissingCredentialsMsg)
    ensures st.response.LoggedIn? ==>
      && "username" in body && "password" in body
      && FindByUsername(s, body["username"]).Some?
      && var id := FindByUsername(s, body["username"]).value;
      && st.response.token == Token(id, Some(s.users[id].role))
      && check(s.users[id].passwordHash, body["password"])
    ensures ("username" in body && body["username"] != "" && "password" in body && body["password"] != "") ==>
      (st.response.LoggedIn? <==>
        && FindByUsername(s, body["username"]).Some?
        && check(s.users[FindByUsername(s, body["username"]).value].passwordHash, body["password"]))
    ensures !st.response.LoggedIn? ==> st.response.IsError()
    ensures st.response.IsError() && "username" in body && body["username"] != "" && "password" in body && body["password"] != "" ==>
      st.response == Fail(Unauthorized, InvalidCredentialsMsg)
  {
    var username := if "username" in body then body["username"] else "";
    var password := if "password" in body then body["password"] else "";
    if username == "" || password == "" then
      Step(Fail(BadRequest, MissingCredentialsMsg), s)
    else
      match FindByUsername(s, username)
      case None => Step(Fail(Unauthorized, InvalidCredentialsMsg), s)
      case Some(id) =>
        var user := s.users[id];
        if !check(user.passwordHash, password) then
          Step(Fail(Unauthorized, InvalidCredentialsMsg), s)
        else
          Step(LoggedIn(Token(id, Some(user.role))), s)
  }

  /** `GET /auth/me`: the caller's own record, without the password hash. */
  function Me(s: Store, tok: Token): (st: Step)
    ensures st.store == s
    ensures tok.sub !in s.users <==> st.response == Fail(NotFound, UserNotFoundMsg)
    ensures st.response.Profile? <==> tok.sub in s.users
    ensures st.response.Profile? ==>
      && st.response.user.id == tok.sub
      && st.response.user.username == s.users[tok.sub].username
      && st.response.user.email == s.users[tok.sub].email
      && st.response.user.role == s.users[tok.sub].role
    ensures st.response.Profile? || st.response.IsError()
  {
    if tok.sub !in s.users then Step(Fail(NotFound, UserNotFoundMsg), s)
    else Step(Profile(ViewUser(tok.sub, s.users[tok.sub])), s)
  }
}
