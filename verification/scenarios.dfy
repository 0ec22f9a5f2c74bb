/**
 * Properties that relate several routes: what one request makes possible or
 * impossible for the next.
 */
module Scenarios {
  import opened Wrappers
  import opened Schemas
  import opened Models
  import opened Http
  import opened Api
  import AuthRoutes
  import TicketRoutes
  import AdminRoutes

  function RegistrationBody(username: string, email: string, password: string, role: string): Body {
    map["username" := username, "email" := email, "password" := password, "role" := role]
  }

  function CredentialsBody(username: string, password: string): Body {
    map["username" := username, "password" := password]
  }

  /** The user a registration adds is the one a later lookup of its username finds. */
  lemma RegisteredUserIsFound(s: Store, body: Body, isEmail: string -> bool, hash: string -> string)
    requires AuthRoutes.Register(s, body, isEmail, hash).response == Registered
    ensures var s' := AuthRoutes.Register(s, body, isEmail, hash).store;
      && "username" in body
      && AuthRoutes.FindByUsername(s', body["username"]) == Some(s.nextUserId)
  {
    var s' := AuthRoutes.Register(s, body, isEmail, hash).store;
    var id := s.nextUserId;
    assert !AuthRoutes.UserExists(s, body["username"], body["email"]);
    assert id in s'.users && id < s'.nextUserId && s'.users[id].username == body["username"];
    var found := AuthRoutes.FindByUsername(s', body["username"]);
    assert found.Some? && found.value <= id;
  }

  /** A login whose username is found and whose password checks out issues that user's token. */
  lemma LoginSucceeds(s: Store, username: string, password: string, check: (string, string) -> bool, id: nat)
    requires username != "" && password != ""
    requires AuthRoutes.FindByUsername(s, username) == Some(id)
    requires check(s.users[id].passwordHash, password)
    ensures AuthRoutes.Login(s, CredentialsBody(username, password), check) == Step(LoggedIn(Token(id, Some(s.users[id].role))), s)
  {
    var creds := CredentialsBody(username, password);
    assert creds["username"] == username && creds["password"] == password;
  }

  /**
   * After a successful registration, logging in with the same username and
   * password yields a token for the new user carrying the role the client
   * chose, provided the password check accepts what the hash stored.
   */
  lemma RegisterThenLogin(s: Store, env: Env, username: string, email: string, password: string, role: string)
    requires env.check(env.hash(password), password)
    requires AuthRoutes.Register(s, RegistrationBody(username, email, password, role), env.isEmail, env.hash).response == Registered
    ensures var s' := AuthRoutes.Register(s, RegistrationBody(username, email, password, role), env.isEmail, env.hash).store;
      AuthRoutes.Login(s', CredentialsBody(username, password), env.check) == Step(LoggedIn(Token(s.nextUserId, Some(role))), s')
  {
    var body := RegistrationBody(username, email, password, role);
    var s' := AuthRoutes.Register(s, body, env.isEmail, env.hash).store;
    RegisteredUserIsFound(s, body, env.isEmail, env.hash);
    assert body["username"] == username && body["password"] == password && body["role"] == role;
    assert s'.users[s.nextUserId] == User(username, email, env.hash(password), role);
    assert |password| >= PasswordMinLength && |username| >= UsernameMinLength;
    LoginSucceeds(s', username, password, env.check, s.nextUserId);
  }

  /** A token from login opens `me` on that user's own record. */
  lemma LoginThenMe(s: Store, body: Body, check: (string, string) -> bool)
    requires AuthRoutes.Login(s, body, check).response.LoggedIn?
    ensures var tok := AuthRoutes.Login(s, body, check).response.token;
      && AuthRoutes.Me(s, tok).response.Profile?
      && AuthRoutes.Me(s, tok).response.user.username == body["username"]
      && Some(AuthRoutes.Me(s, tok).response.user.role) == tok.role
  {
  }

  /** `me` reveals nothing about the password hash: two stores that differ only there answer alike. */
  lemma MeIgnoresPasswordHash(s: Store, tok: Token, hash: string)
    requires tok.sub in s.users
    ensures var s' := s.(users := s.users[tok.sub := s.users[tok.sub].(passwordHash := hash)]);
      AuthRoutes.Me(s', tok).response == AuthRoutes.Me(s, tok).response
  {
  }

  /**
   * A client may register itself as an administrator, and the token it then
   * obtains passes every admin gate.
   */
  lemma SelfRegisteredAdmin(s: Store, env: Env, username: string, email: string, password: string)
    requires env.check(env.hash(password), password)
    requires AuthRoutes.Register(s, RegistrationBody(username, email, password, "admin"), env.isEmail, env.hash).response == Registered
    ensures var s' := AuthRoutes.Register(s, RegistrationBody(username, email, password, "admin"), env.isEmail, env.hash).store;
      var login := AuthRoutes.Login(s', CredentialsBody(username, password), env.check);
      && login.response.LoggedIn?
      && AdminRoutes.ListUsers(s', login.response.token).response.Users?
  {
    RegisterThenLogin(s, env, username, email, password, "admin");
  }

  /**
   * A role change in the store does not reach a token issued before it: an
   * admin who demotes itself keeps passing the admin gate with its old token,
   * while a fresh login would carry the new role.
   */
  lemma StaleRoleClaim(s: Store, admin: nat)
    requires admin in s.users
    ensures var tok := Token(admin, Some(AdminRole));
      var s' := AdminRoutes.UpdateUser(s, tok, admin, map["role" := "user"]).store;
      && s'.users[admin].role == "user"
      && AdminRoutes.ListUsers(s', tok).response.Users?
      && TicketRoutes.DeleteTicket(s', tok, 0).response != Fail(Forbidden, TicketRoutes.ResourceForbiddenMsg)
  {
  }

  /** The owner of a ticket cannot delete it without an admin claim. */
  lemma OwnerCannotDelete(s: Store, tok: Token, id: nat)
    requires id in s.tickets && s.tickets[id].owner == tok.sub && !IsAdmin(tok)
    ensures TicketRoutes.DeleteTicket(s, tok, id) == Step(Fail(Forbidden, TicketRoutes.ResourceForbiddenMsg), s)
  {
  }

  /**
   * The schema's length and enumeration rules guard creation only: an owner's
   * update may store a one-letter title and an unknown priority.
   */
  lemma UpdateBypassesSchema(s: Store, tok: Token, id: nat)
    requires id in s.tickets && s.tickets[id].owner == tok.sub
    ensures var body := map["title" := "x", "description" := "short", "priority" := "urgent"];
      && LoadTicket(body).Err?
      && var st := TicketRoutes.UpdateTicket(s, tok, id, body);
      && st.response == TicketUpdated(id)
      && st.store.tickets[id].title == "x"
      && st.store.tickets[id].priority == "urgent"
  {
  }

  /** An empty update body changes no ticket yet still succeeds and writes an audit record. */
  lemma EmptyUpdateStillAudited(s: Store, tok: Token, id: nat)
    requires id in s.tickets && (s.tickets[id].owner == tok.sub || IsAdmin(tok))
    ensures var st := TicketRoutes.UpdateTicket(s, tok, id, map[]);
      && st.response == TicketUpdated(id)
      && st.store.tickets == s.tickets
      && |st.store.audit| == |s.audit| + 1
      && st.store.audit[|s.audit|].action == UpdateTicketAction
  {
  }

  /**
   * An admin user update looks only at "username", "email" and "role": a
   * "password" or "id" key in the body changes nothing, and an empty body
   * leaves the user as it was.
   */
  lemma PatchUserIgnoresOtherKeys(u: User, body: Body)
    ensures AdminRoutes.PatchUser(u, body) ==
            AdminRoutes.PatchUser(u, map k | k in body && k in AdminRoutes.UserPatchableFields :: body[k])
    ensures AdminRoutes.PatchUser(u, map[]) == u
  {
  }

  /** An update looks only at the four patchable keys; an `owner` or `user_id` key in the body is ignored. */
  lemma PatchIgnoresOtherKeys(t: Ticket, body: Body)
    ensures TicketRoutes.Patch(t, body) ==
            TicketRoutes.Patch(t, map k | k in body && k in TicketRoutes.PatchableFields :: body[k])
  {
  }

  /**
   * The test client's user: the defaults of the `register_user` and
   * `login_user` fixtures.
   */
  function TestUserRegistration(): Body {
    RegistrationBody("testuser", "test@example.com", "testpass", "user")
  }

  function TestUserTicketBody(): Body {
    map["title" := "Issue 1", "description" := "Detailed description here", "priority" := "high"]
  }

  /** The database once the test user has registered. */
  function AfterRegistration(env: Env): Store {
    Store(map[1 := User("testuser", "test@example.com", env.hash("testpass"), "user")], map[], [], 2, 1, 1)
  }

  /** The database once the test user has filed a ticket. */
  function AfterTicket(env: Env): Store {
    AfterRegistration(env).(
      tickets := map[1 := Ticket("Issue 1", "Detailed description here", "open", "high", 1)],
      audit := [AuditRecord(1, CreateTicketAction, Some(1), Some(1), None)],
      nextTicketId := 2,
      nextAuditId := 2)
  }

  lemma TestUsernameValid()
    ensures UsernameValid("testuser")
  {
    var u := "testuser";
    assert forall i :: 0 <= i < |u| ==> UsernameChar(u[i]);
    UsernamePatternMeansCharset(u);
  }

  lemma TestUserRegistrationLoads(isEmail: string -> bool)
    requires isEmail("test@example.com")
    ensures LoadRegistration(TestUserRegistration(), isEmail) == Ok(Registration("testuser", "test@example.com", "testpass", "user"))
  {
    var body := TestUserRegistration();
    TestUsernameValid();
    assert body["username"] == "testuser" && body["email"] == "test@example.com";
    assert body["password"] == "testpass" && body["role"] == "user";
    assert body.Keys == RegisterFields;
  }

  /** The first registration into an empty database stores that user under key 1 and nothing else. */
  lemma FirstRegistration(env: Env, username: string, email: string, password: string, role: string)
    requires LoadRegistration(RegistrationBody(username, email, password, role), env.isEmail).Ok?
    ensures Handle(EmptyStore, env, None, PostRegister(RegistrationBody(username, email, password, role)))
         == Step(Registered, Store(map[1 := User(username, email, env.hash(password), role)], map[], [], 2, 1, 1))
  {
    var body := RegistrationBody(username, email, password, role);
    assert body["username"] == username && body["email"] == email;
    assert body["password"] == password && body["role"] == role;
    assert !AuthRoutes.UserExists(EmptyStore, username, email);
    var st := AuthRoutes.Register(EmptyStore, body, env.isEmail, env.hash);
    assert st.store.users == map[1 := User(username, email, env.hash(password), role)];
  }

  lemma TestUserRegisters(env: Env)
    requires env.isEmail("test@example.com")
    ensures Handle(EmptyStore, env, None, PostRegister(TestUserRegistration())) == Step(Registered, AfterRegistration(env))
  {
    TestUserRegistrationLoads(env.isEmail);
    FirstRegistration(env, "testuser", "test@example.com", "testpass", "user");
  }

  /** A body with only a one-letter username fails the schema, naming the bad and the missing fields. */
  lemma IncompleteRegistrationRejected(env: Env)
    ensures var st := Handle(EmptyStore, env, None, PostRegister(map["username" := "a"]));
      && st.store == EmptyStore
      && st.response.Invalid? && st.response.status == BadRequest
      && {"username", "email", "password", "role"} <= st.response.fields
  {
  }

  /** Registering the same user again is a conflict and changes nothing. */
  lemma DuplicateRegistrationConflicts(env: Env)
    requires env.isEmail("test@example.com")
    ensures Handle(AfterRegistration(env), env, None, PostRegister(TestUserRegistration()))
         == Step(Fail(Conflict, AuthRoutes.UserExistsMsg), AfterRegistration(env))
  {
    TestUserRegistrationLoads(env.isEmail);
    assert AuthRoutes.UserExists(AfterRegistration(env), "testuser", "test@example.com") by {
      assert AfterRegistration(env).users[1].username == "testuser";
    }
  }

  lemma TestUserLogsIn(env: Env)
    requires env.check(env.hash("testpass"), "testpass")
    ensures Handle(AfterRegistration(env), env, None, PostLogin(CredentialsBody("testuser", "testpass")))
         == Step(LoggedIn(Token(1, Some("user"))), AfterRegistration(env))
  {
  }

  lemma WrongPasswordRejected(env: Env)
    requires !env.check(env.hash("testpass"), "wrong")
    ensures Handle(AfterRegistration(env), env, None, PostLogin(CredentialsBody("testuser", "wrong")))
         == Step(Fail(Unauthorized, AuthRoutes.InvalidCredentialsMsg), AfterRegistration(env))
  {
  }

  /** The test user's ticket is stored as theirs, open, with the priority asked for, and its creation is audited. */
  lemma TestUserFilesTicket(env: Env)
    ensures Handle(AfterRegistration(env), env, Some(Token(1, Some("user"))), PostTicket(TestUserTicketBody()))
         == Step(TicketCreated(TicketView(1, "Issue 1", "Detailed description here", "open", "high", 1)), AfterTicket(env))
  {
  }

  /** The owner's listing then includes the new ticket. */
  lemma TestUserListsTicket(env: Env)
    ensures var st := Handle(AfterTicket(env), env, Some(Token(1, Some("user"))), GetTickets);
      st.response.Tickets? && 1 in Ids(st.response.tickets, (v: TicketView) => v.id)
  {
    var s := AfterTicket(env);
    assert Valid(s);
    assert TicketRoutes.Visible(Token(1, Some("user")), s.tickets[1]);
  }

  /**
   * The database after the setup of the cross-user update test: userA and
   * userB registered, and userA's ticket filed.
   */
  function CrossUpdateSetup(env: Env): Store {
    Store(
      map[1 := User("userA", "a@example.com", env.hash("passwordA"), "user"),
          2 := User("userB", "b@example.com", env.hash("passwordB"), "user")],
      map[1 := Ticket("UserA Ticket", "Details for A's ticket - valid length", DefaultStatus, DefaultPriority, 1)],
      [AuditRecord(1, CreateTicketAction, Some(1), Some(1), None)],
      3, 2, 2)
  }

  /** userB may not retitle userA's ticket. */
  lemma OtherUserIsForbidden(env: Env)
    ensures Handle(CrossUpdateSetup(env), env, Some(Token(2, Some("user"))), PutTicket(1, map["title" := "Malicious update attempt"]))
         == Step(Fail(Forbidden, TicketRoutes.UpdateForbiddenMsg), CrossUpdateSetup(env))
  {
  }

  /**
   * The database after the setup of the delete test: adminuser, user1 and
   * user2 registered, and user1's ticket filed.
   */
  function DeleteSetup(env: Env): Store {
    Store(
      map[1 := User("adminuser", "adminuser@example.com", env.hash("adminpass"), AdminRole),
          2 := User("user1", "user1@example.com", env.hash("password1"), "user"),
          3 := User("user2", "user2@example.com", env.hash("password2"), "user")],
      map[1 := Ticket("User1's ticket", "This is a valid description.", DefaultStatus, DefaultPriority, 2)],
      [AuditRecord(1, CreateTicketAction, Some(2), Some(1), None)],
      4, 2, 2)
  }

  /** user2, holding no admin claim, may not delete user1's ticket. */
  lemma OtherUserCannotDelete(env: Env)
    ensures Handle(DeleteSetup(env), env, Some(Token(3, Some("user"))), DeleteTicket(1))
         == Step(Fail(Forbidden, TicketRoutes.ResourceForbiddenMsg), DeleteSetup(env))
  {
  }

  /** adminuser deletes the ticket; the audit log keeps both the creation and the deletion. */
  lemma AdminDeletesTicket(env: Env)
    ensures var st := Handle(DeleteSetup(env), env, Some(Token(1, Some(AdminRole))), DeleteTicket(1));
      && st.response == TicketDeleted(1)
      && st.store.tickets == map[]
      && st.store.users == DeleteSetup(env).users
      && st.store.audit == [AuditRecord(1, CreateTicketAction, Some(2), Some(1), None),
                            AuditRecord(2, DeleteTicketAction, Some(1), Some(1), None)]
  {
  }
}
