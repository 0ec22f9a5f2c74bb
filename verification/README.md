# Support-ticket API: authorization and ticket/user state engine in Dafny

This project models the core of a Flask support-ticket service. That core is
the logic behind its HTTP routes:

- registration, login and `me` (`app/routes/auth_routes.py`);
- ticket create, list, update and delete (`app/routes/ticket.py`);
- admin user listing, update and delete (`app/routes/admin_routes.py`);
- the two marshmallow schemas (`app/schemas/`);
- the ticket and audit-log records (`app/models/`).

The database is one immutable `Store` value (`models.dfy`). It holds:

- a map of users keyed by id: username, email, password hash, role;
- a map of tickets keyed by id: title, description, status, priority, owner;
- the audit log, as a sequence in insertion order;
- one key counter per table.

Every route is a pure function from a store, a verified token and a request
body to a `Step`: the response plus the store after the request's transaction.
A token is the pair (subject id, optional `role` claim). `Api.Handle` routes a
request. A protected route without a token answers 401 before any handler runs.

Files, one module each:

- `wrappers.dfy`: `Option`, `Result`.
- `schemas.dfy`: `RegisterSchema`, `TicketSchema`, the username pattern, `str.lower`.
- `models.dfy`: the rows, the store, its key invariant `Valid`, and ordered queries.
- `http.dfy`: token, responses, status codes, the `role_required` decorator.
- `auth_routes.dfy`, `ticket_routes.dfy`, `admin_routes.dfy`: the three blueprints.
- `api.dfy`: the dispatcher.
- `invariants.dfy`: properties of every route, and of every request sequence run from an empty database.
- `scenarios.dfy`: properties linking several requests, and the repository's own test cases: the test user's requests replayed from an empty database, and the access-control tests checked on a database written out to match each test's setup.

Modelling choices:

- Keys come from a counter that never reuses a key, as a sequence-backed
  database hands them out (SQLite's key reuse is under Left out). Foreign keys
  are not enforced, as under SQLite's default: a delete of an audited ticket
  succeeds although audit records still reference it (see Left out). `Valid`
  says every key lies below its counter and audit keys grow along the log. It
  holds for every store reachable from `EmptyStore` (`ReachableStoresAreValid`).
- Query results come back in ascending key order. `.first()` on a username is
  the lowest key with that username.
- A request body is a JSON object of strings (`map<string, string>`). The empty
  map stands for a JSON body of `{}` or `null`, which `get_json() or {}` turns
  into an empty dict. A request without a JSON body at all is under Left out.
- The schemas reject unknown keys, which is marshmallow's default
  (`unknown = RAISE`). So a dump-only key such as `status` or `user_id` in a
  create body is a field error. It is never loaded.
- A schema failure is reported as the set of failing field names.
- The email-format check, `set_password` and `check_password` are parameters
  (`Env`). The model never interprets them.
- Dafny's `char` is a Unicode scalar value, so `|s|` equals Python's `len(s)`
  for the length rules.

Quirks of the code the model keeps (every departure from the code is listed
under Left out; the username pattern is also a Finding):

- Delete checks the admin role before the ticket's existence. So a non-admin
  gets 403 even for a missing ticket.
- Update checks existence before ownership.
- An empty update body succeeds and is audited.
- Update bodies are not validated.
- Registration accepts `role = "admin"`.
- An admin user update checks neither uniqueness nor the role value. So
  usernames and emails are unique only as far as registration enforces them.
- A create body of `{}` (or `null`) is a 400 "No input data provided".
- No route refreshes or stores timestamps in this model (see Left out).

## Model

| member | source | states |
|---|---|---|
| `Schemas.AllowedPrefixLength` | app/schemas/register_schema.py:13 | how far the greedy `[A-Za-z0-9_.-]+` runs: every character before the result is allowed, the one at the result is not |
| `Schemas.UsernamePatternMeansCharset` | app/schemas/register_schema.py:11-16 | the corrected username pattern accepts exactly the non-empty strings of ASCII letters, digits, `_`, `.`, `-` |
| `Schemas.UsernamePatternAsWrittenAccepts` | app/schemas/register_schema.py:13 | under Python's `$` the pattern accepts exactly the corrected pattern's strings, plus those strings followed by one newline |
| `Schemas.TrailingNewlineAccepted` | app/schemas/register_schema.py:13 | `"abc\n"` passes the pattern as written, fails the corrected one, and meets the length rule |
| `Schemas.LoadRegistration` | app/schemas/register_schema.py:5-9 | loading succeeds iff exactly the four fields are present and username is 3..80 chars of the charset and nothing else (the corrected full-match pattern, see Findings), email passes the format check and is at most 120 chars, password is at least 6 chars, role is "user" or "admin"; the loaded values are the body's; every missing or unknown field is reported; on failure the reported fields are exactly the unknown keys, the missing fields and the present fields failing their rule |
| `Schemas.Lower` | app/routes/auth_routes.py:27 | `.lower()` keeps the length and lower-cases each ASCII letter |
| `Schemas.LowerKeepsValidRole` | app/routes/auth_routes.py:27 | lower-casing a validated role leaves it unchanged, so the stored role is the client's |
| `Schemas.LoadTicket` | app/schemas/ticket_schema.py:11-18 | loading succeeds iff only title/description/priority are present, title has at least 5 chars, description at least 10, and a supplied priority is low/medium/high; a missing priority loads as "medium"; on failure the reported fields are exactly the unknown or dump-only keys, a missing title or description, and the present fields failing their rule |
| `Models.NewTicket` | app/models/ticket.py:9-10 | a new ticket keeps its title, description and owner; an unset status is "open" and an unset priority "medium", a set one is kept |
| `Models.Audit` | app/routes/ticket.py:46-52 | exactly one record is appended, under the next audit key, with the given action, actor and ticket and no details; users, tickets and the other counters are unchanged |
| `Models.KeysWhere` | app/routes/ticket.py:67-69 | a filtered table scan: the keys it lists are in range, present and selected, strictly increasing, and include every selected key in range |
| `Models.KeysWhereComplete` | app/routes/ticket.py:67-69 | with all keys below the bound, the listed keys are exactly the selected rows' keys |
| `Http.RoleRequired` | app/routes/ticket.py:15-26 | a request passes iff its role claim is present and in the allowed list; otherwise the response is a 403 with the decorator's message |
| `AdminRoutes.AdminGate` | app/routes/admin_routes.py:10-21 | passes iff the role claim is exactly "admin"; an absent claim gets 403 "Forbidden: Admins only" |
| `AuthRoutes.Register` | app/routes/auth_routes.py:10-39 | a schema error gives 400 with the failing fields; a username or email already stored gives 409; both leave the store unchanged; otherwise exactly one user is added under a fresh key with the given username, email and role and the password's hash, and tickets and audit log are untouched |
| `AuthRoutes.FindByUsername` | app/routes/auth_routes.py:52 | finds a user with that username and no lower-keyed one; finds none only if no user in range has it |
| `AuthRoutes.Login` | app/routes/auth_routes.py:42-60 | never changes the store; a missing or empty username or password gives 400; otherwise a token is issued iff the user exists and the password check passes, else 401 "Invalid credentials"; the token's subject is the user's key and its role claim the stored role |
| `AuthRoutes.Me` | app/routes/auth_routes.py:63-81 | never changes the store; 404 iff the subject's user no longer exists; a profile exactly when the subject's user exists, carrying its id, username, email and role |
| `TicketRoutes.CreateTicket` | app/routes/ticket.py:28-56 | an empty body gives 400 and a schema error 422, both without changing the store; otherwise one ticket is stored under a fresh key with the loaded title, description and priority, status "open" and the token's subject as owner, and exactly one "create_ticket" audit record is appended; the ticket counter and the audit counter advance by one and the user counter is kept |
| `TicketRoutes.ListTickets` | app/routes/ticket.py:58-71 | never changes the store; every listed ticket is stored, shown as stored, and owned by the caller unless the claim is "admin"; keys strictly increase; in a valid store every ticket the caller may see is listed |
| `TicketRoutes.Patch` | app/routes/ticket.py:89-97 | each of title, description, priority and status takes the body's value when present and keeps its value otherwise; the owner never changes |
| `TicketRoutes.UpdateTicket` | app/routes/ticket.py:73-108 | a missing ticket gives 404; otherwise a caller who is neither owner nor admin gets 403; both leave the store unchanged; otherwise only that ticket is patched and one "update_ticket" record naming the caller is appended; only the audit counter advances |
| `TicketRoutes.DeleteTicket` | app/routes/ticket.py:110-131 | without an admin claim 403, even for a missing or own ticket; an admin gets 404 for a missing ticket; both leave the store unchanged; otherwise exactly that ticket is removed and one "delete_ticket" record with its key is appended to the kept log; only the audit counter advances |
| `AdminRoutes.ListUsers` | app/routes/admin_routes.py:23-35 | non-admins get 403; admins get one view per stored user in key order, showing the stored id, username, email and role only |
| `AdminRoutes.PatchUser` | app/routes/admin_routes.py:45-48 | username, email and role take the body's value when present and keep theirs otherwise; the password hash never changes |
| `Scenarios.PatchUserIgnoresOtherKeys` | app/routes/admin_routes.py:45-48 | an admin user update depends only on the body's "username", "email" and "role" keys, so a "password" or "id" key changes nothing, and an empty body leaves the user as it was |
| `AdminRoutes.UpdateUser` | app/routes/admin_routes.py:37-51 | non-admins get 403, a missing user 404, both without change; otherwise only that user is patched and tickets and audit log are untouched; no key counter changes |
| `AdminRoutes.DeleteUser` | app/routes/admin_routes.py:53-63 | non-admins get 403, a missing user 404, both without change; otherwise exactly that user is removed and tickets and audit log are untouched; no key counter changes |
| `Api.Handle` | app/__init__.py:31-33 | a protected route without a token gives 401 and no change; every error leaves the store unchanged; the old audit log is a prefix of the new one, which is at most one record longer; only the user routes change users and only the ticket routes change tickets |
| `Api.Route` | app/__init__.py:31-33 | the same guarantees for the handler of each protected route |
| `Invariants.AuditKeepsValid` | app/models/audit_log.py:5 | appending an audit record under the next key keeps audit keys unique and increasing |
| `Invariants.RegisterKeepsValid` | app/routes/auth_routes.py:33-37 | registration keeps all keys below their counters |
| `Invariants.CreateKeepsValid` | app/routes/ticket.py:40-53 | ticket creation keeps all keys below their counters and audit keys increasing |
| `Invariants.UpdateKeepsValid` | app/routes/ticket.py:89-106 | ticket update keeps all keys below their counters and audit keys increasing |
| `Invariants.DeleteKeepsValid` | app/routes/ticket.py:118-129 | ticket delete keeps all keys below their counters and audit keys increasing |
| `Invariants.UpdateUserKeepsValid` | app/routes/admin_routes.py:40-52 | an admin user update keeps all keys below their counters |
| `Invariants.DeleteUserKeepsValid` | app/routes/admin_routes.py:56-63 | an admin user delete keeps all keys below their counters |
| `Invariants.RoutePreservesValid` | app/models/ticket.py:6 | every protected route keeps all keys below their counters and audit keys increasing |
| `Invariants.HandlePreservesValid` | app/models/ticket.py:6 | every request keeps all keys below their counters and audit keys increasing |
| `Invariants.AuditedStepKeepsShape` | app/models/audit_log.py:4-11 | a step that keeps the audit contract and only appends to the log leaves every record one of the three ticket actions with actor and ticket set and no details |
| `Invariants.HandlePreservesAuditShape` | app/models/audit_log.py:4-11 | every audit record is one of the three ticket actions, names its actor and ticket, and has no details |
| `Invariants.OwnersComeFromTokens` | app/routes/ticket.py:40-41 | a ticket keeps its owner for its whole life; a ticket a request creates belongs to that request's token subject |
| `Invariants.CreateIsAudited` | app/routes/ticket.py:46-53 | a ticket creation keeps the audit contract: one "create_ticket" record naming the caller and the new ticket exactly when it succeeds |
| `Invariants.UpdateIsAudited` | app/routes/ticket.py:99-106 | a ticket update keeps the audit contract: one "update_ticket" record exactly when it succeeds |
| `Invariants.DeleteIsAudited` | app/routes/ticket.py:113-129 | a ticket delete keeps the audit contract: one "delete_ticket" record exactly when it succeeds |
| `Invariants.RegisterIsAudited` | app/routes/auth_routes.py:33-39 | registration writes no audit record and never touches the tickets |
| `Invariants.RouteIsAudited` | app/routes/ticket.py:46-129 | every protected route keeps the audit contract |
| `Invariants.TicketMutationsAreAudited` | app/routes/ticket.py:46-129 | exactly the successful create, update and delete requests append a record; each appends one, with the caller as actor and the ticket as subject; any change to the tickets is such a request |
| `Invariants.AdminRoutesLeaveTicketsAndAudit` | app/routes/admin_routes.py:38-63 | the admin routes never touch tickets or the audit log |
| `Invariants.RouteForbiddenExactly` | app/routes/ticket.py:84-87 | a protected route answers 403 exactly as the decision table `Refused` says |
| `Invariants.ForbiddenExactly` | app/routes/ticket.py:15-23 | every request gets 403 exactly when it carries a token and is an update of an existing ticket by someone neither its owner nor an admin (the owner check of update), or a ticket delete or admin route without an "admin" role claim (both copies of `role_required`); a request without a token never gets 403 |
| `Invariants.RolesLiveInTokens` | app/routes/admin_routes.py:14-17 | whether a request gets 403 does not depend on the user table, so a stored role change alters no decision for an issued token |
| `Invariants.Run` | app/routes/ticket.py:52-53 | over any sequence of requests the audit log only grows, by at most one record per request |
| `Invariants.RunPreservesInvariants` | app/models/ticket.py:6 | any sequence of requests keeps the key invariant and the audit-record shape |
| `Invariants.ReachableStoresAreValid` | app/models/audit_log.py:5 | every database reachable from an empty one has unique, increasing keys and well-formed audit records |
| `Invariants.ReachableListingIsExact` | app/routes/ticket.py:66-69 | in every reachable database an admin lists all tickets, and anyone else lists exactly their own and never another owner's |
| `Scenarios.RegisteredUserIsFound` | app/routes/auth_routes.py:34-52 | right after a registration, looking up the username finds the new key |
| `Scenarios.LoginSucceeds` | app/routes/auth_routes.py:52-60 | a login naming a stored user whose password check passes issues that user's token |
| `Scenarios.RegisterThenLogin` | app/routes/auth_routes.py:34-59 | after a successful registration, login with the same credentials issues a token for the new key with the registered role |
| `Scenarios.LoginThenMe` | app/routes/auth_routes.py:56-81 | a token from login opens `me` on the same user, with a matching role claim |
| `Scenarios.MeIgnoresPasswordHash` | app/routes/auth_routes.py:76-81 | `me` answers the same whatever the stored password hash |
| `Scenarios.SelfRegisteredAdmin` | app/schemas/register_schema.py:9 | a client that registers as "admin" logs in with a token that passes the admin gate |
| `Scenarios.StaleRoleClaim` | app/routes/admin_routes.py:14-18 | an admin token keeps passing both admin gates after the stored role is changed to "user" |
| `Scenarios.OwnerCannotDelete` | app/routes/ticket.py:113 | a ticket's owner without an admin claim gets 403 deleting it, and nothing changes |
| `Scenarios.UpdateBypassesSchema` | app/routes/ticket.py:89-97 | a body that fails the ticket schema still updates an owner's ticket, storing a 1-char title and the priority "urgent" |
| `Scenarios.EmptyUpdateStillAudited` | app/routes/ticket.py:89-106 | an empty update body changes no ticket, succeeds, and appends one "update_ticket" record |
| `Scenarios.PatchIgnoresOtherKeys` | app/routes/ticket.py:90-97 | an update depends only on the four patchable keys of the body |
| `Scenarios.TestUsernameValid` | tests/conftest.py:27 | the fixture's default username "testuser" passes the username rule |
| `Scenarios.TestUserRegistrationLoads` | tests/conftest.py:27-33 | the fixture's default registration body (testuser, test@example.com, testpass, user) loads unchanged |
| `Scenarios.FirstRegistration` | app/routes/auth_routes.py:33-39 | a valid registration into an empty database stores exactly that user, with the hashed password, under key 1, and nothing else |
| `Scenarios.TestUserRegisters` | tests/test_auth.py:1-5 | registering the fixture's default user in an empty database succeeds and stores it under key 1 with role "user" |
| `Scenarios.IncompleteRegistrationRejected` | tests/test_auth.py:7-9 | a body holding only the username "a" gets 400 naming username, email, password and role, and nothing changes |
| `Scenarios.DuplicateRegistrationConflicts` | tests/test_auth.py:11-13 | registering the same user again gets 409 "User already exists" and nothing changes |
| `Scenarios.TestUserLogsIn` | tests/test_auth.py:15-18 | logging in as testuser/testpass issues the token (1, "user") and changes nothing |
| `Scenarios.WrongPasswordRejected` | tests/test_auth.py:20-22 | logging in as testuser with the password "wrong" gets 401 "Invalid credentials" and changes nothing |
| `Scenarios.TestUserFilesTicket` | tests/test_ticket.py:1-13 | the ticket "Issue 1" / "Detailed description here" / "high" is stored under key 1 as the caller's, status "open", priority "high", with one "create_ticket" record |
| `Scenarios.TestUserListsTicket` | tests/test_ticket.py:15-20 | the owner's listing then includes the new ticket's id |
| `Scenarios.OtherUserIsForbidden` | tests/test_access_control.py:1-26 | with userA and userB registered and userA's ticket filed, userB's update with the title "Malicious update attempt" gets the update 403 and changes nothing |
| `Scenarios.OtherUserCannotDelete` | tests/test_ticket.py:43-67 | with adminuser, user1 and user2 registered and user1's ticket filed, user2's delete gets 403 "Forbidden: You do not have access to this resource" and changes nothing |
| `Scenarios.AdminDeletesTicket` | tests/test_ticket.py:69-72 | in the same database adminuser's delete succeeds; the ticket is gone, the users are untouched, and the log holds user1's creation record and adminuser's deletion record naming the removed ticket |

## Findings

| source | as written | input that shows it | evidently intended | confidence | as-written member | corrected member |
|---|---|---|---|---|---|---|
| app/schemas/register_schema.py:13 | `re.match(r'^[A-Za-z0-9_.-]+$', value)`; Python's `$` also matches just before a final newline | username `"abc\n"` passes the pattern and the 3..80 length rule, so it is accepted | usernames consist only of letters, digits, `_`, `.` and `-` (full match) | high, by Python's documented `$` semantics (not executed) | `Schemas.UsernamePatternAsWritten`, exhibited by `Schemas.TrailingNewlineAccepted` and `Schemas.UsernamePatternAsWrittenAccepts` | `Schemas.UsernamePattern`, proved by `Schemas.UsernamePatternMeansCharset`; registration uses it |

## Left out

- Token signing, verification and expiry (flask_jwt_extended). A token is an already-verified (subject, role claim) pair. Missing, malformed, badly signed and expired tokens are merged into one 401 outcome with a generic message; the library itself answers 422 for a malformed or badly signed token.
- `me`'s 400 for a subject that is not an integer (app/routes/auth_routes.py:67-70). Subjects are `nat`, and login only issues integer subjects.
- The string-versus-integer subject (`user_id` stored from the raw string subject at app/routes/ticket.py:41, `int(...)` at line 77). All ids are `nat`.
- Password hashing and checking (the User model is not part of this model). They are the `hash` and `check` parameters. The salt's randomness is folded into the `hash` passed to each request.
- The email-format rule of `fields.Email`. It is the `isEmail` parameter.
- Timestamps (`timestamp`, `created_at`, `updated_at` and its refresh on update). They depend on the wall clock.
- Transactions, flush and commit. Each request is one atomic step.
- Database integrity errors (a unique or NOT NULL constraint failing at commit, a 500). The User model's constraints are not part of this model.
- What `delete_user` does to the user's tickets. The foreign-key and cascade rules are in the User model, which is not part of this model. The tickets are left as they are.
- Requests without a JSON body. Recent Werkzeug (2.1 and later) rejects `request.get_json()` on a request without a JSON content type, with 400, or 415 from 2.3, before `or {}` applies. So such a PUT to a ticket is an error that changes nothing. The model has no such request: an empty body is always `{}`, and an empty update succeeds and is audited. Older Werkzeug returned `None` there, which the model does cover.
- Non-string JSON values (numbers, `null`, nested objects) and non-JSON request bodies.
- The Comment model and the `comments` relationship of a ticket. Comment is not part of this model.
- Concurrency between requests. The application has none of its own.
- The app factory, configuration, extensions and the test-database reset script. They are wiring only.
- `Schemas.LoadRegistration`: the username rule is the corrected full-match pattern `UsernamePattern`, not Python's `re.match` with `$` as written (app/schemas/register_schema.py:13). So a valid username followed by one newline, such as `"abc\n"`, is rejected with 400 where the code accepts it. The as-written behaviour is modelled and exhibited by `Schemas.UsernamePatternAsWritten` and `Schemas.TrailingNewlineAccepted` (see Findings).
- `AuthRoutes.Register`: inherits the corrected username rule from `Schemas.LoadRegistration`, so it answers 400 rather than 201 for a username ending in one newline.
- Foreign-key enforcement. `audit_log.ticket_id` references the ticket (app/models/audit_log.py:11), and every ticket has a "create_ticket" record, so on a database that enforces foreign keys every `delete_ticket` would fail at commit. The model's successful delete is what SQLite does with foreign keys off, its default.
- Key reuse by SQLite, the configured default database (app/config.py:4, and `sqlite:///:memory:` in tests/conftest.py:11). Its integer primary keys (app/models/ticket.py:6, app/models/audit_log.py:5) are declared without AUTOINCREMENT, so a new row gets the highest current key + 1, and the key of a deleted highest row is handed out again. The model allocates from counters instead. It therefore does not show what that reuse causes: old "create_ticket" and "delete_ticket" audit records then name the next ticket, and a token whose subject was the deleted highest user acts as the next user to register, in `me` and in update's owner check (app/routes/ticket.py:86).
- `Schemas.Lower`: it lower-cases ASCII letters only, unlike Python's Unicode-aware `str.lower`. It is applied only to a role already validated as "user" or "admin".
- `TicketRoutes.ListTickets`: completeness of the listing is stated for stores whose keys lie below their counters. That holds for every reachable store (`Invariants.ReachableListingIsExact`).
- `AdminRoutes.ListUsers`: completeness is stated for stores whose keys lie below their counters, as for tickets.
- `AuthRoutes.FindByUsername`: "no such user" is stated over keys below the user counter. That covers every user of a valid store.
