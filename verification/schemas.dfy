/**
 * The two marshmallow schemas of the service: RegisterSchema (registration
 * input) and TicketSchema (ticket creation input). A schema load either yields
 * the loaded record or the set of field names that carry an error, which is
 * what the routes send back as the error mapping.
 */
module Schemas {
  import opened Wrappers

  /** A JSON object request body whose members are strings. An absent body is the empty map. */
  type Body = map<string, string>

  // ---------------------------------------------------------------------
  // RegisterSchema

  const UsernameMinLength: nat := 3
  const UsernameMaxLength: nat := 80
  const EmailMaxLength: nat := 120
  const PasswordMinLength: nat := 6

  /** The keys RegisterSchema declares; all four are required. */
  const RegisterFields: set<string> := {"username", "email", "password", "role"}

  /** A character of the class `[A-Za-z0-9_.-]`. */
  predicate UsernameChar(c: char) {
    || ('A' <= c <= 'Z')
    || ('a' <= c <= 'z')
    || ('0' <= c <= '9')
    || c == '_' || c == '.' || c == '-'
  }

  /** Length of the longest prefix of `s` made of username characters: how far the greedy `[...]+` runs. */
  function AllowedPrefixLength(s: string): (n: nat)
    ensures n <= |s|
    ensures forall i :: 0 <= i < n ==> UsernameChar(s[i])
    ensures n < |s| ==> !UsernameChar(s[n])
  {
    if |s| == 0 || !UsernameChar(s[0]) then 0 else 1 + AllowedPrefixLength(s[1..])
  }

  /**
   * The username pattern `^[A-Za-z0-9_.-]+$` under `re.match` as Python
   * evaluates it: `$` matches at the end of the string and also just before a
   * newline that ends the string.
   */
  predicate UsernamePatternAsWritten(s: string) {
    var n := AllowedPrefixLength(s);
    n >= 1 && (n == |s| || (n == |s| - 1 && s[n] == '\n'))
  }

  /** The evidently intended pattern: one or more username characters and nothing else. */
  predicate UsernamePattern(s: string) {
    var n := AllowedPrefixLength(s);
    n >= 1 && n == |s|
  }

  /** The corrected pattern accepts exactly the non-empty strings of username characters. */
  lemma UsernamePatternMeansCharset(s: string)
    ensures UsernamePattern(s) <==> |s| > 0 && forall i :: 0 <= i < |s| ==> UsernameChar(s[i])
  {
  }

  /**
   * As written, the pattern accepts what the corrected one accepts plus every
   * such string followed by a single newline.
   */
  lemma UsernamePatternAsWrittenAccepts(s: string)
    ensures UsernamePatternAsWritten(s) <==>
      || UsernamePattern(s)
      || (|s| >= 2 && s[|s| - 1] == '\n' && UsernamePattern(s[..|s| - 1]))
  {
  }

  /** `"abc\n"` passes the username pattern as written although it ends in a newline. */
  lemma TrailingNewlineAccepted()
    ensures UsernamePatternAsWritten("abc\n")
    ensures !UsernamePattern("abc\n")
    ensures UsernameMinLength <= |"abc\n"| <= UsernameMaxLength
  {
  }

  predicate UsernameValid(u: string) {
    UsernameMinLength <= |u| <= UsernameMaxLength && UsernamePattern(u)
  }

  /** `fields.Email` plus its length limit; the format check itself is the opaque `isEmail`. */
  predicate EmailValid(e: string, isEmail: string -> bool) {
    isEmail(e) && |e| <= EmailMaxLength
  }

  predicate PasswordValid(p: string) {
    |p| >= PasswordMinLength
  }

  /** `OneOf(["user", "admin"])`: a client may register itself as an administrator. */
  predicate RoleValid(r: string) {
    r == "user" || r == "admin"
  }

  predicate RegisterFieldValid(field: string, value: string, isEmail: string -> bool) {
    if field == "username" then UsernameValid(value)
    else if field == "email" then EmailValid(value, isEmail)
    else if field == "password" then PasswordValid(value)
    else if field == "role" then RoleValid(value)
    else false
  }

  /** Field names that `RegisterSchema().validate` reports: unknown keys, missing keys and values failing their rule. */
  function RegisterErrors(body: Body, isEmail: string -> bool): set<string> {
    (body.Keys - RegisterFields)
    + set f | f in RegisterFields && (f !in body || !RegisterFieldValid(f, body[f], isEmail))
  }

  datatype Registration = Registration(username: string, email: string, password: string, role: string)

  /** `RegisterSchema().load(body)`. */
  function LoadRegistration(body: Body, isEmail: string -> bool): (r: Result<Registration, set<string>>)
    ensures r.Ok? <==>
      && body.Keys == RegisterFields
      && UsernameValid(body["username"])
      && EmailValid(body["email"], isEmail)
      && PasswordValid(body["password"])
      && RoleValid(body["role"])
    ensures r.Ok? ==>
      r.value == Registration(body["username"], body["email"], body["password"], body["role"])
    ensures r.Err? ==> r.error != {}
    ensures forall f :: f in RegisterFields && f !in body ==> r.Err? && f in r.error
    ensures forall f :: f in body && f !in RegisterFields ==> r.Err? && f in r.error
    ensures forall f :: f in RegisterFields && f in body && !RegisterFieldValid(f, body[f], isEmail) ==> r.Err? && f in r.error
    ensures r.Err? ==> forall f :: f in r.error ==>
      || (f in body && f !in RegisterFields)
      || (f in RegisterFields && (f !in body || !RegisterFieldValid(f, body[f], isEmail)))
  {
    var errors := RegisterErrors(body, isEmail);
    if errors == {} then
      assert "username" in RegisterFields && "email" in RegisterFields;
      assert "password" in RegisterFields && "role" in RegisterFields;
      Ok(Registration(body["username"], body["email"], body["password"], body["role"]))
    else
      Err(errors)
  }

  /** Python's `str.lower` restricted to ASCII letters, which is all a validated role can hold. */
  function LowerChar(c: char): char {
    if 'A' <= c <= 'Z' then (c as int + 32) as char else c
  }

  function Lower(s: string): (r: string)
    ensures |r| == |s|
    ensures forall i :: 0 <= i < |s| ==> r[i] == LowerChar(s[i])
  {
    if |s| == 0 then "" else [LowerChar(s[0])] + Lower(s[1..])
  }

  /** Lower-casing leaves a validated role unchanged, so the stored role is the one the client sent. */
  lemma LowerKeepsValidRole(r: string)
    requires RoleValid(r)
    ensures Lower(r) == r
  {
  }

  // ---------------------------------------------------------------------
  // TicketSchema

  const TitleMinLength: nat := 5
  const DescriptionMinLength: nat := 10
  const Priorities: set<string> := {"low", "medium", "high"}
  /** `load_default` of the priority field. */
  const LoadDefaultPriority := "medium"

  /** The keys TicketSchema loads; every other model column is dump-only. */
  const TicketLoadFields: set<string> := {"title", "description", "priority"}
  const TicketDumpOnlyFields: set<string> := {"id", "status", "created_at", "updated_at", "user_id"}

  predicate TicketFieldValid(field: string, value: string) {
    if field == "title" then |value| >= TitleMinLength
    else if field == "description" then |value| >= DescriptionMinLength
    else if field == "priority" then value in Priorities
    else false
  }

  /** Field names that `TicketSchema().validate` reports: unknown or dump-only keys, missing required keys, values failing their rule. */
  function TicketErrors(body: Body): set<string> {
    (body.Keys - TicketLoadFields)
    + set f | f in TicketLoadFields &&
                (if f in body then !TicketFieldValid(f, body[f]) else f != "priority")
  }

  datatype TicketInput = TicketInput(title: string, description: string, priority: string)

  /** `TicketSchema().load(body)`: the client-supplied part of a new ticket. */
  function LoadTicket(body: Body): (r: Result<TicketInput, set<string>>)
    ensures r.Ok? <==>
      && body.Keys <= TicketLoadFields
      && "title" in body && |body["title"]| >= TitleMinLength
      && "description" in body && |body["description"]| >= DescriptionMinLength
      && ("priority" in body ==> body["priority"] in Priorities)
    ensures r.Ok? ==>
      && r.value.title == body["title"]
      && r.value.description == body["description"]
      && r.value.priority == (if "priority" in body then body["priority"] else LoadDefaultPriority)
      && r.value.priority in Priorities
    ensures r.Err? ==> r.error != {}
    ensures forall f :: f in TicketDumpOnlyFields && f in body ==> r.Err? && f in r.error
    ensures forall f :: f in body && f !in TicketLoadFields ==> r.Err? && f in r.error
    ensures forall f :: f in TicketLoadFields && f in body && !TicketFieldValid(f, body[f]) ==> r.Err? && f in r.error
    ensures "title" !in body ==> r.Err? && "title" in r.error
    ensures "description" !in body ==> r.Err? && "description" in r.error
    ensures r.Err? ==> forall f :: f in r.error ==>
      || (f in body && f !in TicketLoadFields)
      || (f in TicketLoadFields && f in body && !TicketFieldValid(f, body[f]))
      || (f in {"title", "description"} && f !in body)
  {
    var errors := TicketErrors(body);
    if errors == {} then
      assert "title" in TicketLoadFields && "description" in TicketLoadFields;
      assert "priority" in TicketLoadFields;
      var priority := if "priority" in body then body["priority"] else LoadDefaultPriority;
      Ok(TicketInput(body["title"], body["description"], priority))
    else
      Err(errors)
  }
}
