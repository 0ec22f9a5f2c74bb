/**
 * Properties of every route at once, and of every sequence of requests run
 * from an empty database.
 */
module Invariants {
  import opened Wrappers
  import opened Schemas
  import opened Models
  import opened Http
  import opened Api
  import AuthRoutes
  import TicketRoutes
  import AdminRoutes

  /** Every audit record is one of the three ticket actions, names its actor and ticket, and has no details. */
  predicate AuditShape(s: Store) {
    forall i :: 0 <= i < |s.audit| ==>
      && s.audit[i].action in {CreateTicketAction, UpdateTicketAction, DeleteTicketAction}
      && s.audit[i].actorId.Some?
      && s.audit[i].ticketId.Some?
      && s.audit[i].details.None?
  }

  /** Appending one record with the next audit key keeps the keys below the counter and increasing. */
  lemma AuditKeepsValid(s: Store, action: string, actor: nat, ticket: nat)
    requires Valid(s)
    ensures Valid(Audit(s, action, actor, ticket))
  {
  }

  lemma RegisterKeepsValid(s: Store, body: Body, isEmail: string -> bool, hash: string -> string)
    requires Valid(s)
    ensures Valid(AuthRoutes.Register(s, body, isEmail, hash).store)
  {
  }

  lemma CreateKeepsValid(s: Store, tok: Token, body: Body)
    requires Valid(s)
    ensures Valid(TicketRoutes.CreateTicket(s, tok, body).store)
  {
  }

  lemma UpdateKeepsValid(s: Store, tok: Token, id: nat, body: Body)
    requires Valid(s)
    ensures Valid(TicketRoutes.UpdateTicket(s, tok, id, body).store)
  {
  }

  lemma DeleteKeepsValid(s: Store, tok: Token, id: nat)
    requires Valid(s)
    ensures Valid(TicketRoutes.DeleteTicket(s, tok, id).store)
  {
  }

  lemma UpdateUserKeepsValid(s: Store, tok: Token, id: nat, body: Body)
    requires Valid(s)
    ensures Valid(AdminRoutes.UpdateUser(s, tok, id, body).store)
  {
  }

  lemma DeleteUserKeepsValid(s: Store, tok: Token, id: nat)
    requires Valid(s)
    ensures Valid(AdminRoutes.DeleteUser(s, tok, id).store)
  {
  }

  lemma RoutePreservesValid(s: Store, tok: Token, req: Request)
    requires Valid(s) && req.NeedsToken()
    ensures Valid(Route(s, tok, req).store)
  {
    match req
    case PostTicket(body) =>
      assert Route(s, tok, req) == TicketRoutes.CreateTicket(s, tok, body);
      CreateKeepsValid(s, tok, body);
    case PutTicket(id, body) =>
      assert Route(s, tok, req) == TicketRoutes.UpdateTicket(s, tok, id, body);
      UpdateKeepsValid(s, tok, id, body);
    case DeleteTicket(id) =>
      assert Route(s, tok, req) == TicketRoutes.DeleteTicket(s, tok, id);
      DeleteKeepsValid(s, tok, id);
    case PutUser(id, body) =>
      assert Route(s, tok, req) == AdminRoutes.UpdateUser(s, tok, id, body);
      UpdateUserKeepsValid(s, tok, id, body);
    case DeleteUser(id) =>
      assert Route(s, tok, req) == AdminRoutes.DeleteUser(s, tok, id);
      DeleteUserKeepsValid(s, tok, id);
    case GetMe =>
      assert Route(s, tok, req) == AuthRoutes.Me(s, tok);
    case GetTickets =>
      assert Route(s, tok, req) == TicketRoutes.ListTickets(s, tok);
    case GetUsers =>
      assert Route(s, tok, req) == AdminRoutes.ListUsers(s, tok);
  }

  lemma HandlePreservesValid(s: Store, env: Env, tok: Option<Token>, req: Request)
    requires Valid(s)
    ensures Valid(Handle(s, env, tok, req).store)
  {
    if req.PostRegister? {
      RegisterKeepsValid(s, req.body, env.isEmail, env.hash);
    } else if req.NeedsToken() && tok.Some? {
      RoutePreservesValid(s, tok.value, req);
    }
  }

  /**
   * A ticket keeps its owner for as long as it exists, and a ticket that a
   * request brings into existence belongs to that request's token subject.
   */
  lemma OwnersComeFromTokens(s: Store, env: Env, tok: Option<Token>, req: Request)
    requires Valid(s)
    ensures var s' := Handle(s, env, tok, req).store;
      forall id :: id in s.tickets && id in s'.tickets ==> s'.tickets[id].owner == s.tickets[id].owner
    ensures var s' := Handle(s, env, tok, req).store;
      forall id :: id in s'.tickets && id !in s.tickets ==> tok.Some? && s'.tickets[id].owner == tok.value.sub
  {
  }

  /** The response of a successful ticket mutation. */
  predicate TicketMutation(r: Response) {
    r.TicketCreated? || r.TicketUpdated? || r.TicketDeleted?
  }

  /**
   * The audit contract of one step: the log grows (by one) exactly when a
   * ticket is created, updated or deleted, the new record names the caller
   * and the ticket, and no other step changes the ticket table.
   */
  predicate AuditedStep(s: Store, tok: Option<Token>, st: Step) {
    && (|st.store.audit| == |s.audit| + 1 <==> TicketMutation(st.response))
    && (TicketMutation(st.response) ==>
          var r := st.store.audit[|s.audit|];
          && tok.Some?
          && r.id == s.nextAuditId
          && r.actorId == Some(tok.value.sub)
          && r.details == None
          && (st.response.TicketCreated? ==> r.action == CreateTicketAction && r.ticketId == Some(st.response.ticket.id))
          && (st.response.TicketUpdated? ==> r.action == UpdateTicketAction && r.ticketId == Some(st.response.id))
          && (st.response.TicketDeleted? ==> r.action == DeleteTicketAction && r.ticketId == Some(st.response.id)))
    && (st.store.tickets != s.tickets ==> TicketMutation(st.response))
  }

  lemma CreateIsAudited(s: Store, tok: Token, body: Body)
    ensures AuditedStep(s, Some(tok), TicketRoutes.CreateTicket(s, tok, body))
  {
  }

  lemma UpdateIsAudited(s: Store, tok: Token, id: nat, body: Body)
    ensures AuditedStep(s, Some(tok), TicketRoutes.UpdateTicket(s, tok, id, body))
  {
  }

  lemma DeleteIsAudited(s: Store, tok: Token, id: nat)
    ensures AuditedStep(s, Some(tok), TicketRoutes.DeleteTicket(s, tok, id))
  {
  }

  /** A step that mutates no ticket and writes no audit record keeps the audit contract. */
  lemma QuietIsAudited(s: Store, tok: Option<Token>, st: Step)
    requires st.store.audit == s.audit && st.store.tickets == s.tickets
    requires !TicketMutation(st.response)
    ensures AuditedStep(s, tok, st)
  {
  }

  lemma RouteIsAudited(s: Store, tok: Token, req: Request)
    requires req.NeedsToken()
    ensures AuditedStep(s, Some(tok), Route(s, tok, req))
  {
    match req
    case PostTicket(body) =>
      assert Route(s, tok, req) == TicketRoutes.CreateTicket(s, tok, body);
      CreateIsAudited(s, tok, body);
    case PutTicket(id, body) =>
      assert Route(s, tok, req) == TicketRoutes.UpdateTicket(s, tok, id, body);
      UpdateIsAudited(s, tok, id, body);
    case DeleteTicket(id) =>
      assert Route(s, tok, req) == TicketRoutes.DeleteTicket(s, tok, id);
      DeleteIsAudited(s, tok, id);
    case PutUser(id, body) =>
      assert Route(s, tok, req) == AdminRoutes.UpdateUser(s, tok, id, body);
      QuietIsAudited(s, Some(tok), AdminRoutes.UpdateUser(s, tok, id, body));
    case DeleteUser(id) =>
      assert Route(s, tok, req) == AdminRoutes.DeleteUser(s, tok, id);
      QuietIsAudited(s, Some(tok), AdminRoutes.DeleteUser(s, tok, id));
    case GetMe =>
      assert Route(s, tok, req) == AuthRoutes.Me(s, tok);
      QuietIsAudited(s, Some(tok), AuthRoutes.Me(s, tok));
    case GetTickets =>
      assert Route(s, tok, req) == TicketRoutes.ListTickets(s, tok);
      QuietIsAudited(s, Some(tok), TicketRoutes.ListTickets(s, tok));
    case GetUsers =>
      assert Route(s, tok, req) == AdminRoutes.ListUsers(s, tok);
      QuietIsAudited(s, Some(tok), AdminRoutes.ListUsers(s, tok));
  }

  lemma RegisterIsAudited(s: Store, body: Body, isEmail: string -> bool, hash: string -> string)
    ensures AuditedStep(s, None, AuthRoutes.Register(s, body, isEmail, hash))
  {
  }

  /**
   * Exactly the successful ticket mutations append an audit record, exactly
   * one, naming the caller as actor and the ticket as subject; nothing else
   * changes the ticket table.
   */
  lemma TicketMutationsAreAudited(s: Store, env: Env, tok: Option<Token>, req: Request)
    ensures AuditedStep(s, tok, Handle(s, env, tok, req))
  {
    match req
    case PostRegister(body) =>
      RegisterIsAudited(s, body, env.isEmail, env.hash);
    case PostLogin(body) =>
    case _ =>
      if tok.Some? {
        RouteIsAudited(s, tok.value, req);
      }
  }

  /** A step that keeps the audit contract and only appends to the log keeps every record well-formed. */
  lemma AuditedStepKeepsShape(s: Store, tok: Option<Token>, st: Step)
    requires AuditShape(s) && AuditedStep(s, tok, st)
    requires s.audit <= st.store.audit && |st.store.audit| <= |s.audit| + 1
    ensures AuditShape(st.store)
  {
    if |st.store.audit| == |s.audit| {
      assert st.store.audit == s.audit;
    }
  }

  lemma HandlePreservesAuditShape(s: Store, env: Env, tok: Option<Token>, req: Request)
    requires AuditShape(s)
    ensures AuditShape(Handle(s, env, tok, req).store)
  {
    TicketMutationsAreAudited(s, env, tok, req);
    AuditedStepKeepsShape(s, tok, Handle(s, env, tok, req));
  }

  /** The admin routes never write the audit log and never touch a ticket. */
  lemma AdminRoutesLeaveTicketsAndAudit(s: Store, env: Env, tok: Option<Token>, req: Request)
    requires req.GetUsers? || req.PutUser? || req.DeleteUser?
    ensures Handle(s, env, tok, req).store.tickets == s.tickets
    ensures Handle(s, env, tok, req).store.audit == s.audit
  {
  }

  predicate IsForbidden(r: Response) {
    r.Fail? && r.status == Forbidden
  }

  /**
   * The authorization decision table: a request is refused with 403 exactly
   * when it carries a token and is an update of an existing ticket by someone
   * who is neither its owner nor an admin, or is a ticket delete or an admin
   * route without an admin claim.
   */
  predicate Refused(tickets: map<nat, Ticket>, tok: Option<Token>, req: Request) {
    match tok
    case None => false
    case Some(t) =>
      match req
      case PutTicket(id, _) => id in tickets && tickets[id].owner != t.sub && !IsAdmin(t)
      case DeleteTicket(_) => !IsAdmin(t)
      case GetUsers => !IsAdmin(t)
      case PutUser(_, _) => !IsAdmin(t)
      case DeleteUser(_) => !IsAdmin(t)
      case _ => false
  }

  lemma RouteForbiddenExactly(s: Store, tok: Token, req: Request)
    requires req.NeedsToken()
    ensures IsForbidden(Route(s, tok, req).response) <==> Refused(s.tickets, Some(tok), req)
  {
    match req
    case PostTicket(body) =>
    case PutTicket(id, body) =>
    case DeleteTicket(id) =>
    case GetMe =>
    case GetTickets =>
    case GetUsers =>
    case PutUser(id, body) =>
    case DeleteUser(id) =>
  }

  /** Every route answers 403 exactly as the decision table says. */
  lemma ForbiddenExactly(s: Store, env: Env, tok: Option<Token>, req: Request)
    ensures IsForbidden(Handle(s, env, tok, req).response) <==> Refused(s.tickets, tok, req)
  {
    if req.NeedsToken() && tok.Some? {
      RouteForbiddenExactly(s, tok.value, req);
    }
  }

  /**
   * Roles live in tokens: whether a request is refused with 403 does not
   * depend on the user table, so changing a stored role changes no decision
   * for a token already issued.
   */
  lemma RolesLiveInTokens(s1: Store, s2: Store, env: Env, tok: Option<Token>, req: Request)
    requires s1.tickets == s2.tickets
    ensures IsForbidden(Handle(s1, env, tok, req).response) <==> IsForbidden(Handle(s2, env, tok, req).response)
  {
    ForbiddenExactly(s1, env, tok, req);
    ForbiddenExactly(s2, env, tok, req);
  }

  /** One request as it reaches the application: collaborators, verified token if any, route. */
  datatype Call = Call(env: Env, token: Option<Token>, request: Request)

  /** The store after running `calls` in order from `s`; the audit log only grows. */
  function Run(s: Store, calls: seq<Call>): (r: Store)
    decreases |calls|
    ensures s.audit <= r.audit
    ensures |r.audit| <= |s.audit| + |calls|
  {
    if |calls| == 0 then s
    else Run(Handle(s, calls[0].env, calls[0].token, calls[0].request).store, calls[1..])
  }

  lemma {:induction false} RunPreservesInvariants(s: Store, calls: seq<Call>)
    requires Valid(s) && AuditShape(s)
    ensures Valid(Run(s, calls)) && AuditShape(Run(s, calls))
    decreases |calls|
  {
    if |calls| > 0 {
      var c := calls[0];
      HandlePreservesValid(s, c.env, c.token, c.request);
      HandlePreservesAuditShape(s, c.env, c.token, c.request);
      RunPreservesInvariants(Handle(s, c.env, c.token, c.request).store, calls[1..]);
    }
  }

  /** Every database the application can reach satisfies the key and audit invariants. */
  lemma ReachableStoresAreValid(calls: seq<Call>)
    ensures Valid(Run(EmptyStore, calls)) && AuditShape(Run(EmptyStore, calls))
  {
    RunPreservesInvariants(EmptyStore, calls);
  }

  /**
   * In any reachable database the ticket listing holds exactly the tickets
   * the caller may see: all of them for an admin claim, otherwise exactly the
   * caller's own.
   */
  lemma ReachableListingIsExact(calls: seq<Call>, tok: Token)
    ensures var s := Run(EmptyStore, calls);
      var rows := TicketRoutes.ListTickets(s, tok).response.tickets;
      && (forall k :: 0 <= k < |rows| ==> rows[k].id in s.tickets && (IsAdmin(tok) || rows[k].owner == tok.sub))
      && (forall id :: id in s.tickets && (IsAdmin(tok) || s.tickets[id].owner == tok.sub) ==> id in Ids(rows, (v: TicketView) => v.id))
  {
    ReachableStoresAreValid(calls);
  }
}
