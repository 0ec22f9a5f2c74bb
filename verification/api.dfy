/**
 * The application as one state machine: a request (with the token it carries,
 * already verified or absent) is routed to its handler, and the handler's
 * transaction is applied to the store. Properties here hold for every route.
 */
module Api {
  import opened Wrappers
  import opened Schemas
  import opened Models
  import opened Http
  import AuthRoutes
  import TicketRoutes
  import AdminRoutes

  datatype Request =
    | PostRegister(body: Body)
    | PostLogin(body: Body)
    | GetMe
    | PostTicket(body: Body)
    | GetTickets
    | PutTicket(ticketId: nat, body: Body)
    | DeleteTicket(ticketId: nat)
    | GetUsers
    | PutUser(userId: nat, body: Body)
    | DeleteUser(userId: nat)
  {
    /** Every route except register and login is behind `jwt_required`. */
    predicate NeedsToken() {
      !(PostRegister? || PostLogin?)
    }
  }

  const MissingTokenMsg := "Missing or invalid token"

  /** Routes a request; a protected route without a valid token is refused before its handler runs. */
  function Handle(s: Store, env: Env, tok: Option<Token>, req: Request): (st: Step)
    ensures req.NeedsToken() && tok.None? ==> st == Step(Fail(Unauthorized, MissingTokenMsg), s)
    ensures st.response.IsError() ==> st.store == s
    ensures s.audit <= st.store.audit
    ensures |s.audit| <= |st.store.audit| <= |s.audit| + 1
    ensures st.store.users != s.users ==> req.PostRegister? || req.PutUser? || req.DeleteUser?
    ensures st.store.tickets != s.tickets ==> req.PostTicket? || req.PutTicket? || req.DeleteTicket?
  {
    match req
    case PostRegister(body) => AuthRoutes.Register(s, body, env.isEmail, env.hash)
    case PostLogin(body) => AuthRoutes.Login(s, body, env.check)
    case _ =>
      match tok
      case None => Step(Fail(Unauthorized, MissingTokenMsg), s)
      case Some(t) => Route(s, t, req)
  }

  /** The handler of a protected route, given the caller's verified token. */
  function Route(s: Store, tok: Token, req: Request): (st: Step)
    requires req.NeedsToken()
    ensures st.response.IsError() ==> st.store == s
    ensures s.audit <= st.store.audit
    ensures |s.audit| <= |st.store.audit| <= |s.audit| + 1
    ensures st.store.users != s.users ==> req.PutUser? || req.DeleteUser?
    ensures st.store.tickets != s.tickets ==> req.PostTicket? || req.PutTicket? || req.DeleteTicket?
  {
    match req
    case GetMe => AuthRoutes.Me(s, tok)
    case PostTicket(body) => TicketRoutes.CreateTicket(s, tok, body)
    case GetTickets => TicketRoutes.ListTickets(s, tok)
    case PutTicket(id, body) => TicketRoutes.UpdateTicket(s, tok, id, body)
    case DeleteTicket(id) => TicketRoutes.DeleteTicket(s, tok, id)
    case GetUsers => AdminRoutes.ListUsers(s, tok)
    case PutUser(id, body) => AdminRoutes.UpdateUser(s, tok, id, body)
    case DeleteUser(id) => AdminRoutes.DeleteUser(s, tok, id)
  }
}
