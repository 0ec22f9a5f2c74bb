/**
 * What crosses the HTTP boundary: the verified token a request carries, the
 * response a route returns, and the outside collaborators (email-format
 * check, password hashing) a route consults.
 */
module Http {
  import opened Wrappers
  import opened Models

  /**
   * An access token after signature verification: the subject (a user id) and
   * the optional `role` claim written into it at login.
   */
  datatype Token = Token(sub: nat, role: Option<string>)

  const AdminRole := "admin"

  /** The caller's role claim is exactly "admin"; an absent claim is not. */
  predicate IsAdmin(tok: Token) {
    tok.role == Some(AdminRole)
  }

  /**
   * Outside collaborators: `isEmail` is marshmallow's email-format check,
   * `hash` is `set_password` (salting folded in), `check` is `check_password`.
   */
  datatype Env = Env(isEmail: string -> bool, hash: string -> string, check: (string, string) -> bool)

  datatype Status = BadRequest | Unauthorized | Forbidden | NotFound | Conflict | UnprocessableEntity

  /** The user fields a response may show; there is no password field. */
  datatype UserView = UserView(id: nat, username: string, email: string, role: string)

  /** `TicketSchema().dump(ticket)` without the timestamps. */
  datatype TicketView = TicketView(id: nat, title: string, description: string, status: string, priority: string, owner: nat)

  function ViewUser(id: nat, u: User): UserView {
    UserView(id, u.username, u.email, u.role)
  }

  function ViewTicket(id: nat, t: Ticket): TicketView {
    TicketView(id, t.title, t.description, t.status, t.priority, t.owner)
  }

  /** The ids of listed rows, in listing order. */
  function Ids<V>(rows: seq<V>, id: V -> nat): seq<nat> {
    seq(|rows|, k requires 0 <= k < |rows| => id(rows[k]))
  }

  datatype Response =
    | Fail(status: Status, msg: string)
    | Invalid(status: Status, fields: set<string>)
    | Registered
    | LoggedIn(token: Token)
    | Profile(user: UserView)
    | TicketCreated(ticket: TicketView)
    | Tickets(tickets: seq<TicketView>)
    | TicketUpdated(id: nat)
    | TicketDeleted(id: nat)
    | Users(users: seq<UserView>)
    | UserUpdated
    | UserDeleted
  {
    predicate IsError() {
      Fail? || Invalid?
    }

    /** The HTTP status code the route sends with this response. */
    function Code(): nat {
      match this
      case Fail(status, _) => StatusCode(status)
      case Invalid(status, _) => StatusCode(status)
      case Registered => 201
      case TicketCreated(_) => 201
      case _ => 200
    }
  }

  function StatusCode(status: Status): nat {
    match status
    case BadRequest => 400
    case Unauthorized => 401
    case Forbidden => 403
    case NotFound => 404
    case Conflict => 409
    case UnprocessableEntity => 422
  }

  /** A route's outcome: the response and the store after the request's transaction. */
  datatype Step = Step(response: Response, store: Store)

  /**
   * The `role_required(allowed_roles)` decorator: `None` lets the request
   * through, otherwise the 403 response it returns instead.
   */
  function RoleRequired(tok: Token, allowed: set<string>, forbidden: string): (r: Option<Response>)
    ensures r.None? <==> tok.role.Some? && tok.role.value in allowed
    ensures r.Some? ==> r.value == Fail(Forbidden, forbidden) && r.value.Code() == 403
  {
    match tok.role
    case Some(role) => if role in allowed then None else Some(Fail(Forbidden, forbidden))
    case None => Some(Fail(Forbidden, forbidden))
  }
}
