/** The `/tickets` routes: create, list, update and delete. */
module TicketRoutes {
  import opened Wrappers
  import opened Schemas
  import opened Models
  import opened Http

  const NoInputMsg := "No input data provided"
  const TicketNotFoundMsg := "Ticket not found"
  const UpdateForbiddenMsg := "Forbidden: You can only update your own tickets"
  /** The message of this file's `role_required` decorator. */
  const ResourceForbiddenMsg := "Forbidden: You do not have access to this resource"

  /** The ticket fields an update may set. */
  const PatchableFields: set<string> := {"title", "description", "priority", "status"}

  /** `POST /tickets`: the owner is the token's subject, never a client field. */
  function CreateTicket(s: Store, tok: Token, body: Body): (st: Step)
    ensures body == map[] ==> st == Step(Fail(BadRequest, NoInputMsg), s)
    ensures body != map[] && LoadTicket(body).Err? ==>
      st == Step(Invalid(UnprocessableEntity, LoadTicket(body).error), s)
    ensures st.response.TicketCreated? <==> body != map[] && LoadTicket(body).Ok?
    ensures st.response.TicketCreated? ==>
      var id := s.nextTicketId;
      var input := LoadTicket(body).value;
      && st.store.tickets == s.tickets[id := Ticket(input.title, input.description, DefaultStatus, input.priority, tok.sub)]
      && st.store.tickets[id].owner == tok.sub
      && st.store.tickets[id].status == "open"
      && st.store.audit == s.audit + [AuditRecord(s.nextAuditId, CreateTicketAction, Some(tok.sub), Some(id), None)]
      && st.store.users == s.users
      && st.store.nextTicketId == id + 1
      && st.store.nextUserId == s.nextUserId
      && st.store.nextAuditId == s.nextAuditId + 1
      && st.response.ticket == ViewTicket(id, st.store.tickets[id])
      && (Valid(s) ==> id !in s.tickets)
    ensures st.response.IsError() ==> st.store == s
  {
    if body == map[] then Step(Fail(BadRequest, NoInputMsg), s)
    else
      match LoadTicket(body)
      case Err(errors) => Step(Invalid(UnprocessableEntity, errors), s)
      case Ok(input) =>
        var id := s.nextTicketId;
        var ticket := NewTicket(input.title, input.description, tok.sub, None, Some(input.priority));
        var s1 := s.(tickets := s.tickets[id := ticket], nextTicketId := id + 1);
        Step(TicketCreated(ViewTicket(id, ticket)), Audit(s1, CreateTicketAction, tok.sub, id))
  }

  /** The caller may see this ticket in a listing. */
  predicate Visible(tok: Token, t: Ticket) {
    IsAdmin(tok) || t.owner == tok.sub
  }

  /** `GET /tickets`: every ticket for an admin claim, otherwise the caller's own, in key order. */
  function ListTickets(s: Store, tok: Token): (st: Step)
    ensures st.store == s
    ensures st.response.Tickets?
    ensures forall k :: 0 <= k < |st.response.tickets| ==>
      var v := st.response.tickets[k];
      && v.id in s.tickets
      && v == ViewTicket(v.id, s.tickets[v.id])
      && (IsAdmin(tok) || v.owner == tok.sub)
    ensures forall j, k :: 0 <= j < k < |st.response.tickets| ==> st.response.tickets[j].id < st.response.tickets[k].id
    ensures Valid(s) ==> forall id :: id in s.tickets && Visible(tok, s.tickets[id]) ==>
      id in Ids(st.response.tickets, (v: TicketView) => v.id)
  {
    var ks := KeysWhere(s.tickets, (t: Ticket) => Visible(tok, t), 0, s.nextTicketId);
    var rows := seq(|ks|, k requires 0 <= k < |ks| => ViewTicket(ks[k], s.tickets[ks[k]]));
    assert Ids(rows, (v: TicketView) => v.id) == ks;
    Step(Tickets(rows), s)
  }

  /** The if-chain of `update_ticket`: each whitelisted key present in the body overwrites its column. */
  function Patch(t: Ticket, body: Body): (p: Ticket)
    ensures p.title == (if "title" in body then body["title"] else t.title)
    ensures p.description == (if "description" in body then body["description"] else t.description)
    ensures p.priority == (if "priority" in body then body["priority"] else t.priority)
    ensures p.status == (if "status" in body then body["status"] else t.status)
    ensures p.owner == t.owner
  {
    var t1 := if "title" in body then t.(title := body["title"]) else t;
    var t2 := if "description" in body then t1.(description := body["description"]) else t1;
    var t3 := if "priority" in body then t2.(priority := body["priority"]) else t2;
    if "status" in body then t3.(status := body["status"]) else t3
  }

  /** `PUT /tickets/<id>`: existence is checked before ownership; the body is not validated. */
  function UpdateTicket(s: Store, tok: Token, id: nat, body: Body): (st: Step)
    ensures id !in s.tickets ==> st == Step(Fail(NotFound, TicketNotFoundMsg), s)
    ensures id in s.tickets && s.tickets[id].owner != tok.sub && !IsAdmin(tok) ==>
      st == Step(Fail(Forbidden, UpdateForbiddenMsg), s)
    ensures st.response.TicketUpdated? <==> id in s.tickets && (s.tickets[id].owner == tok.sub || IsAdmin(tok))
    ensures st.response.TicketUpdated? ==>
      && st.response.id == id
      && st.store.tickets == s.tickets[id := Patch(s.tickets[id], body)]
      && st.store.tickets[id].owner == s.tickets[id].owner
      && st.store.audit == s.audit + [AuditRecord(s.nextAuditId, UpdateTicketAction, Some(tok.sub), Some(id), None)]
      && st.store.users == s.users
      && st.store.nextTicketId == s.nextTicketId
      && st.store.nextUserId == s.nextUserId
      && st.store.nextAuditId == s.nextAuditId + 1
    ensures st.response.IsError() ==> st.store == s
  {
    if id !in s.tickets then Step(Fail(NotFound, TicketNotFoundMsg), s)
    else
      var ticket := s.tickets[id];
      if ticket.owner != tok.sub && !IsAdmin(tok) then Step(Fail(Forbidden, UpdateForbiddenMsg), s)
      else
        var s1 := s.(tickets := s.tickets[id := Patch(ticket, body)]);
        Step(TicketUpdated(id), Audit(s1, UpdateTicketAction, tok.sub, id))
  }

  /** `DELETE /tickets/<id>`: the role gate runs before the existence check. */
  function DeleteTicket(s: Store, tok: Token, id: nat): (st: Step)
    ensures !IsAdmin(tok) ==> st == Step(Fail(Forbidden, ResourceForbiddenMsg), s)
    ensures IsAdmin(tok) && id !in s.tickets ==> st == Step(Fail(NotFound, TicketNotFoundMsg), s)
    ensures st.response.TicketDeleted? <==> IsAdmin(tok) && id in s.tickets
    ensures st.response.TicketDeleted? ==>
      && st.response.id == id
      && st.store.tickets == s.tickets - {id}
      && id !in st.store.tickets
      && st.store.audit == s.audit + [AuditRecord(s.nextAuditId, DeleteTicketAction, Some(tok.sub), Some(id), None)]
      && st.store.users == s.users
      && st.store.nextTicketId == s.nextTicketId
      && st.store.nextUserId == s.nextUserId
      && st.store.nextAuditId == s.nextAuditId + 1
    ensures st.response.IsError() ==> st.store == s
  {
    match RoleRequired(tok, {AdminRole}, ResourceForbiddenMsg)
    case Some(refusal) => Step(refusal, s)
    case None =>
      if id !in s.tickets then Step(Fail(NotFound, TicketNotFoundMsg), s)
      else
        var s1 := s.(tickets := s.tickets - {id});
        Step(TicketDeleted(id), Audit(s1, DeleteTicketAction, tok.sub, id))
  }
}
