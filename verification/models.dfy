/**
 * The persistent records (User, Ticket, AuditLog) and the store that holds
 * them. Key allocation by the database is modelled by one counter per table
 * that only grows, so a key handed out is never handed out again.
 */
module Models {
  import opened Wrappers

  /** A user row. The password is only ever held as the output of the hash function. */
  datatype User = User(username: string, email: string, passwordHash: string, role: string)

  /** A ticket row. `title` and `description` are NOT NULL; `owner` is the NOT NULL `user_id`. */
  datatype Ticket = Ticket(title: string, description: string, status: string, priority: string, owner: nat)

  /**
   * An audit_log row. `action` is NOT NULL; `actorId` and `ticketId` are plain
   * nullable references, so they may name a row that no longer exists.
   */
  datatype AuditRecord = AuditRecord(id: nat, action: string, actorId: Option<nat>, ticketId: Option<nat>, details: Option<string>)

  /** Column defaults of the ticket table. */
  const DefaultStatus := "open"
  const DefaultPriority := "medium"

  /** Builds a ticket row; a column left unset takes its default. */
  function NewTicket(title: string, description: string, owner: nat, status: Option<string>, priority: Option<string>): (t: Ticket)
    ensures t.title == title && t.description == description && t.owner == owner
    ensures status.None? ==> t.status == DefaultStatus
    ensures status.Some? ==> t.status == status.value
    ensures priority.None? ==> t.priority == DefaultPriority
    ensures priority.Some? ==> t.priority == priority.value
  {
    Ticket(title, description, status.GetOr(DefaultStatus), priority.GetOr(DefaultPriority), owner)
  }

  const CreateTicketAction := "create_ticket"
  const UpdateTicketAction := "update_ticket"
  const DeleteTicketAction := "delete_ticket"

  /** The whole database: users, tickets, the audit log in insertion order, and the next key of each table. */
  datatype Store = Store(
    users: map<nat, User>,
    tickets: map<nat, Ticket>,
    audit: seq<AuditRecord>,
    nextUserId: nat,
    nextTicketId: nat,
    nextAuditId: nat)

  /** A freshly created database; SQL keys start at 1. */
  const EmptyStore := Store(map[], map[], [], 1, 1, 1)

  /** Every key lies below its table's counter, and audit keys grow along the log (so they are unique). */
  predicate Valid(s: Store) {
    && (forall id :: id in s.users ==> id < s.nextUserId)
    && (forall id :: id in s.tickets ==> id < s.nextTicketId)
    && (forall i :: 0 <= i < |s.audit| ==> s.audit[i].id < s.nextAuditId)
    && (forall i, j :: 0 <= i < j < |s.audit| ==> s.audit[i].id < s.audit[j].id)
  }

  /** Appends the audit record a ticket route writes: no details, the next audit key. */
  function Audit(s: Store, action: string, actor: nat, ticket: nat): (r: Store)
    ensures s.audit <= r.audit && |r.audit| == |s.audit| + 1
    ensures r.audit[|s.audit|] == AuditRecord(s.nextAuditId, action, Some(actor), Some(ticket), None)
    ensures r.nextAuditId == s.nextAuditId + 1
    ensures r.users == s.users && r.tickets == s.tickets
    ensures r.nextUserId == s.nextUserId && r.nextTicketId == s.nextTicketId
  {
    s.(audit := s.audit + [AuditRecord(s.nextAuditId, action, Some(actor), Some(ticket), None)],
       nextAuditId := s.nextAuditId + 1)
  }

  /**
   * The keys in `[lo, hi)` of rows satisfying `keep`, in ascending key order:
   * a `query.filter(...).all()` over a table scanned in key order.
   */
  function KeysWhere<V>(m: map<nat, V>, keep: V -> bool, lo: nat, hi: nat): (ks: seq<nat>)
    decreases hi - lo
    ensures forall k :: 0 <= k < |ks| ==> lo <= ks[k] < hi && ks[k] in m && keep(m[ks[k]])
    ensures forall j, k :: 0 <= j < k < |ks| ==> ks[j] < ks[k]
    ensures forall id :: lo <= id < hi && id in m && keep(m[id]) ==> id in ks
  {
    if lo >= hi then []
    else
      var rest := KeysWhere(m, keep, lo + 1, hi);
      if lo in m && keep(m[lo]) then [lo] + rest else rest
  }

  /** With keys below `hi`, the keys `KeysWhere` lists from 0 are exactly the rows `keep` selects. */
  lemma KeysWhereComplete<V>(m: map<nat, V>, keep: V -> bool, hi: nat)
    requires forall id :: id in m ==> id < hi
    ensures (set k | k in KeysWhere(m, keep, 0, hi)) == (set id | id in m && keep(m[id]))
  {
  }
}
