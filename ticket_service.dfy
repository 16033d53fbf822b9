/** The ticket services (src/services/tickets.rs). Each is a guard followed by one store call.
    None of them looks at the caller: the `user` parameter is accepted and ignored, so a ticket
    operation is never checked against the board's owner. */
module TicketService {
  import opened Wrappers
  import opened Entities
  import opened Store

  /** `get_all_tickets`: exactly what the store's `find_by_board_id` yields. */
  method GetAllTickets(repo: TicketStore, user: UserContext, boardId: nat, fault: bool)
    returns (r: Result<seq<Ticket>, Error>)
    ensures fault ==> r == Failure(StoreFailure)
    ensures !fault ==> r == Success(BoardTickets(repo.Table(), boardId))
  {
    r := repo.FindByBoardId(boardId, fault);
  }

  /** What `save_ticket` does: a ticket that already has an id is refused without touching the
      store; any other is inserted, unless the store fails. */
  function SaveTicketEffect(t: TicketTable, ticket: Ticket, fault: bool, now: Timestamp): (r: (TicketTable, Outcome<Error>))
    ensures r.1.Pass? <==> ticket.id.None? && !fault
    ensures ticket.id.Some? ==> r.1 == Fail(TicketIdSet)
    ensures r.1.Fail? ==> r.0 == t
    ensures r.1.Pass? ==> r.0 == InsertTicket(t, ticket, now)
  {
    if ticket.id.Some? then (t, Fail(TicketIdSet))
    else if fault then (t, Fail(StoreFailure))
    else (InsertTicket(t, ticket, now), Pass)
  }

  method SaveTicket(repo: TicketStore, user: UserContext, ticket: Ticket, fault: bool, now: Timestamp)
    returns (r: Outcome<Error>)
    requires repo.Valid()
    modifies repo
    ensures repo.Valid()
    ensures (repo.Table(), r) == SaveTicketEffect(old(repo.Table()), ticket, fault, now)
  {
    if ticket.id.Some? {
      return Fail(TicketIdSet);
    }
    r := repo.Store(ticket, fault, now);
  }

  /** What `update_ticket` does: a ticket without an id is refused without touching the store;
      otherwise the row with that id gets the ticket's category and content (its board is not
      rewritten, and an id no row has changes nothing and still succeeds). */
  function UpdateTicketEffect(t: TicketTable, ticket: Ticket, fault: bool, now: Timestamp): (r: (TicketTable, Outcome<Error>))
    ensures r.1.Pass? <==> ticket.id.Some? && !fault
    ensures ticket.id.None? ==> r.1 == Fail(TicketIdRequired)
    ensures r.1.Fail? ==> r.0 == t
    ensures r.1.Pass? ==> r.0 == UpdateTicketRow(t, ticket.id.value, ticket.category, ticket.content, now)
  {
    if ticket.id.None? then (t, Fail(TicketIdRequired))
    else if fault then (t, Fail(StoreFailure))
    else (UpdateTicketRow(t, ticket.id.value, ticket.category, ticket.content, now), Pass)
  }

  method UpdateTicket(repo: TicketStore, user: UserContext, ticket: Ticket, fault: bool, now: Timestamp)
    returns (r: Outcome<Error>)
    requires repo.Valid()
    modifies repo
    ensures repo.Valid()
    ensures (repo.Table(), r) == UpdateTicketEffect(old(repo.Table()), ticket, fault, now)
  {
    if ticket.id.None? {
      return Fail(TicketIdRequired);
    }
    r := repo.Update(ticket, fault, now);
  }

  /** What `delete_ticket` does: "Ticket not found" when `find` yields nothing, which covers an
      already soft-deleted ticket and a failing lookup; otherwise exactly that row is soft-deleted. */
  function DeleteTicketEffect(t: TicketTable, id: nat, findFault: bool, deleteFault: bool, now: Timestamp): (r: (TicketTable, Outcome<Error>))
    ensures r.1.Pass? <==> !findFault && LiveTicket(t, id) && !deleteFault
    ensures findFault || !LiveTicket(t, id) ==> r.1 == Fail(TicketNotFound)
    ensures r.1.Fail? ==> r.0 == t
    ensures r.1.Pass? ==> r.0 == SoftDeleteTicket(t, id, now)
  {
    if findFault || FindTicket(t, id).None? then (t, Fail(TicketNotFound))
    else if deleteFault then (t, Fail(StoreFailure))
    else (SoftDeleteTicket(t, id, now), Pass)
  }

  method DeleteTicket(repo: TicketStore, user: UserContext, id: nat, findFault: bool, deleteFault: bool, now: Timestamp)
    returns (r: Outcome<Error>)
    requires repo.Valid()
    modifies repo
    ensures repo.Valid()
    ensures (repo.Table(), r) == DeleteTicketEffect(old(repo.Table()), id, findFault, deleteFault, now)
  {
    var found := repo.Find(id, findFault);
    if found.None? {
      return Fail(TicketNotFound);
    }
    r := repo.Delete(id, deleteFault, now);
  }
}
