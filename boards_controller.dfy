/** The board endpoints (src/controllers/boards.rs): saving a board snapshot (create or
    reconcile), reading a board as three category lists, and the delete cascade.
    Each endpoint is a method over the two stores, proved equal to a specification function
    of the stores' tables; the properties of those functions are in module BoardsProperties. */
module BoardsController {
  import opened Wrappers
  import opened Entities
  import opened Store
  import opened BoardViews
  import TicketService
  import BoardService

  /** Which store calls of one request fail. Single calls have a flag; calls made in a loop are
      named by their position: the index in the fetched ticket list for the deletion loops, the
      (list, ticket) index pair for the save loops. */
  datatype Faults = Faults(
    boardLookup: bool,            // find_by_board_id in get_board_by_id
    boardUpdate: bool,            // update in update_board
    boardStore: bool,             // store in save_board
    boardFind: bool,              // find in delete_board
    boardDelete: bool,            // delete in delete_board
    ticketFetch: bool,            // find_by_board_id in get_all_tickets
    ticketFind: set<nat>,         // find in delete_ticket
    ticketDelete: set<nat>,       // delete in delete_ticket
    ticketWrite: set<(nat, nat)>) // store in save_ticket, update in update_ticket

  // ---------------------------------------------------------------- titleId: `str::parse::<u64>`

  const U64Bound: nat := 0x1_0000_0000_0000_0000

  predicate IsDigit(c: char) {
    '0' <= c <= '9'
  }

  predicate AllDigits(s: string) {
    forall i :: 0 <= i < |s| ==> IsDigit(s[i])
  }

  /** The value of a string of decimal digits, most significant first. */
  function DigitsValue(s: string): nat
    requires AllDigits(s)
    decreases |s|
  {
    if |s| == 0 then 0 else DigitsValue(s[..|s| - 1]) * 10 + (s[|s| - 1] as int - '0' as int)
  }

  /** Rust's `u64::from_str`: an optional leading `+` (not on its own), then at least one decimal
      digit, and a value below 2^64. A `-` sign, a space or any other character is rejected. */
  function ParseU64(s: string): (r: Option<nat>)
    ensures r.Some? ==> r.value < U64Bound
    ensures r.Some? ==> |s| > 0 && (AllDigits(s) || (s[0] == '+' && |s| > 1 && AllDigits(s[1..])))
  {
    var digits := if |s| > 1 && s[0] == '+' then s[1..] else s;
    if |digits| == 0 || !AllDigits(digits) then None
    else if DigitsValue(digits) < U64Bound then Some(DigitsValue(digits))
    else None
  }

  /** `u64::to_string`: the decimal digits of `n` without leading zeros. */
  function ToDecimal(n: nat): (s: string)
    ensures |s| > 0 && AllDigits(s)
    decreases n
  {
    var last := ['0' + (n % 10) as char];
    if n < 10 then last else ToDecimal(n / 10) + last
  }

  // ---------------------------------------------------------------- the kept ids

  /** The ids a list of client tickets protects: every `Some(id)` with `id != 0`. */
  function IdsOf(items: seq<TicketItem>): (r: set<nat>)
    ensures 0 !in r
  {
    if |items| == 0 then {}
    else (if items[0].id.Some? && items[0].id.value != 0 then {items[0].id.value} else {}) + IdsOf(items[1..])
  }

  /** `received_ids`: the protected ids across all lists. */
  function ReceivedIds(lists: seq<List>): (r: set<nat>)
    ensures 0 !in r
  {
    if |lists| == 0 then {} else IdsOf(lists[0].tickets) + ReceivedIds(lists[1..])
  }

  // ---------------------------------------------------------------- the deletion loop

  /** The store after the first `n` iterations of a deletion loop over the fetched tickets
      (the deletion loop of `save_board_tickets`, and the ticket cascade of `delete_board` with nothing kept): each ticket with an id that is
      not kept goes through `delete_ticket`; its failure is dropped and the loop goes on. */
  function DeletePass(t: TicketTable, existing: seq<Ticket>, kept: set<nat>, findFaults: set<nat>,
                      deleteFaults: set<nat>, now: Timestamp, n: nat): (r: TicketTable)
    requires n <= |existing|
    ensures r.nextId == t.nextId && r.rows.Keys == t.rows.Keys
    decreases n
  {
    if n == 0 then t
    else
      var before := DeletePass(t, existing, kept, findFaults, deleteFaults, now, n - 1);
      var k := n - 1;
      if existing[k].id.Some? && existing[k].id.value !in kept then
        TicketService.DeleteTicketEffect(before, existing[k].id.value, k in findFaults, k in deleteFaults, now).0
      else before
  }

  method DeleteMissing(tickets: TicketStore, user: UserContext, existing: seq<Ticket>, kept: set<nat>,
                       findFaults: set<nat>, deleteFaults: set<nat>, now: Timestamp)
    requires tickets.Valid()
    modifies tickets
    ensures tickets.Valid()
    ensures tickets.Table() == DeletePass(old(tickets.Table()), existing, kept, findFaults, deleteFaults, now, |existing|)
  {
    var k := 0;
    while k < |existing|
      invariant 0 <= k <= |existing|
      invariant tickets.Valid()
      invariant tickets.Table() == DeletePass(old(tickets.Table()), existing, kept, findFaults, deleteFaults, now, k)
    {
      if existing[k].id.Some? {
        var ticketId := existing[k].id.value;
        if ticketId !in kept {
          var _ := TicketService.DeleteTicket(tickets, user, ticketId, k in findFaults, k in deleteFaults, now);
        }
      }
      k := k + 1;
    }
  }

  // ---------------------------------------------------------------- the save loops

  /** The store and the `ticket_errors` collected so far. */
  datatype Progress = Progress(table: TicketTable, errors: seq<TicketError>)

  /** One iteration of the save loops. On the create path of `save_board_tickets` every ticket is
      created; on its reconcile path a ticket with id `Some(0)` is created and any
      other, `None` included, goes to `update_ticket` with that id. A failure adds one error. */
  function WriteOne(p: Progress, creating: bool, boardId: nat, user: UserContext, category: string,
                    item: TicketItem, fault: bool, now: Timestamp): (r: Progress)
    ensures p.errors <= r.errors && |r.errors| <= |p.errors| + 1
    ensures p.table.nextId <= r.table.nextId && p.table.rows.Keys <= r.table.rows.Keys
  {
    if creating || item.id == Some(0) then
      var saved := TicketService.SaveTicketEffect(p.table, CreateTicket(boardId, user.userId, category, item.content, now), fault, now);
      Progress(saved.0, if saved.1.Pass? then p.errors
                        else p.errors + [if creating then SaveFailed(item.content, saved.1.error) else WriteFailed(item.id, saved.1.error)])
    else
      var ticket := NewTicket(item.id, boardId, user.userId, category, item.content, now, now);
      var updated := TicketService.UpdateTicketEffect(p.table, ticket, fault, now);
      Progress(updated.0, if updated.1.Fail? then p.errors + [WriteFailed(item.id, updated.1.error)] else p.errors)
  }

  /** The first `n` tickets of the list with index `li`. */
  function WriteList(p: Progress, creating: bool, boardId: nat, user: UserContext, li: nat, list: List, n: nat,
                     faults: set<(nat, nat)>, now: Timestamp): (r: Progress)
    requires n <= |list.tickets|
    ensures p.errors <= r.errors && |r.errors| <= |p.errors| + n
    ensures p.table.nextId <= r.table.nextId && p.table.rows.Keys <= r.table.rows.Keys
    decreases n
  {
    if n == 0 then p
    else
      var before := WriteList(p, creating, boardId, user, li, list, n - 1, faults, now);
      WriteOne(before, creating, boardId, user, list.category, list.tickets[n - 1], (li, n - 1) in faults, now)
  }

  /** The first `m` lists, in list order and within a list in ticket order. */
  function WriteLists(p: Progress, creating: bool, boardId: nat, user: UserContext, lists: seq<List>, m: nat,
                      faults: set<(nat, nat)>, now: Timestamp): (r: Progress)
    requires m <= |lists|
    ensures p.errors <= r.errors
    ensures p.table.nextId <= r.table.nextId && p.table.rows.Keys <= r.table.rows.Keys
    decreases m
  {
    if m == 0 then p
    else
      var before := WriteLists(p, creating, boardId, user, lists, m - 1, faults, now);
      WriteList(before, creating, boardId, user, m - 1, lists[m - 1], |lists[m - 1].tickets|, faults, now)
  }

  method WriteTickets(tickets: TicketStore, creating: bool, boardId: nat, user: UserContext, lists: seq<List>,
                      faults: set<(nat, nat)>, now: Timestamp) returns (errors: seq<TicketError>)
    requires tickets.Valid()
    modifies tickets
    ensures tickets.Valid()
    ensures Progress(tickets.Table(), errors)
         == WriteLists(Progress(old(tickets.Table()), []), creating, boardId, user, lists, |lists|, faults, now)
  {
    ghost var start := Progress(tickets.Table(), []);
    errors := [];
    var i := 0;
    while i < |lists|
      invariant 0 <= i <= |lists|
      invariant tickets.Valid()
      invariant Progress(tickets.Table(), errors) == WriteLists(start, creating, boardId, user, lists, i, faults, now)
    {
      var list := lists[i];
      ghost var before := Progress(tickets.Table(), errors);
      var j := 0;
      while j < |list.tickets|
        invariant 0 <= j <= |list.tickets|
        invariant tickets.Valid()
        invariant Progress(tickets.Table(), errors) == WriteList(before, creating, boardId, user, i, list, j, faults, now)
      {
        var item := list.tickets[j];
        var fault := (i, j) in faults;
        if creating || item.id == Some(0) {
          var newTicket := CreateTicket(boardId, user.userId, list.category, item.content, now);
          var r := TicketService.SaveTicket(tickets, user, newTicket, fault, now);
          if r.Fail? {
            errors := errors + [if creating then SaveFailed(item.content, r.error) else WriteFailed(item.id, r.error)];
          }
        } else {
          var updatedTicket := NewTicket(item.id, boardId, user.userId, list.category, item.content, now, now);
          var r := TicketService.UpdateTicket(tickets, user, updatedTicket, fault, now);
          if r.Fail? {
            errors := errors + [WriteFailed(item.id, r.error)];
          }
        }
        j := j + 1;
      }
      i := i + 1;
    }
  }

  // ---------------------------------------------------------------- POST /save

  datatype SaveOutcome = SaveOutcome(boards: BoardTable, tickets: TicketTable, response: ApiResponse)

  /** The ticket side of a reconcile: the deletion pass over the fetched tickets, then the
      save/update pass over the snapshot, starting with no errors. */
  function Reconcile(t: TicketTable, boardId: nat, user: UserContext, lists: seq<List>, faults: Faults, now: Timestamp)
    : (r: Progress)
    ensures t.nextId <= r.table.nextId && t.rows.Keys <= r.table.rows.Keys
  {
    var existing := BoardTickets(t, boardId);
    var afterDelete := DeletePass(t, existing, ReceivedIds(lists), faults.ticketFind, faults.ticketDelete, now, |existing|);
    WriteLists(Progress(afterDelete, []), false, boardId, user, lists, |lists|, faults.ticketWrite, now)
  }

  /** `save_board_tickets` on the two tables. */
  function SaveSpec(bt: BoardTable, tt: TicketTable, user: UserContext, payload: SavePayload, faults: Faults,
                    now: Timestamp): (r: SaveOutcome)
    ensures r.response.title == payload.title
    ensures r.response.status == BadRequest <==> payload.titleId.Some? && ParseU64(payload.titleId.value).None?
    ensures r.response.status == Created <==> payload.titleId.None? && !faults.boardStore
    ensures r.response.status in {BadRequest, NotFound} ==> r.boards == bt && r.tickets == tt
  {
    var title := payload.title;
    var lists := payload.projectData.lists;
    if payload.titleId.Some? then
      var parsed := ParseU64(payload.titleId.value);
      if parsed.None? then SaveOutcome(bt, tt, ApiResponse(BadRequest, TitleIdInvalid, title))
      else
        var boardId := parsed.value;
        var lookup := BoardService.GetBoardByIdEffect(bt, user, boardId, faults.boardLookup);
        if lookup.Failure? then SaveOutcome(bt, tt, ApiResponse(NotFound, BoardNotFoundMessage, title))
        else
          var updated := BoardService.UpdateBoardEffect(bt, Some(boardId), lookup.value.createdBy, user, title,
                                                        faults.boardUpdate, now);
          if faults.ticketFetch then
            SaveOutcome(updated.0, tt, ApiResponse(InternalServerError, FetchFailed(StoreFailure), title))
          else
            var done := Reconcile(tt, boardId, user, lists, faults, now);
            var response :=
              if updated.1.Fail? then ApiResponse(InternalServerError, BoardUpdateFailed(updated.1.error), title)
              else if done.errors == [] then ApiResponse(Ok, BoardAndTicketsUpdated, title)
              else ApiResponse(Ok, BoardUpdatedWithFailures(done.errors), title);
            SaveOutcome(updated.0, done.table, response)
    else
      var saved := BoardService.SaveBoardEffect(bt, user, title, faults.boardStore, now);
      if saved.1.Failure? then SaveOutcome(bt, tt, ApiResponse(InternalServerError, CreateFailed(saved.1.error), title))
      else
        var done := WriteLists(Progress(tt, []), true, saved.1.value, user, lists, |lists|, faults.ticketWrite, now);
        var message := if done.errors == [] then BoardAndTicketsCreated else BoardCreatedWithFailures(done.errors);
        SaveOutcome(saved.0, done.table, ApiResponse(Created, message, title))
  }

  method SaveBoardTickets(boards: BoardStore, tickets: TicketStore, user: UserContext, payload: SavePayload,
                          faults: Faults, now: Timestamp) returns (response: ApiResponse)
    requires boards.Valid() && tickets.Valid()
    modifies boards, tickets
    ensures boards.Valid() && tickets.Valid()
    ensures SaveOutcome(boards.Table(), tickets.Table(), response)
         == SaveSpec(old(boards.Table()), old(tickets.Table()), user, payload, faults, now)
  {
    var title := payload.title;
    var lists := payload.projectData.lists;
    if payload.titleId.Some? {
      var parsed := ParseU64(payload.titleId.value);
      if parsed.None? {
        return ApiResponse(BadRequest, TitleIdInvalid, title);
      }
      var titleId := parsed.value;
      var found := BoardService.GetBoardById(boards, user, titleId, faults.boardLookup);
      if found.Failure? {
        return ApiResponse(NotFound, BoardNotFoundMessage, title);
      }
      var board := found.value;
      var updateResult := BoardService.UpdateBoard(boards, user, board, title, faults.boardUpdate, now);
      var fetched := TicketService.GetAllTickets(tickets, user, titleId, faults.ticketFetch);
      if fetched.Failure? {
        return ApiResponse(InternalServerError, FetchFailed(fetched.error), title);
      }
      var existing := fetched.value;
      var received := ReceivedIds(lists);
      DeleteMissing(tickets, user, existing, received, faults.ticketFind, faults.ticketDelete, now);
      var ticketErrors := WriteTickets(tickets, false, titleId, user, lists, faults.ticketWrite, now);
      if updateResult.Fail? {
        return ApiResponse(InternalServerError, BoardUpdateFailed(updateResult.error), title);
      }
      if ticketErrors == [] {
        response := ApiResponse(Ok, BoardAndTicketsUpdated, title);
      } else {
        response := ApiResponse(Ok, BoardUpdatedWithFailures(ticketErrors), title);
      }
    } else {
      var saved := BoardService.SaveBoard(boards, user, title, faults.boardStore, now);
      if saved.Failure? {
        return ApiResponse(InternalServerError, CreateFailed(saved.error), title);
      }
      var boardId := saved.value;
      var ticketErrors := WriteTickets(tickets, true, boardId, user, lists, faults.ticketWrite, now);
      var message := if ticketErrors == [] then BoardAndTicketsCreated else BoardCreatedWithFailures(ticketErrors);
      response := ApiResponse(Created, message, title);
    }
  }

  // ---------------------------------------------------------------- GET /data/:titleId

  /** The fixed categories, in the order the lists are emitted. */
  const Categories: seq<string> := ["Keep", "Problem", "Try"]

  /** The tickets of one category, in input order, as `{id, content}`. */
  function InCategory(tickets: seq<Ticket>, category: string): (r: seq<TicketItem>)
    ensures |r| <= |tickets|
    ensures forall x :: x in r ==>
      exists i :: 0 <= i < |tickets| && tickets[i].category == category && x == TicketItem(tickets[i].id, tickets[i].content)
  {
    if |tickets| == 0 then []
    else
      (if tickets[0].category == category then [TicketItem(tickets[0].id, tickets[0].content)] else [])
      + InCategory(tickets[1..], category)
  }

  /** The category grouping of `get_board_data`: three lists, each with `id == category ==` its name. */
  function Categorize(tickets: seq<Ticket>): (r: seq<List>)
    ensures |r| == 3
    ensures forall k :: 0 <= k < 3 ==> r[k].id == Categories[k] && r[k].category == Categories[k]
  {
    seq(3, k requires 0 <= k < 3 => List(Categories[k], Categories[k], InCategory(tickets, Categories[k])))
  }

  /** The response `get_board_data` builds from the board and its tickets. */
  function Summarize(boardId: Option<nat>, title: string, tickets: seq<Ticket>): (r: BoardTicketSummary)
    ensures r.id == boardId.GetOr(0) && r.title == title
    ensures r.projectData.lists == Categorize(tickets)
  {
    var projectId := if boardId.Some? then Some(ToDecimal(boardId.value)) else None;
    BoardTicketSummary(title, boardId.GetOr(0), ProjectData(projectId, Categorize(tickets)))
  }

  /** `get_board_data` on the two tables: both lookup failures answer 500. */
  function BoardDataSpec(bt: BoardTable, tt: TicketTable, user: UserContext, boardId: nat, faults: Faults)
    : (r: Result<BoardTicketSummary, Status>)
    ensures r.Failure? ==> r.error == InternalServerError
    ensures r.Success? ==> LiveBoard(bt, boardId) && r.value.id == boardId && r.value.title == bt.rows[boardId].title
  {
    var lookup := BoardService.GetBoardByIdEffect(bt, user, boardId, faults.boardLookup);
    if lookup.Failure? || faults.ticketFetch then Failure(InternalServerError)
    else Success(Summarize(Some(boardId), lookup.value.title, BoardTickets(tt, boardId)))
  }

  method GetBoardData(boards: BoardStore, tickets: TicketStore, user: UserContext, titleId: nat, faults: Faults)
    returns (r: Result<BoardTicketSummary, Status>)
    ensures r == BoardDataSpec(boards.Table(), tickets.Table(), user, titleId, faults)
  {
    var found := BoardService.GetBoardById(boards, user, titleId, faults.boardLookup);
    if found.Failure? {
      return Failure(InternalServerError);
    }
    var board := found.value;
    var fetched := TicketService.GetAllTickets(tickets, user, titleId, faults.ticketFetch);
    if fetched.Failure? {
      return Failure(InternalServerError);
    }
    r := Success(Summarize(board.id, board.title, fetched.value));
  }

  // ---------------------------------------------------------------- DELETE /delete/:titleId

  datatype DeleteOutcome = DeleteOutcome(boards: BoardTable, tickets: TicketTable, result: Result<Message, Status>)

  /** `delete_board` on the two tables: the board's tickets first, best effort,
      then the board, which alone decides the answer. */
  function DeleteSpec(bt: BoardTable, tt: TicketTable, user: UserContext, boardId: nat, faults: Faults, now: Timestamp)
    : (r: DeleteOutcome)
    ensures r.result.Success? ==> r.result.value == BoardDeleted
    ensures r.result.Failure? ==> r.result.error == InternalServerError
    ensures r.tickets.nextId == tt.nextId && r.tickets.rows.Keys == tt.rows.Keys
    ensures r.result.Success? ==> boardId in r.boards.rows && r.boards.rows[boardId].deleted
  {
    var existing := BoardTickets(tt, boardId);
    var ticketsAfter :=
      if faults.ticketFetch then tt
      else DeletePass(tt, existing, {}, faults.ticketFind, faults.ticketDelete, now, |existing|);
    var deleted := BoardService.DeleteBoardEffect(bt, user, boardId, faults.boardFind, faults.boardDelete, now);
    DeleteOutcome(deleted.0, ticketsAfter, if deleted.1.Pass? then Success(BoardDeleted) else Failure(InternalServerError))
  }

  method DeleteBoard(boards: BoardStore, tickets: TicketStore, user: UserContext, titleId: nat, faults: Faults,
                     now: Timestamp) returns (r: Result<Message, Status>)
    requires boards.Valid() && tickets.Valid()
    modifies boards, tickets
    ensures boards.Valid() && tickets.Valid()
    ensures DeleteOutcome(boards.Table(), tickets.Table(), r)
         == DeleteSpec(old(boards.Table()), old(tickets.Table()), user, titleId, faults, now)
  {
    var fetched := TicketService.GetAllTickets(tickets, user, titleId, faults.ticketFetch);
    if fetched.Success? {
      DeleteMissing(tickets, user, fetched.value, {}, faults.ticketFind, faults.ticketDelete, now);
    }
    var deleted := BoardService.DeleteBoard(boards, user, titleId, faults.boardFind, faults.boardDelete, now);
    r := if deleted.Pass? then Success(BoardDeleted) else Failure(InternalServerError);
  }
}
