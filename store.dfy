/** An in-memory stand-in for the Postgres tables `ticket` and `board`, with the semantics of the
    SQL statements the repositories issue (src/repos_impl/tickets.rs, src/repos_impl/boards.rs).
    Ids are a serial column: 1, 2, 3, ... in insertion order, so 0 never names a row.
    Every call that reaches the database takes a `fault` flag: when it is set the call fails
    (pool or query error) and changes nothing. */
module Store {
  import opened Wrappers
  import opened Entities

  // ---------------------------------------------------------------- tickets

  datatype TicketRow = TicketRow(
    boardId: nat,
    authorId: nat,
    category: string,
    content: string,
    createdAt: Timestamp,
    updatedAt: Timestamp,
    deleted: bool)

  datatype TicketTable = TicketTable(rows: map<nat, TicketRow>, nextId: nat)

  /** The rows are exactly the ids handed out so far: 1 .. nextId - 1. */
  ghost predicate TicketTableValid(t: TicketTable) {
    1 <= t.nextId && forall id :: id in t.rows <==> 1 <= id < t.nextId
  }

  /** A row that `WHERE id = $1 AND deleted = FALSE` selects. */
  predicate LiveTicket(t: TicketTable, id: nat) {
    id in t.rows && !t.rows[id].deleted
  }

  /** `row_to_ticket`: the entity read back from a row. */
  function RowToTicket(id: nat, row: TicketRow): (r: Ticket)
    ensures r.id == Some(id) && !r.deleted
    ensures r.boardId == row.boardId && r.authorId == row.authorId
    ensures r.category == row.category && r.content == row.content
  {
    NewTicket(Some(id), row.boardId, row.authorId, row.category, row.content, row.createdAt, row.updatedAt)
  }

  /** `find`: `SELECT * FROM ticket WHERE id = $1 AND deleted = FALSE`. */
  function FindTicket(t: TicketTable, id: nat): (r: Option<Ticket>)
    ensures r.Some? <==> LiveTicket(t, id)
    ensures r.Some? ==> r.value.id == Some(id) && !r.value.deleted
    ensures r.Some? ==> r.value.boardId == t.rows[id].boardId && r.value.authorId == t.rows[id].authorId
    ensures r.Some? ==> r.value.category == t.rows[id].category && r.value.content == t.rows[id].content
  {
    if LiveTicket(t, id) then Some(RowToTicket(id, t.rows[id])) else None
  }

  /** The live tickets of a board among the ids below `n`, in id order. */
  function TicketsBelow(t: TicketTable, boardId: nat, n: nat): seq<Ticket>
    decreases n
  {
    if n == 0 then []
    else
      var id := n - 1;
      TicketsBelow(t, boardId, n - 1)
        + if LiveTicket(t, id) && t.rows[id].boardId == boardId then [RowToTicket(id, t.rows[id])] else []
  }

  /** `find_by_board_id`: `SELECT * FROM ticket WHERE board_id = $1 AND deleted = FALSE`,
      in insertion (id) order. */
  function BoardTickets(t: TicketTable, boardId: nat): (r: seq<Ticket>)
    ensures forall x :: x in r ==>
      x.id.Some? && LiveTicket(t, x.id.value) && t.rows[x.id.value].boardId == boardId
      && x == RowToTicket(x.id.value, t.rows[x.id.value])
  {
    TicketsBelowSound(t, boardId, t.nextId);
    TicketsBelow(t, boardId, t.nextId)
  }

  /** Every ticket of `TicketsBelow` is a live row of the board below `n`, read back unchanged. */
  lemma {:induction false} TicketsBelowSound(t: TicketTable, boardId: nat, n: nat)
    ensures forall x :: x in TicketsBelow(t, boardId, n) ==>
      x.id.Some? && x.id.value < n && LiveTicket(t, x.id.value) && t.rows[x.id.value].boardId == boardId
      && x == RowToTicket(x.id.value, t.rows[x.id.value])
    decreases n
  {
    if n > 0 {
      TicketsBelowSound(t, boardId, n - 1);
    }
  }

  /** Every live row of the board below `n` is in `TicketsBelow`. */
  lemma {:induction false} TicketsBelowComplete(t: TicketTable, boardId: nat, n: nat)
    ensures forall id: nat :: id < n && LiveTicket(t, id) && t.rows[id].boardId == boardId ==>
      exists i :: 0 <= i < |TicketsBelow(t, boardId, n)| && TicketsBelow(t, boardId, n)[i].id == Some(id)
    decreases n
  {
    if n > 0 {
      TicketsBelowComplete(t, boardId, n - 1);
      var prev := TicketsBelow(t, boardId, n - 1);
      var r := TicketsBelow(t, boardId, n);
      var last := if LiveTicket(t, n - 1) && t.rows[n - 1].boardId == boardId then [RowToTicket(n - 1, t.rows[n - 1])] else [];
      assert r == prev + last;
      forall id: nat | id < n && LiveTicket(t, id) && t.rows[id].boardId == boardId
        ensures exists i :: 0 <= i < |r| && r[i].id == Some(id)
      {
        if id < n - 1 {
          var i :| 0 <= i < |prev| && prev[i].id == Some(id);
          assert r[i] == prev[i];
        } else {
          assert r[|prev|].id == Some(id);
        }
      }
    } else {
      assert TicketsBelow(t, boardId, n) == [];
    }
  }

  /** The ids of `TicketsBelow` strictly increase. */
  lemma {:induction false} TicketsBelowOrdered(t: TicketTable, boardId: nat, n: nat)
    ensures forall i, j :: 0 <= i < j < |TicketsBelow(t, boardId, n)| ==>
      TicketsBelow(t, boardId, n)[i].id.Some? && TicketsBelow(t, boardId, n)[j].id.Some?
      && TicketsBelow(t, boardId, n)[i].id.value < TicketsBelow(t, boardId, n)[j].id.value
    decreases n
  {
    if n > 0 {
      TicketsBelowOrdered(t, boardId, n - 1);
      TicketsBelowSound(t, boardId, n - 1);
      var prev := TicketsBelow(t, boardId, n - 1);
      var r := TicketsBelow(t, boardId, n);
      var last := if LiveTicket(t, n - 1) && t.rows[n - 1].boardId == boardId then [RowToTicket(n - 1, t.rows[n - 1])] else [];
      assert r == prev + last;
      forall i, j | 0 <= i < j < |r|
        ensures r[i].id.Some? && r[j].id.Some? && r[i].id.value < r[j].id.value
      {
        assert r[i] == prev[i] && prev[i] in prev;
        if j >= |prev| {
          assert r[j] == last[0];
        }
      }
    } else {
      assert TicketsBelow(t, boardId, n) == [];
    }
  }

  /** `find_by_board_id` yields exactly the board's live tickets, each once, in id order. */
  lemma BoardTicketsExactly(t: TicketTable, boardId: nat)
    requires TicketTableValid(t)
    ensures forall x :: x in BoardTickets(t, boardId) ==>
      x.id.Some? && LiveTicket(t, x.id.value) && t.rows[x.id.value].boardId == boardId
      && x == RowToTicket(x.id.value, t.rows[x.id.value])
    ensures forall id: nat :: LiveTicket(t, id) && t.rows[id].boardId == boardId ==>
      exists i :: 0 <= i < |BoardTickets(t, boardId)| && BoardTickets(t, boardId)[i].id == Some(id)
    ensures forall i, j :: 0 <= i < j < |BoardTickets(t, boardId)| ==>
      BoardTickets(t, boardId)[i].id.value < BoardTickets(t, boardId)[j].id.value
  {
    TicketsBelowSound(t, boardId, t.nextId);
    TicketsBelowComplete(t, boardId, t.nextId);
    TicketsBelowOrdered(t, boardId, t.nextId);
  }

  /** `store`: `INSERT INTO ticket (board_id, author_id, category, content)`; the row gets the next
      serial id, the current time, and `deleted = FALSE`. The ticket's own id is not written. */
  function InsertTicket(t: TicketTable, ticket: Ticket, now: Timestamp): (r: TicketTable)
    ensures TicketTableValid(t) ==> TicketTableValid(r) && t.nextId !in t.rows
    ensures r.nextId == t.nextId + 1
    ensures t.nextId in r.rows
    ensures r.rows[t.nextId] == TicketRow(ticket.boardId, ticket.authorId, ticket.category, ticket.content, now, now, false)
    ensures forall id :: id in t.rows && id != t.nextId ==> id in r.rows && r.rows[id] == t.rows[id]
  {
    var row := TicketRow(ticket.boardId, ticket.authorId, ticket.category, ticket.content, now, now, false);
    TicketTable(t.rows[t.nextId := row], t.nextId + 1)
  }

  /** `update`: `UPDATE ticket SET category, content, updated_at = NOW() WHERE id = $3`.
      It matches deleted rows too, and matching no row is not an error. */
  function UpdateTicketRow(t: TicketTable, id: nat, category: string, content: string, now: Timestamp): (r: TicketTable)
    ensures r.nextId == t.nextId && r.rows.Keys == t.rows.Keys
    ensures forall k :: k in t.rows && k != id ==> r.rows[k] == t.rows[k]
    ensures id in t.rows ==> r.rows[id] == t.rows[id].(category := category, content := content, updatedAt := now)
  {
    if id in t.rows then TicketTable(t.rows[id := t.rows[id].(category := category, content := content, updatedAt := now)], t.nextId)
    else t
  }

  /** `delete`: `UPDATE ticket SET deleted = TRUE, updated_at = NOW() WHERE id = $1`. */
  function SoftDeleteTicket(t: TicketTable, id: nat, now: Timestamp): (r: TicketTable)
    ensures r.nextId == t.nextId && r.rows.Keys == t.rows.Keys
    ensures forall k :: k in t.rows && k != id ==> r.rows[k] == t.rows[k]
    ensures id in t.rows ==> r.rows[id] == t.rows[id].(deleted := true, updatedAt := now)
  {
    if id in t.rows then TicketTable(t.rows[id := t.rows[id].(deleted := true, updatedAt := now)], t.nextId)
    else t
  }

  /** The ticket repository (`Tickets` of src/repositories/tickets.rs). */
  class TicketStore {
    var rows: map<nat, TicketRow>
    var nextId: nat

    function Table(): TicketTable
      reads this
    {
      TicketTable(rows, nextId)
    }

    ghost predicate Valid()
      reads this
    {
      TicketTableValid(Table())
    }

    constructor ()
      ensures Valid() && rows == map[]
    {
      rows := map[];
      nextId := 1;
    }

    /** A failing connection or query reads as "no such ticket". */
    method Find(id: nat, fault: bool) returns (r: Option<Ticket>)
      ensures fault ==> r.None?
      ensures !fault ==> r == FindTicket(Table(), id)
    {
      r := if fault then None else FindTicket(Table(), id);
    }

    method FindByBoardId(boardId: nat, fault: bool) returns (r: Result<seq<Ticket>, Error>)
      ensures fault ==> r == Failure(StoreFailure)
      ensures !fault ==> r == Success(BoardTickets(Table(), boardId))
    {
      r := if fault then Failure(StoreFailure) else Success(BoardTickets(Table(), boardId));
    }

    method Store(ticket: Ticket, fault: bool, now: Timestamp) returns (r: Outcome<Error>)
      requires Valid()
      modifies this
      ensures Valid()
      ensures r == if fault then Fail(StoreFailure) else Pass
      ensures Table() == if fault then old(Table()) else InsertTicket(old(Table()), ticket, now)
    {
      if fault {
        return Fail(StoreFailure);
      }
      rows := rows[nextId := TicketRow(ticket.boardId, ticket.authorId, ticket.category, ticket.content, now, now, false)];
      nextId := nextId + 1;
      r := Pass;
    }

    method Update(ticket: Ticket, fault: bool, now: Timestamp) returns (r: Outcome<Error>)
      requires Valid()
      modifies this
      ensures Valid()
      ensures ticket.id.None? ==> r == Fail(TicketIdNotSet) && Table() == old(Table())
      ensures ticket.id.Some? && fault ==> r == Fail(StoreFailure) && Table() == old(Table())
      ensures ticket.id.Some? && !fault ==>
        r == Pass && Table() == UpdateTicketRow(old(Table()), ticket.id.value, ticket.category, ticket.content, now)
    {
      if ticket.id.None? {
        return Fail(TicketIdNotSet);
      }
      if fault {
        return Fail(StoreFailure);
      }
      var id := ticket.id.value;
      if id in rows {
        rows := rows[id := rows[id].(category := ticket.category, content := ticket.content, updatedAt := now)];
      }
      r := Pass;
    }

    method Delete(id: nat, fault: bool, now: Timestamp) returns (r: Outcome<Error>)
      requires Valid()
      modifies this
      ensures Valid()
      ensures r == if fault then Fail(StoreFailure) else Pass
      ensures Table() == if fault then old(Table()) else SoftDeleteTicket(old(Table()), id, now)
    {
      if fault {
        return Fail(StoreFailure);
      }
      if id in rows {
        rows := rows[id := rows[id].(deleted := true, updatedAt := now)];
      }
      r := Pass;
    }
  }

  // ---------------------------------------------------------------- boards

  datatype BoardRow = BoardRow(
    title: string,
    createdBy: nat,
    createdAt: Timestamp,
    updatedAt: Timestamp,
    deleted: bool)

  datatype BoardTable = BoardTable(rows: map<nat, BoardRow>, nextId: nat)

  ghost predicate BoardTableValid(t: BoardTable) {
    1 <= t.nextId && forall id :: id in t.rows <==> 1 <= id < t.nextId
  }

  predicate LiveBoard(t: BoardTable, id: nat) {
    id in t.rows && !t.rows[id].deleted
  }

  /** `row_to_board`: `b` is the entity `Board::new` builds from row `id`; it is never deleted. */
  ghost predicate Loaded(b: Board, id: nat, row: BoardRow)
    reads b
  {
    b.id == Some(id) && b.title == row.title && b.createdBy == row.createdBy
    && b.createdAt == row.createdAt && b.updatedAt == row.updatedAt && !b.deleted
  }

  /** The ids of the live boards of `user` below `n`, in id order. */
  function UserBoardIdsBelow(t: BoardTable, user: nat, n: nat): seq<nat>
    decreases n
  {
    if n == 0 then []
    else
      var id := n - 1;
      UserBoardIdsBelow(t, user, n - 1)
        + if LiveBoard(t, id) && t.rows[id].createdBy == user then [id] else []
  }

  /** `find_by_user_id`: `SELECT * FROM board WHERE created_by = $1 AND deleted = false`. */
  function UserBoardIds(t: BoardTable, user: nat): (r: seq<nat>)
    ensures forall id: nat :: id in r ==> LiveBoard(t, id) && t.rows[id].createdBy == user
  {
    UserBoardIdsBelowExactly(t, user, t.nextId);
    UserBoardIdsBelow(t, user, t.nextId)
  }

  lemma {:induction false} UserBoardIdsBelowExactly(t: BoardTable, user: nat, n: nat)
    ensures forall id: nat :: id in UserBoardIdsBelow(t, user, n) <==>
      id < n && LiveBoard(t, id) && t.rows[id].createdBy == user
    ensures forall i, j :: 0 <= i < j < |UserBoardIdsBelow(t, user, n)| ==>
      UserBoardIdsBelow(t, user, n)[i] < UserBoardIdsBelow(t, user, n)[j]
  {
    if n > 0 {
      UserBoardIdsBelowExactly(t, user, n - 1);
      var prev := UserBoardIdsBelow(t, user, n - 1);
      assert forall i :: 0 <= i < |prev| ==> prev[i] in prev;
    }
  }

  /** `find_by_user_id` lists exactly the user's live boards, each once, in id order. */
  lemma UserBoardIdsExactly(t: BoardTable, user: nat)
    requires BoardTableValid(t)
    ensures forall id: nat :: id in UserBoardIds(t, user) <==> LiveBoard(t, id) && t.rows[id].createdBy == user
    ensures forall i, j :: 0 <= i < j < |UserBoardIds(t, user)| ==> UserBoardIds(t, user)[i] < UserBoardIds(t, user)[j]
  {
    UserBoardIdsBelowExactly(t, user, t.nextId);
  }

  /** `store`: `INSERT INTO board (title, created_by) ... RETURNING id`. */
  function InsertBoard(t: BoardTable, title: string, createdBy: nat, now: Timestamp): (r: BoardTable)
    ensures BoardTableValid(t) ==> BoardTableValid(r) && t.nextId !in t.rows
    ensures r.nextId == t.nextId + 1
    ensures t.nextId in r.rows && r.rows[t.nextId] == BoardRow(title, createdBy, now, now, false)
    ensures forall id :: id in t.rows && id != t.nextId ==> id in r.rows && r.rows[id] == t.rows[id]
  {
    BoardTable(t.rows[t.nextId := BoardRow(title, createdBy, now, now, false)], t.nextId + 1)
  }

  /** `update`: `UPDATE board SET title = $1, updated_at = NOW() WHERE id = $2`. */
  function UpdateBoardRow(t: BoardTable, id: nat, title: string, now: Timestamp): (r: BoardTable)
    ensures r.nextId == t.nextId && r.rows.Keys == t.rows.Keys
    ensures forall k :: k in t.rows && k != id ==> r.rows[k] == t.rows[k]
    ensures id in t.rows ==> r.rows[id] == t.rows[id].(title := title, updatedAt := now)
  {
    if id in t.rows then BoardTable(t.rows[id := t.rows[id].(title := title, updatedAt := now)], t.nextId)
    else t
  }

  /** `delete`: `UPDATE board SET deleted = TRUE, updated_at = NOW() WHERE id = $1`. */
  function SoftDeleteBoard(t: BoardTable, id: nat, now: Timestamp): (r: BoardTable)
    ensures r.nextId == t.nextId && r.rows.Keys == t.rows.Keys
    ensures forall k :: k in t.rows && k != id ==> r.rows[k] == t.rows[k]
    ensures id in t.rows ==> r.rows[id] == t.rows[id].(deleted := true, updatedAt := now)
  {
    if id in t.rows then BoardTable(t.rows[id := t.rows[id].(deleted := true, updatedAt := now)], t.nextId)
    else t
  }

  /** The board repository (`Boards` of src/repositories/boards.rs). */
  class BoardStore {
    var rows: map<nat, BoardRow>
    var nextId: nat

    function Table(): BoardTable
      reads this
    {
      BoardTable(rows, nextId)
    }

    ghost predicate Valid()
      reads this
    {
      BoardTableValid(Table())
    }

    constructor ()
      ensures Valid() && rows == map[]
    {
      rows := map[];
      nextId := 1;
    }

    /** `find`: `SELECT * FROM board WHERE id = $1`, deleted boards included. */
    method Find(id: nat, fault: bool) returns (r: Result<Option<Board>, Error>)
      ensures fault <==> r.Failure?
      ensures r.Failure? ==> r.error == StoreFailure
      ensures r.Success? ==> (r.value.Some? <==> id in rows)
      ensures r.Success? && r.value.Some? ==> fresh(r.value.value) && Loaded(r.value.value, id, rows[id])
    {
      if fault {
        return Failure(StoreFailure);
      }
      if id in rows {
        var row := rows[id];
        var b := new Board.New(Some(id), row.title, row.createdBy, row.createdAt, row.updatedAt);
        r := Success(Some(b));
      } else {
        r := Success(None);
      }
    }

    /** `find_by_board_id`: `SELECT * FROM board WHERE id = $1 AND deleted = false`. */
    method FindByBoardId(id: nat, fault: bool) returns (r: Result<seq<Board>, Error>)
      ensures fault <==> r.Failure?
      ensures r.Failure? ==> r.error == StoreFailure
      ensures r.Success? ==> |r.value| == (if LiveBoard(Table(), id) then 1 else 0)
      ensures r.Success? && |r.value| == 1 ==> fresh(r.value[0]) && Loaded(r.value[0], id, rows[id])
    {
      if fault {
        return Failure(StoreFailure);
      }
      if id in rows && !rows[id].deleted {
        var row := rows[id];
        var b := new Board.New(Some(id), row.title, row.createdBy, row.createdAt, row.updatedAt);
        r := Success([b]);
      } else {
        r := Success([]);
      }
    }

    /** `find_by_user_id`: the user's live boards as entities, in id order. */
    method FindByUserId(user: nat, fault: bool) returns (r: Result<seq<Board>, Error>)
      requires Valid()
      ensures fault <==> r.Failure?
      ensures r.Failure? ==> r.error == StoreFailure
      ensures r.Success? ==> |r.value| == |UserBoardIds(Table(), user)|
      ensures r.Success? ==> forall i :: 0 <= i < |r.value| ==>
        fresh(r.value[i]) && UserBoardIds(Table(), user)[i] in rows
        && Loaded(r.value[i], UserBoardIds(Table(), user)[i], rows[UserBoardIds(Table(), user)[i]])
    {
      if fault {
        return Failure(StoreFailure);
      }
      UserBoardIdsExactly(Table(), user);
      var found: seq<Board> := [];
      var id := 0;
      while id < nextId
        invariant 0 <= id <= nextId
        invariant |found| == |UserBoardIdsBelow(Table(), user, id)|
        invariant forall i :: 0 <= i < |found| ==>
          fresh(found[i]) && UserBoardIdsBelow(Table(), user, id)[i] in rows
          && Loaded(found[i], UserBoardIdsBelow(Table(), user, id)[i], rows[UserBoardIdsBelow(Table(), user, id)[i]])
      {
        if id in rows && !rows[id].deleted && rows[id].createdBy == user {
          var row := rows[id];
          var b := new Board.New(Some(id), row.title, row.createdBy, row.createdAt, row.updatedAt);
          found := found + [b];
        }
        id := id + 1;
      }
      r := Success(found);
    }

    /** `store`: inserts the board and returns the id the table assigned. */
    method Store(board: Board, fault: bool, now: Timestamp) returns (r: Result<nat, Error>)
      requires Valid()
      modifies this
      ensures Valid()
      ensures r == if fault then Failure(StoreFailure) else Success(old(nextId))
      ensures Table() == if fault then old(Table()) else InsertBoard(old(Table()), board.title, board.createdBy, now)
    {
      if fault {
        return Failure(StoreFailure);
      }
      r := Success(nextId);
      rows := rows[nextId := BoardRow(board.title, board.createdBy, now, now, false)];
      nextId := nextId + 1;
    }

    /** `update`: a board without an id is refused; otherwise its title is written. */
    method Update(board: Board, fault: bool, now: Timestamp) returns (r: Outcome<Error>)
      requires Valid()
      modifies this
      ensures Valid()
      ensures board.id.None? ==> r == Fail(BoardIdNotSet) && Table() == old(Table())
      ensures board.id.Some? && fault ==> r == Fail(StoreFailure) && Table() == old(Table())
      ensures board.id.Some? && !fault ==>
        r == Pass && Table() == UpdateBoardRow(old(Table()), board.id.value, board.title, now)
    {
      if board.id.None? {
        return Fail(BoardIdNotSet);
      }
      if fault {
        return Fail(StoreFailure);
      }
      var id := board.id.value;
      if id in rows {
        rows := rows[id := rows[id].(title := board.title, updatedAt := now)];
      }
      r := Pass;
    }

    method Delete(id: nat, fault: bool, now: Timestamp) returns (r: Outcome<Error>)
      requires Valid()
      modifies this
      ensures Valid()
      ensures r == if fault then Fail(StoreFailure) else Pass
      ensures Table() == if fault then old(Table()) else SoftDeleteBoard(old(Table()), id, now)
    {
      if fault {
        return Fail(StoreFailure);
      }
      if id in rows {
        rows := rows[id := rows[id].(deleted := true, updatedAt := now)];
      }
      r := Pass;
    }
  }
}
