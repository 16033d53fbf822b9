/** The board services (src/services/boards.rs): the read rule, the ownership checks of update
    and delete, board creation and the per-user listing. */
module BoardService {
  import opened Wrappers
  import opened Entities
  import opened Store
  import opened BoardViews

  /** The read rule of `get_board_by_id`: the owner may read their board, anyone may read a board
      that is not deleted. */
  predicate CanRead(createdBy: nat, deleted: bool, user: UserContext): (r: bool)
    ensures createdBy == user.userId ==> r
    ensures !deleted ==> r
    ensures createdBy != user.userId && deleted ==> !r
  {
    createdBy == user.userId || !deleted
  }

  /** What `get_board_by_id` yields: the first board `find_by_board_id` returns, if the read rule
      admits it. The entity is built by `Board::new`, so its deleted flag is always false when the
      rule is applied. */
  function GetBoardByIdEffect(t: BoardTable, user: UserContext, id: nat, fault: bool): (r: Result<BoardRow, Error>)
    ensures r.Success? ==> LiveBoard(t, id) && r.value == t.rows[id]
    ensures r.Failure? ==> r.error == BoardNotFound
  {
    if fault || !LiveBoard(t, id) then Failure(BoardNotFound)
    else if CanRead(t.rows[id].createdBy, false, user) then Success(t.rows[id])
    else Failure(BoardNotFound)
  }

  /** Any caller can read any live board, and nobody, the owner included, can read a deleted one:
      the store already drops deleted boards and the loaded entity is never deleted. */
  lemma ReadRuleAdmitsExactlyLiveBoards(t: BoardTable, user: UserContext, id: nat, fault: bool)
    ensures GetBoardByIdEffect(t, user, id, fault).Success? <==> !fault && LiveBoard(t, id)
  {
  }

  method GetBoardById(repo: BoardStore, user: UserContext, id: nat, fault: bool) returns (r: Result<Board, Error>)
    ensures r.Success? <==> GetBoardByIdEffect(repo.Table(), user, id, fault).Success?
    ensures r.Failure? ==> r.error == BoardNotFound
    ensures r.Success? ==> fresh(r.value) && id in repo.rows && Loaded(r.value, id, repo.rows[id])
  {
    var found := repo.FindByBoardId(id, fault);
    if found.Success? && |found.value| > 0 {
      var board := found.value[0];
      if CanRead(board.createdBy, board.IsDeleted(), user) {
        return Success(board);
      }
    }
    r := Failure(BoardNotFound);
  }

  /** What `save_board` does: a new live board owned by the caller, under the id the store assigns. */
  function SaveBoardEffect(t: BoardTable, user: UserContext, title: string, fault: bool, now: Timestamp): (r: (BoardTable, Result<nat, Error>))
    ensures r.1.Success? <==> !fault
    ensures r.1.Failure? ==> r.0 == t
    ensures r.1.Success? ==> r.0 == InsertBoard(t, title, user.userId, now) && r.1.value == t.nextId
  {
    if fault then (t, Failure(StoreFailure))
    else (InsertBoard(t, title, user.userId, now), Success(t.nextId))
  }

  /** The id `save_board` returns is a fresh, non-zero id now naming the new board. */
  lemma SavedBoardIsFresh(t: BoardTable, user: UserContext, title: string, fault: bool, now: Timestamp)
    requires BoardTableValid(t)
    ensures var r := SaveBoardEffect(t, user, title, fault, now);
      r.1.Success? ==>
        && r.1.value != 0 && r.1.value !in t.rows && BoardTableValid(r.0)
        && r.0.rows[r.1.value] == BoardRow(title, user.userId, now, now, false)
  {
  }

  method SaveBoard(repo: BoardStore, user: UserContext, title: string, fault: bool, now: Timestamp)
    returns (r: Result<nat, Error>)
    requires repo.Valid()
    modifies repo
    ensures repo.Valid()
    ensures (repo.Table(), r) == SaveBoardEffect(old(repo.Table()), user, title, fault, now)
  {
    var board := new Board.Create(title, user.userId, now);
    var stored := repo.Store(board, fault, now);
    if stored.Failure? {
      return Failure(stored.error);
    }
    board.id := Some(stored.value);
    r := Success(board.id.value);
  }

  /** What `update_board` does to the store: a board without an id or not owned by the caller is
      refused with the store untouched; otherwise its title is written. */
  function UpdateBoardEffect(t: BoardTable, id: Option<nat>, createdBy: nat, user: UserContext, newTitle: string,
                             fault: bool, now: Timestamp): (r: (BoardTable, Outcome<Error>))
    ensures id.None? ==> r.1 == Fail(BoardIdRequired)
    ensures id.Some? && createdBy != user.userId ==> r.1 == Fail(Unauthorized)
    ensures r.1.Pass? <==> id.Some? && createdBy == user.userId && !fault
    ensures r.1.Fail? ==> r.0 == t
    ensures r.1.Pass? ==> r.0 == UpdateBoardRow(t, id.value, newTitle, now)
  {
    if id.None? then (t, Fail(BoardIdRequired))
    else if createdBy != user.userId then (t, Fail(Unauthorized))
    else if fault then (t, Fail(StoreFailure))
    else (UpdateBoardRow(t, id.value, newTitle, now), Pass)
  }

  /** `update_board`: the entity is retitled in place before the store is written, so a failing
      store leaves the entity retitled and the table unchanged. */
  method UpdateBoard(repo: BoardStore, user: UserContext, board: Board, newTitle: string, fault: bool, now: Timestamp)
    returns (r: Outcome<Error>)
    requires repo.Valid()
    modifies repo, board
    ensures repo.Valid()
    ensures (repo.Table(), r) == UpdateBoardEffect(old(repo.Table()), old(board.id), old(board.createdBy), user, newTitle, fault, now)
    ensures old(board.id).None? || old(board.createdBy) != user.userId ==>
      board.title == old(board.title) && board.updatedAt == old(board.updatedAt)
    ensures old(board.id).Some? && old(board.createdBy) == user.userId ==>
      board.title == newTitle && board.updatedAt == now
    ensures board.id == old(board.id) && board.createdBy == old(board.createdBy)
    ensures board.createdAt == old(board.createdAt) && board.deleted == old(board.deleted)
  {
    if board.id.None? {
      return Fail(BoardIdRequired);
    }
    if board.createdBy != user.userId {
      return Fail(Unauthorized);
    }
    board.Update(newTitle, now);
    r := repo.Update(board, fault, now);
  }

  /** What `delete_board` does: "Board not found" when no row has the id (deleted rows count as
      found), "Unauthorized" for anyone but the owner, and otherwise exactly that board is
      soft-deleted. */
  function DeleteBoardEffect(t: BoardTable, user: UserContext, id: nat, findFault: bool, deleteFault: bool,
                             now: Timestamp): (r: (BoardTable, Outcome<Error>))
    ensures !findFault && id !in t.rows ==> r.1 == Fail(BoardNotFound)
    ensures !findFault && id in t.rows && t.rows[id].createdBy != user.userId ==> r.1 == Fail(Unauthorized)
    ensures r.1.Pass? <==> !findFault && id in t.rows && t.rows[id].createdBy == user.userId && !deleteFault
    ensures r.1.Fail? ==> r.0 == t
    ensures r.1.Pass? ==> r.0 == SoftDeleteBoard(t, id, now)
  {
    if findFault then (t, Fail(StoreFailure))
    else if id !in t.rows then (t, Fail(BoardNotFound))
    else if t.rows[id].createdBy != user.userId then (t, Fail(Unauthorized))
    else if deleteFault then (t, Fail(StoreFailure))
    else (SoftDeleteBoard(t, id, now), Pass)
  }

  method DeleteBoard(repo: BoardStore, user: UserContext, id: nat, findFault: bool, deleteFault: bool, now: Timestamp)
    returns (r: Outcome<Error>)
    requires repo.Valid()
    modifies repo
    ensures repo.Valid()
    ensures (repo.Table(), r) == DeleteBoardEffect(old(repo.Table()), user, id, findFault, deleteFault, now)
  {
    var found := repo.Find(id, findFault);
    if found.Failure? {
      return Fail(found.error);
    }
    if found.value.None? {
      return Fail(BoardNotFound);
    }
    var board := found.value.value;
    if board.createdBy != user.userId {
      return Fail(Unauthorized);
    }
    var deleted := repo.Delete(id, deleteFault, now);
    r := if deleted.Fail? then Fail(StoreFailure) else Pass;
  }

  /** The `GET /list` projection: one summary per board, same order, the id or 0 and the title. */
  function Summaries(boards: seq<Board>): (r: seq<BoardSummary>)
    reads boards
    ensures |r| == |boards|
    ensures forall i :: 0 <= i < |r| ==> r[i] == BoardSummary(boards[i].title, boards[i].id.GetOr(0))
  {
    if |boards| == 0 then [] else [BoardSummary(boards[0].title, boards[0].id.GetOr(0))] + Summaries(boards[1..])
  }

  /** `get_all_boards`: the caller's live boards, in id order, as `(title, id)`. A failing query
      lists nothing. */
  method GetAllBoards(repo: BoardStore, user: UserContext, fault: bool) returns (r: seq<BoardSummary>)
    requires repo.Valid()
    ensures fault ==> r == []
    ensures !fault ==> |r| == |UserBoardIds(repo.Table(), user.userId)|
    ensures !fault ==> forall i :: 0 <= i < |r| ==>
      var id := UserBoardIds(repo.Table(), user.userId)[i];
      id in repo.rows && r[i] == BoardSummary(repo.rows[id].title, id)
  {
    var found := repo.FindByUserId(user.userId, fault);
    if found.Failure? {
      return [];
    }
    r := Summaries(found.value);
  }
}
