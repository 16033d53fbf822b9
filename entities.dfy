/** The board and ticket entities (src/entities/board.rs, src/entities/ticket.rs). */
module Entities {
  import opened Wrappers

  /** A reading of the wall clock (`Utc::now().naive_utc()`). */
  type Timestamp = nat

  /** The authenticated caller (`UserContext` of src/request.rs). */
  datatype UserContext = UserContext(userId: nat)

  /** A ticket. Rust moves and clones it by value and the core never mutates one in place,
      so it is a value here; `Update` and `Delete` return the changed ticket. */
  datatype Ticket = Ticket(
    id: Option<nat>,
    boardId: nat,
    authorId: nat,
    category: string,
    content: string,
    createdAt: Timestamp,
    updatedAt: Timestamp,
    deleted: bool)
  {
    /** `Ticket::update`: new category and content, fresh update time, nothing else touched. */
    function Update(newCategory: string, newContent: string, now: Timestamp): (t: Ticket)
      ensures t.category == newCategory && t.content == newContent && t.updatedAt == now
      ensures t.id == id && t.boardId == boardId && t.authorId == authorId
      ensures t.createdAt == createdAt && t.deleted == deleted
    {
      this.(category := newCategory, content := newContent, updatedAt := now)
    }

    /** `Ticket::id`. */
    function Id(): (r: Option<nat>)
      ensures r == id
    {
      id
    }

    /** `Ticket::is_deleted`. */
    function IsDeleted(): (r: bool)
      ensures r <==> deleted
    {
      deleted
    }

    /** `Ticket::delete`: marks the ticket deleted and changes no other field. */
    function Delete(): (t: Ticket)
      ensures t.IsDeleted()
      ensures t.id == id && t.boardId == boardId && t.authorId == authorId
      ensures t.category == category && t.content == content
      ensures t.createdAt == createdAt && t.updatedAt == updatedAt
    {
      this.(deleted := true)
    }
  }

  /** `Ticket::new`: a ticket as read from storage, never deleted. */
  function NewTicket(id: Option<nat>, boardId: nat, authorId: nat, category: string, content: string,
                     createdAt: Timestamp, updatedAt: Timestamp): (t: Ticket)
    ensures !t.IsDeleted()
    ensures t.id == id && t.boardId == boardId && t.authorId == authorId
    ensures t.category == category && t.content == content
    ensures t.createdAt == createdAt && t.updatedAt == updatedAt
  {
    Ticket(id, boardId, authorId, category, content, createdAt, updatedAt, false)
  }

  /** `Ticket::create`: a ticket not yet stored, so without an id. */
  function CreateTicket(boardId: nat, authorId: nat, category: string, content: string, now: Timestamp): (t: Ticket)
    ensures t.id.None? && !t.IsDeleted()
    ensures t.boardId == boardId && t.authorId == authorId
    ensures t.category == category && t.content == content
    ensures t.createdAt == now && t.updatedAt == now
  {
    Ticket(None, boardId, authorId, category, content, now, now, false)
  }

  lemma DeleteIsIdempotent(t: Ticket)
    ensures t.Delete().Delete() == t.Delete()
    ensures t.Delete().Id() == t.Id()
  {
  }

  /** A board. `update_board` changes it through `&mut Board` and `save_board` assigns its id,
      so it is an object whose methods update its fields. */
  class Board {
    var id: Option<nat>
    var title: string
    var createdBy: nat
    var createdAt: Timestamp
    var updatedAt: Timestamp
    var deleted: bool

    /** `Board::new`: a board as read from storage. */
    constructor New(id: Option<nat>, title: string, createdBy: nat, createdAt: Timestamp, updatedAt: Timestamp)
      ensures this.id == id && this.title == title && this.createdBy == createdBy
      ensures this.createdAt == createdAt && this.updatedAt == updatedAt
      ensures !deleted
    {
      this.id := id;
      this.title := title;
      this.createdBy := createdBy;
      this.createdAt := createdAt;
      this.updatedAt := updatedAt;
      this.deleted := false;
    }

    /** `Board::create`: a new board, not yet stored, created and updated at the same instant. */
    constructor Create(title: string, createdBy: nat, now: Timestamp)
      ensures id.None? && !deleted
      ensures this.title == title && this.createdBy == createdBy
      ensures createdAt == now && updatedAt == now
    {
      id := None;
      this.title := title;
      this.createdBy := createdBy;
      createdAt := now;
      updatedAt := now;
      deleted := false;
    }

    /** `Board::update`: retitles the board; id, owner, creation time and deleted flag stay. */
    method Update(newTitle: string, now: Timestamp)
      modifies this
      ensures title == newTitle && updatedAt == now
      ensures id == old(id) && createdBy == old(createdBy)
      ensures createdAt == old(createdAt) && deleted == old(deleted)
    {
      title := newTitle;
      updatedAt := now;
    }

    /** `Board::delete`: soft delete; id, title, owner and creation time stay. */
    method Delete(now: Timestamp)
      modifies this
      ensures deleted && updatedAt == now
      ensures id == old(id) && title == old(title)
      ensures createdBy == old(createdBy) && createdAt == old(createdAt)
    {
      deleted := true;
      updatedAt := now;
    }

    function Id(): (r: Option<nat>)
      reads this
      ensures r == id
    {
      id
    }

    function Title(): (r: string)
      reads this
      ensures r == title
    {
      title
    }

    function IsDeleted(): (r: bool)
      reads this
      ensures r <==> deleted
    {
      deleted
    }
  }

  /** Deleting a board twice leaves it as deleting it once does (up to the clock reading). */
  method DeleteBoardTwice(b: Board, now: Timestamp)
    modifies b
    ensures b.deleted && b.updatedAt == now
    ensures b.id == old(b.id) && b.title == old(b.title)
    ensures b.createdBy == old(b.createdBy) && b.createdAt == old(b.createdAt)
  {
    b.Delete(now);
    b.Delete(now);
  }
}
