# kpt-back boards and tickets, modelled in Dafny

kpt-back is the back end of a KPT retrospective board. A board has a title and an owner.
Its tickets each sit in one of three categories: "Keep", "Problem" and "Try".

This project models four parts of it:

- the board endpoints of `src/controllers/boards.rs`:
  - `POST /save` creates a board, or reconciles an existing board against a client snapshot;
  - `GET /data/:titleId` reads a board back as three category lists;
  - `DELETE /delete/:titleId` cascades a delete from a board to its tickets;
- the board and ticket services of `src/services/`;
- the two entities of `src/entities/`;
- an in-memory stand-in for the two Postgres tables, following the SQL the repositories issue.

Modules, one per file:

- `Wrappers` (wrappers.dfy): `Option`, `Result`, the pass/fail `Outcome`, and the service failure kinds.
- `Entities` (entities.dfy): `Ticket` is a value; `Board` is a class whose methods update its fields.
- `Store` (store.dfy): `TicketStore` and `BoardStore` are classes over a `map` of rows and a serial id counter.
  - Each store method's ensures state what its SQL statement does.
  - The writes and the ticket reads go through pure table functions; the board lookups are stated on the rows directly.
- `TicketService`, `BoardService` (ticket_service.dfy, board_service.dfy): one method per service.
  - Each state-changing method (save, update, delete) is proved equal to an `...Effect` function that gives the new table and the result.
  - `GetBoardById` succeeds exactly when `GetBoardByIdEffect` does and then returns a fresh board loaded from that row.
  - The listings have no effect function: `GetAllTickets` returns the store's `FindByBoardId` result unchanged, and `GetAllBoards` returns `Summaries` of the caller's live boards.
- `BoardViews` (boards_views.dfy): the request and response shapes.
  - A status is one of Ok, Created, BadRequest, NotFound or InternalServerError.
  - A message is a kind, not a string.
- `BoardsController` (boards_controller.dfy): the endpoints, written as methods with the source's loops.
  - Each endpoint is proved equal to a specification function of the two tables.
  - `SaveSpec` specifies `/save`, `BoardDataSpec` specifies `/data` and `DeleteSpec` specifies `/delete`.
  - The loops are specified by prefix folds: `DeletePass` and `WriteList`/`WriteLists`.
- `BoardsProperties` (boards_properties.dfy): what those functions promise, proved as lemmas.

How the environment is modelled:

- A store failure is an oracle. Every store call takes a `fault` flag.
- An endpoint takes a `Faults` record:
  - one flag per single call;
  - for calls made in a loop, the set of positions that fail.
- The clock is one `now` reading per request.

Behaviour the proofs make explicit:

- Saving with the `titleId` of someone else's live board still runs the whole ticket reconcile.
  - The board keeps its title and the answer is 500 "Unauthorized".
  - The tickets are deleted, created and rewritten as the snapshot says: `SaveByNonOwnerStillReconciles`.
- An update can rewrite any ticket row whose id the client sends, whatever board it belongs to and even if it is deleted: `UpdateReachesAnyNamedRow`.
  - Nothing in the ticket services looks at the caller.
- When the ticket fetch fails, the title has already been written: `SaveFetchFailureKeepsNewTitle`.
- A delete by someone other than the owner answers 500, but the board's tickets are soft-deleted first: `NonOwnerDeleteStillDeletesTickets`.
- The board lookup of `delete_board` does not skip deleted boards, so the owner can delete a board again and gets 200 again: `DeleteSucceedsAgain`.
- A loaded board is built by `Board::new` and so is never marked deleted.
  - The read rule "owner or not deleted" therefore admits every live board to every caller.
  - Since the query already drops deleted boards, nobody can read a deleted one, the owner included: `ReadRuleAdmitsExactlyLiveBoards`.
- An update of an unknown ticket id is not an error: the `UPDATE` matches zero rows and changes nothing.
  - `WriteOneRoutes`: the outcome depends only on the id's presence and the fault.
- A failed title update does not stop the ticket reconcile, which runs before the result is checked: `SaveByNonOwnerStillReconciles`.
  - This holds whether the owner check or the board store's write is what fails.

The service bodies call repository methods as if they returned a plain `Vec` or `Option`, while the repository traits return `Result`. The model reads each call by its evident intent:

- a failing query in `get_board_by_id` is "Board not found or access denied";
- a failing query in `get_all_boards` lists no boards;
- a failing lookup in `delete_board` is an error;
- a failing `find` of a ticket is "Ticket not found", as `find` returns `None` on error.

## Model

| member | source | states |
|---|---|---|
| Entities.NewTicket | src/entities/ticket.rs:17-36 | every field is copied from the arguments and the ticket is not deleted |
| Entities.CreateTicket | src/entities/ticket.rs:37-53 | no id, not deleted, board, author, category and content copied, created and updated at the same instant |
| Entities.Ticket.Update | src/entities/ticket.rs:55-59 | only category, content and update time change; id, board, author, creation time and deleted flag stay |
| Entities.Ticket.Id | src/entities/ticket.rs:61-63 | returns the stored id |
| Entities.Ticket.IsDeleted | src/entities/ticket.rs:65-67 | returns the stored deleted flag |
| Entities.Ticket.Delete | src/entities/ticket.rs:69-71 | the ticket reads as deleted and no other field changes |
| Entities.DeleteIsIdempotent | src/entities/ticket.rs:69-71 | deleting twice is deleting once, and the id is kept |
| Entities.Board.New | src/entities/board.rs:16-31 | every field is copied from the arguments and the board is not deleted |
| Entities.Board.Create | src/entities/board.rs:34-44 | no id, not deleted, the given title and owner, created and updated at the same instant |
| Entities.Board.Update | src/entities/board.rs:47-50 | sets the title and update time; id, owner, creation time and deleted flag stay |
| Entities.Board.Delete | src/entities/board.rs:60-63 | marks the board deleted at the new update time; id, title, owner and creation time stay |
| Entities.Board.Id | src/entities/board.rs:52-54 | returns the stored id |
| Entities.Board.Title | src/entities/board.rs:65-67 | returns the stored title |
| Entities.Board.IsDeleted | src/entities/board.rs:56-58 | returns the stored deleted flag |
| Entities.DeleteBoardTwice | src/entities/board.rs:60-63 | a second delete leaves the board as the first left it, up to the clock reading |
| Store.RowToTicket | src/repos_impl/tickets.rs:195-209 | the ticket read from a row carries its id, board, author, category and content and is not deleted |
| Store.FindTicket | src/repos_impl/tickets.rs:111-123 | a ticket is found exactly when its row exists and is not deleted; it carries that id, the row's board, author, category and content, and is not marked deleted |
| Store.BoardTicketsExactly | src/repos_impl/tickets.rs:125-136 | the board's query yields exactly the board's live tickets, each read back from its row, in strictly increasing id order |
| Store.TicketsBelowSound | src/repos_impl/tickets.rs:125-136 | below a bound, every ticket listed is a live row of the board, read back unchanged |
| Store.TicketsBelowComplete | src/repos_impl/tickets.rs:125-136 | below a bound, every live row of the board is listed |
| Store.TicketsBelowOrdered | src/repos_impl/tickets.rs:125-136 | below a bound, the listed ids strictly increase |
| Store.BoardTickets | src/repos_impl/tickets.rs:125-136 | `find_by_board_id` on the table: every ticket it returns is a live row of that board, read back through `Ticket::new` with its id |
| Store.InsertTicket | src/repos_impl/tickets.rs:138-157 | the new row takes the next serial id, the ticket's board, author, category and content, the current time, and is live; other rows stay and the table stays well formed |
| Store.UpdateTicketRow | src/repos_impl/tickets.rs:159-177 | only category, content and update time of that id change (board untouched); an unknown id changes nothing |
| Store.SoftDeleteTicket | src/repos_impl/tickets.rs:179-193 | only that id is marked deleted at the current time; ids and counter stay |
| Store.TicketStore.Find | src/repos_impl/tickets.rs:111-123 | a failing call yields nothing; otherwise the live ticket with that id, if any |
| Store.TicketStore.FindByBoardId | src/repos_impl/tickets.rs:125-136 | a failing call is an error; otherwise the board's live tickets |
| Store.TicketStore.Store | src/repos_impl/tickets.rs:138-157 | on success the table is the insert of the ticket; on failure it is unchanged |
| Store.TicketStore.Update | src/repos_impl/tickets.rs:159-177 | a ticket without an id is refused; otherwise its row is rewritten as the statement says |
| Store.TicketStore.Delete | src/repos_impl/tickets.rs:179-193 | on success the row is soft-deleted; on failure nothing changes |
| Store.UserBoardIdsBelowExactly | src/repos_impl/boards.rs:148-161 | an id is listed exactly when it is a live board of the user below the bound, in increasing order |
| Store.UserBoardIdsExactly | src/repos_impl/boards.rs:148-161 | the user's query lists exactly the user's live boards, each once, in id order |
| Store.UserBoardIds | src/repos_impl/boards.rs:148-161 | `find_by_user_id` on the table: every id it returns names a live board created by that user |
| Store.InsertBoard | src/repos_impl/boards.rs:177-190 | the new row takes the next serial id, the title, owner and current time, and is live; other rows stay |
| Store.UpdateBoardRow | src/repos_impl/boards.rs:192-208 | only title and update time of that id change; an unknown id changes nothing |
| Store.SoftDeleteBoard | src/repos_impl/boards.rs:210-223 | only that id is marked deleted at the current time |
| Store.BoardStore.Find | src/repos_impl/boards.rs:123-135 | the board with that id, deleted or not, as a fresh entity loaded from its row; a failure is an error |
| Store.BoardStore.FindByBoardId | src/repos_impl/boards.rs:163-175 | one fresh loaded board when the row is live, none otherwise |
| Store.BoardStore.FindByUserId | src/repos_impl/boards.rs:148-161 | the user's live boards as fresh loaded entities, in the order of the user's id list |
| Store.BoardStore.Store | src/repos_impl/boards.rs:177-190 | on success returns the id it assigned and the table is the insert |
| Store.BoardStore.Update | src/repos_impl/boards.rs:192-208 | a board without an id is refused; otherwise the title is written |
| Store.BoardStore.Delete | src/repos_impl/boards.rs:210-223 | on success the row is soft-deleted; on failure nothing changes |
| TicketService.GetAllTickets | src/services/tickets.rs:7-14 | exactly the store's board query result |
| TicketService.SaveTicketEffect | src/services/tickets.rs:17-26 | succeeds iff the ticket has no id and the store works; a ticket with an id is refused with the store untouched; success inserts it |
| TicketService.SaveTicket | src/services/tickets.rs:17-26 | acts on the store and answers as its effect function says |
| TicketService.UpdateTicketEffect | src/services/tickets.rs:28-37 | succeeds iff the ticket has an id and the store works; no id is refused with the store untouched; success rewrites that row |
| TicketService.UpdateTicket | src/services/tickets.rs:28-37 | acts on the store and answers as its effect function says |
| TicketService.DeleteTicketEffect | src/services/tickets.rs:39-50 | succeeds iff the ticket is live, found and deleted without failure; "Ticket not found" for a deleted or missing one; success soft-deletes exactly that id |
| TicketService.DeleteTicket | src/services/tickets.rs:39-50 | acts on the store and answers as its effect function says |
| BoardService.CanRead | src/services/boards.rs:29-33 | the owner may read any board, anyone may read a board not marked deleted, and anyone else is refused a deleted board |
| BoardService.GetBoardByIdEffect | src/services/boards.rs:21-34 | a success is the live row of that id; every failure is "Board not found" |
| BoardService.ReadRuleAdmitsExactlyLiveBoards | src/services/boards.rs:21-34 | the read succeeds iff the lookup works and the board is live, whoever asks |
| BoardService.GetBoardById | src/services/boards.rs:21-34 | succeeds exactly as the effect function does, with a fresh entity loaded from the row |
| BoardService.SaveBoardEffect | src/services/boards.rs:36-45 | succeeds iff the store works, inserting a live board of the caller and returning the id assigned |
| BoardService.SavedBoardIsFresh | src/services/boards.rs:36-45 | the returned id is non-zero, was unused, and now names the new board |
| BoardService.SaveBoard | src/services/boards.rs:36-45 | acts on the store and answers as its effect function says |
| BoardService.UpdateBoardEffect | src/services/boards.rs:47-61 | no id is "Board ID is required" and a non-owner is "Unauthorized", both with the store untouched; success iff owner and store works, writing the title |
| BoardService.UpdateBoard | src/services/boards.rs:47-61 | store as the effect function says; the entity is retitled exactly when the guards pass, with id, owner, creation time and deleted flag unchanged |
| BoardService.DeleteBoardEffect | src/services/boards.rs:63-81 | "Board not found" when no row (deleted rows count), "Unauthorized" for a non-owner, both untouched; success soft-deletes exactly that board |
| BoardService.DeleteBoard | src/services/boards.rs:63-81 | acts on the store and answers as its effect function says |
| BoardService.Summaries | src/services/boards.rs:10-16 | one summary per board, same order, title kept and id or 0 |
| BoardService.GetAllBoards | src/services/boards.rs:7-19 | the caller's live boards in id order as (title, id); a failing query lists none |
| BoardsController.ParseU64 | src/controllers/boards.rs:44-55 | a parsed titleId is below 2^64 and is digits after at most one '+' |
| BoardsController.ToDecimal | src/controllers/boards.rs:287 | a non-empty string of decimal digits |
| BoardsController.IdsOf | src/controllers/boards.rs:85-92 | the ids one list protects from deletion; `Some(0)` and `None` protect nothing, so 0 is never among them |
| BoardsController.ReceivedIds | src/controllers/boards.rs:85-92 | `received_ids` across all lists; 0 is never among them |
| BoardsController.DeletePass | src/controllers/boards.rs:95-105 | the deletion loop's effect after each iteration; it keeps the set of row ids and the id counter (deletes are soft) |
| BoardsController.DeleteMissing | src/controllers/boards.rs:95-105 | the store after the loop is the deletion pass over every fetched ticket |
| BoardsController.WriteOne | src/controllers/boards.rs:110-137 | one iteration of the save loop; it adds at most one error, never drops an earlier one, and never removes a row or lowers the id counter |
| BoardsController.WriteList | src/controllers/boards.rs:108-139 | the first n tickets of one list; at most n errors are added after the earlier ones, and no row is removed |
| BoardsController.WriteLists | src/controllers/boards.rs:108-139 | the first m lists in order; earlier errors stay a prefix, and no row is removed |
| BoardsController.Reconcile | src/controllers/boards.rs:84-139 | the deletion pass then the save loops; a reconcile never removes a row and never lowers the id counter |
| BoardsController.WriteTickets | src/controllers/boards.rs:108-139 | the store and the error list after the nested loops are the fold over every list and ticket in order |
| BoardsController.SaveSpec | src/controllers/boards.rs:34-232 | `save_board_tickets` on both tables: the response echoes the title; 400 exactly when a titleId does not parse; 201 exactly when there is no titleId and the board insert works; a 400 or 404 changes nothing |
| BoardsController.SaveBoardTickets | src/controllers/boards.rs:34-232 | both tables and the response are those of the save specification |
| BoardsController.InCategory | src/controllers/boards.rs:265-272 | each item of a category's list is {id, content} of some ticket of that category, and the list is no longer than the ticket list |
| BoardsController.Categorize | src/controllers/boards.rs:261-280 | three lists, each with id and category equal to "Keep", "Problem", "Try" in that order |
| BoardsController.Summarize | src/controllers/boards.rs:283-290 | the response id is the board id or 0, the title is the board's, the lists are the categorized tickets |
| BoardsController.BoardDataSpec | src/controllers/boards.rs:234-293 | `get_board_data` on both tables: every failure is 500; an answer is for a live board and carries its id and title |
| BoardsController.GetBoardData | src/controllers/boards.rs:234-293 | the answer is that of the read specification |
| BoardsController.DeleteSpec | src/controllers/boards.rs:295-335 | `delete_board` on both tables: a success is "Board deleted" and leaves the board marked deleted; every failure is 500; the ticket table keeps its row ids and id counter |
| BoardsController.DeleteBoard | src/controllers/boards.rs:295-335 | both tables and the answer are those of the delete specification |
| BoardsProperties.DecimalDigitsValue | src/controllers/boards.rs:287 | the digits of a number's decimal string evaluate back to the number |
| BoardsProperties.ParseToDecimal | src/controllers/boards.rs:283-290 | the project id returned by a read parses back to the board id |
| BoardsProperties.ParseAcceptsExactlyDigits | src/controllers/boards.rs:44-55 | a titleId parses iff it is digits, after at most one '+', with a value below 2^64 |
| BoardsProperties.IdsOfExactly | src/controllers/boards.rs:85-92 | the ids one list protects are exactly its non-zero Some ids |
| BoardsProperties.ReceivedIdsExactly | src/controllers/boards.rs:85-92 | the kept set is exactly the non-zero Some ids across all lists; None and 0 protect nothing |
| BoardsProperties.DeletePassFrame | src/controllers/boards.rs:95-105 | the pass only soft-deletes, and leaves every kept or unnamed row unchanged |
| BoardsProperties.DeletePassTargets | src/controllers/boards.rs:95-105 | every fetched ticket not kept whose find and delete succeed ends deleted, whatever failed elsewhere |
| BoardsProperties.WriteOneRoutes | src/controllers/boards.rs:110-137 | Some(0) is saved on the board, by the caller, in the list's category; any other id is updated by that id; a failure adds exactly one error and changes nothing |
| BoardsProperties.WriteListCounts | src/controllers/boards.rs:111-138 | over one list, one new id per created ticket and one error per failure, after the earlier errors |
| BoardsProperties.WriteListsCounts | src/controllers/boards.rs:108-139 | over all lists, one new id per created ticket and one error per failure, after the earlier errors |
| BoardsProperties.CountListZero | src/controllers/boards.rs:111-138 | no ticket of a list is of a kind iff the count of that kind is zero |
| BoardsProperties.CountListsZero | src/controllers/boards.rs:108-139 | no ticket of the snapshot is of a kind iff the count is zero |
| BoardsProperties.ErrorsIffFailures | src/controllers/boards.rs:108-139 | the error list ends empty iff no ticket of the snapshot fails |
| BoardsProperties.OnlyWritesTransitive | src/controllers/boards.rs:108-139 | two rounds of writes that keep rows compose into one |
| BoardsProperties.WriteListFrame | src/controllers/boards.rs:111-138 | one list keeps every row's board, author, creation time and deleted flag, adds live rows of the board by the caller, and leaves unnamed rows unchanged |
| BoardsProperties.WriteListsFrame | src/controllers/boards.rs:108-139 | the same over all lists; on the create path every existing row is unchanged |
| BoardsProperties.ReconcileDeletesExactlyUnsent | src/controllers/boards.rs:84-139 | with ticket deletes working, a row ends deleted iff it was deleted or was a live ticket of the board whose id the snapshot no longer carries |
| BoardsProperties.UpdateReachesAnyNamedRow | src/controllers/boards.rs:121-132 | a snapshot naming any row's id rewrites that row's category and content, whatever its board or deleted flag |
| BoardsProperties.SaveRejectsBadTitleId | src/controllers/boards.rs:42-55 | a titleId that is not a u64 answers 400 with both tables unchanged |
| BoardsProperties.SaveUnknownBoardChangesNothing | src/controllers/boards.rs:57-178 | an absent, deleted or failing board lookup answers 404 with both tables unchanged |
| BoardsProperties.SaveFetchFailureKeepsNewTitle | src/controllers/boards.rs:60-81 | a failing ticket fetch answers 500 with tickets unchanged but the new title written |
| BoardsProperties.SaveByNonOwnerStillReconciles | src/controllers/boards.rs:57-149 | when the title update fails, because the caller is not the owner ("Unauthorized") or the board store fails, the answer is 500 with that failure, the board is unchanged and the tickets are fully reconciled |
| BoardsProperties.SaveReconcileStatus | src/controllers/boards.rs:141-170 | 200 iff owner, title update and fetch succeed; then "Board and tickets updated" iff no ticket failed |
| BoardsProperties.SaveCreatesBoardAndTickets | src/controllers/boards.rs:180-229 | a failing board insert answers 500 and writes nothing; otherwise 201, the caller's new board, one new live row of it per created ticket, existing rows unchanged, and "created" iff no ticket failed |
| BoardsProperties.InCategoryAppend | src/controllers/boards.rs:265-272 | grouping keeps input order |
| BoardsProperties.InCategoryExactly | src/controllers/boards.rs:265-272 | a list holds {id, content} of exactly the tickets of its category |
| BoardsProperties.CategorizeCounts | src/controllers/boards.rs:261-280 | the three lists together hold each ticket of the three categories once, and tickets of other categories not at all |
| BoardsProperties.CategorizeExactly | src/controllers/boards.rs:261-280 | lists "Keep", "Problem", "Try" in order, each named by its category and holding exactly its tickets |
| BoardsProperties.BoardDataAnswers | src/controllers/boards.rs:234-293 | answers iff the board is live and both lookups work, for any caller, with its title, id, a project id parsing back to it and its grouped live tickets; otherwise 500 |
| BoardsProperties.DeleteAnswerFromBoardOnly | src/controllers/boards.rs:324-334 | 200 iff the board row exists, the caller owns it and its delete works; ticket failures never matter |
| BoardsProperties.DeleteCascadeTickets | src/controllers/boards.rs:305-322 | with ticket calls working, exactly the board's live tickets end deleted and all else is unchanged; a failing fetch touches no ticket |
| BoardsProperties.CascadeRow | src/controllers/boards.rs:305-322 | with no ticket call failing, one row ends deleted iff it already was or belongs to the board, and a row deleted already or of another board is left as it was |
| BoardsProperties.NonOwnerDeleteStillDeletesTickets | src/controllers/boards.rs:305-334 | a non-owner gets 500 and the board stays, yet the board's tickets are deleted |
| BoardsProperties.DeleteSucceedsAgain | src/controllers/boards.rs:324-334 | after a successful delete the owner's second delete succeeds again |

## Left out

- The Postgres tables and the bb8 connection pool are replaced by the in-memory store. Rows are never physically removed, as in the source.
- The board and ticket queries have no `ORDER BY`. The model returns rows in id (insertion) order, one order the database may choose.
- The `find_by_title` board query is not modelled: the core never calls it.
- Accounts, password hashing, sessions, bearer-token extraction, routing, CORS and server start-up are not part of this model. The caller is a given `UserContext` with a natural-number user id.
- Malformed JSON bodies and non-numeric path segments are rejected by the web framework before the handlers run. They are not modelled: a path id is a natural number.
- Error strings, the `"; "`-joined failure text and logging are not modelled.
  - A response carries a status and a message kind.
  - The ticket failures are kept as a list.
- Timestamps are one `now` value per request. `Utc::now()` calls and `NOW()` in SQL within one request read the same value.
- `async` calls run as sequential steps. Interleaving between concurrent requests, and the absence of transactions, are not modelled.
- Ids are natural numbers. The u64/i64 casts between layers are not modelled; only the u64 range of a parsed `titleId` is.
- Entities.Ticket.Update, Entities.Ticket.Delete: they take `&mut self` in Rust. Here they return the changed ticket instead of updating it in place.
  - The core never calls them, and it only moves tickets by value, so no aliasing is lost.
  - The board entity, which `update_board` does change in place, is a class.
- A store failure is a flag per call or per loop position. It is not a model of which failures a real database can produce.
- Submitting the same snapshot twice is not proved to leave the same live tickets by category and content; that would need a multiset description of the live tickets after a reconcile.
