/** What the board endpoints promise, proved on the specification functions of
    module BoardsController. */
module BoardsProperties {
  import opened Wrappers
  import opened Entities
  import opened Store
  import opened BoardViews
  import opened BoardsController

  // ---------------------------------------------------------------- titleId

  /** `to_string` then the digit value gives the number back. */
  lemma {:induction false} DecimalDigitsValue(n: nat)
    ensures DigitsValue(ToDecimal(n)) == n
    decreases n
  {
    var s := ToDecimal(n);
    if n >= 10 {
      DecimalDigitsValue(n / 10);
      assert s[..|s| - 1] == ToDecimal(n / 10);
    }
  }

  /** The id `get_board_data` puts in `projectData.id` parses back to the board id, so a client
      that echoes it as `titleId` names the same board. */
  lemma ParseToDecimal(n: nat)
    requires n < U64Bound
    ensures ParseU64(ToDecimal(n)) == Some(n)
  {
    DecimalDigitsValue(n);
  }

  /** A `titleId` of decimal digits (after at most one `+`) parses to its value when it fits in 64
      bits, and nothing else parses. */
  lemma ParseAcceptsExactlyDigits(s: string)
    ensures ParseU64(s).Some? <==>
      (|s| > 0 && AllDigits(s) && DigitsValue(s) < U64Bound)
      || (|s| > 1 && s[0] == '+' && AllDigits(s[1..]) && DigitsValue(s[1..]) < U64Bound)
    ensures |s| > 0 && AllDigits(s) && DigitsValue(s) < U64Bound ==> ParseU64(s) == Some(DigitsValue(s))
  {
  }

  // ---------------------------------------------------------------- the kept ids

  lemma {:induction false} IdsOfExactly(items: seq<TicketItem>, id: nat)
    ensures id in IdsOf(items) <==> id != 0 && exists j :: 0 <= j < |items| && items[j].id == Some(id)
    decreases |items|
  {
    if |items| > 0 {
      IdsOfExactly(items[1..], id);
      if id != 0 && exists j :: 0 <= j < |items| && items[j].id == Some(id) {
        var j :| 0 <= j < |items| && items[j].id == Some(id);
        if j > 0 {
          assert items[1..][j - 1] == items[j];
        }
      }
      if exists j :: 0 <= j < |items[1..]| && items[1..][j].id == Some(id) {
        var j :| 0 <= j < |items[1..]| && items[1..][j].id == Some(id);
        assert items[j + 1] == items[1..][j];
      }
    }
  }

  /** The kept ids are exactly the non-zero ids the snapshot carries, in any list: `None` and
      `Some(0)` protect nothing. */
  lemma {:induction false} ReceivedIdsExactly(lists: seq<List>, id: nat)
    ensures id in ReceivedIds(lists) <==>
      id != 0 && exists i, j :: 0 <= i < |lists| && 0 <= j < |lists[i].tickets| && lists[i].tickets[j].id == Some(id)
    decreases |lists|
  {
    if |lists| > 0 {
      ReceivedIdsExactly(lists[1..], id);
      IdsOfExactly(lists[0].tickets, id);
      if id != 0 && exists i, j :: 0 <= i < |lists| && 0 <= j < |lists[i].tickets| && lists[i].tickets[j].id == Some(id) {
        var i, j :| 0 <= i < |lists| && 0 <= j < |lists[i].tickets| && lists[i].tickets[j].id == Some(id);
        if i > 0 {
          assert lists[1..][i - 1] == lists[i];
        }
      }
      if exists i, j :: 0 <= i < |lists[1..]| && 0 <= j < |lists[1..][i].tickets| && lists[1..][i].tickets[j].id == Some(id) {
        var i, j :| 0 <= i < |lists[1..]| && 0 <= j < |lists[1..][i].tickets| && lists[1..][i].tickets[j].id == Some(id);
        assert lists[i + 1] == lists[1..][i];
      }
    }
  }

  // ---------------------------------------------------------------- the deletion pass

  /** `r` is `t` with some rows soft-deleted at `now`: same ids, and every row either unchanged or
      marked deleted with the new update time. */
  ghost predicate OnlySoftDeletes(t: TicketTable, r: TicketTable, now: Timestamp) {
    && r.nextId == t.nextId
    && r.rows.Keys == t.rows.Keys
    && forall id :: id in t.rows ==>
         r.rows[id] == t.rows[id] || r.rows[id] == t.rows[id].(deleted := true, updatedAt := now)
  }

  /** The deletion pass never inserts, never rewrites content, and never undeletes; it leaves alone
      every row that is kept or that no fetched ticket names. */
  lemma {:induction false} DeletePassFrame(t: TicketTable, existing: seq<Ticket>, kept: set<nat>, findFaults: set<nat>,
                                           deleteFaults: set<nat>, now: Timestamp, n: nat)
    requires n <= |existing|
    ensures OnlySoftDeletes(t, DeletePass(t, existing, kept, findFaults, deleteFaults, now, n), now)
    ensures forall id :: id in t.rows && (id in kept || forall k :: 0 <= k < n ==> existing[k].id != Some(id)) ==>
      DeletePass(t, existing, kept, findFaults, deleteFaults, now, n).rows[id] == t.rows[id]
    decreases n
  {
    if n > 0 {
      DeletePassFrame(t, existing, kept, findFaults, deleteFaults, now, n - 1);
    }
  }

  /** Every fetched ticket whose id is not kept and whose find and delete both succeed ends
      deleted, whatever the outcome of the other iterations. */
  lemma {:induction false} DeletePassTargets(t: TicketTable, existing: seq<Ticket>, kept: set<nat>, findFaults: set<nat>,
                                             deleteFaults: set<nat>, now: Timestamp, n: nat)
    requires n <= |existing|
    ensures forall k :: 0 <= k < n && existing[k].id.Some? && existing[k].id.value in t.rows
                        && existing[k].id.value !in kept && k !in findFaults && k !in deleteFaults ==>
      var r := DeletePass(t, existing, kept, findFaults, deleteFaults, now, n);
      existing[k].id.value in r.rows && r.rows[existing[k].id.value].deleted
    decreases n
  {
    if n > 0 {
      DeletePassTargets(t, existing, kept, findFaults, deleteFaults, now, n - 1);
      DeletePassFrame(t, existing, kept, findFaults, deleteFaults, now, n - 1);
    }
  }

  // ---------------------------------------------------------------- the save loops

  /** What one iteration of the save loops amounts to, read off the snapshot alone. */
  datatype StepKind = Inserted | Updated | Failed

  /** A new row for the create path and for `Some(0)`, unless the store fails; an update for any
      other id, except that `None` is always refused and a failing store refuses any update. */
  function Kind(creating: bool, item: TicketItem, fault: bool): StepKind {
    if creating || item.id == Some(0) then (if fault then Failed else Inserted)
    else if item.id.None? || fault then Failed
    else Updated
  }

  /** The `ticket_errors` entry of a failed iteration. */
  function FailureOf(creating: bool, item: TicketItem): TicketError {
    if creating then SaveFailed(item.content, StoreFailure)
    else WriteFailed(item.id, if item.id.None? then TicketIdRequired else StoreFailure)
  }

  /** One iteration: `save_ticket` of a new ticket on the board, by the caller, in the list's
      category; `update_ticket` by the id the client sent; or one more error and no change. */
  lemma WriteOneRoutes(p: Progress, creating: bool, boardId: nat, user: UserContext, category: string,
                       item: TicketItem, fault: bool, now: Timestamp)
    ensures var q := WriteOne(p, creating, boardId, user, category, item, fault, now);
      match Kind(creating, item, fault)
      case Inserted =>
        q.errors == p.errors
        && q.table == InsertTicket(p.table, CreateTicket(boardId, user.userId, category, item.content, now), now)
      case Updated =>
        q.errors == p.errors && q.table == UpdateTicketRow(p.table, item.id.value, category, item.content, now)
      case Failed =>
        q.errors == p.errors + [FailureOf(creating, item)] && q.table == p.table
  {
  }

  /** How many of the first `n` tickets of list `li` are of the given kind. */
  function CountList(creating: bool, li: nat, list: List, n: nat, faults: set<(nat, nat)>, kind: StepKind): nat
    requires n <= |list.tickets|
    decreases n
  {
    if n == 0 then 0
    else CountList(creating, li, list, n - 1, faults, kind)
         + if Kind(creating, list.tickets[n - 1], (li, n - 1) in faults) == kind then 1 else 0
  }

  /** How many tickets of the first `m` lists are of the given kind. */
  function CountLists(creating: bool, lists: seq<List>, m: nat, faults: set<(nat, nat)>, kind: StepKind): nat
    requires m <= |lists|
    decreases m
  {
    if m == 0 then 0
    else CountLists(creating, lists, m - 1, faults, kind) + CountList(creating, m - 1, lists[m - 1], |lists[m - 1].tickets|, faults, kind)
  }

  lemma {:induction false} WriteListCounts(p: Progress, creating: bool, boardId: nat, user: UserContext, li: nat, list: List,
                                           n: nat, faults: set<(nat, nat)>, now: Timestamp)
    requires n <= |list.tickets|
    ensures var q := WriteList(p, creating, boardId, user, li, list, n, faults, now);
      && q.table.nextId == p.table.nextId + CountList(creating, li, list, n, faults, Inserted)
      && |q.errors| == |p.errors| + CountList(creating, li, list, n, faults, Failed)
      && q.errors[..|p.errors|] == p.errors
    decreases n
  {
    if n > 0 {
      WriteListCounts(p, creating, boardId, user, li, list, n - 1, faults, now);
      var before := WriteList(p, creating, boardId, user, li, list, n - 1, faults, now);
      WriteOneRoutes(before, creating, boardId, user, list.category, list.tickets[n - 1], (li, n - 1) in faults, now);
    }
  }

  /** Each created ticket takes exactly one new id and each failure adds exactly one entry to
      `ticket_errors`, after the entries already there. */
  lemma {:induction false} WriteListsCounts(p: Progress, creating: bool, boardId: nat, user: UserContext, lists: seq<List>,
                                            m: nat, faults: set<(nat, nat)>, now: Timestamp)
    requires m <= |lists|
    ensures var q := WriteLists(p, creating, boardId, user, lists, m, faults, now);
      && q.table.nextId == p.table.nextId + CountLists(creating, lists, m, faults, Inserted)
      && |q.errors| == |p.errors| + CountLists(creating, lists, m, faults, Failed)
      && q.errors[..|p.errors|] == p.errors
    decreases m
  {
    if m > 0 {
      WriteListsCounts(p, creating, boardId, user, lists, m - 1, faults, now);
      var before := WriteLists(p, creating, boardId, user, lists, m - 1, faults, now);
      WriteListCounts(before, creating, boardId, user, m - 1, lists[m - 1], |lists[m - 1].tickets|, faults, now);
    }
  }

  lemma {:induction false} CountListZero(creating: bool, li: nat, list: List, n: nat, faults: set<(nat, nat)>, kind: StepKind)
    requires n <= |list.tickets|
    ensures CountList(creating, li, list, n, faults, kind) == 0 <==>
      forall j :: 0 <= j < n ==> Kind(creating, list.tickets[j], (li, j) in faults) != kind
    decreases n
  {
    if n > 0 {
      CountListZero(creating, li, list, n - 1, faults, kind);
    }
  }

  lemma {:induction false} CountListsZero(creating: bool, lists: seq<List>, m: nat, faults: set<(nat, nat)>, kind: StepKind)
    requires m <= |lists|
    ensures CountLists(creating, lists, m, faults, kind) == 0 <==>
      forall i, j :: 0 <= i < m && 0 <= j < |lists[i].tickets| ==> Kind(creating, lists[i].tickets[j], (i, j) in faults) != kind
    decreases m
  {
    if m > 0 {
      CountListsZero(creating, lists, m - 1, faults, kind);
      CountListZero(creating, m - 1, lists[m - 1], |lists[m - 1].tickets|, faults, kind);
    }
  }

  /** No ticket of the snapshot fails. */
  predicate AllWritten(creating: bool, lists: seq<List>, faults: set<(nat, nat)>) {
    forall i, j :: 0 <= i < |lists| && 0 <= j < |lists[i].tickets| ==> Kind(creating, lists[i].tickets[j], (i, j) in faults) != Failed
  }

  /** `ticket_errors` ends empty exactly when no ticket of the snapshot fails. */
  lemma ErrorsIffFailures(t: TicketTable, creating: bool, boardId: nat, user: UserContext, lists: seq<List>,
                          faults: set<(nat, nat)>, now: Timestamp)
    ensures WriteLists(Progress(t, []), creating, boardId, user, lists, |lists|, faults, now).errors == []
        <==> AllWritten(creating, lists, faults)
  {
    WriteListsCounts(Progress(t, []), creating, boardId, user, lists, |lists|, faults, now);
    CountListsZero(creating, lists, |lists|, faults, Failed);
  }

  /** What the save loops may do to the ticket table: rows keep their board, author, creation time
      and deleted flag (only category, content and update time are rewritten), and every new row
      is a live ticket of `boardId` by `authorId` under a fresh id. */
  ghost predicate OnlyWrites(t: TicketTable, r: TicketTable, boardId: nat, authorId: nat) {
    && TicketTableValid(r)
    && t.nextId <= r.nextId
    && (forall id :: id in t.rows ==>
          && id in r.rows
          && r.rows[id].boardId == t.rows[id].boardId && r.rows[id].authorId == t.rows[id].authorId
          && r.rows[id].createdAt == t.rows[id].createdAt && r.rows[id].deleted == t.rows[id].deleted)
    && (forall id :: id in r.rows && id !in t.rows ==>
          t.nextId <= id && r.rows[id].boardId == boardId && r.rows[id].authorId == authorId && !r.rows[id].deleted)
  }

  lemma OnlyWritesTransitive(t: TicketTable, m: TicketTable, r: TicketTable, boardId: nat, authorId: nat)
    requires TicketTableValid(t)
    requires OnlyWrites(t, m, boardId, authorId) && OnlyWrites(m, r, boardId, authorId)
    ensures OnlyWrites(t, r, boardId, authorId)
  {
    forall id | id in r.rows && id !in t.rows
      ensures t.nextId <= id && r.rows[id].boardId == boardId && r.rows[id].authorId == authorId && !r.rows[id].deleted
    {
      if id in m.rows {
        assert t.nextId <= id;
      } else {
        assert m.nextId <= id;
      }
    }
  }

  lemma {:induction false} WriteListFrame(p: Progress, creating: bool, boardId: nat, user: UserContext, li: nat, list: List,
                                          n: nat, faults: set<(nat, nat)>, now: Timestamp)
    requires n <= |list.tickets|
    requires TicketTableValid(p.table)
    ensures OnlyWrites(p.table, WriteList(p, creating, boardId, user, li, list, n, faults, now).table, boardId, user.userId)
    ensures forall id :: id in p.table.rows && (creating || forall j :: 0 <= j < n ==> list.tickets[j].id != Some(id)) ==>
      WriteList(p, creating, boardId, user, li, list, n, faults, now).table.rows[id] == p.table.rows[id]
    decreases n
  {
    if n > 0 {
      WriteListFrame(p, creating, boardId, user, li, list, n - 1, faults, now);
      var before := WriteList(p, creating, boardId, user, li, list, n - 1, faults, now);
      WriteOneRoutes(before, creating, boardId, user, list.category, list.tickets[n - 1], (li, n - 1) in faults, now);
      var after := WriteList(p, creating, boardId, user, li, list, n, faults, now);
      assert OnlyWrites(before.table, after.table, boardId, user.userId);
      OnlyWritesTransitive(p.table, before.table, after.table, boardId, user.userId);
    }
  }

  /** The save loops never delete or undelete, never move a ticket to another board and never
      change its author; a row they leave alone is one the snapshot does not name (on the create
      path, every existing row). */
  lemma {:induction false} WriteListsFrame(p: Progress, creating: bool, boardId: nat, user: UserContext, lists: seq<List>,
                                           m: nat, faults: set<(nat, nat)>, now: Timestamp)
    requires m <= |lists|
    requires TicketTableValid(p.table)
    ensures OnlyWrites(p.table, WriteLists(p, creating, boardId, user, lists, m, faults, now).table, boardId, user.userId)
    ensures forall id :: id in p.table.rows
                         && (creating || forall i, j :: 0 <= i < m && 0 <= j < |lists[i].tickets| ==> lists[i].tickets[j].id != Some(id)) ==>
      WriteLists(p, creating, boardId, user, lists, m, faults, now).table.rows[id] == p.table.rows[id]
    decreases m
  {
    if m > 0 {
      WriteListsFrame(p, creating, boardId, user, lists, m - 1, faults, now);
      var before := WriteLists(p, creating, boardId, user, lists, m - 1, faults, now);
      WriteListFrame(before, creating, boardId, user, m - 1, lists[m - 1], |lists[m - 1].tickets|, faults, now);
      var after := WriteLists(p, creating, boardId, user, lists, m, faults, now);
      OnlyWritesTransitive(p.table, before.table, after.table, boardId, user.userId);
    }
  }

  // ---------------------------------------------------------------- reconcile

  /** With every ticket find and delete succeeding, a reconcile leaves a row deleted exactly when
      it was deleted already or it was a live ticket of the board whose id the snapshot no longer
      carries. Tickets of other boards are never deleted; ids are never reused. */
  lemma ReconcileDeletesExactlyUnsent(tt: TicketTable, boardId: nat, user: UserContext, lists: seq<List>,
                                      faults: Faults, now: Timestamp)
    requires TicketTableValid(tt)
    requires faults.ticketFind == {} && faults.ticketDelete == {}
    ensures var r := Reconcile(tt, boardId, user, lists, faults, now).table;
      forall id :: id in tt.rows ==>
        id in r.rows
        && (r.rows[id].deleted <==> tt.rows[id].deleted || (tt.rows[id].boardId == boardId && id !in ReceivedIds(lists)))
  {
    var existing := BoardTickets(tt, boardId);
    var kept := ReceivedIds(lists);
    var afterDelete := DeletePass(tt, existing, kept, faults.ticketFind, faults.ticketDelete, now, |existing|);
    BoardTicketsExactly(tt, boardId);
    DeletePassFrame(tt, existing, kept, faults.ticketFind, faults.ticketDelete, now, |existing|);
    DeletePassTargets(tt, existing, kept, faults.ticketFind, faults.ticketDelete, now, |existing|);
    assert TicketTableValid(afterDelete);
    WriteListsFrame(Progress(afterDelete, []), false, boardId, user, lists, |lists|, faults.ticketWrite, now);
    var r := Reconcile(tt, boardId, user, lists, faults, now).table;
    forall id | id in tt.rows
      ensures id in r.rows
      ensures r.rows[id].deleted <==> tt.rows[id].deleted || (tt.rows[id].boardId == boardId && id !in kept)
    {
      if !tt.rows[id].deleted && tt.rows[id].boardId == boardId && id !in kept {
        var k :| 0 <= k < |existing| && existing[k].id == Some(id);
      } else if !tt.rows[id].deleted {
        forall k | 0 <= k < |existing|
          ensures id in kept || existing[k].id != Some(id)
        {
          assert existing[k] in existing;
        }
      }
    }
  }

  /** The ticket rows a reconcile rewrites are those whose ids the snapshot carries, whatever
      board they belong to and whether or not they are deleted: nothing ties an id to the board. */
  lemma UpdateReachesAnyNamedRow(tt: TicketTable, boardId: nat, user: UserContext, id: nat, category: string,
                                 content: string, faults: Faults, now: Timestamp)
    requires id != 0 && id in tt.rows && (0, 0) !in faults.ticketWrite
    ensures var lists := [List(category, category, [TicketItem(Some(id), content)])];
      var r := Reconcile(tt, boardId, user, lists, faults, now).table;
      id in r.rows && r.rows[id].content == content && r.rows[id].category == category
      && r.rows[id].boardId == tt.rows[id].boardId && r.rows[id].deleted == tt.rows[id].deleted
  {
    var lists := [List(category, category, [TicketItem(Some(id), content)])];
    var existing := BoardTickets(tt, boardId);
    var kept := ReceivedIds(lists);
    ReceivedIdsExactly(lists, id);
    DeletePassFrame(tt, existing, kept, faults.ticketFind, faults.ticketDelete, now, |existing|);
    var afterDelete := DeletePass(tt, existing, kept, faults.ticketFind, faults.ticketDelete, now, |existing|);
    assert afterDelete.rows[id] == tt.rows[id];
    WriteOneRoutes(Progress(afterDelete, []), false, boardId, user, category, lists[0].tickets[0], false, now);
  }

  // ---------------------------------------------------------------- POST /save

  /** A `titleId` that is not a `u64` is refused with 400 before any store call. */
  lemma SaveRejectsBadTitleId(bt: BoardTable, tt: TicketTable, user: UserContext, payload: SavePayload,
                              faults: Faults, now: Timestamp)
    requires payload.titleId.Some? && ParseU64(payload.titleId.value).None?
    ensures SaveSpec(bt, tt, user, payload, faults, now) == SaveOutcome(bt, tt, ApiResponse(BadRequest, TitleIdInvalid, payload.title))
  {
  }

  /** A board that cannot be read (absent, deleted, or a failing lookup) answers 404 and no board
      or ticket is written; a deleted board is unreadable even for its owner. */
  lemma SaveUnknownBoardChangesNothing(bt: BoardTable, tt: TicketTable, user: UserContext, payload: SavePayload,
                                       faults: Faults, now: Timestamp)
    requires payload.titleId.Some? && ParseU64(payload.titleId.value).Some?
    requires faults.boardLookup || !LiveBoard(bt, ParseU64(payload.titleId.value).value)
    ensures SaveSpec(bt, tt, user, payload, faults, now)
         == SaveOutcome(bt, tt, ApiResponse(NotFound, BoardNotFoundMessage, payload.title))
  {
  }

  /** The title is written before the tickets are fetched: when the fetch fails the answer is 500
      and the tickets are untouched, but the board already carries the new title. */
  lemma SaveFetchFailureKeepsNewTitle(bt: BoardTable, tt: TicketTable, user: UserContext, payload: SavePayload,
                                      faults: Faults, now: Timestamp)
    requires payload.titleId.Some? && ParseU64(payload.titleId.value).Some?
    requires var id := ParseU64(payload.titleId.value).value;
      !faults.boardLookup && LiveBoard(bt, id) && bt.rows[id].createdBy == user.userId && !faults.boardUpdate
    requires faults.ticketFetch
    ensures var id := ParseU64(payload.titleId.value).value;
      var o := SaveSpec(bt, tt, user, payload, faults, now);
      o.response.status == InternalServerError && o.tickets == tt
      && o.boards == UpdateBoardRow(bt, id, payload.title, now) && o.boards.rows[id].title == payload.title
  {
  }

  /** A failed title update does not stop the reconcile: whether the caller does not own the
      board (anyone may name any live board) or the board store fails, the board keeps its title
      and the answer is 500 with the update's failure, yet the ticket reconcile has run in full. */
  lemma SaveByNonOwnerStillReconciles(bt: BoardTable, tt: TicketTable, user: UserContext, payload: SavePayload,
                                      faults: Faults, now: Timestamp)
    requires payload.titleId.Some? && ParseU64(payload.titleId.value).Some?
    requires var id := ParseU64(payload.titleId.value).value;
      !faults.boardLookup && LiveBoard(bt, id) && (bt.rows[id].createdBy != user.userId || faults.boardUpdate)
    requires !faults.ticketFetch
    ensures var id := ParseU64(payload.titleId.value).value;
      var o := SaveSpec(bt, tt, user, payload, faults, now);
      var cause := if bt.rows[id].createdBy != user.userId then Unauthorized else StoreFailure;
      o.boards == bt
      && o.response == ApiResponse(InternalServerError, BoardUpdateFailed(cause), payload.title)
      && o.tickets == Reconcile(tt, id, user, payload.projectData.lists, faults, now).table
  {
  }

  /** A reconcile answers 200 exactly when the caller owns the board and the title update and the
      ticket fetch succeed; the message is "Board and tickets updated" exactly when no ticket
      failed, and otherwise lists the failures. */
  lemma SaveReconcileStatus(bt: BoardTable, tt: TicketTable, user: UserContext, payload: SavePayload,
                            faults: Faults, now: Timestamp)
    requires payload.titleId.Some? && ParseU64(payload.titleId.value).Some?
    requires !faults.boardLookup && LiveBoard(bt, ParseU64(payload.titleId.value).value)
    ensures var id := ParseU64(payload.titleId.value).value;
      var o := SaveSpec(bt, tt, user, payload, faults, now);
      && (o.response.status == Ok <==> bt.rows[id].createdBy == user.userId && !faults.boardUpdate && !faults.ticketFetch)
      && (o.response.status == Ok ==>
            (o.response.message == BoardAndTicketsUpdated <==> AllWritten(false, payload.projectData.lists, faults.ticketWrite)))
  {
    var id := ParseU64(payload.titleId.value).value;
    var lists := payload.projectData.lists;
    var existing := BoardTickets(tt, id);
    var afterDelete := DeletePass(tt, existing, ReceivedIds(lists), faults.ticketFind, faults.ticketDelete, now, |existing|);
    ErrorsIffFailures(afterDelete, false, id, user, lists, faults.ticketWrite, now);
  }

  /** Without `titleId` a board owned by the caller is created under a fresh id and every ticket
      becomes a new live row of it; existing rows are untouched. The answer is 201 even when
      tickets fail, with "Board and tickets created" exactly when none did. A failing board insert
      answers 500 and writes nothing. */
  lemma SaveCreatesBoardAndTickets(bt: BoardTable, tt: TicketTable, user: UserContext, payload: SavePayload,
                                   faults: Faults, now: Timestamp)
    requires BoardTableValid(bt) && TicketTableValid(tt)
    requires payload.titleId.None?
    ensures var o := SaveSpec(bt, tt, user, payload, faults, now);
      && (faults.boardStore ==> o == SaveOutcome(bt, tt, ApiResponse(InternalServerError, CreateFailed(StoreFailure), payload.title)))
      && (!faults.boardStore ==>
            && o.response.status == Created
            && o.boards == InsertBoard(bt, payload.title, user.userId, now)
            && bt.nextId !in bt.rows
            && (o.response.message == BoardAndTicketsCreated <==> AllWritten(true, payload.projectData.lists, faults.ticketWrite))
            && o.tickets.nextId == tt.nextId + CountLists(true, payload.projectData.lists, |payload.projectData.lists|, faults.ticketWrite, Inserted)
            && OnlyWrites(tt, o.tickets, bt.nextId, user.userId)
            && (forall id :: id in tt.rows ==> o.tickets.rows[id] == tt.rows[id]))
  {
    if !faults.boardStore {
      var lists := payload.projectData.lists;
      ErrorsIffFailures(tt, true, bt.nextId, user, lists, faults.ticketWrite, now);
      WriteListsFrame(Progress(tt, []), true, bt.nextId, user, lists, |lists|, faults.ticketWrite, now);
      WriteListsCounts(Progress(tt, []), true, bt.nextId, user, lists, |lists|, faults.ticketWrite, now);
    }
  }

  // ---------------------------------------------------------------- GET /data/:titleId

  /** Filtering keeps input order: the tickets of a category in `a + b` are those of `a`, then
      those of `b`. */
  lemma {:induction false} InCategoryAppend(a: seq<Ticket>, b: seq<Ticket>, category: string)
    ensures InCategory(a + b, category) == InCategory(a, category) + InCategory(b, category)
    decreases |a|
  {
    if |a| == 0 {
      assert a + b == b;
    } else {
      var head := if a[0].category == category then [TicketItem(a[0].id, a[0].content)] else [];
      assert (a + b)[0] == a[0];
      assert (a + b)[1..] == a[1..] + b;
      InCategoryAppend(a[1..], b, category);
      calc {
        InCategory(a + b, category);
        head + InCategory(a[1..] + b, category);
        head + (InCategory(a[1..], category) + InCategory(b, category));
        (head + InCategory(a[1..], category)) + InCategory(b, category);
      }
    }
  }

  /** A list holds `{id, content}` of exactly the tickets of its category. */
  lemma {:induction false} InCategoryExactly(tickets: seq<Ticket>, category: string, x: TicketItem)
    ensures x in InCategory(tickets, category) <==>
      exists i :: 0 <= i < |tickets| && tickets[i].category == category && x == TicketItem(tickets[i].id, tickets[i].content)
    decreases |tickets|
  {
    if |tickets| > 0 {
      InCategoryExactly(tickets[1..], category, x);
      if exists i :: 0 <= i < |tickets| && tickets[i].category == category && x == TicketItem(tickets[i].id, tickets[i].content) {
        var i :| 0 <= i < |tickets| && tickets[i].category == category && x == TicketItem(tickets[i].id, tickets[i].content);
        if i > 0 {
          assert tickets[1..][i - 1] == tickets[i];
        }
      }
      if exists i :: 0 <= i < |tickets[1..]| && tickets[1..][i].category == category
                     && x == TicketItem(tickets[1..][i].id, tickets[1..][i].content) {
        var i :| 0 <= i < |tickets[1..]| && tickets[1..][i].category == category
                 && x == TicketItem(tickets[1..][i].id, tickets[1..][i].content);
        assert tickets[i + 1] == tickets[1..][i];
      }
    }
  }

  /** How many tickets have a category other than the three. */
  function Uncategorized(tickets: seq<Ticket>): nat {
    if |tickets| == 0 then 0
    else (if tickets[0].category in Categories then 0 else 1) + Uncategorized(tickets[1..])
  }

  /** The three lists partition the tickets of the three categories: each such ticket is counted
      in exactly one list, and the tickets of any other category in none. */
  lemma {:induction false} CategorizeCounts(tickets: seq<Ticket>)
    ensures var lists := Categorize(tickets);
      |lists[0].tickets| + |lists[1].tickets| + |lists[2].tickets| + Uncategorized(tickets) == |tickets|
    decreases |tickets|
  {
    if |tickets| > 0 {
      CategorizeCounts(tickets[1..]);
    }
  }

  /** The `Keep`, `Problem` and `Try` lists, in that order, each named by its category and holding
      exactly the tickets of that category. */
  lemma CategorizeExactly(tickets: seq<Ticket>, x: TicketItem)
    ensures |Categorize(tickets)| == 3
    ensures Categorize(tickets)[0].category == "Keep" && Categorize(tickets)[1].category == "Problem"
         && Categorize(tickets)[2].category == "Try"
    ensures forall k :: 0 <= k < 3 ==>
      Categorize(tickets)[k].id == Categorize(tickets)[k].category
      && (x in Categorize(tickets)[k].tickets <==>
            exists i :: 0 <= i < |tickets| && tickets[i].category == Categories[k] && x == TicketItem(tickets[i].id, tickets[i].content))
  {
    InCategoryExactly(tickets, Categories[0], x);
    InCategoryExactly(tickets, Categories[1], x);
    InCategoryExactly(tickets, Categories[2], x);
  }

  /** `GET /data/:titleId` answers exactly for a live board whatever the caller, with the board's
      title, its id, a project id that parses back to it, and the board's live tickets grouped; any
      failure is 500. */
  lemma BoardDataAnswers(bt: BoardTable, tt: TicketTable, user: UserContext, boardId: nat, faults: Faults)
    requires boardId < U64Bound
    ensures var r := BoardDataSpec(bt, tt, user, boardId, faults);
      && (r.Success? <==> !faults.boardLookup && !faults.ticketFetch && LiveBoard(bt, boardId))
      && (r.Failure? ==> r.error == InternalServerError)
      && (r.Success? ==>
            && r.value.id == boardId && r.value.title == bt.rows[boardId].title
            && r.value.projectData.id.Some? && ParseU64(r.value.projectData.id.value) == Some(boardId)
            && r.value.projectData.lists == Categorize(BoardTickets(tt, boardId)))
  {
    ParseToDecimal(boardId);
  }

  // ---------------------------------------------------------------- DELETE /delete/:titleId

  /** The answer depends on the board alone: 200 exactly when the board row exists (deleted or not),
      the caller owns it and its delete succeeds; ticket failures never block it. */
  lemma DeleteAnswerFromBoardOnly(bt: BoardTable, tt: TicketTable, user: UserContext, boardId: nat, faults: Faults,
                                  now: Timestamp)
    ensures var o := DeleteSpec(bt, tt, user, boardId, faults, now);
      && (o.result.Success? <==>
            !faults.boardFind && boardId in bt.rows && bt.rows[boardId].createdBy == user.userId && !faults.boardDelete)
      && (o.result.Success? ==> o.result.value == BoardDeleted && o.boards == SoftDeleteBoard(bt, boardId, now))
      && (o.result.Failure? ==> o.result.error == InternalServerError && o.boards == bt)
  {
  }

  /** The cascade soft-deletes exactly the board's live tickets when every ticket call succeeds,
      and a failing fetch leaves the tickets alone. Nothing here depends on the caller. */
  lemma DeleteCascadeTickets(bt: BoardTable, tt: TicketTable, user: UserContext, boardId: nat, faults: Faults,
                             now: Timestamp)
    requires TicketTableValid(tt)
    ensures faults.ticketFetch ==> DeleteSpec(bt, tt, user, boardId, faults, now).tickets == tt
    ensures !faults.ticketFetch && faults.ticketFind == {} && faults.ticketDelete == {} ==>
      var r := DeleteSpec(bt, tt, user, boardId, faults, now).tickets;
      r.nextId == tt.nextId && r.rows.Keys == tt.rows.Keys
      && forall id :: id in tt.rows ==>
        && (r.rows[id].deleted <==> tt.rows[id].deleted || tt.rows[id].boardId == boardId)
        && (tt.rows[id].deleted || tt.rows[id].boardId != boardId ==> r.rows[id] == tt.rows[id])
  {
    if !faults.ticketFetch && faults.ticketFind == {} && faults.ticketDelete == {} {
      var existing := BoardTickets(tt, boardId);
      var r := DeleteSpec(bt, tt, user, boardId, faults, now).tickets;
      assert r == DeletePass(tt, existing, {}, {}, {}, now, |existing|);
      forall id | id in tt.rows
        ensures r.rows[id].deleted <==> tt.rows[id].deleted || tt.rows[id].boardId == boardId
        ensures tt.rows[id].deleted || tt.rows[id].boardId != boardId ==> r.rows[id] == tt.rows[id]
      {
        CascadeRow(tt, boardId, now, id);
      }
    }
  }

  /** One row under a fault-free cascade: it ends deleted iff it already was or is on the board,
      and a row that is deleted already or on another board is left as it was. */
  lemma CascadeRow(tt: TicketTable, boardId: nat, now: Timestamp, id: nat)
    requires TicketTableValid(tt) && id in tt.rows
    ensures var existing := BoardTickets(tt, boardId);
      var r := DeletePass(tt, existing, {}, {}, {}, now, |existing|);
      && id in r.rows
      && (r.rows[id].deleted <==> tt.rows[id].deleted || tt.rows[id].boardId == boardId)
      && (tt.rows[id].deleted || tt.rows[id].boardId != boardId ==> r.rows[id] == tt.rows[id])
  {
    var existing := BoardTickets(tt, boardId);
    BoardTicketsExactly(tt, boardId);
    DeletePassFrame(tt, existing, {}, {}, {}, now, |existing|);
    DeletePassTargets(tt, existing, {}, {}, {}, now, |existing|);
    if !tt.rows[id].deleted && tt.rows[id].boardId == boardId {
      var k :| 0 <= k < |existing| && existing[k].id == Some(id);
    } else {
      forall k | 0 <= k < |existing|
        ensures existing[k].id != Some(id)
      {
        assert existing[k] in existing;
      }
    }
  }

  /** A caller who does not own the board gets 500 and the board stays, but its tickets are
      deleted all the same. */
  lemma NonOwnerDeleteStillDeletesTickets(bt: BoardTable, tt: TicketTable, user: UserContext, boardId: nat,
                                          faults: Faults, now: Timestamp, id: nat)
    requires TicketTableValid(tt)
    requires boardId in bt.rows && bt.rows[boardId].createdBy != user.userId
    requires !faults.ticketFetch && faults.ticketFind == {} && faults.ticketDelete == {}
    requires LiveTicket(tt, id) && tt.rows[id].boardId == boardId
    ensures var o := DeleteSpec(bt, tt, user, boardId, faults, now);
      o.result == Failure(InternalServerError) && o.boards == bt
      && id in o.tickets.rows && o.tickets.rows[id].deleted
  {
    DeleteCascadeTickets(bt, tt, user, boardId, faults, now);
  }

  /** `find` does not skip deleted boards, so the owner can delete a board again and is answered
      200 again. */
  lemma DeleteSucceedsAgain(bt: BoardTable, tt: TicketTable, user: UserContext, boardId: nat, faults: Faults,
                            now: Timestamp, again: Faults, later: Timestamp)
    requires DeleteSpec(bt, tt, user, boardId, faults, now).result.Success?
    requires !again.boardFind && !again.boardDelete
    ensures var o := DeleteSpec(bt, tt, user, boardId, faults, now);
      DeleteSpec(o.boards, o.tickets, user, boardId, again, later).result == Success(BoardDeleted)
  {
  }
}
