/** The request and response shapes of the board endpoints (src/controllers/boards.rs),
    with HTTP status codes and JSON bodies reduced to an outcome and a message kind. */
module BoardViews {
  import opened Wrappers

  /** A ticket as the client sends and receives it (`controllers::boards::Ticket`):
      `Some(0)` marks a new ticket, `Some(n)` an existing one, and `None` carries no id. */
  datatype TicketItem = TicketItem(id: Option<nat>, content: string)

  /** One category column (`List`). */
  datatype List = List(id: string, category: string, tickets: seq<TicketItem>)

  datatype ProjectData = ProjectData(id: Option<string>, lists: seq<List>)

  /** The body of `POST /save`: no `titleId` creates a board, a `titleId` updates that board. */
  datatype SavePayload = SavePayload(projectData: ProjectData, title: string, titleId: Option<string>)

  /** An entry of `GET /list`. */
  datatype BoardSummary = BoardSummary(title: string, id: nat)

  /** The body of `GET /data/:titleId`. */
  datatype BoardTicketSummary = BoardTicketSummary(title: string, id: nat, projectData: ProjectData)

  datatype Status = Ok | Created | BadRequest | NotFound | InternalServerError

  /** One entry of `ticket_errors`: the create path names the ticket by its content, the
      update path by the id the client sent. */
  datatype TicketError =
    | SaveFailed(content: string, reason: Error)
    | WriteFailed(id: Option<nat>, reason: Error)

  /** The kinds of `message` the endpoints answer with. */
  datatype Message =
    | TitleIdInvalid
    | BoardNotFoundMessage
    | FetchFailed(reason: Error)
    | BoardUpdateFailed(reason: Error)
    | BoardAndTicketsUpdated
    | BoardUpdatedWithFailures(failures: seq<TicketError>)
    | BoardAndTicketsCreated
    | BoardCreatedWithFailures(failures: seq<TicketError>)
    | CreateFailed(reason: Error)
    | BoardDeleted

  /** `(StatusCode, Json(ApiResponse { message, title }))`. */
  datatype ApiResponse = ApiResponse(status: Status, message: Message, title: string)
}
