/** Optional values, results and the failure kinds the services report. */
module Wrappers {

  datatype Option<+T> = None | Some(value: T) {
    /** Rust's `unwrap_or`. */
    function GetOr(default: T): T {
      match this
      case Some(v) => v
      case None => default
    }
  }

  datatype Result<+R, +E> = Success(value: R) | Failure(error: E)

  /** `Result<(), E>`: a call that only succeeds or fails. */
  datatype Outcome<+E> = Pass | Fail(error: E)

  /** The failures of the board and ticket services, one per error string of the source. */
  datatype Error =
    | BoardIdRequired      // "Board ID is required"
    | Unauthorized         // "Unauthorized to update/delete this board"
    | BoardIdNotSet        // the store's "Board ID is not set"
    | BoardNotFound        // "Board not found [or access denied]"
    | TicketIdSet          // "Ticket ID should not be set for new tickets"
    | TicketIdRequired     // "Ticket ID is required for update"
    | TicketIdNotSet       // the store's "Ticket ID is not set"
    | TicketNotFound       // "Ticket not found"
    | StoreFailure         // a failing query or statement of the store
}
