/** Shared result types of the drive's request handlers. */
module Outcomes {

  datatype Option<+T> = None | Some(value: T) {
    function GetOr(default: T): T {
      match this
      case Some(v) => v
      case None => default
    }
  }

  /** The one outcome every handler reports: an HTTP status, or the flash-and-redirect
      that the folder pages use in its place. */
  datatype Status =
    | Ok
    | BadRequest   // missing or malformed input (400, or "... is required")
    | NotFound     // 404, or "... not found"
    | Forbidden    // 403, or "You do not have permission ..."
    | Conflict     // "A folder with this name already exists"
    | Gone         // 410, share link expired
    | ServerError  // 500

  /** What a read-only handler hands to the page: data, or the status that replaced it. */
  datatype Response<+T> = Done(value: T) | Fail(status: Status)
}
