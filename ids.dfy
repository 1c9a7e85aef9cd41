/** Identifiers the lot routes compare. */
module Ids {

  /** A user's `_id`, as the string the routes compare and store. */
  type UserId = string
}
