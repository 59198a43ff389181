/** Identifiers of stored records and the HTTP statuses the handlers answer with. */
module Http {

  /** A user's document id (`_id`); ids are never reused. */
  type UserId = nat

  /** A note's document id (`_id`); ids are never reused. */
  type NoteId = nat

  /** The statuses the controllers send. */
  datatype Status = Ok | Created | BadRequest | Unauthorized | NotFound | InternalError
  {
    /** The numeric HTTP status code. */
    function Code(): int
    {
      match this
      case Ok => 200
      case Created => 201
      case BadRequest => 400
      case Unauthorized => 401
      case NotFound => 404
      case InternalError => 500
    }
  }
}
