/** HTTP answers of the controllers: the status code together with the
    reason behind each 400, so that the order of the guards is observable. */
module Http {

  /** Why a request was refused with 400. */
  datatype Reason =
    | InvalidCategory
    | NoMainFile
    | DuplicateName
    | DefaultCategory
    | CategoryInUse(count: nat)
    | InvalidTotp

  datatype Reply =
    | Ok
    | Created
    | BadRequest(reason: Reason)
    | Unauthorized
    | Forbidden
    | NotFound
    | ServerError

  /** The numeric status sent for each answer. */
  function Code(r: Reply): int {
    match r
    case Ok => 200
    case Created => 201
    case BadRequest(_) => 400
    case Unauthorized => 401
    case Forbidden => 403
    case NotFound => 404
    case ServerError => 500
  }

  /** The `success` flag of the JSON body: true exactly for the 2xx answers. */
  predicate IsSuccess(r: Reply) {
    r.Ok? || r.Created?
  }
}
