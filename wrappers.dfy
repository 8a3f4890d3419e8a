/** Failure-carrying results of the HTTP routes. Every rejection the routes
    send is one Error; Status gives the HTTP status code the route uses. */
module Wrappers {

  datatype Option<T> = None | Some(value: T)

  datatype Error =
    | InvalidRequest        // 400 "Invalid request"
    | SomeMembersNotFound   // 400 "Some members not found"
    | PayerNotMember        // 400 "Payer must be a member of the group"
    | SplitsMismatch        // 400 "Splits must sum to total amount"
    | AmountNotPositive     // 400 "Amount must be positive"
    | CannotPaySelf         // 400 "Cannot pay yourself"
    | NotBothMembers        // 400 "Both users must be group members"
    | InsufficientBalance   // 400 "Insufficient wallet balance"
    | MissingRequiredFields // 400 "Missing required fields" (signup)
    | EmailInUse            // 400 "Email already in use"
    | MissingFields         // 400 "Missing fields" (login)
    | InvalidEmail          // 400 "Invalid email"
    | InvalidPassword       // 400 "Invalid password"
    | Unauthorized          // 401 "Unauthorized"
    | InvalidToken          // 401 "Invalid token"
    | Forbidden             // 403 "Forbidden"
    | GroupNotFound         // 404 "Group not found"
    | UserDoesNotExist      // 404 "User does not exist"
    | ServerError           // 500 "Server error": a thrown exception caught by the route

  /** The HTTP status a route answers with for each kind of failure. */
  function Status(e: Error): (code: int)
    ensures 400 <= code <= 500
    ensures code == 500 <==> e == ServerError
  {
    match e
    case Unauthorized | InvalidToken => 401
    case Forbidden => 403
    case GroupNotFound | UserDoesNotExist => 404
    case ServerError => 500
    case _ => 400
  }

  datatype Result<T> = Ok(value: T) | Err(error: Error)
}
