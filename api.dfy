/** Vocabulary shared by every request handler of the book-club server:
    optional values, the authenticated caller, and the error outcomes a
    handler answers with (each one carrying its HTTP status code). */
module Api {

  datatype Option<+T> = None | Some(value: T)

  datatype Role = Admin | Member

  /** The authenticated member on whose behalf a handler runs
      (what the authentication middleware puts in `req.user`). */
  datatype Caller = Caller(id: nat, role: Role)

  /** Every way a handler can refuse a request. */
  datatype Error =
    | Invalid(fields: seq<string>)   // request-body validation failed; lists the failing fields in order
    | AdminRequired                  // the admin-role guard refused a non-admin
    | RoundNotFound
    | ProposalNotFound
    | MeetingNotFound
    | RoundNotOpenForVoting
    | RankedAtMostThree
    | ProposalIdRequired
    | RankOutOfRange
    | DuplicateRanks
    | ProposalNotInRound
    | RoundNotOpen
    | RoundNotOpenForProposals
    | ProposalRoundNotOpen
    | NotProposalOwner
    | MeetingConfirmed
    | NotMeetingOwner
    | NoFieldsToUpdate
    | InvalidInviteCode
    | InviteCodeUsed
    | EmailTaken
    | BadCredentials
    | ServerError                    // an exception caught by the handler's catch block

  /** The HTTP status code a handler answers `e` with. */
  function StatusCode(e: Error): (code: nat)
    ensures code in {400, 401, 403, 404, 500}
    ensures code == 404 <==> e.RoundNotFound? || e.ProposalNotFound? || e.MeetingNotFound?
    ensures code == 403 <==> e.AdminRequired? || e.NotProposalOwner? || e.NotMeetingOwner?
    ensures code == 401 <==> e.BadCredentials?
    ensures code == 500 <==> e.ServerError?
  {
    match e
    case RoundNotFound | ProposalNotFound | MeetingNotFound => 404
    case AdminRequired | NotProposalOwner | NotMeetingOwner => 403
    case BadCredentials => 401
    case ServerError => 500
    case _ => 400
  }

  datatype Result<+T> = Ok(value: T) | Err(error: Error)

  /** The admin-role guard put in front of organizer-only routes. */
  function RequireAdmin(caller: Caller): (r: Option<Error>)
    ensures r.None? <==> caller.role == Admin
  {
    if caller.role == Admin then None else Some(AdminRequired)
  }
}
