/** The replies the routes send, without the Express machinery that sends them. */
module Http {

  /** Why a request failed: each tag stands for a kind of failure, not for one message. A
      route with several messages of one kind (the two 400 messages of the families PUT)
      gives the same tag for each. */
  datatype Why =
    | MethodNotAllowed   // 405 'method not supported'
    | MissingData        // a required request field is absent
    | InvalidRecords     // the records field is not a (non-empty) array
    | InvalidWindow      // the quarter selector is not one of Q1..Q4 or TEMP
    | NoFile             // no file was uploaded
    | EmptySheet         // the uploaded sheet has no rows
    | NoValidRecords     // no row of the sheet has every required column
    | BadCredentials     // unknown user or wrong password (one message for both)
    | Forbidden          // the protected entry with id 1
    | NotFound           // no row has the given id
    | Duplicate          // a unique key is already taken
    | NothingSelected    // a bulk delete named no ids
    | OnlyProtected      // a bulk delete named only the protected id 1
    | ServantNotFound    // the transfer target is not a servant ('Khadem')
    | NoClass            // the serviced person has no class link
    | ServerError        // a caught database error

  /** A reply: `Ok` carries the success body; `Fail` the HTTP status and the reason.
      Replies sent with `res.json` alone have status 200 even when they report failure. */
  datatype Reply<+T> = Ok(status: nat, body: T) | Fail(status: nat, why: Why)
}
