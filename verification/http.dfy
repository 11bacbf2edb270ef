/** The response statuses the handlers write (the JSON bodies are not modelled). */
module Http {

  datatype Status =
    | Ok                   // 200, writeOk
    | BadRequest           // 400, writeBadRequest
    | Conflict             // 409, the duplicate-transaction response
    | UnprocessableEntity  // 422, the insufficient-balance response
    | InternalServerError  // 500, writeInternalServer
    | Crash                // a nil dereference panics the handler; no status is written
}
