/**
 * The HTTP responses the authentication endpoints write: a status code and
 * a JSON body, which is a token pair, an `{ error }` message, or the
 * validators' `{ errors: [...] }` list.
 */
module Http {
  import opened Accounts

  /** One entry of express-validator's error list: the field's path and the message. */
  datatype ValidationError = ValidationError(path: string, msg: string)

  datatype ResponseBody =
    | Tokens(tokens: TokenPair)
    | ErrorMessage(error: string)
    | ValidationErrors(errors: seq<ValidationError>)

  datatype Response = Response(status: int, body: ResponseBody)
}
