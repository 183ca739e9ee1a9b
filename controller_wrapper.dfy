/**
 * `controllerWrapper`: runs a handler and turns a thrown error into a JSON
 * response. A handler that completes has written its own response and the
 * wrapper adds nothing; a thrown error is answered with its `statusCode`
 * when that is truthy and 500 otherwise, with `{ error: message }` as the
 * body, and is logged exactly when it carries no truthy `statusCode`.
 */
module ControllerWrapper {
  import opened Wrappers
  import opened Errors
  import opened Http

  /** What a handler did: wrote a response, or threw. */
  datatype Outcome = Completed(response: Response) | Threw(error: Error)

  /** The response sent, and whether the wrapper logged an unhandled error. */
  datatype Handled = Handled(response: Response, logged: bool)

  /** JavaScript truthiness of `error.statusCode`: present and not 0. */
  predicate HasStatus(e: Error) {
    e.statusCode.Some? && e.statusCode.value != 0
  }

  /** `error.statusCode || 500`. */
  function StatusOf(e: Error): (status: int)
    ensures HasStatus(e) ==> status == e.statusCode.value
    ensures !HasStatus(e) ==> status == 500
    ensures status != 0
  {
    if HasStatus(e) then e.statusCode.value else 500
  }

  /** The wrapped handler. */
  function Wrap(outcome: Outcome): (h: Handled)
    ensures outcome.Completed? ==> h == Handled(outcome.response, false)
    ensures outcome.Threw? ==> h.response == Response(StatusOf(outcome.error), ErrorMessage(outcome.error.message))
    ensures h.logged <==> outcome.Threw? && !HasStatus(outcome.error)
  {
    match outcome
    case Completed(response) => Handled(response, false)
    case Threw(e) => Handled(Response(StatusOf(e), ErrorMessage(e.message)), !HasStatus(e))
  }

  /**
   * The errors the service throws on purpose come back with their own
   * status and are not logged; the libraries' errors come back as 500 and
   * are logged.
   */
  lemma ServiceErrorResponses(e: Error)
    requires IsDomainError(e) || IsLibraryError(e)
    ensures IsDomainError(e) ==> Wrap(Threw(e)) == Handled(Response(e.statusCode.value, ErrorMessage(e.message)), false)
    ensures IsLibraryError(e) ==> Wrap(Threw(e)) == Handled(Response(500, ErrorMessage(e.message)), true)
    ensures Wrap(Threw(e)).response.status in {401, 403, 409, 500}
  {
  }
}
