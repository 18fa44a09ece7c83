/**
 * `SessionValidationResult`: the value a session check returns.  The session
 * data type is not part of this model, so it is a type parameter here.
 */
module SessionValidation {
  import opened Wrappers

  datatype SessionValidationResult<S> =
    SessionValidationResult(isValid: bool, error: Option<string>, message: Option<string>, session: Option<S>)

  /** `valid()`: valid, and nothing else set. */
  function Valid<S>(): (r: SessionValidationResult<S>)
    ensures r.isValid && r.error.None? && r.message.None? && r.session.None?
  {
    SessionValidationResult(true, None, None, None)
  }

  /** `valid(session)`: valid, carrying exactly the session given (which may be null). */
  function ValidWith<S>(session: Option<S>): (r: SessionValidationResult<S>)
    ensures r.isValid && r.session == session && r.error.None? && r.message.None?
  {
    SessionValidationResult(true, None, None, session)
  }

  /** `invalid(error, message)`: not valid, carrying the error and message and no session. */
  function Invalid<S>(error: Option<string>, message: Option<string>): (r: SessionValidationResult<S>)
    ensures !r.isValid && r.error == error && r.message == message && r.session.None?
  {
    SessionValidationResult(false, error, message, None)
  }

  /**
   * The factories never produce the same result for a valid and an invalid
   * outcome, and each result determines the arguments it was built from.
   */
  lemma FactoriesSeparate<S>(session: Option<S>, other: Option<S>, error: Option<string>, message: Option<string>,
                             error2: Option<string>, message2: Option<string>)
    ensures Invalid<S>(error, message) != Valid<S>() && Invalid<S>(error, message) != ValidWith(session)
    ensures ValidWith(session) == ValidWith(other) ==> session == other
    ensures Invalid<S>(error, message) == Invalid<S>(error2, message2) ==> error == error2 && message == message2
    ensures ValidWith<S>(None) == Valid<S>()
  {
  }
}
