/**
 * Vocabulary shared by the models and the controllers: document
 * identifiers, optional request fields, and the replies a handler sends.
 */
module Common {

  /** A MongoDB ObjectId, abstracted to a number drawn from one allocator. */
  type Id = nat

  datatype Option<+T> = None | Some(value: T)
  {
    /** JavaScript's `x || fallback` for a value that is falsy only when it
        is absent (an array, an object, an id). */
    function OrElse(fallback: T): T
    {
      if Some? then value else fallback
    }
  }

  /** A request-body string is truthy in JavaScript when it is present and
      not empty; `None` stands for a field the body does not carry. */
  predicate Truthy(s: Option<string>)
  {
    s.Some? && s.value != ""
  }

  /** The value a field has after `if (s) updates.f = s` and the update:
      `s` when it is truthy, the current value otherwise. */
  function TruthyOr(s: Option<string>, current: string): string
  {
    if Truthy(s) then s.value else current
  }

  /** Why a handler refused a request. Each reason stands for one of the
      messages the handlers send and fixes the HTTP status code. */
  datatype Reason =
    | MissingFields        // required body fields are absent or empty
    | MissingCredentials   // login without an email or a password
    | NoFeedbackTarget     // feedback names neither a doctor nor a hospital
    | InvalidPatient       // booking for a user who is absent or not a Patient
    | InvalidDoctor        // booking with a doctor id that matches nothing
    | DoctorUnavailable    // weekday or time slot outside the doctor's availability
    | SlotTaken            // the doctor already has an Upcoming appointment in the slot
    | NotADoctor           // the referenced user's role is not Doctor
    | UnknownEmail         // login with an email no user has
    | WrongPassword        // login whose password does not match the stored hash
    | AccessDenied         // the caller's role or identity does not allow the operation
    | UserNotFound
    | DoctorNotFound
    | HospitalNotFound
    | PatientNotFound
    | UserExists           // sign-up with an email that is already registered
    | EmailTaken           // edit to an email that another user owns
    | ValidationFailed     // the schema rejected the document; the handler answers 500
  {
    /** The HTTP status code sent with this reason. */
    function Code(): nat
    {
      match this
      case MissingFields | MissingCredentials | NoFeedbackTarget | InvalidPatient
        | InvalidDoctor | DoctorUnavailable | SlotTaken | NotADoctor => 400
      case UnknownEmail | WrongPassword => 401
      case AccessDenied => 403
      case UserNotFound | DoctorNotFound | HospitalNotFound | PatientNotFound => 404
      case UserExists | EmailTaken => 409
      case ValidationFailed => 500
    }
  }

  /** A handler's reply: a success status (200 or 201) with its body, or a
      refusal. */
  datatype Outcome<+T> = Success(code: nat, value: T) | Failure(reason: Reason)
}
