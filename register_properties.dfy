/**
 * What one submission of the registration form guarantees, stated over the
 * declarative `Register.Submit` (which `RegisterForm.HandleRegisterSubmit` is
 * proved to follow).
 */
module RegisterProperties {
  import opened JsString
  import EmailPattern
  import opened Register

  /** The inputs of a form whose three refs are attached. */
  function Filled(email: string, pass1: string, pass2: string): Inputs {
    Inputs(Some(email), Some(pass1), Some(pass2))
  }

  /** All three checks pass. */
  predicate Valid(email: string, pass1: string, pass2: string) {
    ValidationError(email, pass1, pass2).None?
  }

  /**
   * Every submission starts by clearing the error and raising the loading
   * flag, and that is the state the form shows while its request is in flight.
   */
  lemma InFlightState(before: FormState, inputs: Inputs)
    ensures Begin(before, inputs).request.Some? ==>
              Begin(before, inputs).state == FormState("", true, before.success)
  {
  }

  /**
   * With a ref still null nothing follows the reset: no request, and the
   * loading flag stays raised.
   */
  lemma UnmountedStaysLoading(before: FormState, inputs: Inputs, outcome: PostOutcome)
    requires !inputs.Mounted()
    ensures Submit(before, inputs, outcome) == Transition(FormState("", true, before.success), NoEffects)
  {
  }

  /**
   * Which message a failed validation leaves: the mismatch message whenever
   * the passwords differ, else the length message whenever the password has
   * fewer than eight UTF-16 code units, else the e-mail message whenever the
   * pattern finds no match. Exactly when none applies, validation passes.
   */
  lemma ErrorPrecedence(email: string, pass1: string, pass2: string)
    ensures ValidationError(email, pass1, pass2) == Some(MismatchMessage) <==> pass1 != pass2
    ensures ValidationError(email, pass1, pass2) == Some(ShortPasswordMessage) <==>
              pass1 == pass2 && Length(pass1) < 8
    ensures ValidationError(email, pass1, pass2) == Some(InvalidEmailMessage) <==>
              pass1 == pass2 && Length(pass1) >= 8 && !EmailPattern.Accepts(email)
    ensures Valid(email, pass1, pass2) <==>
              pass1 == pass2 && Length(pass1) >= 8 && EmailPattern.Accepts(email)
  {
    assert MismatchMessage != ShortPasswordMessage by { assert MismatchMessage[1] != ShortPasswordMessage[1]; }
    assert MismatchMessage != InvalidEmailMessage by { assert MismatchMessage[0] != InvalidEmailMessage[0]; }
    assert ShortPasswordMessage != InvalidEmailMessage by { assert ShortPasswordMessage[0] != InvalidEmailMessage[0]; }
  }

  /**
   * A failed validation ends the submission with its message shown, loading
   * and success both false, and no request sent.
   */
  lemma InvalidInputSendsNothing(before: FormState, email: string, pass1: string, pass2: string, outcome: PostOutcome)
    requires !Valid(email, pass1, pass2)
    ensures Submit(before, Filled(email, pass1, pass2), outcome) ==
              Transition(FormState(ValidationError(email, pass1, pass2).value, false, false), NoEffects)
  {
  }

  /**
   * A request goes out exactly when the refs are attached and validation
   * passes, and it is the one POST to `/api/register` carrying the three values.
   */
  lemma RequestExactlyWhenValid(before: FormState, inputs: Inputs, outcome: PostOutcome)
    ensures Submit(before, inputs, outcome).effects.request.Some? <==>
              inputs.Mounted() && Valid(inputs.email.value, inputs.password.value, inputs.password2.value)
    ensures Submit(before, inputs, outcome).effects.request.Some? ==>
              Submit(before, inputs, outcome).effects.request.value ==
                RegisterRequest("/api/register", inputs.email.value, inputs.password.value, inputs.password2.value)
  {
  }

  /** A fulfilled request navigates to `/` and ends loading with success and no error. */
  lemma FulfilledNavigatesHome(before: FormState, email: string, pass1: string, pass2: string)
    requires Valid(email, pass1, pass2)
    ensures Submit(before, Filled(email, pass1, pass2), Fulfilled) ==
              Transition(FormState("", false, true),
                         Effects(Some(RegisterRequest(RegisterEndpoint, email, pass1, pass2)), Some("/"), false))
  {
  }

  /**
   * An `AxiosError` with readable response data ends loading without success
   * and shows the message `AxiosErrorMessage` picks.
   */
  lemma AxiosErrorShown(before: FormState, email: string, pass1: string, pass2: string,
                        message: string, serverError: Option<string>)
    requires Valid(email, pass1, pass2)
    ensures Submit(before, Filled(email, pass1, pass2),
                   AxiosRejected(message, Some(ErrorResponse(Some(ResponseData(serverError)))))).after ==
              FormState(AxiosErrorMessage(serverError, message), false, false)
  {
  }

  /**
   * The message for an `AxiosError`: the fixed hint exactly for the sentinel
   * `"user already exists"`, the server's own text when it is any other
   * non-empty string, and the error's `message` when the server sent none or
   * an empty one.
   */
  lemma AxiosErrorMessageChoice(serverError: Option<string>, message: string)
    ensures serverError == Some("user already exists") ==>
              AxiosErrorMessage(serverError, message) == AlreadyRegisteredMessage
    ensures serverError.Some? && serverError.value != "user already exists" && serverError.value != "" ==>
              AxiosErrorMessage(serverError, message) == serverError.value
    ensures serverError.None? || serverError == Some("") ==>
              AxiosErrorMessage(serverError, message) == message
  {
  }

  /**
   * The only way the shown message ends up empty: the server sent no text and
   * the error's own `message` is empty.
   */
  lemma AxiosErrorMessageEmpty(serverError: Option<string>, message: string)
    ensures AxiosErrorMessage(serverError, message) == "" <==>
              message == "" && (serverError.None? || serverError == Some(""))
  {
    assert |AlreadyRegisteredMessage| > 0;
  }

  /**
   * Any other rejection leaves the error empty but still ends loading without
   * success.
   */
  lemma OtherRejectionResets(before: FormState, email: string, pass1: string, pass2: string)
    requires Valid(email, pass1, pass2)
    ensures Submit(before, Filled(email, pass1, pass2), OtherRejected).after == FormState("", false, false)
    ensures !Submit(before, Filled(email, pass1, pass2), OtherRejected).effects.rejected
  {
  }

  /**
   * An `AxiosError` without a response, or with null or undefined data, makes
   * the catch block throw before its resets: loading stays raised, success
   * keeps its old value, and the handler's promise rejects.
   */
  lemma UnreadableResponseThrows(before: FormState, email: string, pass1: string, pass2: string,
                                 message: string, response: Option<ErrorResponse>)
    requires Valid(email, pass1, pass2)
    requires response.None? || response.value.data.None?
    ensures Submit(before, Filled(email, pass1, pass2), AxiosRejected(message, response)).after ==
              FormState("", true, before.success)
    ensures Submit(before, Filled(email, pass1, pass2), AxiosRejected(message, response)).effects.rejected
  {
  }

  /**
   * The loading flag is still raised after a submission exactly when a ref
   * was null or the handler threw.
   */
  lemma LoadingOnlyWhenUnfinished(before: FormState, inputs: Inputs, outcome: PostOutcome)
    ensures Submit(before, inputs, outcome).after.loading <==>
              !inputs.Mounted() || Submit(before, inputs, outcome).effects.rejected
  {
  }

  /**
   * The handler throws exactly when a request went out and was rejected with
   * an `AxiosError` whose response data cannot be destructured.
   */
  lemma RejectsOnlyOnUnreadableResponse(before: FormState, inputs: Inputs, outcome: PostOutcome)
    ensures Submit(before, inputs, outcome).effects.rejected <==>
              Submit(before, inputs, outcome).effects.request.Some? &&
              outcome.AxiosRejected? && ServerError(outcome.response).None?
  {
  }

  /**
   * The form navigates exactly when its request was fulfilled, and only to `/`.
   */
  lemma NavigatesOnlyWhenFulfilled(before: FormState, inputs: Inputs, outcome: PostOutcome)
    ensures Submit(before, inputs, outcome).effects.navigation.Some? <==>
              Submit(before, inputs, outcome).effects.request.Some? && outcome.Fulfilled?
    ensures Submit(before, inputs, outcome).effects.navigation.Some? ==>
              Submit(before, inputs, outcome).effects.navigation.value == "/"
  {
  }

  /**
   * Success is shown after a submission exactly when its request was
   * fulfilled, or when it was shown before and this submission never reached
   * a reset of the flag. Whenever success is shown the error is empty.
   */
  lemma SuccessExplained(before: FormState, inputs: Inputs, outcome: PostOutcome)
    ensures Submit(before, inputs, outcome).after.success <==>
              (Submit(before, inputs, outcome).effects.request.Some? && outcome.Fulfilled?) ||
              (before.success && Submit(before, inputs, outcome).after.loading)
    ensures Submit(before, inputs, outcome).after.success ==> Submit(before, inputs, outcome).after.error == ""
  {
  }

  /**
   * A concrete submission with valid inputs, under three outcomes of the
   * request: fulfilled, rejected with the user-exists sentinel, and rejected
   * with another server message.
   */
  lemma ValidSubmissionScenarios(before: FormState, email: string, pass: string, message: string)
    requires email == "user@example.com" && pass == "longenough1"
    ensures Submit(before, Filled(email, pass, pass), Fulfilled).after == FormState("", false, true)
    ensures Submit(before, Filled(email, pass, pass), Fulfilled).effects.navigation == Some("/")
    ensures Submit(before, Filled(email, pass, pass),
                   AxiosRejected(message, Some(ErrorResponse(Some(ResponseData(Some("user already exists"))))))).after ==
              FormState(AlreadyRegisteredMessage, false, false)
    ensures Submit(before, Filled(email, pass, pass),
                   AxiosRejected(message, Some(ErrorResponse(Some(ResponseData(Some("something else"))))))).after ==
              FormState("something else", false, false)
  {
    EmailPattern.TypicalAddressAccepted(email);
    LengthCountsSurrogatePairs(pass);
    assert Valid(email, pass, pass);
  }
}
