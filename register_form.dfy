/**
 * The submit handler of the registration form.
 *
 * The component owns three cells of state, `formError`, `formLoading` and
 * `formSuccess`. One submission reads the three password/e-mail inputs,
 * validates them, sends one POST to `/api/register`, and maps the outcome of
 * that request onto the three cells. The single `await` splits the handler in
 * two: everything up to the request (`BeginSubmit`) and everything after it
 * settles (`SettleSubmit`).
 *
 * The HTTP client and the router are not modelled: the request's outcome is
 * an input (`PostOutcome`) and what the handler does to the outside world is
 * an output (`Effects`). React's state setters are modelled as assignments,
 * the last one winning.
 *
 * The functions `Begin`, `Settle` and `Submit` state declaratively what the
 * handler ends with; the class's methods follow the code step by step and are
 * proved to agree with them. The lemmas at the end state what one submission
 * guarantees.
 */
module Register {
  import JsString
  import EmailPattern

  datatype Option<T> = None | Some(value: T)

  const InvalidEmailMessage: string := "Digite um e-mail válido."
  const ShortPasswordMessage: string := "A senha precisa ter pelo menos 8 caracteres."
  const MismatchMessage: string := "As senhas não são iguais."
  const AlreadyRegisteredMessage: string := "Esse e-mail já está registrado. Tente ir para o login."

  /** The `error` value by which the backend reports an e-mail already in use. */
  const UserExistsSentinel: string := "user already exists"

  const MinPasswordLength: nat := 8
  const RegisterEndpoint: string := "/api/register"
  const HomePath: string := "/"

  /** The three state cells: `formError`, `formLoading`, `formSuccess`. */
  datatype FormState = FormState(error: string, loading: bool, success: bool)

  /**
   * The `.current` of the three input refs: `None` while a ref is null,
   * otherwise the input's `value`.
   */
  datatype Inputs = Inputs(email: Option<string>, password: Option<string>, password2: Option<string>)
  {
    /** All three refs are attached to their inputs. */
    predicate Mounted() {
      email.Some? && password.Some? && password2.Some?
    }
  }

  /** The POST the handler sends: its URL and its JSON body `{email, password, password2}`. */
  datatype RegisterRequest = RegisterRequest(url: string, email: string, password: string, password2: string)

  /**
   * The `data` of an error response that is neither null nor undefined; its
   * `error` field is a string or absent.
   */
  datatype ResponseData = ResponseData(error: Option<string>)

  /** The `response` of an `AxiosError`; `data` is `None` when null or undefined. */
  datatype ErrorResponse = ErrorResponse(data: Option<ResponseData>)

  /** How the awaited POST settles. */
  datatype PostOutcome =
    | Fulfilled
      /** Rejected with an `AxiosError`; `response` is `None` when the request got no response. */
    | AxiosRejected(message: string, response: Option<ErrorResponse>)
      /** Rejected with any other value. */
    | OtherRejected

  /**
   * What one submission does outside its own state: the request it sent, the
   * path it navigated to, and whether the handler itself threw (its promise
   * rejects).
   */
  datatype Effects = Effects(request: Option<RegisterRequest>, navigation: Option<string>, rejected: bool)

  const NoEffects: Effects := Effects(None, None, false)

  /** The state right after a submission has begun, the state it keeps while a request is in flight. */
  function Pending(before: FormState): FormState {
    FormState("", true, before.success)
  }

  /**
   * The message the three checks leave in `formError`, or `None` when all
   * pass. Every failing check overwrites the message, so the check that runs
   * last and fails decides it: equality, then length, then the e-mail pattern.
   */
  function ValidationError(email: string, pass1: string, pass2: string): Option<string> {
    if pass1 != pass2 then Some(MismatchMessage)
    else if JsString.Length(pass1) < MinPasswordLength then Some(ShortPasswordMessage)
    else if !EmailPattern.Accepts(email) then Some(InvalidEmailMessage)
    else None
  }

  /**
   * The message shown for an `AxiosError` whose response data could be read:
   * the fixed hint for the user-exists sentinel, else the server's `error`
   * when it is a non-empty string, else the error's own `message`.
   */
  function AxiosErrorMessage(serverError: Option<string>, message: string): string {
    if serverError == Some(UserExistsSentinel) then AlreadyRegisteredMessage
    else if serverError.Some? && serverError.value != "" then serverError.value
    else message
  }

  /**
   * `error.response?.data` destructured: `None` when that throws (no
   * response, or null or undefined data), else the `error` field.
   */
  function ServerError(response: Option<ErrorResponse>): Option<Option<string>> {
    match response
    case None => None
    case Some(r) => if r.data.None? then None else Some(r.data.value.error)
  }

  /** The state and the request (if any) once the handler reaches its `await` or returns before it. */
  datatype Began = Began(state: FormState, request: Option<RegisterRequest>)

  /** What happens up to the `await`. */
  function Begin(before: FormState, inputs: Inputs): Began {
    if !inputs.Mounted() then Began(Pending(before), None)
    else
      var email, pass1, pass2 := inputs.email.value, inputs.password.value, inputs.password2.value;
      match ValidationError(email, pass1, pass2)
      case Some(msg) => Began(FormState(msg, false, false), None)
      case None => Began(Pending(before), Some(RegisterRequest(RegisterEndpoint, email, pass1, pass2)))
  }

  /** The state after the request settles, the navigation, and whether the handler threw. */
  datatype Settled = Settled(state: FormState, navigation: Option<string>, rejected: bool)

  /** What happens once the request settles, from the state `pending` it left the form in. */
  function Settle(pending: FormState, outcome: PostOutcome): Settled {
    match outcome
    case Fulfilled => Settled(pending.(loading := false, success := true), Some(HomePath), false)
    case OtherRejected => Settled(pending.(loading := false, success := false), None, false)
    case AxiosRejected(message, response) =>
      match ServerError(response)
      case None => Settled(pending, None, true)
      case Some(serverError) =>
        Settled(FormState(AxiosErrorMessage(serverError, message), false, false), None, false)
  }

  /** The outcome of one whole submission. */
  datatype Transition = Transition(after: FormState, effects: Effects)

  /** One submission from start to end: `Begin`, then `Settle` if a request went out. */
  function Submit(before: FormState, inputs: Inputs, outcome: PostOutcome): Transition {
    var began := Begin(before, inputs);
    if began.request.None? then Transition(began.state, NoEffects)
    else
      var settled := Settle(began.state, outcome);
      Transition(settled.state, Effects(began.request, settled.navigation, settled.rejected))
  }

  /** The registration form component and its submit handler. */
  class RegisterForm {
    var formError: string
    var formLoading: bool
    var formSuccess: bool

    /** The three cells start empty, idle and unsuccessful. */
    constructor ()
      ensures State() == FormState("", false, false)
    {
      formError := "";
      formLoading := false;
      formSuccess := false;
    }

    function State(): FormState
      reads this
    {
      FormState(formError, formLoading, formSuccess)
    }

    /** The handler up to the `await`: reset, read the inputs, validate, build the request. */
    method BeginSubmit(inputs: Inputs) returns (request: Option<RegisterRequest>)
      modifies this
      ensures State() == Begin(old(State()), inputs).state
      ensures request == Begin(old(State()), inputs).request
    {
      formError := "";
      formLoading := true;
      request := None;
      if inputs.email.Some? && inputs.password2.Some? && inputs.password.Some? {
        var email := inputs.email.value;
        var pass1 := inputs.password.value;
        var pass2 := inputs.password2.value;
        var shouldReturnError := false;
        if !EmailPattern.Accepts(email) {
          formError := InvalidEmailMessage;
          shouldReturnError := true;
        }
        if JsString.Length(pass1) < MinPasswordLength {
          formError := ShortPasswordMessage;
          shouldReturnError := true;
        }
        if pass1 != pass2 {
          formError := MismatchMessage;
          shouldReturnError := true;
        }
        if shouldReturnError {
          formLoading := false;
          formSuccess := false;
          return;
        }
        request := Some(RegisterRequest(RegisterEndpoint, email, pass1, pass2));
      }
    }

    /** The handler after the `await`: the `try` body or the `catch` block. */
    method SettleSubmit(outcome: PostOutcome) returns (navigation: Option<string>, rejected: bool)
      modifies this
      ensures State() == Settle(old(State()), outcome).state
      ensures navigation == Settle(old(State()), outcome).navigation
      ensures rejected == Settle(old(State()), outcome).rejected
    {
      navigation, rejected := None, false;
      match outcome {
        case Fulfilled =>
          navigation := Some(HomePath);
          formLoading := false;
          formSuccess := true;
        case AxiosRejected(message, response) =>
          if response.None? || response.value.data.None? {
            // Destructuring `undefined` or `null` throws out of the catch block.
            rejected := true;
            return;
          }
          var errorMessage := response.value.data.value.error;
          if errorMessage == Some(UserExistsSentinel) {
            formError := AlreadyRegisteredMessage;
          } else {
            formError := if errorMessage.Some? && errorMessage.value != "" then errorMessage.value else message;
          }
          formLoading := false;
          formSuccess := false;
        case OtherRejected =>
          formLoading := false;
          formSuccess := false;
      }
    }

    /** `handleRegisterSubmit`: one whole submission. */
    method HandleRegisterSubmit(inputs: Inputs, outcome: PostOutcome) returns (effects: Effects)
      modifies this
      ensures State() == Submit(old(State()), inputs, outcome).after
      ensures effects == Submit(old(State()), inputs, outcome).effects
    {
      var request := BeginSubmit(inputs);
      if request.None? {
        return NoEffects;
      }
      var navigation, rejected := SettleSubmit(outcome);
      effects := Effects(request, navigation, rejected);
    }
  }
}
