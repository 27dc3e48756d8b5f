# Registration form submit handler, modelled in Dafny

This project models the submit handler of the registration form in
`src/components/register/form.tsx` (`handleRegisterSubmit`). The form owns three
cells of state: `formError`, `formLoading` and `formSuccess`. One submission
does four things in order:

1. It clears the error and raises the loading flag.
2. It reads the e-mail, password and confirmation inputs through their refs.
3. It runs three checks without short-circuit: the e-mail pattern, a minimum
   password length of 8, and equality of the two passwords. Each failing check
   overwrites the error, so the last failing one decides the message.
4. If all checks pass, it sends one POST to `/api/register` and maps the outcome
   onto the three cells. On success it also navigates to `/`.

Modules:

- `JsString` (`js_string.dfy`) gives the UTF-16 view of a JavaScript string.
  `pass1.length` counts UTF-16 code units, and a regular expression without the
  `u` flag matches code unit by code unit. Dafny's `string` holds Unicode scalar
  values, so the model converts explicitly (`Utf16`, `Length`).
- `EmailPattern` (`email_pattern.dfy`) writes out the language of the one fixed
  pattern the form builds (a loose, unanchored take on the `addr-spec` of
  section 3.4.1 of RFC 5322). `Test` is `RegExp.prototype.test`: some substring
  matches. Three details of the code are kept:
  - the `.` of the string literal is unescaped, so it matches any code unit
    except a line terminator;
  - the classes hold lower-case letters only;
  - there are no anchors.

  `TestCharacterized` reduces the search to a local condition around one `@`.
- `Register` (`register_form.dfy`) holds the data model and three declarative
  functions: `Begin` (up to the `await`), `Settle` (after it) and `Submit`
  (both). It also holds the class `RegisterForm`, whose fields are the three
  state cells. Its methods follow the code statement by statement, including
  the `shouldReturnError` flag and the early `return`. Each method is proved to
  end in the state the declarative functions give. That proof is where
  last-write-wins precedence is checked.
- `RegisterProperties` (`register_properties.dfy`) states what one submission
  guarantees, over `Submit`.

The HTTP client and the router are not modelled. The POST's outcome is an input
(`PostOutcome`):

- it is fulfilled;
- it is rejected with an `AxiosError` that has a message and an optional
  response with optional data;
- it is rejected with any other value.

What the handler does outside its state is an output (`Effects`): the request
sent, the path navigated to, and whether the handler itself threw.

Three behaviours of the handler are worth stating on their own:

- The handler clears `formError` and raises `formLoading` at `form.tsx:35-36`,
  before it reads the refs or validates anything.
- A null input ref ends the handler with `formLoading` still true
  (`form.tsx:42-46`). `UnmountedStaysLoading` states this.
- An `AxiosError` without a response, or whose response data is null or
  undefined, makes the destructuring at `form.tsx:87-88` throw. The resets at
  `:98-99` are then skipped, `formLoading` stays true and the handler's promise
  rejects. `UnreadableResponseThrows` and `LoadingOnlyWhenUnfinished` state this.

## Model

| member | source | states |
|---|---|---|
| `JsString.EncodeChar` | src/components/register/form.tsx:58 | a scalar value is stored as itself when it lies in the Basic Multilingual Plane, else as a high and a low surrogate from which it is recovered |
| `JsString.LengthCountsSurrogatePairs` | src/components/register/form.tsx:58 | `pass1.length` is the number of characters plus the number of characters outside the Basic Multilingual Plane; it lies between `|s|` and `2|s|` and equals `|s|` exactly for Basic Multilingual Plane strings |
| `JsString.Utf16Injective` | src/components/register/form.tsx:63 | two strings with the same code units are equal |
| `JsString.StrictEquality` | src/components/register/form.tsx:63 | `pass1 !== pass2`, a comparison of code units, decides the same as `!=` on the model's strings |
| `JsString.Utf16ContainsBmpChar` | src/components/register/form.tsx:39 | a character below the surrogate range occurs in a string exactly when its code unit occurs in the encoding |
| `EmailPattern.TestCharacterized` | src/components/register/form.tsx:38-40 | the unanchored test succeeds exactly when some `@` has a local-part character right before it and, right after it, a label, one code unit that is not a line terminator, and an alphanumeric |
| `EmailPattern.AnchorIsMatch` | src/components/register/form.tsx:38-40 | such an `@` and its neighbours form a match: the substring that starts at the local-part character before the `@` and ends after the domain's second label matches the whole pattern |
| `EmailPattern.MatchHasAnchor` | src/components/register/form.tsx:38-40 | every substring that matches the whole pattern has such an `@` inside it, which is also such an `@` of the whole string |
| `EmailPattern.NoAtSignRejected` | src/components/register/form.tsx:53 | an e-mail value without `@` fails the check |
| `EmailPattern.AcceptedShape` | src/components/register/form.tsx:39 | an accepted value has an `@` with a local-part character before it and at least three code units after it, the first of them `[a-z0-9]` and a later one, two or more further on, `[a-z0-9]` |
| `EmailPattern.ShortestMatch` | src/components/register/form.tsx:39 | a local-part character, `@`, `[a-z0-9]`, any non-line-terminator, `[a-z0-9]` in a row are enough to pass |
| `EmailPattern.SurroundingTextIgnored` | src/components/register/form.tsx:38-40 | text before and after an accepted value never makes it fail |
| `EmailPattern.TypicalAddressAccepted` | src/components/register/form.tsx:39 | `user@example.com` passes |
| `EmailPattern.UpperCaseAddressRejected` | src/components/register/form.tsx:39 | `USER@EXAMPLE.COM` fails, because the classes hold lower-case letters only |
| `EmailPattern.DotlessDomainAccepted` | src/components/register/form.tsx:39 | `a@bcd` passes, because the unescaped `.` matches any code unit |
| `EmailPattern.LineBreakInDomainRejected` | src/components/register/form.tsx:39 | `a@b` newline `c` fails, because `.` does not match a line terminator |
| `JsString.Utf16` | src/components/register/form.tsx:47-49 | the code units JavaScript stores for an input's `value`: each character's UTF-16 encoding, in order |
| `JsString.Length` | src/components/register/form.tsx:58 | `pass1.length`: the number of code units of the string |
| `EmailPattern.Test` | src/components/register/form.tsx:38-40 | `emailReg.test`: some substring of the code units matches the pattern from end to end |
| `EmailPattern.Accepts` | src/components/register/form.tsx:53 | the e-mail check: the pattern test run on the value's code units |
| `Register.ValidationError` | src/components/register/form.tsx:51-66 | the message the three overwriting checks leave, or none when all pass |
| `Register.ServerError` | src/components/register/form.tsx:87-88 | the `error` field of `error.response?.data`, or none when destructuring it throws |
| `Register.AxiosErrorMessage` | src/components/register/form.tsx:90-95 | the message shown for an `AxiosError` whose data was read |
| `Register.Begin` | src/components/register/form.tsx:35-79 | the state and the request once the handler reaches its `await` or returns before it |
| `Register.Settle` | src/components/register/form.tsx:81-99 | the state, navigation and throw once the request settles |
| `Register.Submit` | src/components/register/form.tsx:32-104 | one whole submission: `Begin`, then `Settle` when a request went out |
| `Register.RegisterForm.constructor` | src/components/register/form.tsx:28-30 | the cells start as `""`, `false`, `false` |
| `Register.RegisterForm.BeginSubmit` | src/components/register/form.tsx:34-79 | the sequential reset, ref check and three overwriting checks end in the state and request that `Begin` gives, which puts the mismatch message above the length message above the e-mail message |
| `Register.RegisterForm.SettleSubmit` | src/components/register/form.tsx:81-99 | the `try` body and the `catch` block end in the state, navigation and throw that `Settle` gives |
| `Register.RegisterForm.HandleRegisterSubmit` | src/components/register/form.tsx:32-104 | one whole submission ends in the state and effects that `Submit` gives |
| `RegisterProperties.InFlightState` | src/components/register/form.tsx:35-36 | while a request is in flight the error is empty, loading is true and success is unchanged |
| `RegisterProperties.UnmountedStaysLoading` | src/components/register/form.tsx:42-46 | with a null ref nothing is sent and the form ends with an empty error and loading still true |
| `RegisterProperties.ErrorPrecedence` | src/components/register/form.tsx:53-66 | the message is the mismatch message exactly when the passwords differ; else the length message exactly when the password has fewer than 8 code units; else the e-mail message exactly when the pattern fails; validation passes exactly when all three checks pass |
| `RegisterProperties.InvalidInputSendsNothing` | src/components/register/form.tsx:68-72 | a failed validation sends no request and ends with its message, loading false and success false |
| `RegisterProperties.RequestExactlyWhenValid` | src/components/register/form.tsx:74-79 | a request goes out exactly when the refs are attached and validation passes; it is a POST to `/api/register` with body `{email, password: pass1, password2: pass2}` |
| `RegisterProperties.FulfilledNavigatesHome` | src/components/register/form.tsx:81-84 | a fulfilled request navigates to `/` and ends with an empty error, loading false and success true |
| `RegisterProperties.AxiosErrorShown` | src/components/register/form.tsx:86-99 | an `AxiosError` with readable data ends with loading and success false and the message `AxiosErrorMessage` picks |
| `RegisterProperties.AxiosErrorMessageChoice` | src/components/register/form.tsx:90-95 | the sentinel `user already exists` gives the fixed already-registered hint; any other non-empty server text is shown as is; no or empty server text gives the error's `message` |
| `RegisterProperties.AxiosErrorMessageEmpty` | src/components/register/form.tsx:90-95 | the shown message is empty exactly when the server sent no or empty text and the error's `message` is empty |
| `RegisterProperties.OtherRejectionResets` | src/components/register/form.tsx:85-99 | a rejection that is not an `AxiosError` leaves the error empty and ends with loading and success false |
| `RegisterProperties.UnreadableResponseThrows` | src/components/register/form.tsx:86-88 | an `AxiosError` with no response or null or undefined data throws, leaving loading true and success unchanged |
| `RegisterProperties.LoadingOnlyWhenUnfinished` | src/components/register/form.tsx:35-99 | loading is still true after a submission exactly when a ref was null or the handler threw |
| `RegisterProperties.RejectsOnlyOnUnreadableResponse` | src/components/register/form.tsx:85-99 | the handler throws exactly when its request was rejected with an `AxiosError` whose data cannot be destructured |
| `RegisterProperties.NavigatesOnlyWhenFulfilled` | src/components/register/form.tsx:81 | the form navigates exactly when its request was fulfilled, and only to `/` |
| `RegisterProperties.SuccessExplained` | src/components/register/form.tsx:70-99 | success is shown exactly after a fulfilled request, or when it was shown before and loading was never reset; whenever success is shown the error is empty |
| `RegisterProperties.ValidSubmissionScenarios` | src/components/register/form.tsx:74-99 | `user@example.com` with password `longenough1` twice: fulfilled gives success and navigation to `/`; the sentinel gives the already-registered hint; `something else` is shown as is |

## Left out

- The JSX (`form.tsx:106-173`) is not modelled. This includes the button
  disabled while loading, the spinner, and the success panel that shows
  `formError` under an error heading. It is rendering with nothing to state.
- `event.preventDefault()` (`form.tsx:34`) is a DOM effect and is not modelled.
- The axios transport and `router.push` are outside the model. The request's
  outcome is an input, and `router.push` is assumed not to throw. If it threw,
  the `catch` block would treat that like any non-`AxiosError` value.
- `RegisterResponse` comes from `@/app/api/register/route`, which is not part of
  this model. Response data is either null/undefined or has an `error` field
  that is a string or absent. A non-string `error` value is not modelled.
- React hooks (`useRef`, `useState`, `useCallback`) are not modelled. Refs are
  the optional values of the inputs, and state setters are plain assignments,
  the last one winning.
- Concurrency is not modelled: a second submission while a request is in
  flight, unmounting during a request, and renders between the two halves of
  the handler. `BeginSubmit` and `SettleSubmit` are called back to back.
- Input values are modelled as Dafny strings of Unicode scalar values, so the
  model covers well-formed UTF-16 values only. A JavaScript string can hold an
  unpaired surrogate, for example a `value` set by script. What
  `pass1.length`, `!==` and the pattern's `.` do on such a value is not
  modelled.
- A general regular-expression engine is not modelled. Only the one fixed
  pattern of `form.tsx:39` is written out.
