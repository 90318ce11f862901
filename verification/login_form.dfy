/**
 * The sign-in form: a blank-field check before any request, the error text
 * shown after a failed sign-in, the loading flag around the request and the
 * password-visibility toggle.
 */
module LoginForm {
  import opened Wrappers
  import opened Domain
  import opened Http
  import Text
  import AuthMiddleware
  import AuthController
  import ClientErrors

  datatype FormState = FormState(
    username: string, password: string, showPassword: bool, error: string, isLoading: bool, signedIn: bool)

  const Initial: FormState := FormState("", "", false, "", false, false)

  const BlankFieldsError: string := "Please enter both username and password"
  const FallbackError: string := "Login failed. Please try again."

  /** The credentials a submit sends, exactly as typed (they are not trimmed). */
  datatype Credentials = Credentials(username: string, password: string)

  /** The first half of `handleSubmit`: either the form stops with the blank-field error, or a request goes out. */
  datatype Start = Blocked(state: FormState) | Sent(state: FormState, credentials: Credentials)

  /**
   * A field that trims to nothing blocks the submit with the blank-field
   * error and no request; otherwise the error is cleared, loading starts and
   * the untrimmed fields are sent.
   */
  function Submit(s: FormState): (r: Start)
    ensures r.Blocked? <==> Text.Trim(s.username) == [] || Text.Trim(s.password) == []
    ensures r.Blocked? ==> r.state == s.(error := BlankFieldsError)
    ensures r.Sent? ==> r.state == s.(error := "", isLoading := true) && r.credentials == Credentials(s.username, s.password)
  {
    if Text.Trim(s.username) == [] || Text.Trim(s.password) == [] then Blocked(s.(error := BlankFieldsError))
    else Sent(s.(error := "", isLoading := true), Credentials(s.username, s.password))
  }

  /** Fields made only of white space never reach the server. */
  lemma {:induction false} BlankFieldsNeverSent(s: FormState)
    requires forall i :: 0 <= i < |s.password| ==> Text.IsSpace(s.password[i])
    ensures Submit(s).Blocked? && Submit(s).state.error == BlankFieldsError
  {
    Text.TrimEmptyIff(s.password);
  }

  /** A password of no-break spaces or byte-order marks is blank to `trim()` too, and is never sent. */
  lemma {:induction false} UnicodeBlankPasswordNeverSent(s: FormState)
    requires forall i :: 0 <= i < |s.password| ==> s.password[i] == '\U{A0}' || s.password[i] == '\U{FEFF}'
    ensures Submit(s).Blocked?
  {
    Text.TrimEmptyIff(s.password);
  }

  /** A name typed with a trailing space is sent with it, and the server finds no such user. */
  lemma PaddedNameIsSent(s: FormState, users: seq<User>, crypto: AuthController.Crypto, jwt: AuthMiddleware.Jwt)
    requires Text.Trim(s.password) != []
    requires s.username != [] && !Text.IsSpace(s.username[0]) && s.username[|s.username| - 1] == ' '
    requires forall i :: 0 <= i < |users| ==> users[i].username != s.username
    ensures Submit(s).Sent? && Submit(s).credentials.username == s.username
    ensures AuthController.Login(Some(s.username), Some(s.password), users, crypto, jwt, None) ==
      Failure(401, "Invalid credentials", None)
  {
    var t := Text.TrimStart(s.username);
    assert t == s.username;
    assert Text.Trim(s.username) != [] by {
      assert Text.IsSpace(s.username[|s.username| - 1]);
      assert !Text.IsSpace(s.username[0]);
    }
  }

  /** The alert text: `error.response?.data?.message || error.message || "Login failed. Please try again."`. */
  function ErrorText(e: ClientErrors.RequestError): (t: string)
    ensures t != ""
    ensures ClientErrors.Truthy(e.dataMessage) ==> t == e.dataMessage.value
    ensures !ClientErrors.Truthy(e.dataMessage) && e.message != "" ==> t == e.message
    ensures !ClientErrors.Truthy(e.dataMessage) && e.message == "" ==> t == FallbackError
  {
    if ClientErrors.Truthy(e.dataMessage) then e.dataMessage.value
    else if e.message != "" then e.message
    else FallbackError
  }

  /**
   * The second half of `handleSubmit`, once the sign-in has settled:
   * success moves on to the home page, failure shows the error text; either
   * way loading ends.
   */
  function Settle(s: FormState, outcome: Result<(), ClientErrors.RequestError>): (r: FormState)
    ensures !r.isLoading
    ensures outcome.Ok? ==> r == s.(isLoading := false, signedIn := true)
    ensures outcome.Err? ==> r == s.(isLoading := false, error := ErrorText(outcome.error))
  {
    if outcome.Ok? then s.(isLoading := false, signedIn := true)
    else s.(isLoading := false, error := ErrorText(outcome.error))
  }

  /**
   * The server's "Invalid credentials" is never what the form shows: its
   * error body has no `message`, so the HTTP client's own text appears.
   */
  lemma RejectedSignInShowsClientText(s: FormState, users: seq<User>, crypto: AuthController.Crypto,
                                      jwt: AuthMiddleware.Jwt, clientMessage: string)
    requires Submit(s).Sent?
    requires AuthController.Login(Some(s.username), Some(s.password), users, crypto, jwt, None).Failure?
    ensures
      var r := AuthController.Login(Some(s.username), Some(s.password), users, crypto, jwt, None);
      Settle(Submit(s).state, Err(ClientErrors.FromFailure(r, clientMessage))).error ==
        (if clientMessage != "" then clientMessage else FallbackError)
  {
  }

  /** A stored user who types their name and password exactly is signed in by the server. */
  lemma {:induction false} CorrectCredentialsSignIn(s: FormState, users: seq<User>, i: nat,
                                                    crypto: AuthController.Crypto, jwt: AuthMiddleware.Jwt)
    requires UniqueUsernames(users) && i < |users|
    requires AuthController.SoundCrypto(crypto)
    requires s.username == users[i].username && crypto.hash(s.password) == users[i].passwordHash
    requires Text.Trim(s.username) != [] && Text.Trim(s.password) != []
    ensures Submit(s).Sent?
    ensures AuthController.Login(Some(Submit(s).credentials.username), Some(Submit(s).credentials.password),
                                 users, crypto, jwt, None).Reply?
  {
    AuthController.LoginWithRightPassword(users, i, s.password, crypto, jwt);
  }

  /** `handleTogglePassword`: flip visibility. */
  function TogglePassword(s: FormState): (r: FormState)
    ensures r.showPassword == !s.showPassword
    ensures r.(showPassword := s.showPassword) == s
  {
    s.(showPassword := !s.showPassword)
  }

  /** The password field's type. */
  function PasswordFieldType(s: FormState): (t: string)
    ensures s.showPassword <==> t == "text"
    ensures !s.showPassword <==> t == "password"
  {
    if s.showPassword then "text" else "password"
  }

  lemma ToggleTwice(s: FormState)
    ensures TogglePassword(TogglePassword(s)) == s
    ensures PasswordFieldType(TogglePassword(s)) != PasswordFieldType(s)
  {
  }

  /** The button: disabled and relabelled while signing in. */
  function ButtonText(s: FormState): (t: string)
    ensures s.isLoading ==> t == "Signing in..."
    ensures !s.isLoading ==> t == "Sign In"
  {
    if s.isLoading then "Signing in..." else "Sign In"
  }

  /** A sent submit disables the button until it settles. */
  lemma SubmitDisablesUntilSettled(s: FormState, outcome: Result<(), ClientErrors.RequestError>)
    requires Submit(s).Sent?
    ensures Submit(s).state.isLoading && ButtonText(Submit(s).state) == "Signing in..."
    ensures ButtonText(Settle(Submit(s).state, outcome)) == "Sign In"
  {
  }
}
