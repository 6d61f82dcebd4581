/** The sign-in / registration form: the username checks made before
    submitting and while typing, the translation of authentication errors
    into messages, the password-reset guard and the mode switch. */
module LoginForm {
  import opened Wrappers
  import opened Text

  /** The shortest username registration accepts. */
  const MinUsernameLength := 3

  /** `/^[a-zA-Z0-9_]+$/.test(u)`. */
  predicate UsernameCharsOk(u: string)
  {
    u != [] && AllWordChars(u)
  }

  const TooShort := "O nome de usuário deve ter pelo menos 3 caracteres"
  const BadChars := "O nome de usuário pode conter apenas letras, números e underscore"
  const BadCharsLive := "Nome de usuário pode conter apenas letras, números e underscore"
  const UsernameTaken := "Este nome de usuário já está em uso"

  /** What pressing the submit button does. */
  datatype Action =
    | Refused(description: string)          // a toast, nothing is sent
    | SignIn(email: string, password: string)
    | RegisterUsername(username: string)

  /** `handleSubmit`: registration checks the length, then the characters,
      then the error left by the live check, refusing at the first failure;
      sign-in checks nothing. */
  function Submit(isLogin: bool, email: string, password: string, username: string, usernameError: string): (r: Action)
    ensures r.Refused? <==> !isLogin && (|username| < MinUsernameLength || !UsernameCharsOk(username) || usernameError != [])
    ensures isLogin ==> r == SignIn(email, password)
    ensures !isLogin && !r.Refused? ==> r == RegisterUsername(username)
    ensures r.Refused? ==> r.description in {TooShort, BadChars, usernameError}
  {
    if !isLogin && |username| < MinUsernameLength then Refused(TooShort)
    else if !isLogin && !UsernameCharsOk(username) then Refused(BadChars)
    else if !isLogin && usernameError != [] then Refused(usernameError)
    else if isLogin then SignIn(email, password)
    else RegisterUsername(username)
  }

  /** The checks are made in order: a short name is reported as short even
      when its characters are also wrong. */
  lemma SubmitReportsFirstFailure(username: string, usernameError: string, email: string, password: string)
    requires |username| < MinUsernameLength
    ensures Submit(false, email, password, username, usernameError) == Refused(TooShort)
  {
  }

  // ---------------------------------------------------------------
  // Error messages
  // ---------------------------------------------------------------

  const GenericError := "Ocorreu um erro. Por favor, tente novamente."
  const WrongCredentials := "Email ou senha incorretos. Por favor, verifique suas credenciais."
  const UserNotFound := "Usuário não encontrado. Verifique seu email ou crie uma conta."
  const EmailInUse := "Este email já está sendo utilizado por outra conta."
  const WeakPassword := "Sua senha é muito fraca. Por favor, escolha uma senha mais forte."
  const InvalidEmail := "Email inválido. Por favor, verifique o formato do email."
  const TooManyRequests := "Muitas tentativas de login. Por favor, tente novamente mais tarde."

  /** A thrown authentication error: its code (empty when absent) and its
      message, which may be absent. */
  datatype AuthError = AuthError(code: string, message: Option<string>)

  /** The error is reported under `key`: its code is `auth/<key>` or its
      message mentions `key`. */
  predicate Reports(e: AuthError, key: string)
  {
    e.code == "auth/" + key || (e.message.Some? && Includes(e.message.value, key))
  }

  const InvalidCredential := "invalid-credential"
  const WrongPassword := "wrong-password"
  const NoSuchUser := "user-not-found"
  const EmailAlreadyInUse := "email-already-in-use"
  const PasswordTooWeak := "weak-password"
  const MalformedEmail := "invalid-email"
  const RateLimited := "too-many-requests"

  /** The translation chain as written: six tests in order, then the
      generic message. */
  function ErrorMessage(e: AuthError): (r: string)
  {
    if Reports(e, InvalidCredential) || Reports(e, WrongPassword) then WrongCredentials
    else if Reports(e, NoSuchUser) then UserNotFound
    else if Reports(e, EmailAlreadyInUse) then EmailInUse
    else if Reports(e, PasswordTooWeak) then WeakPassword
    else if Reports(e, MalformedEmail) then InvalidEmail
    else if Reports(e, RateLimited) then TooManyRequests
    else GenericError
  }

  /** One row of the translation table: the keys it recognises and its message. */
  datatype Clause = Clause(keys: seq<string>, text: string)

  /** The translation table, in the order the chain tests it, built from
      its tails. */
  const FromRateLimited: seq<Clause> := [Clause([RateLimited], TooManyRequests)]
  const FromMalformedEmail: seq<Clause> := [Clause([MalformedEmail], InvalidEmail)] + FromRateLimited
  const FromWeakPassword: seq<Clause> := [Clause([PasswordTooWeak], WeakPassword)] + FromMalformedEmail
  const FromEmailInUse: seq<Clause> := [Clause([EmailAlreadyInUse], EmailInUse)] + FromWeakPassword
  const FromUserNotFound: seq<Clause> := [Clause([NoSuchUser], UserNotFound)] + FromEmailInUse
  const Clauses: seq<Clause> := [Clause([InvalidCredential, WrongPassword], WrongCredentials)] + FromUserNotFound

  predicate ClauseMatches(c: Clause, e: AuthError)
  {
    exists k :: 0 <= k < |c.keys| && Reports(e, c.keys[k])
  }

  /** A first-match lookup over a table: the message of the earliest clause
      the error matches, or the generic message. */
  function FirstMatch(table: seq<Clause>, e: AuthError): (r: string)
    ensures (forall i :: 0 <= i < |table| ==> !ClauseMatches(table[i], e)) ==> r == GenericError
    ensures forall i :: 0 <= i < |table| && ClauseMatches(table[i], e) ==>
      (forall j :: 0 <= j < i ==> !ClauseMatches(table[j], e)) ==> r == table[i].text
  {
    if table == [] then GenericError
    else if ClauseMatches(table[0], e) then table[0].text
    else
      assert forall i :: 1 <= i < |table| ==> table[i] == table[1..][i - 1];
      FirstMatch(table[1..], e)
  }

  /** One step of the lookup: the first row decides, or the rest does. */
  lemma FirstMatchStep(c: Clause, rest: seq<Clause>, e: AuthError)
    ensures FirstMatch([c] + rest, e) == if ClauseMatches(c, e) then c.text else FirstMatch(rest, e)
  {
    assert ([c] + rest)[0] == c && ([c] + rest)[1..] == rest;
  }

  lemma OneKey(c: Clause, e: AuthError, key: string)
    requires c.keys == [key]
    ensures ClauseMatches(c, e) <==> Reports(e, key)
  {
    if Reports(e, key) {
      assert Reports(e, c.keys[0]);
    }
  }

  lemma TwoKeys(c: Clause, e: AuthError, a: string, b: string)
    requires c.keys == [a, b]
    ensures ClauseMatches(c, e) <==> Reports(e, a) || Reports(e, b)
  {
    if Reports(e, a) {
      assert Reports(e, c.keys[0]);
    }
    if Reports(e, b) {
      assert Reports(e, c.keys[1]);
    }
  }

  /** The chain in the component is the first-match lookup over the table. */
  lemma {:induction false} ErrorMessageIsFirstMatch(e: AuthError)
    ensures ErrorMessage(e) == FirstMatch(Clauses, e)
  {
    var c := Clause([InvalidCredential, WrongPassword], WrongCredentials);
    TwoKeys(c, e, InvalidCredential, WrongPassword);
    FirstMatchStep(c, FromUserNotFound, e);
    c := Clause([NoSuchUser], UserNotFound);
    OneKey(c, e, NoSuchUser);
    FirstMatchStep(c, FromEmailInUse, e);
    c := Clause([EmailAlreadyInUse], EmailInUse);
    OneKey(c, e, EmailAlreadyInUse);
    FirstMatchStep(c, FromWeakPassword, e);
    c := Clause([PasswordTooWeak], WeakPassword);
    OneKey(c, e, PasswordTooWeak);
    FirstMatchStep(c, FromMalformedEmail, e);
    c := Clause([MalformedEmail], InvalidEmail);
    OneKey(c, e, MalformedEmail);
    FirstMatchStep(c, FromRateLimited, e);
    c := Clause([RateLimited], TooManyRequests);
    OneKey(c, e, RateLimited);
    FirstMatchStep(c, [], e);
    assert FromRateLimited == [c] + [];
  }

  /** An error reporting none of the known keys gets the generic message. */
  lemma UnknownErrorIsGeneric(e: AuthError)
    requires forall i, k :: 0 <= i < |Clauses| && 0 <= k < |Clauses[i].keys| ==> !Reports(e, Clauses[i].keys[k])
    ensures ErrorMessage(e) == GenericError
  {
    ErrorMessageIsFirstMatch(e);
  }

  // ---------------------------------------------------------------
  // Password reset
  // ---------------------------------------------------------------

  /** `handleForgotPassword`: the address a reset email is requested for;
      with an empty email field only a warning is shown. */
  function ResetRequest(email: string): (r: Option<string>)
    ensures r.None? <==> email == []
    ensures r.Some? ==> r.value == email
  {
    if email == [] then None else Some(email)
  }

  // ---------------------------------------------------------------
  // The form state
  // ---------------------------------------------------------------

  class Form {
    var isLogin: bool
    var username: string
    var usernameError: string

    constructor()
      ensures isLogin && username == [] && usernameError == []
    {
      isLogin, username, usernameError := true, "", "";
    }

    /** `handleUsernameChange`: in registration mode a name of at least three
        characters is checked, the error is cleared, a bad character is
        reported without asking the server, and otherwise `available` is the
        server's answer (`None` when the request fails, which leaves no
        error). In sign-in mode, or for a shorter name, only the text changes. */
    method UsernameChange(newUsername: string, available: Option<bool>) returns (askedServer: bool)
      modifies this`username, this`usernameError
      ensures username == newUsername
      ensures askedServer <==> !isLogin && |newUsername| >= MinUsernameLength && UsernameCharsOk(newUsername)
      ensures isLogin || |newUsername| < MinUsernameLength ==> usernameError == old(usernameError)
      ensures !isLogin && |newUsername| >= MinUsernameLength && !UsernameCharsOk(newUsername) ==>
        usernameError == BadCharsLive
      ensures askedServer ==> usernameError == if available == Some(false) then UsernameTaken else ""
    {
      username := newUsername;
      askedServer := false;
      if !isLogin && |newUsername| >= MinUsernameLength {
        usernameError := "";
        if !UsernameCharsOk(newUsername) {
          usernameError := BadCharsLive;
          return;
        }
        askedServer := true;
        if available == Some(false) {
          usernameError := UsernameTaken;
        }
      }
    }

    /** The link switching between sign-in and registration; it clears the
        username error. */
    method SwitchMode()
      modifies this`isLogin, this`usernameError
      ensures isLogin == !old(isLogin) && usernameError == ""
    {
      isLogin := !isLogin;
      usernameError := "";
    }
  }
}
