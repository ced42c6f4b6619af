/** The admin login page (src/pages/AdminLogin.jsx): a two-field form, its
    validator, its change handler and the submit step around the login request.
    React state is modelled as a record, and each handler as a transition from
    the old record to the new one. */
module AdminLogin {
  import opened Wrappers
  import opened JsText
  import opened JsObject

  /** The two inputs, by their `name` attribute. */
  datatype LoginField = Username | Password

  datatype LoginForm = LoginForm(username: string, password: string)

  /** The page's state: the form, the per-field messages, the message under the
      form, and whether a request is in flight. */
  datatype LoginState = LoginState(
    form: LoginForm,
    fieldErrors: map<LoginField, string>,
    submitError: string,
    loading: bool)

  const UsernameRequired := "Username is required"
  const UsernameTooShort := "Username must be at least 3 characters"
  const PasswordRequired := "Password is required"
  const PasswordTooShort := "Password must be at least 6 characters"
  const LoginFailedFallback := "Invalid username or password"

  function InitialState(): (s: LoginState)
    ensures s.form.username == "" && s.form.password == ""
    ensures s.fieldErrors == map[] && s.submitError == "" && !s.loading
  {
    LoginState(LoginForm("", ""), map[], "", false)
  }

  function FieldValue(form: LoginForm, field: LoginField): string {
    match field
    case Username => form.username
    case Password => form.password
  }

  /** The rule for the username: the message it earns, if any. "Required" is
      tested first, on the trimmed text, so it wins over the length test, which
      counts the untrimmed text. */
  function UsernameRule(username: string): Option<string> {
    if IsBlank(username) then Some(UsernameRequired)
    else if |username| < 3 then Some(UsernameTooShort)
    else None
  }

  /** The rule for the password, which is never trimmed. */
  function PasswordRule(password: string): Option<string> {
    if password == "" then Some(PasswordRequired)
    else if |password| < 6 then Some(PasswordTooShort)
    else None
  }

  /** The rule table. */
  function FieldRule(form: LoginForm, field: LoginField): Option<string> {
    match field
    case Username => UsernameRule(form.username)
    case Password => PasswordRule(form.password)
  }

  /** One check of the validator: a failing rule records its message for the
      field, a passing one leaves the map as it was. */
  function Check(errors: map<LoginField, string>, field: LoginField, rule: Option<string>): map<LoginField, string> {
    match rule
    case Some(message) => errors[field := message]
    case None => errors
  }

  /** The error map the validator produces: the username check, then the
      password check, on an empty map. */
  function LoginErrors(form: LoginForm): map<LoginField, string> {
    Check(Check(map[], Username, UsernameRule(form.username)), Password, PasswordRule(form.password))
  }

  /** What a form must satisfy to be sent: a non-blank username of at least three
      characters and a password of at least six. */
  predicate Acceptable(form: LoginForm) {
    !IsBlank(form.username) && |form.username| >= 3 && |form.password| >= 6
  }

  /** `validateFields`: fills a fresh error object field by field and reports
      whether it stayed empty. */
  method ValidateFields(form: LoginForm) returns (errors: map<LoginField, string>, ok: bool)
    ensures errors == LoginErrors(form)
    ensures ok <==> errors == map[]
    ensures ok <==> Acceptable(form)
  {
    errors := map[];
    if IsBlank(form.username) {
      errors := errors[Username := UsernameRequired];
    } else if |form.username| < 3 {
      errors := errors[Username := UsernameTooShort];
    }
    assert errors == Check(map[], Username, UsernameRule(form.username));
    ghost var usernameErrors := errors;
    if form.password == "" {
      errors := errors[Password := PasswordRequired];
    } else if |form.password| < 6 {
      errors := errors[Password := PasswordTooShort];
    }
    assert errors == Check(usernameErrors, Password, PasswordRule(form.password));
    ok := KeyCount(errors) == 0;
    NoErrorsIffAcceptable(form);
  }

  /** The entry of a field in the error map is the field's rule. */
  lemma LoginErrorsAt(form: LoginForm, f: LoginField)
    ensures f in LoginErrors(form) <==> FieldRule(form, f).Some?
    ensures f in LoginErrors(form) ==> LoginErrors(form)[f] == FieldRule(form, f).value
  {
  }

  /** A blank username earns exactly "Username is required", whatever its length. */
  lemma BlankUsernameIsRequired(form: LoginForm)
    requires IsBlank(form.username)
    ensures Username in LoginErrors(form)
    ensures LoginErrors(form)[Username] == UsernameRequired
  {
    assert FieldRule(form, Username).Some?;
  }

  /** A non-blank username shorter than three characters earns the length message;
      the length counts the untrimmed text, so surrounding spaces count. */
  lemma ShortUsernameIsTooShort(form: LoginForm)
    requires !IsBlank(form.username) && |form.username| < 3
    ensures Username in LoginErrors(form)
    ensures LoginErrors(form)[Username] == UsernameTooShort
  {
    assert FieldRule(form, Username).Some?;
  }

  /** The username has no error exactly when it is non-blank and at least three
      characters long. */
  lemma UsernameClean(form: LoginForm)
    ensures Username !in LoginErrors(form) <==> !IsBlank(form.username) && |form.username| >= 3
  {
    assert Username in LoginErrors(form) <==> FieldRule(form, Username).Some?;
  }

  /** An empty password earns "Password is required", a shorter one than six
      characters the length message, and the password is never trimmed: a
      password of six spaces has no error. */
  lemma PasswordMessages(form: LoginForm)
    ensures form.password == "" ==>
      Password in LoginErrors(form) && LoginErrors(form)[Password] == PasswordRequired
    ensures form.password != "" && |form.password| < 6 ==>
      Password in LoginErrors(form) && LoginErrors(form)[Password] == PasswordTooShort
    ensures |form.password| >= 6 ==> Password !in LoginErrors(form)
  {
    assert Password in LoginErrors(form) <==> FieldRule(form, Password).Some?;
  }

  lemma SpacesArePassword()
    ensures Password !in LoginErrors(LoginForm("admin", "      "))
  {
    PasswordMessages(LoginForm("admin", "      "));
  }

  /** Every message the validator produces is one of the field's own two, and the
      two fields are the only keys. */
  lemma ErrorsAreFieldMessages(form: LoginForm)
    ensures LoginErrors(form).Keys <= {Username, Password}
    ensures Username in LoginErrors(form) ==>
      LoginErrors(form)[Username] in {UsernameRequired, UsernameTooShort}
    ensures Password in LoginErrors(form) ==>
      LoginErrors(form)[Password] in {PasswordRequired, PasswordTooShort}
  {
    LoginErrorsAt(form, Username);
    LoginErrorsAt(form, Password);
  }

  /** The error map is empty exactly when the form is acceptable. */
  lemma NoErrorsIffAcceptable(form: LoginForm)
    ensures LoginErrors(form) == map[] <==> Acceptable(form)
  {
    UsernameClean(form);
    PasswordMessages(form);
    if LoginErrors(form) != map[] {
      var f :| f in LoginErrors(form);
      assert FieldRule(form, f).Some?;
    }
  }

  /** `handleChange`: stores the typed value in the named field, sets that field's
      message to the empty string and clears the message under the form. */
  function HandleChange(s: LoginState, field: LoginField, value: string): (s': LoginState)
    ensures FieldValue(s'.form, field) == value
    ensures forall g :: g != field ==> FieldValue(s'.form, g) == FieldValue(s.form, g)
    ensures s'.fieldErrors.Keys == s.fieldErrors.Keys + {field}
    ensures s'.fieldErrors[field] == ""
    ensures forall g :: g in s.fieldErrors && g != field ==> s'.fieldErrors[g] == s.fieldErrors[g]
    ensures s'.submitError == "" && s'.loading == s.loading
  {
    var form := match field
      case Username => s.form.(username := value)
      case Password => s.form.(password := value);
    s.(form := form, fieldErrors := s.fieldErrors[field := ""], submitError := "")
  }

  /** A message is shown under a field when its entry is present and non-empty. */
  predicate ShowsError(errors: map<LoginField, string>, field: LoginField) {
    field in errors && errors[field] != ""
  }

  /** After a change the edited field shows no message and the other field shows
      the same as before; changing the same field to the same value twice is the
      same as once. */
  lemma ChangeHidesOnlyThatError(s: LoginState, field: LoginField, other: LoginField, value: string)
    requires other != field
    ensures !ShowsError(HandleChange(s, field, value).fieldErrors, field)
    ensures ShowsError(HandleChange(s, field, value).fieldErrors, other) <==> ShowsError(s.fieldErrors, other)
    ensures HandleChange(HandleChange(s, field, value), field, value) == HandleChange(s, field, value)
  {
  }

  /** The answer to the login request. A rejection carries the server's message,
      when the error response has one. */
  datatype LoginResponse = Accepted(token: string) | Rejected(message: Option<string>)

  /** What a submit does beyond the state: nothing, storing the token and opening
      the dashboard, or showing the failure. */
  datatype SubmitEffect = NotSent | StoreTokenAndOpenDashboard(token: string) | ShowFailure

  /** `err?.response?.data?.message || fallback`: a missing or empty server message
      is replaced by the fixed one, so the message shown is never empty. */
  function SubmitErrorMessage(serverMessage: Option<string>): (m: string)
    ensures m != ""
    ensures serverMessage.Some? && serverMessage.value != "" ==> m == serverMessage.value
    ensures serverMessage.None? || serverMessage.value == "" ==> m == LoginFailedFallback
  {
    if serverMessage.Some? && serverMessage.value != "" then serverMessage.value
    else LoginFailedFallback
  }

  /** `handleSubmit`: the field messages become the validator's; an invalid form
      stops there with no request. Otherwise the request is sent with the form,
      and `response` is its outcome: on acceptance the token is stored and the
      dashboard opened, on rejection the message is shown. Either way loading ends. */
  method HandleSubmit(s: LoginState, response: LoginResponse) returns (s': LoginState, effect: SubmitEffect)
    ensures s'.form == s.form
    ensures s'.fieldErrors == LoginErrors(s.form)
    ensures effect.NotSent? <==> !Acceptable(s.form)
    ensures effect.NotSent? ==> s'.submitError == s.submitError && s'.loading == s.loading
    ensures !effect.NotSent? ==> !s'.loading
    ensures !effect.NotSent? && response.Accepted? ==>
      effect == StoreTokenAndOpenDashboard(response.token) && s'.submitError == ""
    ensures !effect.NotSent? && response.Rejected? ==>
      effect == ShowFailure && s'.submitError == SubmitErrorMessage(response.message)
  {
    var errors, ok := ValidateFields(s.form);
    s' := s.(fieldErrors := errors);
    if !ok {
      effect := NotSent;
      return;
    }
    s' := s'.(loading := true, submitError := "");
    match response {
      case Accepted(token) =>
        effect := StoreTokenAndOpenDashboard(token);
      case Rejected(message) =>
        s' := s'.(submitError := SubmitErrorMessage(message));
        effect := ShowFailure;
    }
    s' := s'.(loading := false);
  }
}
