/** The registration form: its validator and the payload handed to `register`. */
module RegisterPage {
  import opened Optional
  import Text
  import FormRules

  datatype Field = UsernameField | EmailField | PasswordField | ConfirmField | AvatarField

  datatype RegisterForm = RegisterForm(
    username: string,
    email: string,
    password: string,
    confirmPassword: string,
    displayName: string,
    avatarUrl: string)

  /** What `register` receives; an absent `avatarUrl` is `undefined`. */
  datatype Payload = Payload(username: string, email: string, password: string, displayName: string, avatarUrl: Option<string>)

  const UsernameRequired := "Username is required"
  const UsernameShort := "Username must be at least 3 characters"
  const EmailRequired := "Email is required"
  const EmailInvalid := "Email is invalid"
  const PasswordRequired := "Password is required"
  const PasswordShort := "Password must be at least 6 characters"
  const PasswordMismatch := "Passwords do not match"
  const AvatarInvalid := "Avatar URL must be a valid URL"
  const MinUsernameLength := 3
  const MinPasswordLength := 6

  /** The form the validator lets through.  The username length is the untrimmed one. */
  predicate FormAcceptable(form: RegisterForm)
  {
    && !Text.Blank(form.username) && Text.Utf16Length(form.username) >= MinUsernameLength
    && !Text.Blank(form.email) && FormRules.EmailLike(form.email)
    && Text.Utf16Length(form.password) >= MinPasswordLength
    && form.password == form.confirmPassword
    && (form.avatarUrl == "" || FormRules.UrlLike(form.avatarUrl))
  }

  /** `validateForm()`: one error per failing field, and whether there was none. */
  method ValidateForm(form: RegisterForm) returns (errors: map<Field, string>, ok: bool)
    ensures ok <==> errors == map[]
    ensures ok <==> FormAcceptable(form)
    ensures UsernameField in errors <==> Text.Blank(form.username) || Text.Utf16Length(form.username) < MinUsernameLength
    ensures UsernameField in errors ==>
              errors[UsernameField] == if Text.Blank(form.username) then UsernameRequired else UsernameShort
    ensures EmailField in errors <==> Text.Blank(form.email) || !FormRules.EmailLike(form.email)
    ensures EmailField in errors ==>
              errors[EmailField] == if Text.Blank(form.email) then EmailRequired else EmailInvalid
    ensures PasswordField in errors <==> Text.Utf16Length(form.password) < MinPasswordLength
    ensures PasswordField in errors ==>
              errors[PasswordField] == if form.password == "" then PasswordRequired else PasswordShort
    ensures ConfirmField in errors <==> form.password != form.confirmPassword
    ensures ConfirmField in errors ==> errors[ConfirmField] == PasswordMismatch
    ensures AvatarField in errors <==> form.avatarUrl != "" && !FormRules.UrlLike(form.avatarUrl)
    ensures AvatarField in errors ==> errors[AvatarField] == AvatarInvalid
  {
    errors := map[];
    Text.TrimEmptyIffBlank(form.username);
    if Text.Trim(form.username) == "" {
      errors := errors[UsernameField := UsernameRequired];
    } else if Text.Utf16Length(form.username) < MinUsernameLength {
      errors := errors[UsernameField := UsernameShort];
    }
    Text.TrimEmptyIffBlank(form.email);
    if Text.Trim(form.email) == "" {
      errors := errors[EmailField := EmailRequired];
    } else if !FormRules.EmailLike(form.email) {
      errors := errors[EmailField := EmailInvalid];
    }
    if form.password == "" {
      errors := errors[PasswordField := PasswordRequired];
    } else if Text.Utf16Length(form.password) < MinPasswordLength {
      errors := errors[PasswordField := PasswordShort];
    }
    if form.password != form.confirmPassword {
      errors := errors[ConfirmField := PasswordMismatch];
    }
    if form.avatarUrl != "" && !FormRules.UrlLike(form.avatarUrl) {
      errors := errors[AvatarField := AvatarInvalid];
    }
    ok := |errors.Keys| == 0;
    if !ok {
      assert errors != map[];
    }
  }

  /** The payload: the username stands in for an empty display name, and an empty
      avatar URL is left out. */
  function SubmitPayload(form: RegisterForm): (p: Payload)
    ensures p.username == form.username && p.email == form.email && p.password == form.password
    ensures p.displayName == if form.displayName == "" then form.username else form.displayName
    ensures p.avatarUrl.None? <==> form.avatarUrl == ""
    ensures p.avatarUrl.Some? ==> p.avatarUrl.value == form.avatarUrl
  {
    Payload(form.username, form.email, form.password,
            if form.displayName != "" then form.displayName else form.username,
            if form.avatarUrl != "" then Some(form.avatarUrl) else None)
  }

  /** An accepted form never submits an empty display name. */
  lemma AcceptedPayloadHasDisplayName(form: RegisterForm)
    requires FormAcceptable(form)
    ensures SubmitPayload(form).displayName != ""
  {
  }

  /** `handleSubmit`: `register` is called, with the payload, only for a valid form. */
  method HandleSubmit(form: RegisterForm) returns (call: Option<Payload>)
    ensures call.Some? <==> FormAcceptable(form)
    ensures call.Some? ==> call.value == SubmitPayload(form)
  {
    var errors, ok := ValidateForm(form);
    if !ok {
      return None;
    }
    call := Some(SubmitPayload(form));
  }
}
