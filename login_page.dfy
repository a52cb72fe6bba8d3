/** The login form: its validator and where a successful login leads. */
module LoginPage {
  import opened Optional
  import opened ClientTypes
  import Text
  import FormRules

  datatype Field = EmailField | PasswordField

  const EmailRequired := "Email is required"
  const EmailInvalid := "Email is invalid"
  const PasswordRequired := "Password is required"
  const PasswordShort := "Password must be at least 6 characters"
  const MinPasswordLength := 6

  predicate CredentialsAcceptable(email: string, password: string)
  {
    !Text.Blank(email) && FormRules.EmailLike(email) && Text.Utf16Length(password) >= MinPasswordLength
  }

  /** `validateForm()`: at most one error per field, and whether there was none. */
  method ValidateForm(email: string, password: string) returns (errors: map<Field, string>, ok: bool)
    ensures ok <==> errors == map[]
    ensures ok <==> CredentialsAcceptable(email, password)
    ensures EmailField in errors <==> Text.Blank(email) || !FormRules.EmailLike(email)
    ensures EmailField in errors ==> errors[EmailField] == if Text.Blank(email) then EmailRequired else EmailInvalid
    ensures PasswordField in errors <==> Text.Utf16Length(password) < MinPasswordLength
    ensures PasswordField in errors ==> errors[PasswordField] == if password == "" then PasswordRequired else PasswordShort
  {
    errors := map[];
    Text.TrimEmptyIffBlank(email);
    if Text.Trim(email) == "" {
      errors := errors[EmailField := EmailRequired];
    } else if !FormRules.EmailLike(email) {
      errors := errors[EmailField := EmailInvalid];
    }
    if password == "" {
      errors := errors[PasswordField := PasswordRequired];
    } else if Text.Utf16Length(password) < MinPasswordLength {
      errors := errors[PasswordField := PasswordShort];
    }
    ok := |errors.Keys| == 0;
    if !ok {
      assert errors != map[];
    }
  }

  /** `handleSubmit`: `login(email, password)` is called only when the form is valid. */
  method HandleSubmit(email: string, password: string) returns (call: Option<(string, string)>)
    ensures call.Some? <==> CredentialsAcceptable(email, password)
    ensures call.Some? ==> call.value == (email, password)
  {
    var errors, ok := ValidateForm(email, password);
    if !ok {
      return None;
    }
    call := Some((email, password));
  }

  const AdminHome := "/admin/users"
  const PlayerHome := "/"

  /** The page `navigate` goes to after `login` resolves with `loggedInUser`. */
  function RedirectAfterLogin(loggedInUser: Option<User>): (path: string)
    ensures path == AdminHome <==> loggedInUser.Some? && loggedInUser.value.role == Admin
    ensures path == AdminHome || path == PlayerHome
  {
    if loggedInUser.Some? && loggedInUser.value.role == Admin then AdminHome else PlayerHome
  }
}
