/** The sign-in screen's view model: two stored fields, the error each
    field shows, the submit button's state and the guarded sign-in action.
    Published values are modelled as functions of the stored fields. */
module SignInViewModel {
  import opened Wrappers
  import opened Text
  import opened Validation

  datatype SignInForm = SignInForm(email: string, password: string)

  /** Both fields start empty. */
  const InitialForm := SignInForm("", "")

  /** `setEmail`: stores the value exactly as typed. */
  function SetEmail(f: SignInForm, value: string): (r: SignInForm)
    ensures r.email == value && r.password == f.password
  {
    f.(email := value)
  }

  /** `setPassword`: stores the value exactly as typed. */
  function SetPassword(f: SignInForm, value: string): (r: SignInForm)
    ensures r.password == value && r.email == f.email
  {
    f.(password := value)
  }

  /** The e-mail field shows nothing for a valid address and the single
      invalid-address message otherwise. */
  function EmailError(f: SignInForm): (m: Option<Message>)
    ensures m.None? <==> Validate(f.email, Email).isValid
    ensures m.Some? ==> m.value == EmailInvalid
  {
    EmailMessage(f.email)
  }

  /** The password field shows nothing for a valid password and otherwise
      the first rule, in rule order, that the trimmed password fails. */
  function PasswordError(f: SignInForm): (m: Option<Message>)
    ensures m.None? <==> Validate(f.password, Password).isValid
    ensures m.Some? ==> m.value in PasswordOrder && RuleFails(m.value, Trim(f.password))
    ensures m.Some? ==> forall r | r in PasswordOrder && Rank(r) < Rank(m.value) :: !RuleFails(r, Trim(f.password))
  {
    PasswordMessage(f.password)
  }

  /** The button is enabled when neither field shows an error. */
  function IsSubmitEnabled(f: SignInForm): (b: bool)
    ensures b <==> Validate(f.email, Email).isValid && Validate(f.password, Password).isValid
  {
    EmailError(f).None? && PasswordError(f).None?
  }

  /** `signIn()`: with either field invalid it returns without calling the
      service; otherwise it makes one service call with the stored values
      and passes the service's outcome through unchanged. The service's
      outcome is a parameter. */
  function SignIn<E>(f: SignInForm, reply: Outcome<E>): (r: (seq<SignInForm>, Outcome<E>))
    ensures !Validate(f.email, Email).isValid || !Validate(f.password, Password).isValid ==> r == ([], Pass)
    ensures Validate(f.email, Email).isValid && Validate(f.password, Password).isValid ==> r == ([f], reply)
  {
    if !(Validate(f.email, Email).isValid && Validate(f.password, Password).isValid) then ([], Pass)
    else ([f], reply)
  }

  /** The button and the action's guard agree: the service is reached
      exactly when the button is enabled. */
  lemma SubmitGatesSignIn<E>(f: SignInForm, reply: Outcome<E>)
    ensures IsSubmitEnabled(f) <==> |SignIn(f, reply).0| > 0
  {
  }

  /** A fresh screen cannot submit. */
  lemma InitialCannotSubmit()
    ensures !IsSubmitEnabled(InitialForm)
  {
    EmailRule("");
  }
}
