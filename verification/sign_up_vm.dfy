/** The sign-up screen's view model: name, e-mail, password and the
    agreement switch, the error each shows, the submit button's state and
    the guarded sign-up action with its success event. */
module SignUpViewModel {
  import opened Wrappers
  import opened Text
  import opened Validation

  datatype SignUpForm = SignUpForm(name: string, email: string, password: string, agreed: bool)

  /** Empty fields and the agreement not yet given. */
  const InitialForm := SignUpForm("", "", "", false)

  /** The agreement switch's only error. */
  datatype AgreementError = AgreementRequired

  /** The name field shows the single minimum-length message exactly when
      the trimmed name is shorter than two characters. */
  function NameError(f: SignUpForm): (m: Option<Message>)
    ensures m.None? <==> |Trim(f.name)| >= 2
    ensures m.Some? ==> m.value == NameMinLength
  {
    NameRule(f.name);
    Validate(f.name, Name).Primary()
  }

  /** The e-mail field shows nothing for a valid address and the single
      invalid-address message otherwise. */
  function EmailError(f: SignUpForm): (m: Option<Message>)
    ensures m.None? <==> Validate(f.email, Email).isValid
    ensures m.Some? ==> m.value == EmailInvalid
  {
    EmailMessage(f.email)
  }

  /** The password field shows the first rule, in rule order, that the
      trimmed password fails, or nothing. */
  function PasswordError(f: SignUpForm): (m: Option<Message>)
    ensures m.None? <==> Validate(f.password, Password).isValid
    ensures m.Some? ==> m.value in PasswordOrder && RuleFails(m.value, Trim(f.password))
    ensures m.Some? ==> forall r | r in PasswordOrder && Rank(r) < Rank(m.value) :: !RuleFails(r, Trim(f.password))
  {
    PasswordMessage(f.password)
  }

  /** The agreement error is shown exactly when the switch is off. */
  function AgreementErrorOf(f: SignUpForm): (m: Option<AgreementError>)
    ensures m.None? <==> f.agreed
  {
    if f.agreed then None else Some(AgreementRequired)
  }

  /** The button is enabled when none of the four errors is shown. */
  function IsSubmitEnabled(f: SignUpForm): (b: bool)
    ensures b <==> |Trim(f.name)| >= 2 && Validate(f.email, Email).isValid
                   && Validate(f.password, Password).isValid && f.agreed
  {
    NameError(f).None? && EmailError(f).None? && PasswordError(f).None? && AgreementErrorOf(f).None?
  }

  /** One run of `signUp()`: the (e-mail, password) pairs sent to the
      service, how many success events were emitted, and the outcome. */
  datatype SignUpRun<+E> = SignUpRun(requests: seq<(string, string)>, successEvents: nat, outcome: Outcome<E>)

  /** `signUp()`: any invalid field or a missing agreement returns silently
      with no service call and no event; otherwise the service gets the
      stored e-mail and password, and only when it returns is the success
      event emitted, once. */
  function SignUp<E>(f: SignUpForm, reply: Outcome<E>): (r: SignUpRun<E>)
    ensures !IsSubmitEnabled(f) ==> r == SignUpRun([], 0, Pass)
    ensures IsSubmitEnabled(f) ==> r.requests == [(f.email, f.password)] && r.outcome == reply
    ensures r.successEvents == (if IsSubmitEnabled(f) && reply.Pass? then 1 else 0)
  {
    if !(Validate(f.name, Name).isValid && Validate(f.email, Email).isValid
         && Validate(f.password, Password).isValid && f.agreed) then
      SignUpRun([], 0, Pass)
    else
      match reply
      case Pass => SignUpRun([(f.email, f.password)], 1, Pass)
      case Fail(e) => SignUpRun([(f.email, f.password)], 0, Fail(e))
  }

  /** A success event is only ever emitted after a service call that
      returned. */
  lemma SuccessFollowsService<E>(f: SignUpForm, reply: Outcome<E>)
    ensures SignUp(f, reply).successEvents > 0 ==> |SignUp(f, reply).requests| == 1 && reply.Pass?
    ensures IsSubmitEnabled(f) <==> |SignUp(f, reply).requests| > 0
  {
  }

  /** A fresh screen cannot submit: the agreement has not been given. */
  lemma InitialCannotSubmit()
    ensures !IsSubmitEnabled(InitialForm)
  {
  }
}
