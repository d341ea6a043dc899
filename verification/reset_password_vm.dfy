/** The reset-password screen's view model: the stored address is kept
    normalised, its error and the submit button follow from it, and the
    action only checks validity. */
module ResetPasswordViewModel {
  import opened Wrappers
  import opened Text
  import opened Validation
  import PasswordReset
  import Provider

  /** The stored e-mail address; it starts empty. */
  datatype ResetForm = ResetForm(email: string)

  const InitialForm := ResetForm("")

  /** Trim whitespace, then lower-case: the result is the trimmed input
      character by character in lower case, so it has no surrounding
      whitespace and no upper-case letter. */
  function Normalize(value: string): (r: string)
    ensures |r| == |Trim(value)|
    ensures forall i | 0 <= i < |r| :: r[i] == LowerChar(Trim(value)[i])
    ensures NoEdgeWhitespace(r)
    ensures forall i | 0 <= i < |r| :: !IsUpper(r[i])
  {
    ToLowerKeepsShape(Trim(value));
    ToLower(Trim(value))
  }

  /** A normalised address is a fixed point: normalising again changes
      nothing. */
  lemma NormalizeIdempotent(value: string)
    ensures Normalize(Normalize(value)) == Normalize(value)
  {
    var n := Normalize(value);
    TrimOfPadded("", n, "");
    assert "" + n + "" == n;
    ToLowerNoUpper(n);
  }

  /** `setEmail`: stores the normalised value. */
  function SetEmail(f: ResetForm, value: string): (r: ResetForm)
    ensures r.email == Normalize(value)
  {
    ResetForm(Normalize(value))
  }

  /** Setting the already-stored value stores it again unchanged. */
  lemma SetStoredEmailIsNoOp(f: ResetForm, value: string)
    ensures SetEmail(SetEmail(f, value), SetEmail(f, value).email) == SetEmail(f, value)
  {
    NormalizeIdempotent(value);
  }

  /** The shown error is the single invalid-address message, or nothing for
      a valid stored address. */
  function EmailError(f: ResetForm): (m: Option<Message>)
    ensures m.None? <==> Validate(f.email, Email).isValid
    ensures m.Some? ==> m.value == EmailInvalid
  {
    EmailMessage(f.email)
  }

  /** The button is enabled with no error and a non-empty stored address. */
  function IsSubmitEnabled(f: ResetForm): (b: bool)
    ensures b <==> Validate(f.email, Email).isValid && |f.email| > 0
  {
    EmailError(f).None? && |f.email| > 0
  }

  /** The non-empty check adds nothing: the empty address is never valid,
      so the button is enabled exactly for a valid address. */
  lemma SubmitIffValid(f: ResetForm)
    ensures IsSubmitEnabled(f) <==> Validate(f.email, Email).isValid
  {
    EmailRule(f.email);
  }

  /** `resetPassword()`: its validity guard only decides whether to fall
      through to an empty remainder, so it never throws and calls no
      service, whatever the stored address. */
  function ResetPassword(f: ResetForm): (r: (seq<Provider.ProviderCall>, Outcome<()>))
    ensures |r.0| == 0 && r.1 == Pass
  {
    ([], Pass)
  }

  /** Were the stored address handed to the reset service, the service's
      own trimming would leave it as it is. */
  lemma StoredAddressReachesServiceAsIs(value: string, redirectTo: Option<string>, reply: Provider.CallResult<()>)
    requires |Normalize(value)| > 0
    ensures PasswordReset.SendPasswordReset(Normalize(value), redirectTo, reply).0
      == [Provider.ResetRequest(Normalize(value), redirectTo)]
  {
    var n := Normalize(value);
    TrimOfPadded("", n, "");
    assert "" + n + "" == n;
    TrimEmptyIffBlank(n);
  }
}
