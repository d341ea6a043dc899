/** The password-reset service: a blank-address guard, the reset request,
    and its own, narrower classifier of provider errors. */
module PasswordReset {
  import opened Wrappers
  import opened Text
  import opened FirstMatch
  import opened Provider
  import AuthErrors

  datatype ResetDomainError = InvalidEmail | TooManyRequests | Network | Unknown

  /** The text rules, in order: rate limiting, then a malformed address,
      then transport trouble; the first that holds decides, as in the
      table `ResetTests` / `ResetOutcomes` with fallback `Unknown`. */
  function ClassifyResetText(t: string): (e: ResetDomainError)
    ensures e == Select(ResetTests(t), ResetOutcomes, Unknown)
  {
    ResetChainIsTable(ResetTests(t));
    if Contains(t, "429") || Contains(t, "too many") || Contains(t, "rate")
       || Contains(t, "over_request_rate_limit") then TooManyRequests
    else if Contains(t, "email") && (Contains(t, "invalid") || Contains(t, "malformed")) then InvalidEmail
    else if Contains(t, "network") || Contains(t, "offline") || Contains(t, "timed out") then Network
    else Unknown
  }

  /** `mapSupabaseAuthError` of the reset service: every URL-domain error is
      a network error, whatever its code; other errors are classified by
      their lower-cased text. */
  function ClassifyReset(ev: Evidence): (e: ResetDomainError)
    ensures ev.isUrlDomain ==> e == Network
    ensures !ev.isUrlDomain ==> e == ClassifyResetText(ToLower(ev.text))
  {
    if ev.isUrlDomain then Network else ClassifyResetText(ToLower(ev.text))
  }

  /** The text rules as a first-match table. */
  function ResetTests(t: string): (tests: seq<bool>)
    ensures |tests| == |ResetOutcomes|
  {
    [Contains(t, "429") || Contains(t, "too many") || Contains(t, "rate") || Contains(t, "over_request_rate_limit"),
     Contains(t, "email") && (Contains(t, "invalid") || Contains(t, "malformed")),
     Contains(t, "network") || Contains(t, "offline") || Contains(t, "timed out")]
  }

  const ResetOutcomes: seq<ResetDomainError> := [TooManyRequests, InvalidEmail, Network]

  /** The chain of `if`s over the three tests is the table `ResetOutcomes`
      read first match first. */
  lemma ResetChainIsTable(b: seq<bool>)
    requires |b| == |ResetOutcomes|
    ensures Select(b, ResetOutcomes, Unknown)
      == if b[0] then TooManyRequests else if b[1] then InvalidEmail else if b[2] then Network else Unknown
  {
    var o := ResetOutcomes;
    assert b[0..] == b && o[0..] == o;
    SelectAt(b, o, Unknown, 0);
    SelectAt(b, o, Unknown, 1);
    SelectAt(b, o, Unknown, 2);
    assert |b[3..]| == 0;
  }

  /** A rate-limit hint decides the outcome even when the text also
      complains about an invalid address. */
  lemma RateLimitBeatsInvalidEmail(t: string)
    requires Contains(t, "429") || Contains(t, "too many") || Contains(t, "rate")
    ensures ClassifyResetText(t) == TooManyRequests
  {
    SelectFirst(ResetTests(t), ResetOutcomes, Unknown, 0);
  }

  /** Without a rate-limit hint, "email" with "invalid" or "malformed" is an
      invalid address. */
  lemma InvalidEmailRule(t: string)
    requires !ResetTests(t)[0]
    requires Contains(t, "email") && (Contains(t, "invalid") || Contains(t, "malformed"))
    ensures ClassifyResetText(t) == InvalidEmail
  {
    SelectFirst(ResetTests(t), ResetOutcomes, Unknown, 1);
  }

  /** Without either earlier hint, transport wording is a network error and
      anything else is unknown. */
  lemma NetworkOrUnknownRule(t: string)
    requires !ResetTests(t)[0] && !ResetTests(t)[1]
    ensures ClassifyResetText(t) == (if ResetTests(t)[2] then Network else Unknown)
  {
    if ResetTests(t)[2] {
      SelectFirst(ResetTests(t), ResetOutcomes, Unknown, 2);
    } else {
      SelectNone(ResetTests(t), ResetOutcomes, Unknown);
    }
  }

  /** The two classifiers disagree on a cancelled request: the auth service
      calls it unknown, the reset service a network error. */
  lemma CancellationDiffers(t: string)
    ensures AuthErrors.Classify(Evidence(true, AuthErrors.Cancelled, t)) == AuthErrors.Unknown
    ensures ClassifyReset(Evidence(true, AuthErrors.Cancelled, t)) == Network
  {
  }

  // Samples. As with the validator's examples, each sample text is a
  // parameter fixed by `requires`, and its substring facts are established
  // by the helpers below from the characters of the text.

  /** "invalid email" holds none of the rate-limit hints. */
  lemma NoRateHintInSample(t: string)
    requires t == "invalid email"
    ensures !ResetTests(t)[0]
  {
    assert Avoids(t, '4') && Avoids(t, 'y') && Avoids(t, 'r');
    NotContainsMissingChar(t, "429", 0);
    NotContainsMissingChar(t, "too many", 7);
    NotContainsMissingChar(t, "rate", 0);
    if Contains(t, "over_request_rate_limit") {
      AuthErrors.OverRequestIsRateHint(t);
    }
  }

  /** "invalid email" holds both "email" and "invalid". */
  lemma InvalidEmailHints(t: string)
    requires t == "invalid email"
    ensures Contains(t, "email") && Contains(t, "invalid")
  {
    forall k | 0 <= k < 5
      ensures t[8 + k] == "email"[k]
    {
      assert k == 0 || k == 1 || k == 2 || k == 3 || k == 4;
    }
    OccursAtChars(t, "email", 8);
    ContainsAt(t, "email", 8);
    forall k | 0 <= k < 7
      ensures t[k] == "invalid"[k]
    {
      assert k == 0 || k == 1 || k == 2 || k == 3 || k == 4 || k == 5 || k == 6;
    }
    OccursAtChars(t, "invalid", 0);
    ContainsAt(t, "invalid", 0);
  }

  /** "invalid email" is classified as an invalid address. */
  lemma InvalidEmailSample(t: string)
    requires t == "invalid email"
    ensures ClassifyReset(Evidence(false, 0, t)) == InvalidEmail
  {
    assert forall i | 0 <= i < |t| :: !IsUpper(t[i]);
    ToLowerNoUpper(t);
    NoRateHintInSample(t);
    InvalidEmailHints(t);
    InvalidEmailRule(t);
  }

  /** "429" is classified as rate limiting. */
  lemma RateLimitSample(t: string)
    requires t == "429"
    ensures ClassifyReset(Evidence(false, 0, t)) == TooManyRequests
  {
    assert forall i | 0 <= i < |t| :: !IsUpper(t[i]);
    ToLowerNoUpper(t);
    ContainsAt(t, "429", 0);
  }

  /** An empty text matches no rule. */
  lemma SilentSample(t: string)
    requires t == ""
    ensures ClassifyReset(Evidence(false, 0, t)) == Unknown
  {
    ToLowerNoUpper(t);
  }

  /** Each of the four kinds is produced by some provider error, so the
      range of the classifier is exactly the reset error kinds. */
  lemma ResetKindsReachable(k: ResetDomainError)
    ensures exists ev :: ClassifyReset(ev) == k
  {
    match k
    case Network =>
      assert ClassifyReset(Evidence(true, 0, "")) == Network;
    case Unknown =>
      SilentSample("");
    case TooManyRequests =>
      RateLimitSample("429");
    case InvalidEmail =>
      InvalidEmailSample("invalid email");
  }

  /** `sendPasswordReset`: a blank address is refused with no provider call;
      otherwise the provider receives the trimmed address (and the redirect
      the service was built with), and its failure is classified. */
  function SendPasswordReset(email: string, redirectTo: Option<string>, reply: CallResult<()>)
    : (r: (seq<ProviderCall>, Outcome<ResetDomainError>))
    ensures AllWhitespace(email) ==> r == ([], Fail(InvalidEmail))
    ensures !AllWhitespace(email) ==> r.0 == [ResetRequest(Trim(email), redirectTo)]
    ensures r.1.Pass? <==> !AllWhitespace(email) && reply.Succeeded?
    ensures !AllWhitespace(email) && reply.Failed? ==> r.1 == Fail(ClassifyReset(reply.evidence))
  {
    var trimmed := Trim(email);
    TrimEmptyIffBlank(email);
    if |trimmed| == 0 then ([], Fail(InvalidEmail))
    else
      match reply
      case Succeeded(_) => ([ResetRequest(trimmed, redirectTo)], Pass)
      case Failed(ev) => ([ResetRequest(trimmed, redirectTo)], Fail(ClassifyReset(ev)))
  }

  /** Whitespace typed around the address changes neither the request nor
      the result. */
  lemma ResetIgnoresPadding(a: string, email: string, b: string, redirectTo: Option<string>, reply: CallResult<()>)
    requires AllWhitespace(a) && AllWhitespace(b)
    ensures SendPasswordReset(a + email + b, redirectTo, reply) == SendPasswordReset(email, redirectTo, reply)
  {
    TrimIgnoresPadding(a, email, b);
  }
}
