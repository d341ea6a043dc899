/** The authentication service's error vocabulary and its classifier of
    provider errors (`mapSupabaseAuthError` of the auth service). */
module AuthErrors {
  import opened Text
  import opened FirstMatch
  import opened Provider

  datatype AuthDomainError =
    | InvalidCredentials
    | EmailAlreadyInUse
    | WeakPassword
    | Network
    | RateLimited
    | RequiresBackendForAccountDeletion
    | Unknown

  // Foundation's URL-loading error codes that the classifier names.
  const Cancelled := -999
  const TimedOut := -1001
  const CannotFindHost := -1003
  const CannotConnectToHost := -1004
  const NetworkConnectionLost := -1005
  const DnsLookupFailed := -1006
  const NotConnectedToInternet := -1009
  const InternationalRoamingOff := -1018
  const CallIsActive := -1019
  const DataNotAllowed := -1020
  const SecureConnectionFailed := -1200
  const CannotLoadFromNetwork := -2000

  /** The codes the classifier lists explicitly as network failures. */
  const ListedNetworkCodes: set<int> := {
    CannotFindHost, CannotConnectToHost, DnsLookupFailed, NotConnectedToInternet,
    TimedOut, NetworkConnectionLost, InternationalRoamingOff, CallIsActive,
    DataNotAllowed, SecureConnectionFailed, CannotLoadFromNetwork
  }

  /** A URL-domain error: the listed codes and every unlisted code are
      network failures, so cancellation is the only code that is not. */
  function ClassifyUrlCode(code: int): (e: AuthDomainError)
    ensures e == Network <==> code != Cancelled
    ensures e == Unknown <==> code == Cancelled
  {
    if code in ListedNetworkCodes then Network
    else if code == Cancelled then Unknown
    else Network
  }

  // The text rules, over the lower-cased candidate text.

  /** The e-mail confirmation hints. */
  predicate ConfirmationText(t: string) {
    (Contains(t, "email") && Contains(t, "confirm"))
    || Contains(t, "email not confirmed")
    || Contains(t, "not confirmed")
    || Contains(t, "confirm your email")
    || Contains(t, "signup requires email confirmation")
    || Contains(t, "confirm your signup")
  }

  predicate InvalidLoginText(t: string) {
    Contains(t, "invalid login")
    || Contains(t, "invalid credentials")
    || Contains(t, "invalid email or password")
    || Contains(t, "invalid_grant")
  }

  predicate EmailInUseText(t: string) {
    Contains(t, "email") && (Contains(t, "already") || Contains(t, "registered") || Contains(t, "exists"))
  }

  predicate WeakPasswordText(t: string) {
    Contains(t, "password") && (Contains(t, "weak") || Contains(t, "too short") || Contains(t, "length"))
  }

  predicate RateLimitText(t: string) {
    Contains(t, "rate") || Contains(t, "too many") || Contains(t, "over_request_rate_limit")
  }

  predicate NetworkText(t: string) {
    Contains(t, "network") || Contains(t, "offline") || Contains(t, "timed out")
  }

  /** The text part of the classifier: confirmation hints first, then the
      status codes, then the wording rules; whatever the text, the account
      deletion error is never produced. */
  function ClassifyText(t: string): (e: AuthDomainError)
    ensures e != RequiresBackendForAccountDeletion
    ensures ConfirmationText(t) ==> e == Unknown
  {
    if ConfirmationText(t) then Unknown
    else if Contains(t, "429") then RateLimited
    else if Contains(t, "401") then InvalidCredentials
    else if Contains(t, "409") then EmailAlreadyInUse
    else if InvalidLoginText(t) then InvalidCredentials
    else if EmailInUseText(t) then EmailAlreadyInUse
    else if WeakPasswordText(t) then WeakPassword
    else if RateLimitText(t) then RateLimited
    else if NetworkText(t) then Network
    else Unknown
  }

  /** `mapSupabaseAuthError`: the URL-domain check comes before any text
      rule, and the text is lower-cased before it is searched; the text
      rules are then the table `AuthTests` / `AuthOutcomes`, read first
      match first. */
  function Classify(ev: Evidence): (e: AuthDomainError)
    ensures e != RequiresBackendForAccountDeletion
    ensures ev.isUrlDomain ==> e == ClassifyUrlCode(ev.code)
    ensures !ev.isUrlDomain ==> e == ClassifyText(ToLower(ev.text))
    ensures !ev.isUrlDomain ==> e == Select(AuthTests(ToLower(ev.text)), AuthOutcomes, Unknown)
    ensures ev.isUrlDomain ==> (e == Network <==> ev.code != Cancelled)
    ensures ev.isUrlDomain ==> (e == Unknown <==> ev.code == Cancelled)
    ensures !ev.isUrlDomain && ConfirmationText(ToLower(ev.text)) ==> e == Unknown
  {
    ClassifyTextIsFirstMatch(ToLower(ev.text));
    if ev.isUrlDomain then ClassifyUrlCode(ev.code) else ClassifyText(ToLower(ev.text))
  }

  // ---------------------------------------------------------------------------
  // The classifier as a rule table

  /** The text rules in the order they are tried. */
  function AuthTests(t: string): (tests: seq<bool>)
    ensures |tests| == |AuthOutcomes|
  {
    [ConfirmationText(t), Contains(t, "429"), Contains(t, "401"), Contains(t, "409"),
     InvalidLoginText(t), EmailInUseText(t), WeakPasswordText(t), RateLimitText(t),
     NetworkText(t)]
  }

  /** The outcome of each rule of `AuthTests`, position by position. */
  const AuthOutcomes: seq<AuthDomainError> := [
    Unknown, RateLimited, InvalidCredentials, EmailAlreadyInUse,
    InvalidCredentials, EmailAlreadyInUse, WeakPassword, RateLimited,
    Network
  ]

  /** The text classifier is the first-match-wins table with fallback
      `Unknown`. */
  lemma ClassifyTextIsFirstMatch(t: string)
    ensures ClassifyText(t) == Select(AuthTests(t), AuthOutcomes, Unknown)
  {
    ChainIsTable(AuthTests(t));
  }

  /** The classifier's chain of `if`s, over the outcomes of its nine tests,
      is the table `AuthOutcomes` read first match first. */
  lemma ChainIsTable(b: seq<bool>)
    requires |b| == |AuthOutcomes|
    ensures Select(b, AuthOutcomes, Unknown)
      == if b[0] then Unknown else if b[1] then RateLimited else if b[2] then InvalidCredentials
         else if b[3] then EmailAlreadyInUse else if b[4] then InvalidCredentials
         else if b[5] then EmailAlreadyInUse else if b[6] then WeakPassword
         else if b[7] then RateLimited else if b[8] then Network else Unknown
  {
    var o := AuthOutcomes;
    assert b[0..] == b && o[0..] == o;
    SelectAt(b, o, Unknown, 0);
    SelectAt(b, o, Unknown, 1);
    SelectAt(b, o, Unknown, 2);
    SelectAt(b, o, Unknown, 3);
    SelectAt(b, o, Unknown, 4);
    SelectAt(b, o, Unknown, 5);
    SelectAt(b, o, Unknown, 6);
    SelectAt(b, o, Unknown, 7);
    SelectAt(b, o, Unknown, 8);
    assert |b[9..]| == 0;
  }

  /** First match wins: the outcome is that of the earliest rule that
      holds, whatever later rules say. */
  lemma AuthFirstMatchWins(t: string, k: nat)
    requires k < |AuthOutcomes| && AuthTests(t)[k]
    requires forall j | 0 <= j < k :: !AuthTests(t)[j]
    ensures ClassifyText(t) == AuthOutcomes[k]
  {
    ClassifyTextIsFirstMatch(t);
    SelectFirst(AuthTests(t), AuthOutcomes, Unknown, k);
  }

  /** A text that no rule recognises is classified as unknown. */
  lemma AuthNoMatchIsUnknown(t: string)
    requires forall j | 0 <= j < |AuthOutcomes| :: !AuthTests(t)[j]
    ensures ClassifyText(t) == Unknown
  {
    ClassifyTextIsFirstMatch(t);
    SelectNone(AuthTests(t), AuthOutcomes, Unknown);
  }

  /** Every outcome of the text classifier comes from the table, so the
      range is exactly five kinds of error. */
  lemma AuthTextRange(t: string)
    ensures ClassifyText(t) in {InvalidCredentials, EmailAlreadyInUse, WeakPassword, Network, RateLimited, Unknown}
  {
    ClassifyTextIsFirstMatch(t);
    SelectRange(AuthTests(t), AuthOutcomes, Unknown);
  }

  /** The rate-limit code name is itself a "rate" hint, so the third
      rate-limit pattern never decides anything on its own. */
  lemma OverRequestIsRateHint(t: string)
    requires Contains(t, "over_request_rate_limit")
    ensures Contains(t, "rate")
  {
    var pat := "over_request_rate_limit";
    ContainsIffOccurs(t, pat);
    var i :| OccursAt(t, pat, i);
    assert pat[13..17] == "rate";
    OccursWithin(t, pat, i, "rate", 13);
    ContainsAt(t, "rate", i + 13);
  }

  // ---------------------------------------------------------------------------
  // A domain error thrown and caught again

  /** The description of `AuthDomainError.unknown`. */
  const UnknownDescription := "Неизвестная ошибка."

  /** What the classifier sees when the service's own `unknown` error is
      thrown inside a `do` block and caught by it: a non-URL error whose
      description appears twice (the error and its bridged form have no
      underlying error, failure reason or recovery suggestion) followed by
      the case name. The code of a bridged Swift error is its case index. */
  const UnknownErrorEvidence := Evidence(false, 6, UnknownDescription + " | " + UnknownDescription + " | unknown")

  /** A character that is not upper case and, if it is a letter or digit,
      is one of those of "unknown". */
  predicate QuietChar(c: char) {
    !IsUpper(c) && ((IsLetter(c) || IsDigit(c)) ==> c in "unknown")
  }

  predicate Quiet(t: string) {
    forall i | 0 <= i < |t| :: QuietChar(t[i])
  }

  lemma QuietConcat(x: string, y: string)
    requires Quiet(x) && Quiet(y)
    ensures Quiet(x + y)
  {
    assert forall i | |x| <= i < |x + y| :: (x + y)[i] == y[i - |x|];
  }

  /** A quiet text lacks every pattern that has a letter or digit outside
      "unknown". */
  lemma QuietLacks(t: string, pat: string, k: nat)
    requires Quiet(t)
    requires k < |pat| && (IsLetter(pat[k]) || IsDigit(pat[k])) && pat[k] !in "unknown"
    ensures !Contains(t, pat)
  {
    NotContainsMissingChar(t, pat, k);
  }

  lemma QuietNoConfirmation(t: string)
    requires Quiet(t)
    ensures !ConfirmationText(t)
  {
    QuietLacks(t, "email", 0);
    QuietLacks(t, "email not confirmed", 0);
    QuietLacks(t, "not confirmed", 4);
    QuietLacks(t, "confirm your email", 0);
    QuietLacks(t, "signup requires email confirmation", 0);
    QuietLacks(t, "confirm your signup", 0);
  }

  lemma QuietNoStatus(t: string)
    requires Quiet(t)
    ensures !Contains(t, "429") && !Contains(t, "401") && !Contains(t, "409")
  {
    QuietLacks(t, "429", 0);
    QuietLacks(t, "401", 0);
    QuietLacks(t, "409", 0);
  }

  lemma QuietNoLoginHint(t: string)
    requires Quiet(t)
    ensures !InvalidLoginText(t) && !EmailInUseText(t) && !WeakPasswordText(t)
  {
    QuietLacks(t, "invalid login", 0);
    QuietLacks(t, "invalid credentials", 0);
    QuietLacks(t, "invalid email or password", 0);
    QuietLacks(t, "invalid_grant", 0);
    QuietLacks(t, "email", 0);
    QuietLacks(t, "password", 0);
  }

  lemma QuietNoTransportHint(t: string)
    requires Quiet(t)
    ensures !RateLimitText(t) && !NetworkText(t)
  {
    QuietLacks(t, "rate", 0);
    QuietLacks(t, "too many", 0);
    QuietLacks(t, "over_request_rate_limit", 2);
    QuietLacks(t, "network", 1);
    QuietLacks(t, "offline", 1);
    QuietLacks(t, "timed out", 0);
  }

  /** No rule recognises a quiet text. */
  lemma QuietIsUnknown(t: string)
    requires Quiet(t)
    ensures ClassifyText(t) == Unknown
  {
    QuietNoConfirmation(t);
    QuietNoStatus(t);
    QuietNoLoginHint(t);
    QuietNoTransportHint(t);
  }

  lemma UnknownDescriptionIsQuiet()
    ensures Quiet(UnknownDescription)
  {
    var d := UnknownDescription;
    forall i | 0 <= i < |d|
      ensures QuietChar(d[i])
    {
      assert d[i] == ' ' || d[i] == '.' || d[i] as int >= 0x400;
    }
  }

  /** Re-throwing the service's own `unknown` error through the classifier
      yields `unknown` again. */
  lemma RethrownUnknownIsUnknown()
    ensures Classify(UnknownErrorEvidence) == Unknown
  {
    var d := UnknownDescription;
    UnknownDescriptionIsQuiet();
    assert Quiet(" | ") by {
      forall i | 0 <= i < 3 ensures QuietChar(" | "[i]) {
        assert i == 0 || i == 1 || i == 2;
      }
    }
    assert Quiet("unknown") by {
      forall i | 0 <= i < 7 ensures QuietChar("unknown"[i]) {
        assert "unknown"[i] in "unknown";
      }
    }
    QuietConcat(d, " | ");
    QuietConcat(d + " | ", d);
    QuietConcat(d + " | " + d, " | unknown");
    var t := UnknownErrorEvidence.text;
    assert t == d + " | " + d + " | unknown";
    ToLowerNoUpper(t);
    QuietIsUnknown(t);
  }
}
