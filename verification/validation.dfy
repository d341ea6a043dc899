/** `FormValidator.validate(_:for:)`: a pure check of one text value against
    the rules for its field kind, returning a validity flag and the ordered
    list of violated rules. Messages are modelled as message kinds rather
    than localized strings.

    The email and phone rules are ICU regular expressions anchored with `^`
    and `$`. Without the multi-line flag ICU's `$` matches at the end of the
    input and also just before one final line terminator (or a final
    "\r\n"), so both rules are modelled as "core shape, then an optional
    final terminator". */
module Validation {
  import opened Wrappers
  import opened Text

  datatype AuthField = Name | Email | Password | Phone | Comment

  datatype Message =
    | NameMinLength
    | EmailInvalid
    | PasswordMinLength
    | PasswordNoSpaces
    | PasswordAllowedChars
    | PasswordRequireDigit
    | PasswordRequireSpecial
    | PasswordRequireUppercase
    | PhoneInvalidFormat
    | CommentEmpty
    | CommentTooShort
    | CommentTooLong

  /** The field kind whose rules produce message `m`. */
  function FieldOf(m: Message): AuthField {
    match m
    case NameMinLength => Name
    case EmailInvalid => Email
    case PasswordMinLength | PasswordNoSpaces | PasswordAllowedChars
      | PasswordRequireDigit | PasswordRequireSpecial | PasswordRequireUppercase => Password
    case PhoneInvalidFormat => Phone
    case CommentEmpty | CommentTooShort | CommentTooLong => Comment
  }

  datatype ValidationResult = ValidationResult(isValid: bool, messages: seq<Message>) {

    /** `message`: the primary message, `messages.first`. */
    function Primary(): (m: Option<Message>)
      ensures m.None? <==> |messages| == 0
      ensures m.Some? ==> m.value == messages[0]
    {
      if |messages| == 0 then None else Some(messages[0])
    }
  }

  /** Every branch of the validator builds its result as
      `.init(isValid: errors.isEmpty, messages: errors)`. */
  function FromErrors(errors: seq<Message>): ValidationResult {
    ValidationResult(|errors| == 0, errors)
  }

  // ---------------------------------------------------------------------------
  // ICU end anchor

  /** What ICU's `$` lets stand after the matched text: nothing, one line
      terminator, or "\r\n". */
  predicate IsFinalTerminator(e: string) {
    |e| == 0 || (|e| == 1 && IsLineTerminator(e[0])) || (|e| == 2 && e[0] == '\r' && e[1] == '\n')
  }

  /** Length of the final terminator `$` would step over. */
  function FinalTerminatorLength(t: string): (n: nat)
    ensures n <= |t|
    ensures IsFinalTerminator(t[|t| - n..])
  {
    if |t| >= 2 && t[|t| - 2] == '\r' && t[|t| - 1] == '\n' then 2
    else if |t| >= 1 && IsLineTerminator(t[|t| - 1]) then 1
    else 0
  }

  /** Text that ends with a character that is no line terminator, followed
      by any final terminator, gives that terminator back. */
  lemma FinalTerminatorOf(core: string, e: string)
    requires |core| > 0 && !IsLineTerminator(core[|core| - 1])
    requires IsFinalTerminator(e)
    ensures FinalTerminatorLength(core + e) == |e|
  {
    var t := core + e;
    var last := core[|core| - 1];
    if |e| == 2 {
      assert t[|t| - 2] == '\r' && t[|t| - 1] == '\n' by {
        assert t[|core|] == e[0] && t[|core| + 1] == e[1];
      }
    } else if |e| == 1 {
      assert t[|t| - 1] == e[0] && IsLineTerminator(e[0]);
      assert |t| >= 2 && t[|t| - 2] == last;
      assert last != '\r';
    } else {
      assert t[|t| - 1] == last;
    }
  }

  // ---------------------------------------------------------------------------
  // Name

  function ValidateName(text: string): ValidationResult {
    var trimmed := Trim(text);
    FromErrors(if |trimmed| < 2 then [NameMinLength] else [])
  }

  // ---------------------------------------------------------------------------
  // Email: ^[A-Z0-9a-z._%+-]+@[A-Za-z0-9.-]+\.[A-Za-z]{2,}$

  predicate IsLocalChar(c: char) {
    IsLetter(c) || IsDigit(c) || c == '.' || c == '_' || c == '%' || c == '+' || c == '-'
  }

  predicate IsDomainChar(c: char) {
    IsLetter(c) || IsDigit(c) || c == '.' || c == '-'
  }

  predicate AllLocalChars(s: string) {
    forall i | 0 <= i < |s| :: IsLocalChar(s[i])
  }

  predicate AllDomainChars(s: string) {
    forall i | 0 <= i < |s| :: IsDomainChar(s[i])
  }

  /** The pieces the email pattern matches: `local@domain.tld` and what the
      end anchor stepped over. */
  datatype EmailParts = EmailParts(local: string, domain: string, tld: string, terminator: string)

  function JoinEmail(p: EmailParts): string {
    p.local + "@" + p.domain + "." + p.tld + p.terminator
  }

  predicate WellFormedEmail(p: EmailParts) {
    && |p.local| > 0 && AllLocalChars(p.local)
    && |p.domain| > 0 && AllDomainChars(p.domain)
    && |p.tld| >= 2 && AllLetters(p.tld)
    && IsFinalTerminator(p.terminator)
  }

  /** The text before what the end anchor steps over. */
  function AnchoredCore(t: string): string {
    t[..|t| - FinalTerminatorLength(t)]
  }

  /** The core has an '@' and, after the first one, a '.'. */
  predicate HasEmailSeparators(t: string) {
    var core := AnchoredCore(t);
    var at := IndexOf(core, '@');
    at < |core| && 0 <= LastIndexOf(core[at + 1..], '.')
  }

  /** Cut the text at the first '@' of the core (local characters never
      include '@') and at the last '.' after it (the top-level domain is
      letters only); the pieces put back together are the text. */
  function SplitEmail(t: string): (p: EmailParts)
    requires HasEmailSeparators(t)
    ensures JoinEmail(p) == t
  {
    var n := FinalTerminatorLength(t);
    var core := t[..|t| - n];
    var at := IndexOf(core, '@');
    var rest := core[at + 1..];
    var dot := LastIndexOf(rest, '.');
    SplitJoins(t, |t| - n, at, dot);
    EmailParts(core[..at], rest[..dot], rest[dot + 1..], t[|t| - n..])
  }

  /** Cutting `t` before `c`, at an '@' at `at` and at a '.' at `dot` after
      it loses nothing. */
  lemma SplitJoins(t: string, c: int, at: int, dot: int)
    requires 0 <= at < c <= |t|
    requires t[..c][at] == '@'
    requires 0 <= dot < |t[..c][at + 1..]| && t[..c][at + 1..][dot] == '.'
    ensures var core := t[..c]; var rest := core[at + 1..];
      JoinEmail(EmailParts(core[..at], rest[..dot], rest[dot + 1..], t[c..])) == t
  {
    var core := t[..c];
    var rest := core[at + 1..];
    var local, domain, tld, e := core[..at], rest[..dot], rest[dot + 1..], t[c..];
    assert rest == domain + ['.'] + tld;
    assert core == local + ['@'] + rest;
    assert t == core + e;
    calc {
      JoinEmail(EmailParts(local, domain, tld, e));
      local + "@" + domain + "." + tld + e;
      local + ['@'] + (domain + ['.'] + tld) + e;
    }
  }

  /** The recognizer for the email pattern. */
  function ParseEmail(t: string): Option<EmailParts> {
    if HasEmailSeparators(t) && WellFormedEmail(SplitEmail(t)) then Some(SplitEmail(t)) else None
  }

  /** What the recognizer accepts is a well-formed address and is exactly
      the text it was given. */
  lemma ParseEmailSound(t: string)
    requires ParseEmail(t).Some?
    ensures WellFormedEmail(ParseEmail(t).value)
    ensures JoinEmail(ParseEmail(t).value) == t
  {
  }

  /** The first '@' of `local + "@" + x` is the one after `local`. */
  lemma FirstAtAfterLocal(local: string, x: string)
    requires AllLocalChars(local)
    ensures IndexOf(local + "@" + x, '@') == |local|
    ensures (local + "@" + x)[..|local|] == local
    ensures (local + "@" + x)[|local| + 1..] == x
  {
    var s := local + "@" + x;
    assert forall j | 0 <= j < |local| :: s[j] == local[j];
    IndexOfIs(s, '@', |local|);
  }

  /** The last '.' of `domain + "." + tld` is the one before `tld`. */
  lemma LastDotBeforeTld(domain: string, tld: string)
    requires AllLetters(tld)
    ensures LastIndexOf(domain + "." + tld, '.') == |domain|
    ensures (domain + "." + tld)[..|domain|] == domain
    ensures (domain + "." + tld)[|domain| + 1..] == tld
  {
    var d := domain + ".";
    var s := d + tld;
    assert |d| == |domain| + 1 && d[|domain|] == '.';
    forall j | |d| <= j < |s|
      ensures s[j] != '.'
    {
      var k := j - |d|;
      assert s[j] == tld[k];
      assert IsLetter(tld[k]);
    }
    LastIndexOfIs(s, '.', |domain|);
  }

  /** The end anchor of a well-formed address steps over exactly its
      terminator and leaves `local@domain.tld`. */
  lemma EmailAnchor(p: EmailParts)
    requires WellFormedEmail(p)
    ensures var t := JoinEmail(p);
      && |p.terminator| <= |t|
      && AnchoredCore(t) == p.local + "@" + (p.domain + "." + p.tld)
      && t[|t| - |p.terminator|..] == p.terminator
  {
    var t := JoinEmail(p);
    var core := p.local + "@" + (p.domain + "." + p.tld);
    assert t == core + p.terminator;
    assert core[|core| - 1] == p.tld[|p.tld| - 1];
    FinalTerminatorOf(core, p.terminator);
  }

  /** Every well-formed address is recognized, with the same pieces back. */
  lemma ParseEmailComplete(p: EmailParts)
    requires WellFormedEmail(p)
    ensures ParseEmail(JoinEmail(p)) == Some(p)
  {
    var t := JoinEmail(p);
    var rest := p.domain + "." + p.tld;
    EmailAnchor(p);
    FirstAtAfterLocal(p.local, rest);
    LastDotBeforeTld(p.domain, p.tld);
    assert HasEmailSeparators(t);
    assert SplitEmail(t) == p;
  }

  function ValidateEmail(text: string): ValidationResult {
    var valid := ParseEmail(text).Some?;
    FromErrors(if valid then [] else [EmailInvalid])
  }

  // ---------------------------------------------------------------------------
  // Password (on the trimmed value)

  predicate IsSpecial(c: char) {
    c == '!' || c == '@' || c == '#' || c == '$' || c == '%'
  }

  predicate IsPasswordChar(c: char) {
    IsLetter(c) || IsDigit(c) || IsSpecial(c)
  }

  /** `\s` finds a match. */
  predicate HasWhitespace(s: string) {
    exists i | 0 <= i < |s| :: IsWhitespace(s[i])
  }

  /** `^[A-Za-z0-9!@#$%]+$` finds a match (the end anchor may step over a
      final line terminator). */
  predicate MatchesAllowedChars(s: string) {
    var core := s[..|s| - FinalTerminatorLength(s)];
    |core| > 0 && forall i | 0 <= i < |core| :: IsPasswordChar(core[i])
  }

  predicate HasDigit(s: string) {
    exists i | 0 <= i < |s| :: IsDigit(s[i])
  }

  predicate HasSpecial(s: string) {
    exists i | 0 <= i < |s| :: IsSpecial(s[i])
  }

  predicate HasUpper(s: string) {
    exists i | 0 <= i < |s| :: IsUpper(s[i])
  }

  /** The rules in the order the validator checks them. */
  const PasswordOrder: seq<Message> := [
    PasswordMinLength, PasswordNoSpaces, PasswordAllowedChars,
    PasswordRequireDigit, PasswordRequireSpecial, PasswordRequireUppercase
  ]

  /** Position of a password message in `PasswordOrder`. */
  function Rank(m: Message): nat {
    match m
    case PasswordMinLength => 0
    case PasswordNoSpaces => 1
    case PasswordAllowedChars => 2
    case PasswordRequireDigit => 3
    case PasswordRequireSpecial => 4
    case PasswordRequireUppercase => 5
    case _ => 6
  }

  /** Whether the rule behind password message `m` fails on `pwd`. */
  predicate RuleFails(m: Message, pwd: string) {
    match m
    case PasswordMinLength => |pwd| < 6
    case PasswordNoSpaces => HasWhitespace(pwd)
    case PasswordAllowedChars => !MatchesAllowedChars(pwd)
    case PasswordRequireDigit => !HasDigit(pwd)
    case PasswordRequireSpecial => !HasSpecial(pwd)
    case PasswordRequireUppercase => !HasUpper(pwd)
    case _ => false
  }

  /** Check each rule of `rules` in turn and append its message when the
      rule fails, as the validator's chain of `if … { errors.append(…) }`
      does. */
  function Failing(rules: seq<Message>, pwd: string): seq<Message> {
    if |rules| == 0 then []
    else Check(rules[0], pwd) + Failing(rules[1..], pwd)
  }

  /** One `if … { errors.append(…) }` step. */
  function Check(m: Message, pwd: string): seq<Message> {
    if RuleFails(m, pwd) then [m] else []
  }

  lemma FailingCons(m: Message, rest: seq<Message>, pwd: string)
    ensures Failing([m] + rest, pwd) == Check(m, pwd) + Failing(rest, pwd)
  {
    assert ([m] + rest)[1..] == rest;
  }

  /** A message is reported exactly when it is among the rules and its rule
      fails. */
  lemma {:induction false} FailingMembers(rules: seq<Message>, pwd: string, m: Message)
    ensures m in Failing(rules, pwd) <==> m in rules && RuleFails(m, pwd)
  {
    if |rules| > 0 {
      FailingMembers(rules[1..], pwd, m);
      assert rules == [rules[0]] + rules[1..];
    }
  }

  predicate StrictlyRanked(ms: seq<Message>) {
    forall i, j | 0 <= i < j < |ms| :: Rank(ms[i]) < Rank(ms[j])
  }

  /** Reporting keeps the order of the rules: a strictly ranked rule list
      gives a strictly ranked message list. */
  lemma {:induction false} FailingRanked(rules: seq<Message>, pwd: string)
    requires StrictlyRanked(rules)
    ensures StrictlyRanked(Failing(rules, pwd))
  {
    if |rules| > 0 {
      var tail := rules[1..];
      assert StrictlyRanked(tail) by {
        assert forall i | 0 <= i < |tail| :: tail[i] == rules[i + 1];
      }
      FailingRanked(tail, pwd);
      var rest := Failing(tail, pwd);
      forall k | 0 <= k < |rest|
        ensures Rank(rules[0]) < Rank(rest[k])
      {
        FailingMembers(tail, pwd, rest[k]);
        var i :| 0 <= i < |tail| && tail[i] == rest[k];
        assert tail[i] == rules[i + 1];
      }
    }
  }

  function PasswordErrors(pwd: string): seq<Message> {
    Failing(PasswordOrder, pwd)
  }

  /** The validator's six checks, written out in order. */
  lemma PasswordErrorsChain(pwd: string)
    ensures PasswordErrors(pwd)
      == Check(PasswordMinLength, pwd) + (Check(PasswordNoSpaces, pwd) + (Check(PasswordAllowedChars, pwd)
      + (Check(PasswordRequireDigit, pwd) + (Check(PasswordRequireSpecial, pwd) + (Check(PasswordRequireUppercase, pwd)
      + [])))))
  {
    var r5 := [PasswordRequireUppercase];
    var r4 := [PasswordRequireSpecial] + r5;
    var r3 := [PasswordRequireDigit] + r4;
    var r2 := [PasswordAllowedChars] + r3;
    var r1 := [PasswordNoSpaces] + r2;
    var r0 := [PasswordMinLength] + r1;
    assert r0 == PasswordOrder;
    FailingCons(PasswordMinLength, r1, pwd);
    FailingCons(PasswordNoSpaces, r2, pwd);
    FailingCons(PasswordAllowedChars, r3, pwd);
    FailingCons(PasswordRequireDigit, r4, pwd);
    FailingCons(PasswordRequireSpecial, r5, pwd);
    FailingCons(PasswordRequireUppercase, [], pwd);
    assert r5 == [PasswordRequireUppercase] + [];
  }

  lemma PasswordOrderRanked()
    ensures StrictlyRanked(PasswordOrder)
  {
    forall i | 0 <= i < |PasswordOrder|
      ensures Rank(PasswordOrder[i]) == i
    {
      assert i == 0 || i == 1 || i == 2 || i == 3 || i == 4 || i == 5;
    }
  }

  /** The password messages for an already trimmed value: a message is
      reported exactly when its rule fails, in rule order. */
  lemma PasswordErrorsSpec(pwd: string)
    ensures forall m :: m in PasswordErrors(pwd) <==> m in PasswordOrder && RuleFails(m, pwd)
    ensures StrictlyRanked(PasswordErrors(pwd))
  {
    forall m
      ensures m in PasswordErrors(pwd) <==> m in PasswordOrder && RuleFails(m, pwd)
    {
      FailingMembers(PasswordOrder, pwd, m);
    }
    PasswordOrderRanked();
    FailingRanked(PasswordOrder, pwd);
  }

  function ValidatePassword(text: string): ValidationResult {
    FromErrors(PasswordErrors(Trim(text)))
  }

  // ---------------------------------------------------------------------------
  // Phone: ^\+7\d{10}$

  datatype PhoneParts = PhoneParts(digits: string, terminator: string)

  function JoinPhone(p: PhoneParts): string {
    "+7" + p.digits + p.terminator
  }

  predicate WellFormedPhone(p: PhoneParts) {
    |p.digits| == 10 && AllDigits(p.digits) && IsFinalTerminator(p.terminator)
  }

  function ParsePhone(t: string): Option<PhoneParts> {
    var n := FinalTerminatorLength(t);
    var core := t[..|t| - n];
    if |core| == 12 && core[0] == '+' && core[1] == '7' && AllDigits(core[2..])
    then Some(PhoneParts(core[2..], t[|t| - n..]))
    else None
  }

  /** What the phone recognizer accepts is "+7", ten digits and a final
      terminator, and is exactly the text it was given. */
  lemma ParsePhoneSound(t: string)
    requires ParsePhone(t).Some?
    ensures WellFormedPhone(ParsePhone(t).value)
    ensures JoinPhone(ParsePhone(t).value) == t
  {
    var n := FinalTerminatorLength(t);
    var core := t[..|t| - n];
    assert core == "+7" + core[2..];
    assert t == core + t[|t| - n..];
  }

  /** Every "+7", ten digits and a final terminator is recognized. */
  lemma ParsePhoneComplete(p: PhoneParts)
    requires WellFormedPhone(p)
    ensures ParsePhone(JoinPhone(p)) == Some(p)
  {
    var core := "+7" + p.digits;
    assert JoinPhone(p) == core + p.terminator;
    assert core[11] == p.digits[9];
    FinalTerminatorOf(core, p.terminator);
    assert JoinPhone(p)[..12] == core;
    assert core[2..] == p.digits;
  }

  function ValidatePhone(text: string): ValidationResult {
    var valid := ParsePhone(text).Some?;
    FromErrors(if valid then [] else [PhoneInvalidFormat])
  }

  // ---------------------------------------------------------------------------
  // Comment

  function ValidateComment(text: string): ValidationResult {
    var trimmed := Trim(text);
    FromErrors(
      (if |trimmed| == 0 then [CommentEmpty] else [])
      + (if |trimmed| < 3 then [CommentTooShort] else [])
      + (if |trimmed| > 500 then [CommentTooLong] else []))
  }

  // ---------------------------------------------------------------------------
  // The validator

  /** `FormValidator.validate(_:for:)`. Whatever the field, the value is
      valid exactly when no message was produced, so also exactly when
      there is no primary message. */
  function Validate(text: string, field: AuthField): (r: ValidationResult)
    ensures r.isValid <==> |r.messages| == 0
    ensures r.isValid <==> r.Primary().None?
  {
    match field
    case Name => ValidateName(text)
    case Email => ValidateEmail(text)
    case Password => ValidatePassword(text)
    case Phone => ValidatePhone(text)
    case Comment => ValidateComment(text)
  }

  // ---------------------------------------------------------------------------
  // Properties per field

  /** Every message reported for a field comes from that field's rules. */
  lemma MessagesBelongToField(text: string, field: AuthField)
    ensures forall m | m in Validate(text, field).messages :: FieldOf(m) == field
  {
    match field
    case Name =>
      assert Validate(text, Name) == ValidateName(text);
    case Email =>
      assert Validate(text, Email) == ValidateEmail(text);
    case Password =>
      PasswordMessagesBelong(text);
      assert Validate(text, Password) == ValidatePassword(text);
    case Phone =>
      assert Validate(text, Phone) == ValidatePhone(text);
    case Comment =>
      CommentMessagesBelong(text);
      assert Validate(text, Comment) == ValidateComment(text);
  }

  lemma PasswordMessagesBelong(text: string)
    ensures forall m | m in ValidatePassword(text).messages :: FieldOf(m) == Password
  {
    PasswordErrorsSpec(Trim(text));
    PasswordOrderField();
  }

  lemma CommentMessagesBelong(text: string)
    ensures forall m | m in ValidateComment(text).messages :: FieldOf(m) == Comment
  {
    var ms := ValidateComment(text).messages;
    forall m | m in ms
      ensures FieldOf(m) == Comment
    {
      assert m == CommentEmpty || m == CommentTooShort || m == CommentTooLong;
    }
  }

  lemma PasswordOrderField()
    ensures forall m | m in PasswordOrder :: FieldOf(m) == Password
  {
  }

  /** A name is invalid exactly when it is shorter than two characters once
      trimmed, and then carries the single minimum-length message. */
  lemma NameRule(text: string)
    ensures !Validate(text, Name).isValid <==> |Trim(text)| < 2
    ensures !Validate(text, Name).isValid ==> Validate(text, Name).messages == [NameMinLength]
  {
  }

  /** An email is valid exactly when the untrimmed text is some well-formed
      `local@domain.tld` (plus what the end anchor steps over); an invalid
      one carries the single invalid-email message. */
  lemma EmailRule(text: string)
    ensures Validate(text, Email).isValid <==> exists p :: WellFormedEmail(p) && JoinEmail(p) == text
    ensures !Validate(text, Email).isValid ==> Validate(text, Email).messages == [EmailInvalid]
  {
    if ParseEmail(text).Some? {
      ParseEmailSound(text);
    }
    forall p | WellFormedEmail(p) && JoinEmail(p) == text
      ensures ParseEmail(text).Some?
    {
      ParseEmailComplete(p);
    }
  }

  /** The first and last characters of a well-formed address. */
  lemma JoinEmailEdges(p: EmailParts)
    requires WellFormedEmail(p)
    ensures var t := JoinEmail(p);
      |t| > 0 && IsLocalChar(t[0]) && (IsLetter(t[|t| - 1]) || IsLineTerminator(t[|t| - 1]))
  {
    var t := JoinEmail(p);
    var core := p.local + "@" + p.domain + "." + p.tld;
    assert t == core + p.terminator;
    assert t[0] == p.local[0];
    if |p.terminator| == 0 {
      assert t[|t| - 1] == p.tld[|p.tld| - 1];
    } else {
      assert t[|t| - 1] == p.terminator[|p.terminator| - 1];
    }
  }

  /** A valid email starts with a local-part character and ends with a
      letter of the top-level domain or with a line terminator. */
  lemma EmailEdges(text: string)
    requires Validate(text, Email).isValid
    ensures |text| > 0 && IsLocalChar(text[0])
    ensures IsLetter(text[|text| - 1]) || IsLineTerminator(text[|text| - 1])
  {
    ParseEmailSound(text);
    JoinEmailEdges(ParseEmail(text).value);
  }

  /** `EmailEdges` read backwards. */
  lemma BadEdgeIsInvalid(text: string)
    requires |text| > 0
    requires !IsLocalChar(text[0]) || !(IsLetter(text[|text| - 1]) || IsLineTerminator(text[|text| - 1]))
    ensures !Validate(text, Email).isValid
  {
    if Validate(text, Email).isValid {
      EmailEdges(text);
    }
  }

  /** Leading or trailing spaces make an email invalid: the rule is applied
      to the untrimmed text, and a space is no final terminator. */
  lemma EmailRejectsSurroundingSpace(text: string)
    ensures !Validate(" " + text, Email).isValid
    ensures !Validate(text + " ", Email).isValid
  {
    var front := " " + text;
    assert front[0] == ' ';
    BadEdgeIsInvalid(front);
    var back := text + " ";
    assert back[|back| - 1] == ' ';
    BadEdgeIsInvalid(back);
  }

  /** A phone is valid exactly when it is "+7" and ten digits (plus what the
      end anchor steps over); an invalid one carries one message. */
  lemma PhoneRule(text: string)
    ensures Validate(text, Phone).isValid <==> exists p :: WellFormedPhone(p) && JoinPhone(p) == text
    ensures !Validate(text, Phone).isValid ==> Validate(text, Phone).messages == [PhoneInvalidFormat]
  {
    if ParsePhone(text).Some? {
      ParsePhoneSound(text);
    }
    forall p | WellFormedPhone(p) && JoinPhone(p) == text
      ensures ParsePhone(text).Some?
    {
      ParsePhoneComplete(p);
    }
  }

  /** Password messages: each appears exactly when its rule fails on the
      trimmed value, and they come in the fixed rule order without repeats. */
  lemma PasswordRule(text: string)
    ensures var ms := Validate(text, Password).messages;
      && (forall m :: m in ms <==> m in PasswordOrder && RuleFails(m, Trim(text)))
      && (forall i, j | 0 <= i < j < |ms| :: Rank(ms[i]) < Rank(ms[j]))
  {
    assert Validate(text, Password).messages == PasswordErrors(Trim(text));
    PasswordErrorsSpec(Trim(text));
  }

  /** The primary password message is the first rule, in rule order, that
      the trimmed value fails. */
  lemma PasswordPrimaryIsFirstFailing(text: string)
    ensures var m := Validate(text, Password).Primary();
      m.Some? ==>
        && m.value in PasswordOrder && RuleFails(m.value, Trim(text))
        && (forall r | r in PasswordOrder && Rank(r) < Rank(m.value) :: !RuleFails(r, Trim(text)))
  {
    PasswordRule(text);
  }

  // ---------------------------------------------------------------------------
  // The message a screen shows under a field

  /** `validate(value, for: .email).message`: nothing for a valid address,
      otherwise the single invalid-address message. */
  function EmailMessage(text: string): (m: Option<Message>)
    ensures m.None? <==> Validate(text, Email).isValid
    ensures m.Some? ==> m.value == EmailInvalid
  {
    EmailRule(text);
    Validate(text, Email).Primary()
  }

  /** `validate(value, for: .password).message`: nothing for a valid
      password, otherwise the first rule, in rule order, that the trimmed
      value fails. */
  function PasswordMessage(text: string): (m: Option<Message>)
    ensures m.None? <==> Validate(text, Password).isValid
    ensures m.Some? ==> m.value in PasswordOrder && RuleFails(m.value, Trim(text))
    ensures m.Some? ==> forall r | r in PasswordOrder && Rank(r) < Rank(m.value) :: !RuleFails(r, Trim(text))
  {
    PasswordPrimaryIsFirstFailing(text);
    Validate(text, Password).Primary()
  }

  /** Trimming happens before the password rules, so whitespace around the
      value is never reported: only interior whitespace counts. */
  lemma PasswordIgnoresOuterWhitespace(a: string, text: string, b: string)
    requires AllWhitespace(a) && AllWhitespace(b)
    ensures Validate(a + text + b, Password) == Validate(text, Password)
  {
    TrimIgnoresPadding(a, text, b);
  }

  /** On a trimmed value the allowed-characters pattern is a plain
      whole-string check: the end anchor has nothing to step over. */
  lemma AllowedCharsOnTrimmed(text: string)
    ensures var pwd := Trim(text);
      MatchesAllowedChars(pwd) <==> |pwd| > 0 && forall i | 0 <= i < |pwd| :: IsPasswordChar(pwd[i])
  {
    var pwd := Trim(text);
    if |pwd| > 0 {
      assert !IsWhitespace(pwd[|pwd| - 1]);
      if |pwd| >= 2 {
        assert pwd[|pwd| - 2..][1] == pwd[|pwd| - 1];
      }
      assert FinalTerminatorLength(pwd) == 0;
      assert pwd[..|pwd|] == pwd;
    }
  }

  /** An interior whitespace character is reported twice: as a space and as
      a character outside the allowed set. */
  lemma InteriorSpaceReportedTwice(text: string)
    requires HasWhitespace(Trim(text))
    ensures PasswordNoSpaces in Validate(text, Password).messages
    ensures PasswordAllowedChars in Validate(text, Password).messages
  {
    var pwd := Trim(text);
    var i :| 0 <= i < |pwd| && IsWhitespace(pwd[i]);
    assert !IsPasswordChar(pwd[i]);
    AllowedCharsOnTrimmed(text);
    assert RuleFails(PasswordAllowedChars, pwd) && RuleFails(PasswordNoSpaces, pwd);
    PasswordRule(text);
  }

  /** Comment messages by trimmed length: empty gives both "empty" and "too
      short", 1..2 only "too short", 3..500 nothing, above 500 "too long". */
  lemma CommentRule(text: string)
    ensures var n := |Trim(text)|; var ms := Validate(text, Comment).messages;
      && (n == 0 ==> ms == [CommentEmpty, CommentTooShort])
      && (0 < n < 3 ==> ms == [CommentTooShort])
      && (3 <= n <= 500 <==> ms == [])
      && (n > 500 ==> ms == [CommentTooLong])
  {
  }

  // ---------------------------------------------------------------------------
  // Worked examples
  //
  // Each example names its sample text as a parameter fixed by `requires`
  // rather than writing the literal into the `ensures`: the verifier then
  // reasons from the characters asserted in the body instead of unfolding
  // every function on the literal. The password samples are split in two:
  // an `ErrorsOf…` lemma computes the rule list on the sample itself, and
  // the example lemma connects it to the validator.

  /** The rule list for "abc123": only the symbol and upper-case rules fail. */
  lemma ErrorsOfAbc123(pwd: string)
    requires pwd == "abc123"
    ensures PasswordErrors(pwd) == [PasswordRequireSpecial, PasswordRequireUppercase]
  {
    forall i | 0 <= i < |pwd|
      ensures !IsWhitespace(pwd[i]) && IsPasswordChar(pwd[i]) && !IsSpecial(pwd[i]) && !IsUpper(pwd[i])
    {
      assert i == 0 || i == 1 || i == 2 || i == 3 || i == 4 || i == 5;
    }
    assert FinalTerminatorLength(pwd) == 0;
    assert pwd[..6] == pwd;
    PasswordErrorsChain(pwd);
    assert IsDigit(pwd[3]);
  }

  /** "abc123" lacks a symbol and an upper-case letter, and nothing else. */
  lemma PasswordExampleNoSpecialNoUpper(t: string)
    requires t == "abc123"
    ensures Validate(t, Password).messages == [PasswordRequireSpecial, PasswordRequireUppercase]
  {
    assert Validate(t, Password) == ValidatePassword(t);
    TrimNoEdge(t);
    ErrorsOfAbc123(t);
  }

  /** The rule list for "Abc1!2" is empty. */
  lemma ErrorsOfValidSample(pwd: string)
    requires pwd == "Abc1!2"
    ensures PasswordErrors(pwd) == []
  {
    forall i | 0 <= i < |pwd|
      ensures !IsWhitespace(pwd[i]) && IsPasswordChar(pwd[i])
    {
      assert i == 0 || i == 1 || i == 2 || i == 3 || i == 4 || i == 5;
    }
    assert FinalTerminatorLength(pwd) == 0;
    assert pwd[..6] == pwd;
    PasswordErrorsChain(pwd);
    assert IsDigit(pwd[3]) && IsSpecial(pwd[4]) && IsUpper(pwd[0]);
  }

  /** "Abc1!2" satisfies every rule. */
  lemma PasswordExampleValid(t: string)
    requires t == "Abc1!2"
    ensures Validate(t, Password) == ValidationResult(true, [])
  {
    assert Validate(t, Password) == ValidatePassword(t);
    TrimNoEdge(t);
    ErrorsOfValidSample(t);
  }

  /** The rule list for "ab c1!": the space fails two rules, and there is
      no upper-case letter. */
  lemma ErrorsOfSpacedSample(pwd: string)
    requires pwd == "ab c1!"
    ensures PasswordErrors(pwd) == [PasswordNoSpaces, PasswordAllowedChars, PasswordRequireUppercase]
  {
    forall i | 0 <= i < |pwd|
      ensures !IsUpper(pwd[i])
    {
      assert i == 0 || i == 1 || i == 2 || i == 3 || i == 4 || i == 5;
    }
    assert FinalTerminatorLength(pwd) == 0;
    assert pwd[..6] == pwd;
    PasswordErrorsChain(pwd);
    assert IsWhitespace(pwd[2]) && !IsPasswordChar(pwd[2]);
    assert IsDigit(pwd[4]) && IsSpecial(pwd[5]);
  }

  /** "ab c1!": the interior space is reported as a space and as a
      disallowed character, and the upper-case letter is missing. */
  lemma PasswordExampleInteriorSpace(t: string)
    requires t == "ab c1!"
    ensures Validate(t, Password).messages
      == [PasswordNoSpaces, PasswordAllowedChars, PasswordRequireUppercase]
  {
    assert Validate(t, Password) == ValidatePassword(t);
    TrimNoEdge(t);
    ErrorsOfSpacedSample(t);
  }

  /** Any text that joins well-formed parts passes the email rule. */
  lemma EmailValidOfParts(p: EmailParts, t: string)
    requires WellFormedEmail(p) && JoinEmail(p) == t
    ensures Validate(t, Email).isValid
  {
    ParseEmailComplete(p);
  }

  /** "a@b.co" is a valid address. */
  lemma EmailExampleValid(t: string)
    requires t == "a@b.co"
    ensures Validate(t, Email).isValid
  {
    var p := EmailParts(t[..1], t[2..3], t[4..], t[6..]);
    assert JoinEmail(p) == t;
    assert WellFormedEmail(p) by {
      assert t[..1][0] == 'a' && t[2..3][0] == 'b';
      assert t[4..][0] == 'c' && t[4..][1] == 'o';
    }
    EmailValidOfParts(p, t);
  }

  /** "a@b" has no dot and top-level domain after the "@", so it is invalid. */
  lemma EmailExampleMissingTld(t: string)
    requires t == "a@b"
    ensures !Validate(t, Email).isValid
  {
    assert FinalTerminatorLength(t) == 0;
    assert AnchoredCore(t) == t;
    IndexOfIs(t, '@', 1);
    assert t[2..] == "b";
    assert LastIndexOf(t[2..], '.') == -1;
  }

  /** The end anchor steps over a final newline, so this one is valid too. */
  lemma EmailExampleFinalNewline(t: string)
    requires t == "a@b.co\n"
    ensures Validate(t, Email).isValid
  {
    var q := EmailParts(t[..1], t[2..3], t[4..6], t[6..]);
    assert JoinEmail(q) == t;
    assert WellFormedEmail(q) by {
      assert t[..1][0] == 'a' && t[2..3][0] == 'b';
      assert t[4..6][0] == 'c' && t[4..6][1] == 'o';
      assert t[6..][0] == '\n';
    }
    EmailValidOfParts(q, t);
  }

  /** Any text that joins well-formed parts passes the phone rule. */
  lemma PhoneValidOfParts(p: PhoneParts, t: string)
    requires WellFormedPhone(p) && JoinPhone(p) == t
    ensures Validate(t, Phone).isValid
  {
    ParsePhoneComplete(p);
  }

  /** "+7" with ten digits is a valid phone; with nine it is not. */
  lemma PhoneExamples(valid: string, short: string)
    requires valid == "+79991234567" && short == "+7999123456"
    ensures Validate(valid, Phone).isValid
    ensures !Validate(short, Phone).isValid
  {
    var p := PhoneParts(valid[2..], valid[12..]);
    assert JoinPhone(p) == valid;
    assert WellFormedPhone(p) by {
      forall k | 0 <= k < 10
        ensures IsDigit(valid[2..][k])
      {
        assert valid[2..][k] == valid[k + 2];
      }
    }
    PhoneValidOfParts(p, valid);
    assert FinalTerminatorLength(short) == 0;
  }
}
