/** The string primitives the app takes from Foundation, over `seq<char>`:
    character classes, `trimmingCharacters(in: .whitespacesAndNewlines)`,
    `lowercased()` and substring `contains`.

    The model assumes ASCII text: whitespace is space, tab, LF, VT, FF and
    CR; a digit is '0'..'9'; case mapping only touches 'A'..'Z'. */
module Text {

  predicate IsWhitespace(c: char) {
    c == ' ' || c == '\t' || c == '\n' || c == '\U{0B}' || c == '\U{0C}' || c == '\r'
  }

  /** The characters ICU treats as ending a line (ASCII part). */
  predicate IsLineTerminator(c: char) {
    c == '\n' || c == '\U{0B}' || c == '\U{0C}' || c == '\r'
  }

  predicate IsDigit(c: char) { '0' <= c <= '9' }

  predicate IsUpper(c: char) { 'A' <= c <= 'Z' }

  predicate IsLower(c: char) { 'a' <= c <= 'z' }

  predicate IsLetter(c: char) { IsUpper(c) || IsLower(c) }

  predicate AllWhitespace(s: string) {
    forall i | 0 <= i < |s| :: IsWhitespace(s[i])
  }

  predicate AllDigits(s: string) {
    forall i | 0 <= i < |s| :: IsDigit(s[i])
  }

  predicate AllLetters(s: string) {
    forall i | 0 <= i < |s| :: IsLetter(s[i])
  }

  /** Neither the first nor the last character is whitespace. */
  predicate NoEdgeWhitespace(s: string) {
    |s| == 0 || (!IsWhitespace(s[0]) && !IsWhitespace(s[|s| - 1]))
  }

  // ---------------------------------------------------------------------------
  // Trimming

  /** The first position at or after `from` that holds no whitespace, or
      `|s|`. */
  function SkipWhitespace(s: string, from: nat): (i: nat)
    requires from <= |s|
    ensures from <= i <= |s|
    ensures forall j | from <= j < i :: IsWhitespace(s[j])
    ensures i < |s| ==> !IsWhitespace(s[i])
    decreases |s| - from
  {
    if from < |s| && IsWhitespace(s[from]) then SkipWhitespace(s, from + 1) else from
  }

  /** The last position before `upto` after which, up to `upto`, there is
      only whitespace: the start of the whitespace run ending at `upto`. */
  function BackWhitespace(s: string, upto: nat): (i: nat)
    requires upto <= |s|
    ensures i <= upto
    ensures forall j | i <= j < upto :: IsWhitespace(s[j])
    ensures 0 < i ==> !IsWhitespace(s[i - 1])
  {
    if 0 < upto && IsWhitespace(s[upto - 1]) then BackWhitespace(s, upto - 1) else upto
  }

  /** Length of the longest all-whitespace prefix. */
  function LeadingWhitespace(s: string): (n: nat)
    ensures n <= |s|
    ensures AllWhitespace(s[..n])
    ensures n < |s| ==> !IsWhitespace(s[n])
  {
    SkipWhitespace(s, 0)
  }

  /** Length of the longest all-whitespace suffix. */
  function TrailingWhitespace(s: string): (n: nat)
    ensures n <= |s|
    ensures AllWhitespace(s[|s| - n..])
    ensures n < |s| ==> !IsWhitespace(s[|s| - n - 1])
  {
    |s| - BackWhitespace(s, |s|)
  }

  /** `trimmingCharacters(in: .whitespacesAndNewlines)`: the result is the
      contiguous middle of `s`, only whitespace was cut from either end, and
      it neither starts nor ends with whitespace. */
  function Trim(s: string): (r: string)
    ensures NoEdgeWhitespace(r)
    ensures LeadingWhitespace(s) + |r| <= |s|
    ensures r == s[LeadingWhitespace(s)..LeadingWhitespace(s) + |r|]
    ensures AllWhitespace(s[..LeadingWhitespace(s)])
    ensures AllWhitespace(s[LeadingWhitespace(s) + |r|..])
  {
    var t := s[LeadingWhitespace(s)..];
    t[..|t| - TrailingWhitespace(t)]
  }

  /** The whitespace prefix is determined by where the first
      non-whitespace character sits. */
  lemma LeadingIs(s: string, n: nat)
    requires n <= |s| && AllWhitespace(s[..n])
    requires n < |s| ==> !IsWhitespace(s[n])
    ensures LeadingWhitespace(s) == n
  {
  }

  /** The whitespace suffix is determined by where the last non-whitespace
      character sits. */
  lemma TrailingIs(s: string, n: nat)
    requires n <= |s| && AllWhitespace(s[|s| - n..])
    requires n < |s| ==> !IsWhitespace(s[|s| - n - 1])
    ensures TrailingWhitespace(s) == n
  {
  }

  /** Whitespace put in front of a string that does not start with
      whitespace is exactly its leading run. */
  lemma LeadingOfPadded(a: string, x: string)
    requires AllWhitespace(a)
    requires |x| == 0 || !IsWhitespace(x[0])
    ensures LeadingWhitespace(a + x) == |a|
  {
    var s := a + x;
    assert s[..|a|] == a;
    if |a| < |s| {
      assert s[|a|] == x[0];
    }
    LeadingIs(s, |a|);
  }

  /** Mirror image of `LeadingOfPadded` at the end of a string. */
  lemma TrailingOfPadded(x: string, b: string)
    requires AllWhitespace(b)
    requires |x| == 0 || !IsWhitespace(x[|x| - 1])
    ensures TrailingWhitespace(x + b) == |b|
  {
    var s := x + b;
    assert s[|s| - |b|..] == b;
    if |b| < |s| {
      assert s[|s| - |b| - 1] == x[|x| - 1];
    }
    TrailingIs(s, |b|);
  }

  /** Trimming is determined by the decomposition: whatever whitespace is
      wrapped around a string without edge whitespace is exactly what
      `Trim` removes. */
  lemma TrimOfPadded(a: string, r: string, b: string)
    requires AllWhitespace(a) && AllWhitespace(b) && NoEdgeWhitespace(r)
    ensures Trim(a + r + b) == r
  {
    var s := a + r + b;
    if |r| == 0 {
      assert s == a + b;
      LeadingOfPadded(a + b, "");
      assert a + b + "" == a + b;
    } else {
      assert s == a + (r + b);
      LeadingOfPadded(a, r + b);
      assert s[|a|..] == r + b;
      TrailingOfPadded(r, b);
      assert (r + b)[..|r|] == r;
    }
  }

  /** A string without edge whitespace is already trimmed. */
  lemma TrimNoEdge(s: string)
    requires NoEdgeWhitespace(s)
    ensures Trim(s) == s
  {
    TrimOfPadded("", s, "");
    assert "" + s + "" == s;
  }

  lemma SeqAssoc(p: string, q: string, r: string, t: string, u: string)
    ensures p + (q + r + t) + u == (p + q) + r + (t + u)
  {
  }

  lemma AllWhitespaceConcat(x: string, y: string)
    requires AllWhitespace(x) && AllWhitespace(y)
    ensures AllWhitespace(x + y)
  {
    assert forall i | |x| <= i < |x + y| :: (x + y)[i] == y[i - |x|];
  }

  /** Trimming twice is trimming once. */
  lemma TrimIdempotent(s: string)
    ensures Trim(Trim(s)) == Trim(s)
  {
    TrimNoEdge(Trim(s));
  }

  /** Extra whitespace around a string does not change its trimmed form. */
  lemma TrimIgnoresPadding(a: string, s: string, b: string)
    requires AllWhitespace(a) && AllWhitespace(b)
    ensures Trim(a + s + b) == Trim(s)
  {
    var L := LeadingWhitespace(s);
    var r := Trim(s);
    var pre := s[..L];
    var post := s[L + |r|..];
    assert s == pre + r + post by {
      assert s == s[..L] + s[L..L + |r|] + s[L + |r|..];
    }
    calc {
      a + s + b;
      a + (pre + r + post) + b;
      { SeqAssoc(a, pre, r, post, b); }
      (a + pre) + r + (post + b);
    }
    AllWhitespaceConcat(a, pre);
    AllWhitespaceConcat(post, b);
    TrimOfPadded(a + pre, r, post + b);
  }

  /** A string trims to nothing exactly when it is all whitespace. */
  lemma TrimEmptyIffBlank(s: string)
    ensures |Trim(s)| == 0 <==> AllWhitespace(s)
  {
    if AllWhitespace(s) {
      TrimOfPadded(s, "", "");
      assert s + "" + "" == s;
    }
  }

  // ---------------------------------------------------------------------------
  // Lower-casing

  function LowerChar(c: char): (d: char)
    ensures !IsUpper(d)
    ensures IsUpper(c) ==> IsLower(d) && d as int == c as int + 32
    ensures !IsUpper(c) ==> d == c
  {
    if IsUpper(c) then (c as int + 32) as char else c
  }

  /** `lowercased()`: position by position, upper-case letters become lower
      case and every other character is kept. */
  function ToLower(s: string): (r: string)
    ensures |r| == |s|
    ensures forall i | 0 <= i < |s| :: r[i] == LowerChar(s[i])
  {
    if |s| == 0 then [] else [LowerChar(s[0])] + ToLower(s[1..])
  }

  /** A string without upper-case letters is its own lower-case form. */
  lemma ToLowerNoUpper(s: string)
    requires forall i | 0 <= i < |s| :: !IsUpper(s[i])
    ensures ToLower(s) == s
  {
  }

  /** Lower-casing moves no whitespace, so it keeps a trimmed string trimmed,
      and applying it twice changes nothing more. */
  lemma ToLowerKeepsShape(s: string)
    ensures forall i | 0 <= i < |s| :: IsWhitespace(ToLower(s)[i]) <==> IsWhitespace(s[i])
    ensures NoEdgeWhitespace(s) ==> NoEdgeWhitespace(ToLower(s))
    ensures ToLower(ToLower(s)) == ToLower(s)
  {
  }

  // ---------------------------------------------------------------------------
  // Searching

  /** Index of the first `c` in `s` at or after `from`, or `|s|`. */
  function IndexFrom(s: string, c: char, from: nat): (i: nat)
    requires from <= |s|
    ensures from <= i <= |s|
    ensures i < |s| ==> s[i] == c
    ensures forall j | from <= j < i :: s[j] != c
    decreases |s| - from
  {
    if from == |s| then |s|
    else if s[from] == c then from
    else IndexFrom(s, c, from + 1)
  }

  /** Index of the first `c` in `s`, or `|s|` when there is none. */
  function IndexOf(s: string, c: char): (i: nat)
    ensures i <= |s|
    ensures i < |s| ==> s[i] == c
    ensures forall j | 0 <= j < i :: s[j] != c
  {
    IndexFrom(s, c, 0)
  }

  /** Index of the last `c` among the first `upto` characters, or -1. */
  function LastIndexBelow(s: string, c: char, upto: nat): (i: int)
    requires upto <= |s|
    ensures -1 <= i < upto
    ensures 0 <= i ==> s[i] == c
    ensures forall j | i < j < upto :: s[j] != c
  {
    if upto == 0 then -1
    else if s[upto - 1] == c then upto - 1
    else LastIndexBelow(s, c, upto - 1)
  }

  /** Index of the last `c` in `s`, or -1 when there is none. */
  function LastIndexOf(s: string, c: char): (i: int)
    ensures -1 <= i < |s|
    ensures 0 <= i ==> s[i] == c
    ensures forall j | i < j < |s| :: s[j] != c
  {
    LastIndexBelow(s, c, |s|)
  }

  /** `IndexOf` is pinned down by a hit with no earlier hit. */
  lemma IndexOfIs(s: string, c: char, i: int)
    requires 0 <= i < |s| && s[i] == c
    requires forall j | 0 <= j < i :: s[j] != c
    ensures IndexOf(s, c) == i
  {
  }

  /** `LastIndexOf` is pinned down by a hit with no later hit. */
  lemma LastIndexOfIs(s: string, c: char, i: int)
    requires 0 <= i < |s| && s[i] == c
    requires forall j | i < j < |s| :: s[j] != c
    ensures LastIndexOf(s, c) == i
  {
  }

  // ---------------------------------------------------------------------------
  // Substring search

  /** `pat` occurs in `text` starting at index `i`. */
  predicate OccursAt(text: string, pat: string, i: int) {
    0 <= i && i + |pat| <= |text| && text[i..i + |pat|] == pat
  }

  /** `String.contains(_:)` with a non-empty literal: some window of `text`
      equals `pat`. Scans from the left. */
  predicate Contains(text: string, pat: string)
    decreases |text|
  {
    |pat| <= |text| && (text[..|pat|] == pat || Contains(text[1..], pat))
  }

  /** `Contains` is substring occurrence, both directions. */
  lemma {:induction false} ContainsIffOccurs(text: string, pat: string)
    ensures Contains(text, pat) <==> exists i :: OccursAt(text, pat, i)
    decreases |text|
  {
    if 0 < |pat| <= |text| {
      ContainsIffOccurs(text[1..], pat);
      forall i | OccursAt(text[1..], pat, i)
        ensures OccursAt(text, pat, i + 1)
      {
        assert text[1..][i..i + |pat|] == text[i + 1..i + 1 + |pat|];
      }
      forall i | OccursAt(text, pat, i) && i > 0
        ensures OccursAt(text[1..], pat, i - 1)
      {
        assert text[1..][i - 1..i - 1 + |pat|] == text[i..i + |pat|];
      }
      assert OccursAt(text, pat, 0) <==> text[..|pat|] == pat;
    } else if |pat| == 0 {
      assert OccursAt(text, pat, 0);
    }
  }

  /** An occurrence inside an occurrence is an occurrence. */
  lemma OccursWithin(text: string, pat: string, i: int, q: string, j: int)
    requires OccursAt(text, pat, i) && OccursAt(pat, q, j)
    ensures OccursAt(text, q, i + j)
  {
    forall k | 0 <= k < |q|
      ensures text[i + j..i + j + |q|][k] == q[k]
    {
      assert text[i..i + |pat|][j + k] == pat[j + k];
      assert pat[j..j + |q|][k] == q[k];
    }
  }

  /** An occurrence, character by character. */
  lemma OccursAtChars(text: string, pat: string, i: int)
    requires 0 <= i && i + |pat| <= |text|
    requires forall k | 0 <= k < |pat| :: text[i + k] == pat[k]
    ensures OccursAt(text, pat, i)
  {
    assert text[i..i + |pat|] == pat;
  }

  /** A visible occurrence is enough to establish `Contains`. */
  lemma ContainsAt(text: string, pat: string, i: int)
    requires OccursAt(text, pat, i)
    ensures Contains(text, pat)
  {
    ContainsIffOccurs(text, pat);
  }

  /** `c` does not occur in `s`. */
  predicate Avoids(s: string, c: char) {
    forall i | 0 <= i < |s| :: s[i] != c
  }

  /** A text lacking one of the characters of `pat` does not contain it. */
  lemma NotContainsMissingChar(text: string, pat: string, k: int)
    requires 0 <= k < |pat| && Avoids(text, pat[k])
    ensures !Contains(text, pat)
  {
    ContainsIffOccurs(text, pat);
  }
}
