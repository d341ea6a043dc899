/** First-match-wins rule tables: a list of tests, each paired with the
    outcome it yields, and a fallback when no test passes. Both error
    classifiers of the app are of this shape. */
module FirstMatch {

  /** The outcome of the first passing test, or `fallback`. */
  function Select<R>(tests: seq<bool>, outcomes: seq<R>, fallback: R): R
    requires |tests| == |outcomes|
  {
    if |tests| == 0 then fallback
    else if tests[0] then outcomes[0]
    else Select(tests[1..], outcomes[1..], fallback)
  }

  /** Reading the table from row `i` on: row `i` decides if its test
      passes, otherwise the rows after it do. */
  lemma SelectAt<R>(tests: seq<bool>, outcomes: seq<R>, fallback: R, i: nat)
    requires |tests| == |outcomes| && i < |tests|
    ensures Select(tests[i..], outcomes[i..], fallback)
      == if tests[i] then outcomes[i] else Select(tests[i + 1..], outcomes[i + 1..], fallback)
  {
    assert tests[i..][1..] == tests[i + 1..];
    assert outcomes[i..][1..] == outcomes[i + 1..];
  }

  /** When test `k` is the first to pass, its outcome is selected. */
  lemma {:induction false} SelectFirst<R>(tests: seq<bool>, outcomes: seq<R>, fallback: R, k: nat)
    requires |tests| == |outcomes|
    requires k < |tests| && tests[k]
    requires forall j | 0 <= j < k :: !tests[j]
    ensures Select(tests, outcomes, fallback) == outcomes[k]
    decreases k
  {
    if k > 0 {
      assert !tests[0];
      SelectFirst(tests[1..], outcomes[1..], fallback, k - 1);
    }
  }

  /** When no test passes, the fallback is selected. */
  lemma {:induction false} SelectNone<R>(tests: seq<bool>, outcomes: seq<R>, fallback: R)
    requires |tests| == |outcomes|
    requires forall j | 0 <= j < |tests| :: !tests[j]
    ensures Select(tests, outcomes, fallback) == fallback
    decreases |tests|
  {
    if |tests| > 0 {
      assert !tests[0];
      SelectNone(tests[1..], outcomes[1..], fallback);
    }
  }

  /** The selected value is one of the outcomes or the fallback. */
  lemma {:induction false} SelectRange<R>(tests: seq<bool>, outcomes: seq<R>, fallback: R)
    requires |tests| == |outcomes|
    ensures Select(tests, outcomes, fallback) in outcomes || Select(tests, outcomes, fallback) == fallback
    decreases |tests|
  {
    if |tests| > 0 && !tests[0] {
      SelectRange(tests[1..], outcomes[1..], fallback);
      assert forall x | x in outcomes[1..] :: x in outcomes;
    }
  }
}
