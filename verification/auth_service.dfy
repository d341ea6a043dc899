/** The session state of the authentication service: the current user id,
    the history of values published on the authorized flag, and the effect
    of each action on them for every provider reply. */
module AuthService {
  import opened Wrappers
  import opened Text
  import opened Provider
  import opened AuthErrors

  /** `currentUserId` and every value sent to the authorized subject since
      construction, oldest first. */
  datatype AuthState = AuthState(currentUserId: Option<string>, sent: seq<bool>)

  /** A fresh service: no user, and the subject still holds its initial
      `false`. */
  const Initial := AuthState(None, [])

  /** The current value of the authorized subject: the last value sent, or
      the initial `false`. */
  function IsAuthorized(st: AuthState): (b: bool)
    ensures |st.sent| == 0 ==> !b
    ensures |st.sent| > 0 ==> b == st.sent[|st.sent| - 1]
  {
    if |st.sent| == 0 then false else st.sent[|st.sent| - 1]
  }

  /** A session the service accepts: not expired and e-mail confirmed. */
  predicate Usable(s: Session) {
    !s.expired && s.emailConfirmed
  }

  /** A user id is held exactly when the published flag is `true`. */
  predicate Consistent(st: AuthState) {
    st.currentUserId.Some? == IsAuthorized(st)
  }

  /** `applyAuthState`: every call publishes exactly one value; a usable
      session publishes `true` and stores its user id, anything else
      (absent, expired, unconfirmed) publishes `false` and clears the id. */
  function ApplyAuthState(st: AuthState, session: Option<Session>): (r: AuthState)
    ensures |r.sent| == |st.sent| + 1 && r.sent[..|st.sent|] == st.sent
    ensures IsAuthorized(r) <==> session.Some? && Usable(session.value)
    ensures IsAuthorized(r) ==> r.currentUserId == Some(session.value.userId)
    ensures !IsAuthorized(r) ==> r.currentUserId == None
    ensures Consistent(r)
  {
    if session.None? || session.value.expired then
      AuthState(None, st.sent + [false])
    else if !session.value.emailConfirmed then
      AuthState(None, st.sent + [false])
    else
      AuthState(Some(session.value.userId), st.sent + [true])
  }

  /** The result of an action: the state after it, the provider requests it
      made in order, and whether it returned or threw. */
  datatype Step = Step(state: AuthState, calls: seq<ProviderCall>, outcome: Outcome<AuthDomainError>)

  /** `syncFromCurrentSessionIfPossible`: fetch the current session and apply
      it; a failed fetch changes nothing and hands its (unclassified) error
      to the caller. */
  function SyncFromCurrentSession(st: AuthState, fetched: CallResult<Session>): (r: (AuthState, Option<Evidence>))
    ensures fetched.Succeeded? ==> r.1.None? && r.0 == ApplyAuthState(st, Some(fetched.value))
    ensures fetched.Failed? ==> r.1 == Some(fetched.evidence) && r.0 == st
  {
    match fetched
    case Succeeded(s) => (ApplyAuthState(st, Some(s)), None)
    case Failed(ev) => (st, Some(ev))
  }

  /** `safeInitialSync`: never throws; a failed fetch is treated as no
      session, so the service ends unauthorized with no user id. */
  function SafeInitialSync(st: AuthState, fetched: CallResult<Session>): (r: AuthState)
    ensures r == ApplyAuthState(st, if fetched.Succeeded? then Some(fetched.value) else None)
    ensures |r.sent| == |st.sent| + 1 && r.sent[..|st.sent|] == st.sent
    ensures fetched.Failed? ==> !IsAuthorized(r) && r.currentUserId.None?
    ensures IsAuthorized(r) <==> fetched.Succeeded? && Usable(fetched.value)
    ensures IsAuthorized(r) ==> r.currentUserId == Some(fetched.value.userId)
    ensures Consistent(r)
  {
    var (synced, failure) := SyncFromCurrentSession(st, fetched);
    if failure.Some? then ApplyAuthState(st, None) else synced
  }

  /** What the guarded `do` block of an action did: the requests it made,
      the state it left, and the provider error it threw, if any. A throw
      always comes before any state change. */
  datatype Attempt = Attempt(state: AuthState, calls: seq<ProviderCall>, thrown: Option<Evidence>)

  /** `catch { throw mapSupabaseAuthError(error) }`: a thrown provider
      error is classified and the state stays as it was before the block. */
  function Catch(st: AuthState, a: Attempt): (r: Step)
    ensures r.calls == a.calls
    ensures r.outcome.Pass? <==> a.thrown.None?
    ensures a.thrown.None? ==> r.state == a.state
    ensures a.thrown.Some? ==> r.state == st && r.outcome == Fail(Classify(a.thrown.value))
    ensures r.outcome.Fail? ==> r.outcome.error != RequiresBackendForAccountDeletion
  {
    match a.thrown
    case Some(ev) => Step(st, a.calls, Fail(Classify(ev)))
    case None => Step(a.state, a.calls, Pass)
  }

  /** The guarded block of `signIn`. */
  function SignInBlock(st: AuthState, email: string, password: string,
                       signedIn: CallResult<Session>, fetched: CallResult<Session>): (a: Attempt)
    ensures a.thrown.None? <==> signedIn.Succeeded? && fetched.Succeeded?
    ensures a.thrown.None? ==> a.state == ApplyAuthState(st, Some(fetched.value))
    ensures signedIn.Failed? ==> a == Attempt(st, [SignInRequest(email, password)], Some(signedIn.evidence))
    ensures signedIn.Succeeded? ==> a.calls == [SignInRequest(email, password), SessionRequest]
  {
    match signedIn
    case Failed(ev) => Attempt(st, [SignInRequest(email, password)], Some(ev))
    case Succeeded(_) =>
      var (synced, failure) := SyncFromCurrentSession(st, fetched);
      Attempt(synced, [SignInRequest(email, password), SessionRequest], failure)
  }

  /** `signIn`: the provider receives the arguments unchanged; on success
      the current session is fetched and applied. Any failure, of the sign-in
      itself or of the fetch, is classified and leaves the state as it was. */
  function SignIn(st: AuthState, email: string, password: string,
                  signedIn: CallResult<Session>, fetched: CallResult<Session>): (r: Step)
    ensures 1 <= |r.calls| <= 2 && r.calls[0] == SignInRequest(email, password)
    ensures r.outcome.Pass? <==> signedIn.Succeeded? && fetched.Succeeded?
    ensures r.outcome.Pass? ==> r.calls == [SignInRequest(email, password), SessionRequest]
    ensures r.outcome.Pass? ==> r.state == ApplyAuthState(st, Some(fetched.value))
    ensures r.outcome.Pass? ==> (IsAuthorized(r.state) <==> Usable(fetched.value))
    ensures r.outcome.Pass? && Usable(fetched.value) ==> r.state.currentUserId == Some(fetched.value.userId)
    ensures r.outcome.Pass? ==> |r.state.sent| == |st.sent| + 1 && r.state.sent[..|st.sent|] == st.sent
    ensures signedIn.Failed? ==> r.outcome == Fail(Classify(signedIn.evidence))
    ensures signedIn.Succeeded? && fetched.Failed? ==> r.outcome == Fail(Classify(fetched.evidence))
    ensures r.outcome.Fail? ==> r.state == st && r.outcome.error != RequiresBackendForAccountDeletion
    ensures Consistent(st) ==> Consistent(r.state)
  {
    Catch(st, SignInBlock(st, email, password, signedIn, fetched))
  }

  /** The guarded block of `signUp`. */
  function SignUpBlock(st: AuthState, email: string, password: string,
                       signedUp: CallResult<Option<Session>>): (a: Attempt)
    ensures a.calls == [SignUpRequest(email, password)]
    ensures signedUp.Succeeded? ==> a.thrown.None? && a.state == ApplyAuthState(st, None)
    ensures signedUp.Failed? ==> a.thrown == Some(signedUp.evidence)
  {
    match signedUp
    case Succeeded(_) => Attempt(ApplyAuthState(st, None), [SignUpRequest(email, password)], None)
    case Failed(ev) => Attempt(st, [SignUpRequest(email, password)], Some(ev))
  }

  /** `signUp`: whatever session the provider hands back is ignored and the
      service is left unauthorized; a failure is classified and changes
      nothing. */
  function SignUp(st: AuthState, email: string, password: string,
                  signedUp: CallResult<Option<Session>>): (r: Step)
    ensures r.calls == [SignUpRequest(email, password)]
    ensures r.outcome.Pass? <==> signedUp.Succeeded?
    ensures r.outcome.Pass? ==> r.state == ApplyAuthState(st, None)
    ensures r.outcome.Pass? ==> !IsAuthorized(r.state) && r.state.currentUserId.None?
    ensures r.outcome.Pass? ==> |r.state.sent| == |st.sent| + 1 && r.state.sent[..|st.sent|] == st.sent
    ensures r.outcome.Fail? ==> r.state == st && r.outcome == Fail(Classify(signedUp.evidence))
    ensures Consistent(st) ==> Consistent(r.state)
  {
    Catch(st, SignUpBlock(st, email, password, signedUp))
  }

  /** The guarded block of `signOut`. */
  function SignOutBlock(st: AuthState, signedOut: CallResult<()>): (a: Attempt)
    ensures a.calls == [SignOutRequest]
    ensures signedOut.Succeeded? ==> a.thrown.None? && a.state == ApplyAuthState(st, None)
    ensures signedOut.Failed? ==> a.thrown == Some(signedOut.evidence)
  {
    match signedOut
    case Succeeded(_) => Attempt(ApplyAuthState(st, None), [SignOutRequest], None)
    case Failed(ev) => Attempt(st, [SignOutRequest], Some(ev))
  }

  /** `signOut`: success leaves the service unauthorized; a provider failure
      is classified and thrown with no state change at all. */
  function SignOut(st: AuthState, signedOut: CallResult<()>): (r: Step)
    ensures r.calls == [SignOutRequest]
    ensures r.outcome.Pass? <==> signedOut.Succeeded?
    ensures r.outcome.Pass? ==> r.state == ApplyAuthState(st, None)
    ensures r.outcome.Pass? ==> !IsAuthorized(r.state) && r.state.currentUserId.None?
    ensures r.outcome.Pass? ==> |r.state.sent| == |st.sent| + 1 && r.state.sent[..|st.sent|] == st.sent
    ensures r.outcome.Fail? ==> r.state == st && r.outcome == Fail(Classify(signedOut.evidence))
    ensures Consistent(st) ==> Consistent(r.state)
  {
    Catch(st, SignOutBlock(st, signedOut))
  }

  /** `deleteAccount`: always refused on the client, with no provider call
      and no state change. */
  function DeleteAccount(st: AuthState): (r: Step)
    ensures r.state == st && |r.calls| == 0
    ensures r.outcome == Fail(RequiresBackendForAccountDeletion)
  {
    Step(st, [], Fail(RequiresBackendForAccountDeletion))
  }

  /** Every sign-in request among `calls` carries `password`. */
  predicate SignInsCarry(calls: seq<ProviderCall>, password: string) {
    forall i | 0 <= i < |calls| :: calls[i].SignInRequest? ==> calls[i].password == password
  }

  /** The guarded block of `updateEmail`, given the trimmed password. A
      session without an e-mail address makes the block throw the service's
      own `unknown` error. */
  function UpdateEmailBlock(st: AuthState, newEmail: string, password: string,
                            fetched: CallResult<Session>, reauthenticated: CallResult<Session>,
                            updated: CallResult<()>, resynced: CallResult<Session>): (a: Attempt)
    ensures a.thrown.None? <==>
      fetched.Succeeded? && fetched.value.email.GetOr("") != ""
      && reauthenticated.Succeeded? && updated.Succeeded? && resynced.Succeeded?
    ensures a.thrown.Some? ==> a.state == st
    ensures fetched.Failed? ==> a == Attempt(st, [SessionRequest], Some(fetched.evidence))
    ensures (fetched.Succeeded? && fetched.value.email.GetOr("") != "" && reauthenticated.Failed?) ==>
      a.thrown == Some(reauthenticated.evidence)
    ensures (fetched.Succeeded? && fetched.value.email.GetOr("") != "" && reauthenticated.Succeeded?
             && updated.Failed?) ==> a.thrown == Some(updated.evidence)
    ensures (fetched.Succeeded? && fetched.value.email.GetOr("") != "" && reauthenticated.Succeeded?
             && updated.Succeeded? && resynced.Failed?) ==> a.thrown == Some(resynced.evidence)
    ensures SignInsCarry(a.calls, password)
    ensures fetched.Succeeded? && fetched.value.email.GetOr("") == "" ==>
      a == Attempt(st, [SessionRequest], Some(UnknownErrorEvidence))
    ensures a.thrown.None? ==>
      && a.calls == [SessionRequest, SignInRequest(fetched.value.email.value, password),
                     UpdateUserRequest(newEmail), SessionRequest]
      && a.state == ApplyAuthState(st, Some(resynced.value))
  {
    match fetched
    case Failed(ev) => Attempt(st, [SessionRequest], Some(ev))
    case Succeeded(session) =>
      var currentEmail := session.email.GetOr("");
      if |currentEmail| == 0 then Attempt(st, [SessionRequest], Some(UnknownErrorEvidence))
      else
        var signIn := SignInRequest(currentEmail, password);
        match reauthenticated
        case Failed(ev) => Attempt(st, [SessionRequest, signIn], Some(ev))
        case Succeeded(_) =>
          var update := UpdateUserRequest(newEmail);
          match updated
          case Failed(ev) => Attempt(st, [SessionRequest, signIn, update], Some(ev))
          case Succeeded(_) =>
            var (synced, failure) := SyncFromCurrentSession(st, resynced);
            Attempt(synced, [SessionRequest, signIn, update, SessionRequest], failure)
  }

  /** `updateEmail`: a password that is blank once trimmed is refused before
      any provider call. Otherwise the current session is fetched, its user
      re-authenticated with the trimmed password, the e-mail updated and the
      session synchronised again, stopping at the first failure, which is
      classified and leaves the state as it was. */
  function UpdateEmail(st: AuthState, newEmail: string, currentPassword: string,
                       fetched: CallResult<Session>, reauthenticated: CallResult<Session>,
                       updated: CallResult<()>, resynced: CallResult<Session>): (r: Step)
    ensures AllWhitespace(currentPassword) ==> r == Step(st, [], Fail(InvalidCredentials))
    ensures r.outcome.Pass? <==>
      |Trim(currentPassword)| > 0 && fetched.Succeeded? && fetched.value.email.GetOr("") != ""
      && reauthenticated.Succeeded? && updated.Succeeded? && resynced.Succeeded?
    ensures r.outcome.Fail? ==> r.state == st && r.outcome.error != RequiresBackendForAccountDeletion
    ensures SignInsCarry(r.calls, Trim(currentPassword))
    ensures |r.calls| > 0 ==> |Trim(currentPassword)| > 0
    ensures r.outcome.Pass? ==>
      r.calls == [SessionRequest, SignInRequest(fetched.value.email.value, Trim(currentPassword)),
                  UpdateUserRequest(newEmail), SessionRequest]
    ensures r.outcome.Pass? ==> r.state == ApplyAuthState(st, Some(resynced.value))
    ensures r.outcome.Pass? ==> (IsAuthorized(r.state) <==> Usable(resynced.value))
    ensures r.outcome.Pass? && Usable(resynced.value) ==> r.state.currentUserId == Some(resynced.value.userId)
    ensures r.outcome.Pass? ==> |r.state.sent| == |st.sent| + 1 && r.state.sent[..|st.sent|] == st.sent
    ensures |Trim(currentPassword)| > 0 && fetched.Failed? ==>
      r == Step(st, [SessionRequest], Fail(Classify(fetched.evidence)))
    ensures (|Trim(currentPassword)| > 0 && fetched.Succeeded? && fetched.value.email.GetOr("") != ""
             && reauthenticated.Failed?) ==> r.outcome == Fail(Classify(reauthenticated.evidence))
    ensures (|Trim(currentPassword)| > 0 && fetched.Succeeded? && fetched.value.email.GetOr("") != ""
             && reauthenticated.Succeeded? && updated.Failed?) ==> r.outcome == Fail(Classify(updated.evidence))
    ensures (|Trim(currentPassword)| > 0 && fetched.Succeeded? && fetched.value.email.GetOr("") != ""
             && reauthenticated.Succeeded? && updated.Succeeded? && resynced.Failed?) ==>
      r.outcome == Fail(Classify(resynced.evidence))
    ensures Consistent(st) ==> Consistent(r.state)
  {
    TrimEmptyIffBlank(currentPassword);
    var password := Trim(currentPassword);
    if |password| == 0 then Step(st, [], Fail(InvalidCredentials))
    else Catch(st, UpdateEmailBlock(st, newEmail, password, fetched, reauthenticated, updated, resynced))
  }

  /** A session without an e-mail address ends `updateEmail` with the
      `unknown` error after one provider request, whatever the password. */
  lemma UpdateEmailWithoutAddress(st: AuthState, newEmail: string, currentPassword: string,
                                  session: Session, reauthenticated: CallResult<Session>,
                                  updated: CallResult<()>, resynced: CallResult<Session>)
    requires !AllWhitespace(currentPassword)
    requires session.email.GetOr("") == ""
    ensures UpdateEmail(st, newEmail, currentPassword, Succeeded(session), reauthenticated, updated, resynced)
      == Step(st, [SessionRequest], Fail(Unknown))
  {
    TrimEmptyIffBlank(currentPassword);
    RethrownUnknownIsUnknown();
  }

  // ---------------------------------------------------------------------------
  // Session-change events

  /** The effect of a sequence of provider session-change events, each
      applied as it arrives. */
  function Listen(st: AuthState, events: seq<Option<Session>>): (r: AuthState)
    ensures |events| == 0 ==> r == st
    ensures |events| > 0 ==> Consistent(r)
    decreases |events|
  {
    if |events| == 0 then st else Listen(ApplyAuthState(st, events[0]), events[1..])
  }

  /** Each event publishes exactly one value, in order, and that value says
      whether the event carried a usable session; earlier values are kept. */
  lemma {:induction false} ListenPublishes(st: AuthState, events: seq<Option<Session>>)
    ensures |Listen(st, events).sent| == |st.sent| + |events|
    ensures Listen(st, events).sent[..|st.sent|] == st.sent
    ensures forall k | 0 <= k < |events| ::
      Listen(st, events).sent[|st.sent| + k] == (events[k].Some? && Usable(events[k].value))
    decreases |events|
  {
    if |events| > 0 {
      var st1 := ApplyAuthState(st, events[0]);
      var r := Listen(st, events);
      assert r == Listen(st1, events[1..]);
      ListenPublishes(st1, events[1..]);
      assert st1.sent[|st.sent|] == IsAuthorized(st1);
      assert r.sent[..|st1.sent|] == st1.sent;
      assert r.sent[..|st.sent|] == st1.sent[..|st.sent|];
      forall k | 0 <= k < |events|
        ensures r.sent[|st.sent| + k] == (events[k].Some? && Usable(events[k].value))
      {
        if k == 0 {
          assert r.sent[|st.sent|] == r.sent[..|st1.sent|][|st.sent|];
        } else {
          assert events[1..][k - 1] == events[k];
          assert r.sent[|st1.sent| + (k - 1)] == (events[1..][k - 1].Some? && Usable(events[1..][k - 1].value));
        }
      }
    }
  }

  /** After at least one event the service reflects the last one alone:
      its user id when usable, no user otherwise. */
  lemma {:induction false} ListenReflectsLast(st: AuthState, events: seq<Option<Session>>)
    requires |events| > 0
    ensures var last := events[|events| - 1];
      var r := Listen(st, events);
      (IsAuthorized(r) <==> last.Some? && Usable(last.value))
      && r.currentUserId == (if last.Some? && Usable(last.value) then Some(last.value.userId) else None)
      && Consistent(r)
    decreases |events|
  {
    var st1 := ApplyAuthState(st, events[0]);
    if |events| > 1 {
      ListenReflectsLast(st1, events[1..]);
      assert events[1..][|events[1..]| - 1] == events[|events| - 1];
    } else {
      assert events[1..] == [];
    }
  }

  // ---------------------------------------------------------------------------
  // End to end

  /** Start with no stored session, sign in with a confirmed session of user
      "u1", then sign out: the flag goes false, true, false, one value per
      step, and the user id follows. */
  lemma SignInThenSignOut(missing: Evidence, email: string, password: string)
    ensures var started := SafeInitialSync(Initial, Failed(missing));
      var session := Session("u1", false, true, Some(email));
      var signedIn := SignIn(started, email, password, Succeeded(session), Succeeded(session));
      var signedOut := SignOut(signedIn.state, Succeeded(()));
      && started == AuthState(None, [false])
      && signedIn == Step(AuthState(Some("u1"), [false, true]), [SignInRequest(email, password), SessionRequest], Pass)
      && signedOut == Step(AuthState(None, [false, true, false]), [SignOutRequest], Pass)
  {
  }
}
