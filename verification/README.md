# TexturaStore authentication core in Dafny

This project models the non-UI logic of the TexturaStore iOS app:

- the form validator (`FormValidator.validate(_:for:)`) for the five field kinds;
- the Supabase-backed authentication service, covering:
  - its published "is authorized" flag and current user id;
  - the effect of each action for every provider reply;
  - its error classifier;
- the password-reset service and its own classifier;
- the gating logic of the sign-in, sign-up and reset-password view models;
- the navigation data structures:
  - the app router;
  - a coordinator's list of child coordinators;
  - the root coordinator's auth/main route;
- the keychain key names.

Everything is modelled with immutable datatypes and pure functions. Provider calls are foreign I/O, so each provider reply is a parameter (`Provider.CallResult`). Every public action of the services returns the list of provider requests it made, which makes "no provider call" and "the provider receives the trimmed address" stateable. Each view-model output that the app publishes through Combine is modelled as a function of the stored fields.

Modules (one file each):

| module | file | covers |
|---|---|---|
| `Wrappers` | `wrappers.dfy` | `Option`, `Outcome` |
| `Text` | `text.dfy` | trimming, lower-casing, substring search over ASCII |
| `Validation` | `validation.dfy` | `AuthField`, messages, `ValidationResult`, the validator |
| `Provider` | `provider.dfy` | sessions, error evidence, provider requests and replies |
| `FirstMatch` | `first_match.dfy` | first-match-wins rule tables |
| `AuthErrors` | `auth_errors.dfy` | `AuthDomainError`, `mapSupabaseAuthError` of the auth service |
| `AuthService` | `auth_service.dfy` | `applyAuthState`, the sync helpers, the five actions, session events |
| `PasswordReset` | `password_reset.dfy` | `ResetDomainError`, its classifier, `sendPasswordReset` |
| `SignInViewModel` | `sign_in_vm.dfy` | sign-in view model |
| `SignUpViewModel` | `sign_up_vm.dfy` | sign-up view model |
| `ResetPasswordViewModel` | `reset_password_vm.dfy` | reset-password view model |
| `AppRouter` | `app_router.dfy` | path stack, sheet and full-screen slots |
| `CoordinatorChildren` | `coordinator_children.dfy` | child boxes with ids |
| `AppCoordinator` | `app_coordinator.dfy` | root route, children, lifecycle calls |
| `KeychainKeys` | `keychain_key.dfy` | `KeychainKey.rawValue` |

Text is modelled over ASCII:

- whitespace is space, tab, LF, VT, FF and CR;
- a digit is `0`..`9`;
- lower-casing touches only `A`..`Z`.

The e-mail and phone rules are ICU regular expressions anchored with `^…$`. Without the multi-line flag, ICU's `$` also matches just before one final line terminator, or before a final "\r\n". So both rules are modelled as "core shape, then an optional final terminator". For example, "a@b.co\n" is a valid e-mail as the code is written (`Validation.EmailExampleFinalNewline`).

Some facts about the code that a reader might expect to be otherwise, all followed by the model:

- The authorized flag starts `false`. The service does not seed it from stored state.
- The service writes and clears no session marker of its own.
- Every `applyAuthState` call publishes a value, including a repeat of the current one.
- A failing `signOut` leaves the state untouched.
- The auth classifier checks the e-mail-confirmation hints before the status codes.

## Model

All source paths start with `TexturaStore/TexturaStore/`.

| member | source | states |
|---|---|---|
| Validation.Validate | TexturaStore/TexturaStore/Domain/Validation/FormValidator.swift:10-71 | for every field kind, the value is valid exactly when no message is produced, and so exactly when there is no primary message (`messages.first`) |
| Validation.MessagesBelongToField | TexturaStore/TexturaStore/Domain/Validation/FormValidator.swift:12-70 | every message reported for a field kind is one of that field's messages |
| Validation.NameRule | TexturaStore/TexturaStore/Domain/Validation/FormValidator.swift:13-19 | a name is invalid iff its trimmed length is below 2, and then its only message is the minimum-length one |
| Validation.ParseEmailSound | TexturaStore/TexturaStore/Domain/Validation/FormValidator.swift:22-23 | whatever the recogniser accepts splits into a well-formed local@domain.tld (plus final terminator) that joins back to the text |
| Validation.ParseEmailComplete | TexturaStore/TexturaStore/Domain/Validation/FormValidator.swift:22-23 | every well-formed local@domain.tld joined to text is recognised, and gives back exactly its parts |
| Validation.EmailRule | TexturaStore/TexturaStore/Domain/Validation/FormValidator.swift:21-25 | the untrimmed text is valid iff it is some well-formed local@domain.tld; an invalid one carries the single invalid-email message |
| Validation.EmailEdges | TexturaStore/TexturaStore/Domain/Validation/FormValidator.swift:22-23 | a valid e-mail starts with a local-part character and ends with a TLD letter or a line terminator |
| Validation.EmailRejectsSurroundingSpace | TexturaStore/TexturaStore/Domain/Validation/FormValidator.swift:21-25 | a leading or a trailing space makes any e-mail invalid |
| Validation.ParsePhoneSound | TexturaStore/TexturaStore/Domain/Validation/FormValidator.swift:52-53 | an accepted phone is "+7", ten digits and an optional final terminator, joining back to the text |
| Validation.ParsePhoneComplete | TexturaStore/TexturaStore/Domain/Validation/FormValidator.swift:52-53 | every "+7"-and-ten-digits text is accepted with exactly those parts |
| Validation.PhoneRule | TexturaStore/TexturaStore/Domain/Validation/FormValidator.swift:51-55 | a phone is valid iff it is "+7" followed by exactly ten digits; an invalid one carries one message |
| Validation.FailingMembers | TexturaStore/TexturaStore/Domain/Validation/FormValidator.swift:28-48 | the chain of checks reports a message exactly when it is one of the checked rules and that rule fails |
| Validation.FailingRanked | TexturaStore/TexturaStore/Domain/Validation/FormValidator.swift:28-48 | the reported messages keep the order of the rules, without repeats |
| Validation.PasswordErrorsSpec | TexturaStore/TexturaStore/Domain/Validation/FormValidator.swift:31-48 | on an already trimmed value, a password message is present exactly when its rule fails, and the messages come out in rule order with no repeats |
| Validation.PasswordRule | TexturaStore/TexturaStore/Domain/Validation/FormValidator.swift:27-49 | each password message appears iff its rule fails on the trimmed value, in the fixed order minLength, noSpaces, allowedChars, requireDigit, requireSpecial, requireUppercase |
| Validation.PasswordPrimaryIsFirstFailing | TexturaStore/TexturaStore/Domain/Validation/FormValidator.swift:27-49 | the primary password message is the earliest rule in that order that the trimmed value fails |
| Validation.EmailMessage | TexturaStore/TexturaStore/Presentation/Scenes/Auth/SignIn/ViewModel/SignInViewModel.swift:53-57 | the e-mail error a screen shows is nothing iff the value is valid, otherwise the invalid-email message (the sign-up and reset screens derive theirs the same way) |
| Validation.PasswordMessage | TexturaStore/TexturaStore/Presentation/Scenes/Auth/SignIn/ViewModel/SignInViewModel.swift:59-63 | the password error a screen shows is nothing iff the value is valid, otherwise the earliest password rule the trimmed value fails (the sign-up screen derives its own the same way) |
| Validation.PasswordIgnoresOuterWhitespace | TexturaStore/TexturaStore/Domain/Validation/FormValidator.swift:29 | whitespace around a password changes nothing, because it is trimmed first |
| Validation.AllowedCharsOnTrimmed | TexturaStore/TexturaStore/Domain/Validation/FormValidator.swift:29-39 | on the trimmed value the allowed-characters pattern is a plain "non-empty and every character allowed" check |
| Validation.InteriorSpaceReportedTwice | TexturaStore/TexturaStore/Domain/Validation/FormValidator.swift:34-39 | interior whitespace yields both the no-spaces and the allowed-characters message |
| Validation.CommentRule | TexturaStore/TexturaStore/Domain/Validation/FormValidator.swift:57-69 | by trimmed length: empty gives empty and tooShort, 1..2 only tooShort, 3..500 nothing (and only those), above 500 only tooLong |
| Validation.PasswordExampleValid | TexturaStore/TexturaStore/Domain/Validation/FormValidator.swift:27-49 | "Abc1!2" is valid with no messages |
| Validation.PasswordExampleNoSpecialNoUpper | TexturaStore/TexturaStore/Domain/Validation/FormValidator.swift:27-49 | "abc123" yields exactly requireSpecial, requireUppercase |
| Validation.PasswordExampleInteriorSpace | TexturaStore/TexturaStore/Domain/Validation/FormValidator.swift:27-49 | "ab c1!" yields exactly noSpaces, allowedChars, requireUppercase |
| Validation.EmailExampleValid | TexturaStore/TexturaStore/Domain/Validation/FormValidator.swift:21-25 | "a@b.co" is valid |
| Validation.EmailExampleMissingTld | TexturaStore/TexturaStore/Domain/Validation/FormValidator.swift:21-25 | "a@b" is invalid |
| Validation.EmailExampleFinalNewline | TexturaStore/TexturaStore/Domain/Validation/FormValidator.swift:22-23 | "a@b.co\n" is valid, since the end anchor steps over a final newline |
| Validation.PhoneExamples | TexturaStore/TexturaStore/Domain/Validation/FormValidator.swift:51-55 | "+79991234567" is valid and "+7999123456" is not |
| Text.Trim | TexturaStore/TexturaStore/Domain/Validation/FormValidator.swift:14 | trimming yields the contiguous middle of the text, with only whitespace cut from either end and no whitespace left at either edge |
| Text.TrimOfPadded | TexturaStore/TexturaStore/Domain/Validation/FormValidator.swift:14 | whitespace wrapped around a string without edge whitespace is exactly what trimming removes |
| Text.TrimIdempotent | TexturaStore/TexturaStore/Domain/Validation/FormValidator.swift:14 | trimming twice is trimming once |
| Text.TrimIgnoresPadding | TexturaStore/TexturaStore/Domain/Validation/FormValidator.swift:29 | extra whitespace around a text does not change its trimmed form |
| Text.TrimEmptyIffBlank | TexturaStore/TexturaStore/Domain/Validation/FormValidator.swift:58-60 | a text trims to nothing exactly when it is all whitespace |
| Text.ToLower | TexturaStore/TexturaStore/Presentation/Scenes/ResetPassword/ViewModel/ResetPasswordViewModel.swift:69 | lower-casing keeps the length and maps each upper-case letter to its lower-case form, leaving every other character as it is |
| Text.ToLowerKeepsShape | TexturaStore/TexturaStore/Presentation/Scenes/ResetPassword/ViewModel/ResetPasswordViewModel.swift:66-70 | lower-casing moves no whitespace, keeps a trimmed text trimmed, and is idempotent |
| Text.ContainsIffOccurs | TexturaStore/TexturaStore/Core/Services/SupabaseAuthService.swift:247-289 | the modelled `contains` holds exactly when the pattern occurs at some index |
| FirstMatch.SelectFirst | TexturaStore/TexturaStore/Core/Services/SupabaseAuthService.swift:247-291 | in a first-match table the earliest passing test decides the outcome |
| FirstMatch.SelectNone | TexturaStore/TexturaStore/Core/Services/SupabaseAuthService.swift:291 | when no test passes, the fallback is the outcome |
| FirstMatch.SelectRange | TexturaStore/TexturaStore/Core/Services/SupabaseAuthService.swift:247-291 | the outcome is one of the table's outcomes or the fallback |
| AuthErrors.ClassifyUrlCode | TexturaStore/TexturaStore/Core/Services/SupabaseAuthService.swift:214-235 | a URL-domain error is `network` iff its code is not cancellation, and `unknown` iff it is |
| AuthErrors.ClassifyText | TexturaStore/TexturaStore/Core/Services/SupabaseAuthService.swift:247-291 | text classification never yields the account-deletion error, and confirmation hints always give `unknown` |
| AuthErrors.Classify | TexturaStore/TexturaStore/Core/Services/SupabaseAuthService.swift:209-292 | a URL-domain error is decided by its code alone, before any text rule; any other error is classified by the first-match text table on its lower-cased text; the result is never `requiresBackendForAccountDeletion` |
| AuthErrors.ClassifyTextIsFirstMatch | TexturaStore/TexturaStore/Core/Services/SupabaseAuthService.swift:247-291 | the text rules are the table confirmation, 429, 401, 409, invalid login, e-mail in use, weak password, rate limit, network, with `unknown` as fallback |
| AuthErrors.AuthFirstMatchWins | TexturaStore/TexturaStore/Core/Services/SupabaseAuthService.swift:247-289 | the earliest matching rule decides the outcome, whatever later rules say |
| AuthErrors.AuthNoMatchIsUnknown | TexturaStore/TexturaStore/Core/Services/SupabaseAuthService.swift:291 | a text that no rule recognises is `unknown` |
| AuthErrors.AuthTextRange | TexturaStore/TexturaStore/Core/Services/SupabaseAuthService.swift:180-187 | text classification only produces invalidCredentials, emailAlreadyInUse, weakPassword, network, rateLimited or unknown |
| AuthErrors.OverRequestIsRateHint | TexturaStore/TexturaStore/Core/Services/SupabaseAuthService.swift:281-285 | "over_request_rate_limit" contains "rate", so that pattern never decides anything by itself |
| AuthErrors.RethrownUnknownIsUnknown | TexturaStore/TexturaStore/Core/Services/SupabaseAuthService.swift:108 | the service's own `unknown` error, thrown inside the guarded block and caught by it, is classified as `unknown` again |
| AuthService.IsAuthorized | TexturaStore/TexturaStore/Core/Services/SupabaseAuthService.swift:29 | the flag is the last value sent, and `false` before anything is sent |
| AuthService.ApplyAuthState | TexturaStore/TexturaStore/Core/Services/SupabaseAuthService.swift:158-173 | every call sends exactly one value; an absent, expired or unconfirmed session gives `false` and no user id; a usable session gives `true` and its user id |
| AuthService.SyncFromCurrentSession | TexturaStore/TexturaStore/Core/Services/SupabaseAuthService.swift:153-156 | a fetched session is applied; a failed fetch changes nothing and hands its error on |
| AuthService.SafeInitialSync | TexturaStore/TexturaStore/Core/Services/SupabaseAuthService.swift:145-151 | never throws; the state is that of applying the fetched session, or no session when the fetch fails: exactly one value is sent and earlier ones are kept, the flag is true iff the fetched session is usable, and then the user id is that session's |
| AuthService.SignIn | TexturaStore/TexturaStore/Core/Services/SupabaseAuthService.swift:59-69 | the provider gets the arguments unchanged; it succeeds iff both the sign-in and the session fetch succeed, and then the fetched session is applied: one value appended to the history, the flag true iff that session is usable, and then its user id stored; a failed sign-in or a failed fetch is classified from its own error and changes nothing |
| AuthService.SignUp | TexturaStore/TexturaStore/Core/Services/SupabaseAuthService.swift:71-83 | success applies "no session" whatever the provider returned: one `false` appended, no user id; a failure is classified and changes nothing |
| AuthService.SignOut | TexturaStore/TexturaStore/Core/Services/SupabaseAuthService.swift:85-92 | success applies "no session": one `false` appended, no user id; a provider failure throws the classified error and applies no state change |
| AuthService.DeleteAccount | TexturaStore/TexturaStore/Core/Services/SupabaseAuthService.swift:94-98 | always throws `requiresBackendForAccountDeletion`, with no provider call and no state change |
| AuthService.Catch | TexturaStore/TexturaStore/Core/Services/SupabaseAuthService.swift:66-67 | the shared catch: the calls made are kept; an operation passes exactly when nothing was thrown, and then keeps its block's state; a thrown error leaves the state as it was and fails with its classification, which is never `requiresBackendForAccountDeletion` |
| AuthService.UpdateEmail | TexturaStore/TexturaStore/Core/Services/SupabaseAuthService.swift:100-121 | a blank password throws `invalidCredentials` before any call; success needs every step to succeed, with requests session, re-auth with the trimmed password, update, session, and then the resynced session is applied (history kept, flag and user id from that session); each failing step is classified from its own error and changes nothing |
| AuthService.UpdateEmailWithoutAddress | TexturaStore/TexturaStore/Core/Services/SupabaseAuthService.swift:106-108 | a session without an e-mail address ends the update with `unknown` after one request |
| AuthService.Listen | TexturaStore/TexturaStore/Core/Services/SupabaseAuthService.swift:138-141 | no event leaves the state as it was; after at least one event the user id is held exactly when the flag is true |
| AuthService.ListenPublishes | TexturaStore/TexturaStore/Core/Services/SupabaseAuthService.swift:138-141 | each session event sends exactly one value, in order, saying whether that event's session is usable |
| AuthService.ListenReflectsLast | TexturaStore/TexturaStore/Core/Services/SupabaseAuthService.swift:138-141 | after events, the flag and user id reflect the last event alone, and agree with each other |
| AuthService.SignInThenSignOut | TexturaStore/TexturaStore/Core/Services/SupabaseAuthService.swift:59-92 | start without a session, sign in as "u1", sign out: the flag goes false, true, false, one value per step |
| PasswordReset.ClassifyReset | TexturaStore/TexturaStore/Core/Services/SupabasePasswordResetService.swift:84-136 | every URL-domain error is `network`, whatever its code; other errors are classified by their lower-cased text |
| PasswordReset.ClassifyResetText | TexturaStore/TexturaStore/Core/Services/SupabasePasswordResetService.swift:117-135 | the text rules are the table rate limit, invalid e-mail, network, read first match first, with `unknown` as fallback |
| PasswordReset.RateLimitBeatsInvalidEmail | TexturaStore/TexturaStore/Core/Services/SupabasePasswordResetService.swift:117-128 | a 429 / too many / rate hint gives `tooManyRequests` even when the text also reports an invalid e-mail |
| PasswordReset.InvalidEmailRule | TexturaStore/TexturaStore/Core/Services/SupabasePasswordResetService.swift:125-128 | without a rate hint, "email" with "invalid" or "malformed" gives `invalidEmail` |
| PasswordReset.NetworkOrUnknownRule | TexturaStore/TexturaStore/Core/Services/SupabasePasswordResetService.swift:130-135 | otherwise network / offline / timed out gives `network` and anything else `unknown` |
| PasswordReset.CancellationDiffers | TexturaStore/TexturaStore/Core/Services/SupabasePasswordResetService.swift:90-104 | a cancelled request is `unknown` for the auth service but `network` for the reset service |
| PasswordReset.ResetKindsReachable | TexturaStore/TexturaStore/Core/Services/SupabasePasswordResetService.swift:64-68 | every one of the four reset error kinds is produced by some error |
| PasswordReset.SendPasswordReset | TexturaStore/TexturaStore/Core/Services/SupabasePasswordResetService.swift:41-57 | a blank address throws `invalidEmail` with no call; otherwise one request carries the trimmed address and redirect, and a failure is classified |
| PasswordReset.ResetIgnoresPadding | TexturaStore/TexturaStore/Core/Services/SupabasePasswordResetService.swift:42-53 | whitespace around the address changes neither the request nor the result |
| PasswordReset.RateLimitSample | TexturaStore/TexturaStore/Core/Services/SupabasePasswordResetService.swift:118 | the text "429" alone gives `tooManyRequests` |
| PasswordReset.InvalidEmailSample | TexturaStore/TexturaStore/Core/Services/SupabasePasswordResetService.swift:125-128 | the text "invalid email", which has no rate hint, gives `invalidEmail` |
| PasswordReset.SilentSample | TexturaStore/TexturaStore/Core/Services/SupabasePasswordResetService.swift:135 | an empty text matches no rule and gives `unknown` |
| SignInViewModel.SetEmail | TexturaStore/TexturaStore/Presentation/Scenes/Auth/SignIn/ViewModel/SignInViewModel.swift:87-89 | stores the e-mail as typed and keeps the password |
| SignInViewModel.SetPassword | TexturaStore/TexturaStore/Presentation/Scenes/Auth/SignIn/ViewModel/SignInViewModel.swift:91-93 | stores the password as typed and keeps the e-mail |
| SignInViewModel.EmailError | TexturaStore/TexturaStore/Presentation/Scenes/Auth/SignIn/ViewModel/SignInViewModel.swift:53-57 | the shown e-mail error is nothing iff the stored e-mail is valid, otherwise the invalid-email message |
| SignInViewModel.PasswordError | TexturaStore/TexturaStore/Presentation/Scenes/Auth/SignIn/ViewModel/SignInViewModel.swift:59-63 | the shown password error is nothing iff the stored password is valid, otherwise the earliest password rule the trimmed value fails |
| SignInViewModel.IsSubmitEnabled | TexturaStore/TexturaStore/Presentation/Scenes/Auth/SignIn/ViewModel/SignInViewModel.swift:76-83 | enabled iff both fields are valid |
| SignInViewModel.SignIn | TexturaStore/TexturaStore/Presentation/Scenes/Auth/SignIn/ViewModel/SignInViewModel.swift:97-104 | with an invalid field, returns with no service call; otherwise one call with the stored values, and the service's outcome passed through |
| SignInViewModel.SubmitGatesSignIn | TexturaStore/TexturaStore/Presentation/Scenes/Auth/SignIn/ViewModel/SignInViewModel.swift:76-104 | the service is reached exactly when the button is enabled |
| SignInViewModel.InitialCannotSubmit | TexturaStore/TexturaStore/Presentation/Scenes/Auth/SignIn/ViewModel/SignInViewModel.swift:36-37 | a fresh screen's button is disabled |
| SignUpViewModel.NameError | TexturaStore/TexturaStore/Presentation/Scenes/Auth/SignUp/ViewModels/SignUpViewModel.swift:60-64 | no error iff the trimmed name has at least two characters, otherwise the minimum-length message |
| SignUpViewModel.EmailError | TexturaStore/TexturaStore/Presentation/Scenes/Auth/SignUp/ViewModels/SignUpViewModel.swift:66-70 | the shown e-mail error is nothing iff the stored e-mail is valid, otherwise the invalid-email message |
| SignUpViewModel.PasswordError | TexturaStore/TexturaStore/Presentation/Scenes/Auth/SignUp/ViewModels/SignUpViewModel.swift:72-76 | the shown password error is nothing iff the stored password is valid, otherwise the earliest password rule the trimmed value fails |
| SignUpViewModel.AgreementErrorOf | TexturaStore/TexturaStore/Presentation/Scenes/Auth/SignUp/ViewModels/SignUpViewModel.swift:78-80 | no agreement error iff agreed |
| SignUpViewModel.IsSubmitEnabled | TexturaStore/TexturaStore/Presentation/Scenes/Auth/SignUp/ViewModels/SignUpViewModel.swift:101-110 | enabled iff name, e-mail and password are valid and the agreement is given |
| SignUpViewModel.SignUp | TexturaStore/TexturaStore/Presentation/Scenes/Auth/SignUp/ViewModels/SignUpViewModel.swift:125-134 | an invalid field or no agreement returns silently with no call and no event; otherwise one call with the stored e-mail and password, then one success event only if it returned |
| SignUpViewModel.SuccessFollowsService | TexturaStore/TexturaStore/Presentation/Scenes/Auth/SignUp/ViewModels/SignUpViewModel.swift:125-134 | a success event only follows a service call that returned; the service is reached exactly when the button is enabled |
| SignUpViewModel.InitialCannotSubmit | TexturaStore/TexturaStore/Presentation/Scenes/Auth/SignUp/ViewModels/SignUpViewModel.swift:37-40 | a fresh screen's button is disabled |
| ResetPasswordViewModel.Normalize | TexturaStore/TexturaStore/Presentation/Scenes/ResetPassword/ViewModel/ResetPasswordViewModel.swift:66-70 | the stored address is the input trimmed and then lower-cased character by character, so it has no surrounding whitespace and no upper-case letter |
| ResetPasswordViewModel.NormalizeIdempotent | TexturaStore/TexturaStore/Presentation/Scenes/ResetPassword/ViewModel/ResetPasswordViewModel.swift:66-70 | normalising twice is normalising once |
| ResetPasswordViewModel.SetEmail | TexturaStore/TexturaStore/Presentation/Scenes/ResetPassword/ViewModel/ResetPasswordViewModel.swift:66-70 | stores the normalised input |
| ResetPasswordViewModel.EmailError | TexturaStore/TexturaStore/Presentation/Scenes/ResetPassword/ViewModel/ResetPasswordViewModel.swift:43-47 | the shown error is nothing iff the stored address is valid, otherwise the invalid-email message |
| ResetPasswordViewModel.SetStoredEmailIsNoOp | TexturaStore/TexturaStore/Presentation/Scenes/ResetPassword/ViewModel/ResetPasswordViewModel.swift:66-70 | setting the already-stored value stores the same value |
| ResetPasswordViewModel.IsSubmitEnabled | TexturaStore/TexturaStore/Presentation/Scenes/ResetPassword/ViewModel/ResetPasswordViewModel.swift:56-62 | enabled iff the stored address is valid and non-empty |
| ResetPasswordViewModel.SubmitIffValid | TexturaStore/TexturaStore/Presentation/Scenes/ResetPassword/ViewModel/ResetPasswordViewModel.swift:56-62 | the emptiness check is subsumed: enabled iff the stored address is valid |
| ResetPasswordViewModel.ResetPassword | TexturaStore/TexturaStore/Presentation/Scenes/ResetPassword/ViewModel/ResetPasswordViewModel.swift:74-77 | never throws and calls no service |
| ResetPasswordViewModel.StoredAddressReachesServiceAsIs | TexturaStore/TexturaStore/Core/Services/SupabasePasswordResetService.swift:42-53 | a non-empty stored address would reach the reset provider unchanged |
| AppRouter.NewRouter | TexturaStore/TexturaStore/Presentation/Navigation/Core/AppRouter.swift:20-25 | a new router has an empty path and no sheet or full screen |
| AppRouter.Push | TexturaStore/TexturaStore/Presentation/Navigation/Core/AppRouter.swift:29-31 | appends the route at the end of the path; modals unchanged |
| AppRouter.Pop | TexturaStore/TexturaStore/Presentation/Navigation/Core/AppRouter.swift:33-35 | removes the last route, a no-op on an empty path; modals unchanged |
| AppRouter.PopToRoot | TexturaStore/TexturaStore/Presentation/Navigation/Core/AppRouter.swift:37-39 | empties the path; modals unchanged |
| AppRouter.SetPath | TexturaStore/TexturaStore/Presentation/Navigation/Core/AppRouter.swift:41-43 | replaces the path wholesale; modals unchanged |
| AppRouter.PresentSheet | TexturaStore/TexturaStore/Presentation/Navigation/Core/AppRouter.swift:47-49 | sets only the sheet slot |
| AppRouter.DismissSheet | TexturaStore/TexturaStore/Presentation/Navigation/Core/AppRouter.swift:51-53 | clears only the sheet slot |
| AppRouter.PresentFullScreen | TexturaStore/TexturaStore/Presentation/Navigation/Core/AppRouter.swift:57-59 | sets only the full-screen slot |
| AppRouter.DismissFullScreen | TexturaStore/TexturaStore/Presentation/Navigation/Core/AppRouter.swift:61-63 | clears only the full-screen slot |
| AppRouter.ResetAll | TexturaStore/TexturaStore/Presentation/Navigation/Core/AppRouter.swift:67-71 | empty path, no sheet, no full screen |
| AppRouter.PushThenPop | TexturaStore/TexturaStore/Presentation/Navigation/Core/AppRouter.swift:29-35 | push followed by pop restores the router |
| AppRouter.ResetIsEveryClear | TexturaStore/TexturaStore/Presentation/Navigation/Core/AppRouter.swift:67-71 | resetting equals popping to root and dismissing both modals, in either order |
| AppRouter.ModalsKeepNoHistory | TexturaStore/TexturaStore/Presentation/Navigation/Core/AppRouter.swift:47-63 | presenting then dismissing a modal is just dismissing it |
| CoordinatorChildren.StoreChild | TexturaStore/TexturaStore/Presentation/Navigation/Core/AnyCoordinatorBox.swift:22-24 | appends exactly one box, keeping existing entries and their order, and keeps ids unique |
| CoordinatorChildren.StoreChildAndReturnId | TexturaStore/TexturaStore/Presentation/Navigation/Core/AnyCoordinatorBox.swift:27-31 | stores like `storeChild` and returns the fresh id of the new last element |
| CoordinatorChildren.RemoveChild | TexturaStore/TexturaStore/Presentation/Navigation/Core/AnyCoordinatorBox.swift:33-35 | no box with the id remains, every other box remains, and nothing new appears |
| CoordinatorChildren.RemoveDistributes | TexturaStore/TexturaStore/Presentation/Navigation/Core/AnyCoordinatorBox.swift:33-35 | removal works piecewise over concatenation, so the survivors keep their relative order |
| CoordinatorChildren.RemoveAbsent | TexturaStore/TexturaStore/Presentation/Navigation/Core/AnyCoordinatorBox.swift:33-35 | removing an unused id changes nothing |
| CoordinatorChildren.StoreThenRemove | TexturaStore/TexturaStore/Presentation/Navigation/Core/AnyCoordinatorBox.swift:27-35 | storing and then removing by the returned id restores the list |
| CoordinatorChildren.RemoveKeepsUnique | TexturaStore/TexturaStore/Presentation/Navigation/Core/AnyCoordinatorBox.swift:33-35 | removal keeps ids unique |
| CoordinatorChildren.RemoveAllChildren | TexturaStore/TexturaStore/Presentation/Navigation/Core/AnyCoordinatorBox.swift:37-39 | leaves an empty list |
| AppCoordinator.Init | TexturaStore/TexturaStore/Presentation/Navigation/App/AppCoordinator.swift:29-38 | the route starts at auth and exactly two children are stored, auth then main tab, with distinct ids |
| AppCoordinator.StartApp | TexturaStore/TexturaStore/Presentation/Navigation/App/AppCoordinator.swift:42-46 | sets the route to auth whatever it was and starts both children |
| AppCoordinator.FinishApp | TexturaStore/TexturaStore/Presentation/Navigation/App/AppCoordinator.swift:48-52 | finishes both children, empties the child list, keeps the route |
| AppCoordinator.ShowAuth | TexturaStore/TexturaStore/Presentation/Navigation/App/AppCoordinator.swift:71-75 | finishes the main tabs, sets the route to auth, starts the auth flow |
| AppCoordinator.ShowMain | TexturaStore/TexturaStore/Presentation/Navigation/App/AppCoordinator.swift:77-81 | finishes the auth flow, sets the route to main, starts the main tabs |
| AppCoordinator.ShowIsIdempotent | TexturaStore/TexturaStore/Presentation/Navigation/App/AppCoordinator.swift:71-81 | showing the same flow twice gives the same coordinator as once |
| AppCoordinator.Handle | TexturaStore/TexturaStore/Presentation/Navigation/App/AppCoordinator.swift:85-93 | the auth-success callback leads to main, the logout callback to auth; children unchanged |
| AppCoordinator.RunRoute | TexturaStore/TexturaStore/Presentation/Navigation/App/AppCoordinator.swift:42-93 | after any sequence of operations, the route is the one chosen by the last routing operation, or the starting route |
| AppCoordinator.RunChildren | TexturaStore/TexturaStore/Presentation/Navigation/App/AppCoordinator.swift:48-52 | the children stay as they were until the first `finish`, and are empty afterwards |
| KeychainKeys.RawValue | TexturaStore/TexturaStore/Data/Storage/Keychain/KeychainKey.swift:19-32 | a custom key's raw value is exactly its string |
| KeychainKeys.NamedKeyPrefixes | TexturaStore/TexturaStore/Data/Storage/Keychain/KeychainKey.swift:21-28 | the user-id and provider keys are under "auth.", the phone and address keys under "checkout." |
| KeychainKeys.NamedKeysDistinct | TexturaStore/TexturaStore/Data/Storage/Keychain/KeychainKey.swift:19-32 | the four named keys have pairwise distinct raw values |
| KeychainKeys.CollisionNeedsCustom | TexturaStore/TexturaStore/Data/Storage/Keychain/KeychainKey.swift:19-32 | two different keys with the same raw value involve a custom key |
| KeychainKeys.CustomCanCollide | TexturaStore/TexturaStore/Data/Storage/Keychain/KeychainKey.swift:29-30 | `custom("auth.userId")` shares the user-id key's raw value |

## Left out

- The Supabase SDK (`supabase.auth.*`, the client factory) is foreign network I/O. Each reply is a parameter of the operation that receives it.
- The session-event listening task and its cancellation are concurrency. Only the effect of each delivered event is modelled, as one `applyAuthState` (`AuthService.Listen`). Nothing models the interleaving of events with the actions.
- AuthService.SignIn: the session events that a successful provider sign-in pushes to the listener are not part of its result. The same holds for the re-authentication inside AuthService.UpdateEmail. Both are interleaved concurrently with the action.
- How the classifier input is built (NSError unwrapping, `localizedDescription`, `String(describing:)`) is left to Foundation. `Provider.Evidence` carries the root error's domain flag, its code, and the joined candidate text before lower-casing.
- AuthErrors.RethrownUnknownIsUnknown: the bridged error's code is taken to be its case index. Only the domain and the text matter to the classifier.
- Combine publishers, `@Published` and `CombineLatest` are not modelled as streams. Each published value is a function of the stored fields.
- Swift string semantics:
  - Text is ASCII-only. Grapheme-cluster `count` (a "\r\n" pair is one Character in Swift) is modelled as sequence length.
  - ICU `\s` and `\d` and Unicode `lowercased()` are modelled by their ASCII members only.
- Localized message strings and `errorDescription` texts are replaced by message kinds and error cases. The exception is the `unknown` description, which the classifier reads back.
- Keychain storage itself and local session-marker persistence are not modelled. No session marker is read, written or cleared in the modelled code.
- UUIDs are not generated. A box id is a natural number passed in with a freshness precondition, standing for the uniqueness of `UUID()`.
- The child coordinators' own behaviour is not modelled. That covers their start, finish and root views, and the other coordinators and their views. Only the calls the root coordinator makes on them are recorded.
- `AppRoute` is defined outside the modelled files. It is taken to have exactly the two cases `auth` and `main` that the root coordinator switches over.
- SwiftUI views, dependency-injection containers, screen factories and design-system constants are UI wiring with no logic to model.
