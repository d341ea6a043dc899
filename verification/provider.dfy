/** The remote authentication provider as the app sees it. Every provider
    call is foreign I/O, so an operation of the model receives the reply of
    each call it makes as a parameter and reports the requests it issued. */
module Provider {
  import opened Wrappers

  /** What the app reads from a provider session: the user's id string,
      whether the session is expired, whether the e-mail address was
      confirmed (`emailConfirmedAt != nil`) and the user's e-mail. */
  datatype Session = Session(userId: string, expired: bool, emailConfirmed: bool, email: Option<string>)

  /** A thrown error as the classifiers see it: whether its root error (the
      underlying error when there is one) belongs to the URL-loading domain,
      that root error's code, and the descriptive texts of the error joined
      with " | " before lower-casing. */
  datatype Evidence = Evidence(isUrlDomain: bool, code: int, text: string)

  /** The reply of one provider call: a value, or an error. */
  datatype CallResult<+T> = Succeeded(value: T) | Failed(evidence: Evidence)

  /** The requests the app sends to the provider. */
  datatype ProviderCall =
    | SignInRequest(email: string, password: string)
    | SignUpRequest(email: string, password: string)
    | SignOutRequest
    | SessionRequest
    | UpdateUserRequest(newEmail: string)
    | ResetRequest(email: string, redirectTo: Option<string>)
}
