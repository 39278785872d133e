/** The AuthMetrics document: one authentication event with its mandatory
    identity, type and outcome, optional timing and request metadata, and a
    creation timestamp. */
module AuthMetricsSchema {

  import opened Js

  /** The `authType` enum. */
  datatype AuthType = Login | TwoFaVerify | LoginAttempt

  function AuthTypeName(t: AuthType): string {
    match t
    case Login => "login"
    case TwoFaVerify => "2fa_verify"
    case LoginAttempt => "login_attempt"
  }

  function ParseAuthType(s: string): (r: Option<AuthType>)
    ensures r.Some? ==> AuthTypeName(r.value) == s
  {
    if s == "login" then Some(Login)
    else if s == "2fa_verify" then Some(TwoFaVerify)
    else if s == "login_attempt" then Some(LoginAttempt)
    else None
  }

  /** Every enum member's name is accepted and maps back to it. */
  lemma AuthTypeRoundTrip(t: AuthType)
    ensures ParseAuthType(AuthTypeName(t)) == Some(t)
  {
  }

  /** A stored metric; timestamps are milliseconds since the epoch. */
  datatype AuthMetric = AuthMetric(
    userId: Id,
    username: string,
    authType: AuthType,
    success: bool,
    responseTime: Option<int>,
    sessionId: Option<string>,
    ipAddress: Option<string>,
    userAgent: Option<string>,
    errorType: Option<string>,
    timestamp: int)

  /** The argument object of `recordAuthMetric`; omitted optional fields are `None` (stored as null). */
  datatype MetricInput = MetricInput(
    userId: Option<Id>,
    username: Option<string>,
    authType: string,
    success: Option<bool>,
    responseTime: Option<int>,
    sessionId: Option<string>,
    ipAddress: Option<string>,
    userAgent: Option<string>,
    errorType: Option<string>)

  /** `new AuthMetrics(input)` and its validation at save time, with the
      timestamp defaulting to `now`. Fails when `userId`, `username` or
      `success` is missing (or `username` is empty) or `authType` is outside
      the enum. */
  function CastMetric(input: MetricInput, now: int): (r: Option<AuthMetric>)
    ensures r.Some? <==> input.userId.Some? && TruthyStr(input.username) && input.success.Some?
                         && ParseAuthType(input.authType).Some?
    ensures r.Some? ==> AuthTypeName(r.value.authType) == input.authType
                        && r.value.userId == input.userId.value && r.value.username == input.username.value
                        && r.value.success == input.success.value
                        && r.value.responseTime == input.responseTime && r.value.sessionId == input.sessionId
                        && r.value.ipAddress == input.ipAddress && r.value.userAgent == input.userAgent
                        && r.value.errorType == input.errorType && r.value.timestamp == now
  {
    if input.userId.Some? && TruthyStr(input.username) && input.success.Some? then
      match ParseAuthType(input.authType)
      case Some(t) =>
        Some(AuthMetric(input.userId.value, input.username.value, t, input.success.value,
                        input.responseTime, input.sessionId, input.ipAddress, input.userAgent,
                        input.errorType, now))
      case None => None
    else None
  }
}
