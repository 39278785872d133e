/** Registration, login and the two-factor lifecycle: how each handler moves
    a user's MFA fields, the session's `loginStartTime` and the metric log.
    bcrypt, TOTP and the QR encoder are oracles passed in as parameters; a
    signed JWT is represented by its payload and lifetime. */
module AuthController {

  import opened Js
  import opened Http
  import opened AuthMetricsSchema
  import opened MetricsService
  import opened UserModel
  import opened Express

  type Users = map<Id, User>

  // ---------------------------------------------------------------------
  // Tokens

  /** A JWT payload: the claims the handlers put in. */
  datatype Claims = Claims(userId: Option<Id>, username: string, isMfaActive: Option<bool>)

  /** A signed token with its `expiresIn`, in seconds. */
  datatype Token = Token(claims: Claims, lifetime: nat)

  const DaySeconds: nat := 24 * 60 * 60
  const HourSeconds: nat := 60 * 60

  /** The login token: user id, name and MFA flag, valid for 24 hours. */
  function LoginToken(u: User): Token {
    Token(Claims(Some(u.id), u.username, Some(u.isMfaActive)), DaySeconds)
  }

  /** The token issued after a successful 2FA: the user name only, valid for one hour. */
  function VerifiedToken(u: User): Token {
    Token(Claims(None, u.username, None), HourSeconds)
  }

  // ---------------------------------------------------------------------
  // register

  datatype RegisterBody = RegisterBody(username: Option<string>, password: Option<string>)

  datatype RegisterOutcome = RegisterOutcome(reply: Reply, users: Users)

  /** `POST /register`: the password is hashed (`hash` stands for bcrypt
      with 10 rounds, which throws on a missing password) and a user without
      MFA is saved; `accepts` is the user schema's verdict on the new
      document. Any failure answers 500 and saves nothing. */
  function Register(users: Users, body: RegisterBody, hash: string -> string,
                    accepts: User -> bool, newId: Id): (o: RegisterOutcome)
    requires newId !in users
    ensures o.reply == Created || o.reply == ServerError
    ensures o.reply == ServerError ==> o.users == users
    ensures o.reply == Created <==>
              body.password.Some?
              && accepts(User(newId, body.username.GetOr(""), hash(body.password.value), None, false))
    ensures o.reply == Created ==>
              && newId in o.users && o.users.Keys == users.Keys + {newId}
              && (forall k :: k in users ==> o.users[k] == users[k])
              && o.users[newId].password == hash(body.password.value)
              && o.users[newId].username == body.username.GetOr("")
              && !o.users[newId].isMfaActive && o.users[newId].twoFactorSecret.None?
  {
    if body.password.None? then RegisterOutcome(ServerError, users)
    else
      var u := User(newId, body.username.GetOr(""), hash(body.password.value), None, false);
      if accepts(u) then RegisterOutcome(Created, users[newId := u])
      else RegisterOutcome(ServerError, users)
  }

  // ---------------------------------------------------------------------
  // login

  datatype SessionOutcome = SessionOutcome(reply: Reply, log: Log, session: Session, token: Option<Token>)

  /** The metric a login records for user `u`. */
  function LoginMetric(req: Request, u: User): MetricInput {
    MetricInput(Some(u.id), Some(u.username), "login", Some(true), None,
                req.sessionId, MetricAddress(req), req.userAgent, None)
  }

  /** The login handler, reached once the local strategy has put the user in
      `req.user`: record one successful `login` metric, stamp the session's
      `loginStartTime` with `now`, and answer with a 24-hour token. A failure
      to record (or a missing user) answers 500 and changes nothing. */
  function Login(req: Request, log: Log, now: int): (o: SessionOutcome)
    ensures o.reply == Ok || o.reply == ServerError
    ensures o.reply == Ok <==> req.user.Some? && req.user.value.username != ""
    ensures o.reply == ServerError ==> o.log == log && o.session == req.session && o.token.None?
    ensures o.reply == Ok ==>
              && |o.log| == |log| + 1 && o.log == log + [o.log[|log|]]
              && o.log[|log|].authType == AuthType.Login && o.log[|log|].success
              && o.log[|log|].userId == req.user.value.id && o.log[|log|].timestamp == now
              && o.session.loginStartTime == Some(now)
              && o.token == Some(LoginToken(req.user.value))
  {
    match req.user
    case None => SessionOutcome(ServerError, log, req.session, None)
    case Some(u) =>
      match RecordAuthMetric(log, LoginMetric(req, u), now)
      case Failure(_) => SessionOutcome(ServerError, log, req.session, None)
      case Success((m, log')) =>
        SessionOutcome(Ok, log', req.session.(loginStartTime := Some(now)), Some(LoginToken(u)))
  }

  /** A successful login adds exactly one successful login record, in every
      scope that contains it. */
  lemma LoginCountsOnce(req: Request, log: Log, now: int, s: Scope)
    requires Login(req, log, now).reply == Ok
    requires InScope(s, Login(req, log, now).log[|log|])
    ensures var log' := Login(req, log, now).log;
            |Select(log', AuthSuccesses(s))| == |Select(log, AuthSuccesses(s))| + 1
            && |Select(log', AuthAttempts(s))| == |Select(log, AuthAttempts(s))| + 1
  {
    var log' := Login(req, log, now).log;
    var m := log'[|log|];
    SelectAppend(log, [m], AuthSuccesses(s));
    SelectAppend(log, [m], AuthAttempts(s));
  }

  // ---------------------------------------------------------------------
  // status and logout

  /** The body of a status answer. */
  datatype Status = Status(username: string, isMfaActive: bool)

  /** `POST /status`: 200 with the user's name and MFA flag, 401 without a user. */
  function AuthStatus(req: Request): (r: (Reply, Option<Status>))
    ensures r.0 == Ok <==> req.user.Some?
    ensures r.0 != Ok ==> r.0 == Unauthorized && r.1.None?
    ensures r.0 == Ok ==> r.1 == Some(Status(req.user.value.username, req.user.value.isMfaActive))
  {
    match req.user
    case Some(u) => (Ok, Some(Status(u.username, u.isMfaActive)))
    case None => (Unauthorized, None)
  }

  /** `POST /logout`: 401 without a user; otherwise the passport logout and
      the session destruction (whose failures are parameters) must both
      succeed for a 200. The answer says whether the session was destroyed. */
  function Logout(req: Request, logoutOk: bool, destroyOk: bool): (r: (Reply, bool))
    ensures r.0 == Ok <==> req.user.Some? && logoutOk && destroyOk
    ensures r.1 <==> r.0 == Ok
    ensures req.user.None? ==> r.0 == Unauthorized
    ensures req.user.Some? && !(logoutOk && destroyOk) ==> r.0 == ServerError
  {
    if req.user.None? then (Unauthorized, false)
    else if !logoutOk || !destroyOk then (ServerError, false)
    else (Ok, true)
  }

  // ---------------------------------------------------------------------
  // setup2FA and reset2FA

  datatype MfaOutcome = MfaOutcome(reply: Reply, users: Users, secret: Option<string>)

  /** `POST /2fa/setup`: store the generated `secret` (speakeasy's base32
      secret) with MFA switched on, then answer with the secret and its QR
      code. `saved` is whether `user.save()` succeeds and `qrOk` whether QR
      encoding does; a QR failure answers 500 after the save has happened. */
  function Setup2FA(users: Users, req: Request, secret: string, saved: bool, qrOk: bool): (o: MfaOutcome)
    ensures o.reply == Ok <==> req.user.Some? && saved && qrOk
    ensures o.reply != Ok ==> o.reply == ServerError && o.secret.None?
    ensures o.reply == Ok ==> o.secret == Some(secret)
    ensures req.user.Some? && saved ==>
              o.users == users[req.user.value.id := req.user.value.(twoFactorSecret := Some(secret), isMfaActive := true)]
    ensures !(req.user.Some? && saved) ==> o.users == users
  {
    match req.user
    case None => MfaOutcome(ServerError, users, None)
    case Some(u) =>
      if !saved then MfaOutcome(ServerError, users, None)
      else
        var users' := users[u.id := u.(twoFactorSecret := Some(secret), isMfaActive := true)];
        if qrOk then MfaOutcome(Ok, users', Some(secret)) else MfaOutcome(ServerError, users', None)
  }

  /** `POST /2fa/reset`: the secret becomes the empty string and MFA is
      switched off; a failed save answers 500 and changes nothing. */
  function Reset2FA(users: Users, req: Request, saved: bool): (o: MfaOutcome)
    ensures o.reply == Ok <==> req.user.Some? && saved
    ensures o.reply != Ok ==> o.reply == ServerError && o.users == users
    ensures o.secret.None?
    ensures o.reply == Ok ==>
              o.users == users[req.user.value.id := req.user.value.(twoFactorSecret := Some(""), isMfaActive := false)]
  {
    match req.user
    case None => MfaOutcome(ServerError, users, None)
    case Some(u) =>
      if saved then MfaOutcome(Ok, users[u.id := u.(twoFactorSecret := Some(""), isMfaActive := false)], None)
      else MfaOutcome(ServerError, users, None)
  }

  /** Register, setup (with the non-empty secret speakeasy generates) and
      reset all keep the user store valid: every user's MFA flag agrees with
      whether a secret is set. The request's user is the stored one. */
  lemma MfaTransitionsKeepUsersValid(users: Users, req: Request, body: RegisterBody, hash: string -> string,
                                     accepts: User -> bool, newId: Id, secret: string, saved: bool, qrOk: bool)
    requires UsersValid(users) && newId !in users
    requires req.user.Some? ==> req.user.value.id in users && users[req.user.value.id] == req.user.value
    requires secret != ""
    ensures UsersValid(Register(users, body, hash, accepts, newId).users)
    ensures UsersValid(Setup2FA(users, req, secret, saved, qrOk).users)
    ensures UsersValid(Reset2FA(users, req, saved).users)
  {
  }

  /** After a setup followed by a reset the user has no MFA and an empty secret. */
  lemma SetupThenReset(users: Users, req: Request, secret: string)
    requires req.user.Some?
    ensures var u := req.user.value;
            var after := Setup2FA(users, req, secret, true, true).users;
            var req' := req.(user := Some(after[u.id]));
            var u' := Reset2FA(after, req', true).users[u.id];
            !u'.isMfaActive && u'.twoFactorSecret == Some("") && u'.password == u.password
            && u'.username == u.username
  {
  }

  // ---------------------------------------------------------------------
  // verify2FA

  /** The `token` field of the verification body. */
  datatype VerifyBody = VerifyBody(token: Option<string>)

  /** Time from login to this verification, when the session remembers a
      (truthy) login time. */
  function ResponseTime(session: Session, now: int): (r: Option<int>)
    ensures r.Some? <==> TruthyNum(session.loginStartTime)
    ensures r.Some? ==> session.loginStartTime.value + r.value == now
  {
    if TruthyNum(session.loginStartTime) then Some(now - session.loginStartTime.value) else None
  }

  function VerifyMetric(req: Request, u: User, ok: bool, responseTime: Option<int>): MetricInput {
    MetricInput(Some(u.id), Some(u.username), "2fa_verify", Some(ok), responseTime,
                req.sessionId, MetricAddress(req), req.userAgent,
                if ok then None else Some("invalid_token"))
  }

  /** The metric of the error path: no response time, and the user name
      falls back to "unknown". */
  function SystemErrorMetric(req: Request): MetricInput {
    MetricInput(if req.user.Some? then Some(req.user.value.id) else None,
                OrStr(if req.user.Some? then Some(req.user.value.username) else None, Some("unknown")),
                "2fa_verify", Some(false), None,
                req.sessionId, MetricAddress(req), req.userAgent, Some("system_error"))
  }

  /** The catch block: record a `system_error` metric, ignore a failure to
      do so, and answer 500. */
  function SystemError(req: Request, log: Log, now: int): (o: SessionOutcome)
    ensures o.reply == ServerError && o.session == req.session && o.token.None?
    ensures req.user.Some? ==>
              && |o.log| == |log| + 1 && o.log == log + [o.log[|log|]]
              && o.log[|log|].authType == TwoFaVerify && !o.log[|log|].success
              && o.log[|log|].errorType == Some("system_error") && o.log[|log|].responseTime.None?
    ensures req.user.None? ==> o.log == log
  {
    match RecordAuthMetric(log, SystemErrorMetric(req), now)
    case Success((_, log')) => SessionOutcome(ServerError, log', req.session, None)
    case Failure(_) => SessionOutcome(ServerError, log, req.session, None)
  }

  /** `POST /2fa/verify`. `totp` is speakeasy's verification of the body's
      token against the user's secret (`None` when it throws). A valid code
      records a successful `2fa_verify`, forgets `loginStartTime` and answers
      with a one-hour token; an invalid one records a failure with
      `invalid_token` and answers 400, keeping `loginStartTime`; anything
      that throws (a missing user, the oracle, a failed record) ends in the
      `system_error` path. */
  function Verify2FA(req: Request, body: VerifyBody, log: Log, now: int,
                     totp: (Option<string>, Option<string>) -> Option<bool>): (o: SessionOutcome)
    ensures o.reply in {Ok, BadRequest(InvalidTotp), ServerError}
    ensures o.reply == Ok <==>
              req.user.Some? && totp(req.user.value.twoFactorSecret, body.token) == Some(true)
              && req.user.value.username != ""
    ensures o.reply == BadRequest(InvalidTotp) <==>
              req.user.Some? && totp(req.user.value.twoFactorSecret, body.token) == Some(false)
              && req.user.value.username != ""
    ensures o.reply == Ok ==>
              && |o.log| == |log| + 1 && o.log == log + [o.log[|log|]]
              && o.log[|log|].authType == TwoFaVerify && o.log[|log|].success
              && o.log[|log|].responseTime == ResponseTime(req.session, now)
              && o.session == req.session.(loginStartTime := None)
              && o.token == Some(VerifiedToken(req.user.value))
    ensures o.reply == BadRequest(InvalidTotp) ==>
              && |o.log| == |log| + 1 && o.log == log + [o.log[|log|]]
              && o.log[|log|].authType == TwoFaVerify && !o.log[|log|].success
              && o.log[|log|].errorType == Some("invalid_token")
              && o.log[|log|].responseTime == ResponseTime(req.session, now)
              && o.session == req.session && o.token.None?
    ensures o.reply == ServerError ==> o == SystemError(req, log, now)
  {
    match req.user
    case None => SystemError(req, log, now)
    case Some(u) =>
      match totp(u.twoFactorSecret, body.token)
      case None => SystemError(req, log, now)
      case Some(ok) =>
        var rt := ResponseTime(req.session, now);
        match RecordAuthMetric(log, VerifyMetric(req, u, ok, rt), now)
        case Failure(_) => SystemError(req, log, now)
        case Success((_, log')) =>
          if ok then SessionOutcome(Ok, log', req.session.(loginStartTime := None), Some(VerifiedToken(u)))
          else SessionOutcome(BadRequest(InvalidTotp), log', req.session, None)
  }

  /** After a login, an invalid code is refused and the session keeps the
      login time. */
  lemma InvalidCodeKeepsLoginTime(req: Request, log: Log, t0: int, t1: int, retry: VerifyBody,
                                  totp: (Option<string>, Option<string>) -> Option<bool>)
    requires Login(req, log, t0).reply == Ok
    requires totp(req.user.value.twoFactorSecret, retry.token) == Some(false)
    ensures var l := Login(req, log, t0);
            var r1 := Verify2FA(req.(session := l.session), retry, l.log, t1, totp);
            r1.reply == BadRequest(InvalidTotp) && r1.session.loginStartTime == Some(t0)
  {
  }

  /** Login, then some invalid codes, then a valid one: the recorded
      response time runs from the login, since invalid codes keep the
      login time, and the valid code clears it. */
  lemma ResponseTimeSpansRetries(req: Request, body: VerifyBody, log: Log, t0: int, t1: int, t2: int,
                                 totp: (Option<string>, Option<string>) -> Option<bool>, retry: VerifyBody)
    requires Login(req, log, t0).reply == Ok && t0 != 0
    requires var u := req.user.value;
             totp(u.twoFactorSecret, retry.token) == Some(false) && totp(u.twoFactorSecret, body.token) == Some(true)
    ensures var l := Login(req, log, t0);
            var r1 := Verify2FA(req.(session := l.session), retry, l.log, t1, totp);
            var r2 := Verify2FA(req.(session := r1.session), body, r1.log, t2, totp);
            && r1.reply == BadRequest(InvalidTotp)
            && r2.reply == Ok && r2.log[|r1.log|].responseTime == Some(t2 - t0)
            && r2.session.loginStartTime.None?
  {
    InvalidCodeKeepsLoginTime(req, log, t0, t1, retry, totp);
  }

  /** Each invalid code raises the false-positive counts by one in every
      scope that contains its record. */
  lemma InvalidCodeCountsAsFalsePositive(req: Request, body: VerifyBody, log: Log, now: int,
                                         totp: (Option<string>, Option<string>) -> Option<bool>, s: Scope)
    requires Verify2FA(req, body, log, now, totp).reply == BadRequest(InvalidTotp)
    requires InScope(s, Verify2FA(req, body, log, now, totp).log[|log|])
    ensures var log' := Verify2FA(req, body, log, now, totp).log;
            FalsePositiveRate(log', s).failedAttempts == FalsePositiveRate(log, s).failedAttempts + 1
            && FalsePositiveRate(log', s).totalAttempts == FalsePositiveRate(log, s).totalAttempts + 1
  {
    var o := Verify2FA(req, body, log, now, totp);
    FailedVerifyCounts(log, o.log[|log|], s);
  }
}
