/** The `authenticateJWT` middleware and the middleware chains of the login
    and 2FA routes. JWT verification and the local strategy are oracles. */
module AuthRoutes {

  import opened Js
  import opened Text
  import opened Http
  import opened AuthMetricsSchema
  import opened MetricsService
  import opened UserModel
  import opened Express
  import opened AuthMiddleware
  import opened AuthController

  /** `authHeader && authHeader.split(' ')[1]`, read for truthiness: the
      second space-separated word of the header, when there is a non-empty one. */
  function ExtractToken(header: Option<string>): (t: Option<string>)
    ensures header.None? || header == Some("") ==> t.None?
    ensures t.Some? ==> t.value != "" && ' ' !in t.value
    ensures t.Some? ==> exists scheme :: ' ' !in scheme && (header.value == scheme + " " + t.value
                                          || (|header.value| > |scheme| + 1 + |t.value|
                                              && header.value[..|scheme| + 1 + |t.value| + 1]
                                                 == scheme + " " + t.value + " "))
  {
    if !TruthyStr(header) then None
    else
      var parts := Split(header.value, ' ');
      if |parts| < 2 || parts[1] == "" then None
      else
        var scheme := parts[0];
        assert ' ' !in scheme && ' ' !in parts[1];
        SplitPrefix(parts, ' ');
        assert header.value == scheme + " " + parts[1]
               || (|header.value| > |scheme| + 1 + |parts[1]|
                   && header.value[..|scheme| + 1 + |parts[1]| + 1] == scheme + " " + parts[1] + " ");
        Some(parts[1])
  }

  /** The second piece of a header split at spaces is the word after the
      first space, when that word ends the header ... */
  lemma SecondWordLast(scheme: string, token: string)
    requires ' ' !in scheme && ' ' !in token
    ensures var parts := Split(scheme + " " + token, ' ');
            |parts| >= 2 && parts[1] == token
  {
    SplitAtSeparator(scheme, token, ' ');
    SplitNoSeparator(token, ' ');
  }

  /** ... and when a space follows it. */
  lemma SecondWordFollowed(scheme: string, token: string, more: string)
    requires ' ' !in scheme && ' ' !in token
    ensures var parts := Split(scheme + " " + token + " " + more, ' ');
            |parts| >= 2 && parts[1] == token
  {
    assert scheme + " " + token + " " + more == scheme + [' '] + (token + [' '] + more);
    SplitAtSeparator(scheme, token + [' '] + more, ' ');
    SplitAtSeparator(token, more, ' ');
  }

  /** Either way, the second piece is the token. */
  lemma SecondWord(header: string, scheme: string, token: string)
    requires ' ' !in scheme && ' ' !in token
    requires header == scheme + " " + token
             || (|header| > |scheme| + 1 + |token|
                 && header[..|scheme| + 1 + |token| + 1] == scheme + " " + token + " ")
    ensures |Split(header, ' ')| >= 2 && Split(header, ' ')[1] == token
  {
    if header == scheme + " " + token {
      SecondWordLast(scheme, token);
    } else {
      var n := |scheme| + 1 + |token| + 1;
      var more := header[n..];
      assert header == header[..n] + more;
      SecondWordFollowed(scheme, token, more);
    }
  }

  /** The converse: whenever the header's second space-separated word is a
      non-empty token, that word is what the middleware extracts. */
  lemma ExtractTokenFindsSecondWord(header: string, scheme: string, token: string)
    requires ' ' !in scheme && token != "" && ' ' !in token
    requires header == scheme + " " + token
             || (|header| > |scheme| + 1 + |token|
                 && header[..|scheme| + 1 + |token| + 1] == scheme + " " + token + " ")
    ensures ExtractToken(Some(header)) == Some(token)
  {
    SecondWord(header, scheme, token);
    assert header != "";
  }

  /** Joining split pieces: the first two pieces with their separator are a
      prefix of the whole, followed by the separator when there are more. */
  lemma SplitPrefix(parts: seq<string>, sep: char)
    requires |parts| >= 2
    ensures |parts| == 2 ==> Join(parts, [sep]) == parts[0] + [sep] + parts[1]
    ensures |parts| > 2 ==> |Join(parts, [sep])| > |parts[0]| + 1 + |parts[1]|
                            && Join(parts, [sep])[..|parts[0]| + 1 + |parts[1]| + 1]
                               == parts[0] + [sep] + parts[1] + [sep]
  {
    if |parts| > 2 {
      var rest := Join(parts[2..], [sep]);
      assert Join(parts[1..], [sep]) == parts[1] + [sep] + rest;
      assert Join(parts, [sep]) == parts[0] + [sep] + (parts[1] + [sep] + rest);
      assert Join(parts, [sep]) == (parts[0] + [sep] + parts[1] + [sep]) + rest;
    }
  }

  /** The header the client builds from a stored token decodes back to that
      token, provided the token is non-empty and has no space (the Bearer
      scheme of section 2.1 of RFC 6750). */
  lemma BearerRoundTrip(token: string)
    requires token != "" && ' ' !in token
    ensures ExtractToken(Some("Bearer " + token)) == Some(token)
  {
    var h := "Bearer " + token;
    assert h == "Bearer" + [' '] + token;
    SplitAtSeparator("Bearer", token, ' ');
    SplitNoSeparator(token, ' ');
  }

  /** `authenticateJWT`. Without a token the session decides: a request
      whose session carries a user goes on, any other gets 401. With a token
      the session is not consulted: `verify` is `jwt.verify` (`None` when it
      throws), and only a payload whose `userId` names a stored user lets
      the request go on, with that user as `req.user`. */
  function AuthenticateJwt(req: Request, users: Users, verify: string -> Option<Claims>): (f: Flow)
    ensures ExtractToken(req.authorization).None? ==>
              (f.Next? <==> req.user.Some?) && (f.Next? ==> f.req == req) && (f.Halt? ==> f.reply == Unauthorized)
    ensures ExtractToken(req.authorization).Some? ==>
              var c := verify(ExtractToken(req.authorization).value);
              (f.Next? <==> c.Some? && c.value.userId.Some? && c.value.userId.value in users)
              && (f.Next? ==> f.req == req.(user := Some(users[c.value.userId.value])))
              && (f.Halt? ==> f.reply == Unauthorized)
  {
    match ExtractToken(req.authorization)
    case None => if req.user.Some? then Next(req) else Halt(Unauthorized)
    case Some(t) =>
      match verify(t)
      case None => Halt(Unauthorized)
      case Some(c) =>
        if c.userId.Some? && c.userId.value in users then Next(req.(user := Some(users[c.userId.value])))
        else Halt(Unauthorized)
  }

  /** The token handed out after a successful 2FA carries no user id, so
      presenting it to `authenticateJWT` is always answered with 401, even
      when it verifies; the login token of a stored user is accepted. */
  lemma TokenAcceptance(req: Request, users: Users, verify: string -> Option<Claims>, t: string, u: User)
    requires ExtractToken(req.authorization) == Some(t)
    ensures verify(t) == Some(VerifiedToken(u).claims) ==> AuthenticateJwt(req, users, verify) == Halt(Unauthorized)
    ensures verify(t) == Some(LoginToken(u).claims) && u.id in users ==>
              AuthenticateJwt(req, users, verify) == Next(req.(user := Some(users[u.id])))
  {
  }

  /** The two middlewares every auth route runs first. */
  function Common(req: Request, now: int): (r: Request)
    ensures r.session == CleanupExpiredSessions(req, now).req.session
    ensures r.clientIP == CaptureRequestInfo(req).req.clientIP
    ensures r == req.(clientIP := r.clientIP, session := r.session)
  {
    CleanupExpiredSessions(CaptureRequestInfo(req).req, now).req
  }

  /** `POST /login`: the common middlewares, `captureLoginAttempts`, the
      local strategy (`strategy` is the user it authenticates, `None` giving
      its 401), then the login handler. */
  function LoginRoute(req: Request, log: Log, now: int, strategy: Option<User>): (o: SessionOutcome)
    ensures strategy.None? ==> o.reply == Unauthorized && o.log == log && o.token.None?
    ensures strategy.Some? ==>
              o == AuthController.Login(CaptureLoginAttempts(Common(req, now)).req.(user := strategy), log, now)
    ensures o.reply == Ok <==> strategy.Some? && strategy.value.username != ""
  {
    var r := CaptureLoginAttempts(Common(req, now)).req;
    match strategy
    case None => SessionOutcome(Unauthorized, log, r.session, None)
    case Some(u) => AuthController.Login(r.(user := Some(u)), log, now)
  }

  /** `POST /2fa/verify`: the common middlewares, `authenticateJWT`, then the handler. */
  function VerifyRoute(req: Request, body: VerifyBody, users: Users, log: Log, now: int,
                       verify: string -> Option<Claims>,
                       totp: (Option<string>, Option<string>) -> Option<bool>): (o: SessionOutcome)
    ensures AuthenticateJwt(Common(req, now), users, verify).Halt? ==>
              o.reply == Unauthorized && o.log == log && o.token.None?
    ensures AuthenticateJwt(Common(req, now), users, verify).Next? ==>
              o == Verify2FA(AuthenticateJwt(Common(req, now), users, verify).req, body, log, now, totp)
  {
    var r := Common(req, now);
    match AuthenticateJwt(r, users, verify)
    case Halt(reply) => SessionOutcome(reply, log, r.session, None)
    case Next(r') => Verify2FA(r', body, log, now, totp)
  }

  /** A login followed, more than ten minutes later, by a valid code
      through the session: the cleanup middleware has forgotten the login
      time, so the verification is recorded without a response time. Within
      ten minutes the response time is the time since login. */
  lemma StaleLoginHasNoResponseTime(req: Request, body: VerifyBody, users: Users, log: Log, t0: int, t1: int,
                                    verify: string -> Option<Claims>,
                                    totp: (Option<string>, Option<string>) -> Option<bool>, u: User)
    requires req.authorization.None? && t0 != 0 && u.username != ""
    requires totp(u.twoFactorSecret, body.token) == Some(true)
    ensures var l := LoginRoute(req, log, t0, Some(u));
            var req' := req.(session := l.session, user := Some(u));
            var v := VerifyRoute(req', body, users, l.log, t1, verify, totp);
            && v.reply == Ok
            && (t1 - t0 > LoginWindow ==> v.log[|l.log|].responseTime.None?)
            && (t1 - t0 <= LoginWindow ==> v.log[|l.log|].responseTime == Some(t1 - t0))
  {
    var l := LoginRoute(req, log, t0, Some(u));
    assert l.session.loginStartTime == Some(t0);
  }
}
