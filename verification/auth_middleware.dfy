/** The three middlewares of the authentication routes. Each one passes the
    request on with `next` exactly once and never answers by itself. */
module AuthMiddleware {

  import opened Js
  import opened Express

  /** Ten minutes in milliseconds: how long a pending login time is kept. */
  const LoginWindow: int := 10 * 60 * 1000

  /** `captureLoginAttempts`: a pass-through. */
  function CaptureLoginAttempts(req: Request): (f: Flow)
    ensures f == Next(req)
  {
    Next(req)
  }

  /** `captureRequestInfo`: `clientIP` is the first truthy address among
      `req.ip`, the connection's, the socket's, and the connection socket's;
      when none is truthy it is that last operand (null when absent). */
  function CaptureRequestInfo(req: Request): (f: Flow)
    ensures f.Next? && f.req == req.(clientIP := f.req.clientIP)
    ensures TruthyStr(f.req.clientIP) <==>
              TruthyStr(req.ip) || TruthyStr(req.remoteAddress) || TruthyStr(req.socketAddress)
              || TruthyStr(req.connectionSocketAddress)
    ensures TruthyStr(req.ip) ==> f.req.clientIP == req.ip
    ensures !TruthyStr(req.ip) && TruthyStr(req.remoteAddress) ==> f.req.clientIP == req.remoteAddress
    ensures (!TruthyStr(req.ip) && !TruthyStr(req.remoteAddress) && TruthyStr(req.socketAddress))
              ==> f.req.clientIP == req.socketAddress
    ensures (!TruthyStr(req.ip) && !TruthyStr(req.remoteAddress) && !TruthyStr(req.socketAddress))
              ==> f.req.clientIP == req.connectionSocketAddress
  {
    Next(req.(clientIP := OrStr(OrStr(OrStr(req.ip, req.remoteAddress), req.socketAddress),
                                req.connectionSocketAddress)))
  }

  /** Whether a pending login time is older than the window at `now`. A
      falsy (missing or zero) login time never expires. */
  predicate Expired(s: Session, now: int) {
    TruthyNum(s.loginStartTime) && now - s.loginStartTime.value > LoginWindow
  }

  /** `cleanupExpiredSessions`: forget `loginStartTime` once more than ten
      minutes have passed since it was set; the session is otherwise untouched. */
  function CleanupExpiredSessions(req: Request, now: int): (f: Flow)
    ensures f.Next? && f.req == req.(session := f.req.session)
    ensures f.req.session.loginStartTime.None? || f.req.session == req.session
    ensures f.req.session != req.session <==>
              TruthyNum(req.session.loginStartTime) && now - req.session.loginStartTime.value > 600000
  {
    if Expired(req.session, now) then Next(req.(session := req.session.(loginStartTime := None)))
    else Next(req)
  }

  /** Cleaning up twice at the same instant is the same as cleaning up once. */
  lemma CleanupIdempotent(req: Request, now: int)
    ensures var once := CleanupExpiredSessions(req, now).req;
            CleanupExpiredSessions(once, now).req == once
  {
  }

  /** A login time that has expired at `now` stays expired at every later
      instant. */
  lemma ExpiryMonotone(s: Session, now: int, later: int)
    requires now <= later && Expired(s, now)
    ensures Expired(s, later)
  {
  }
}
