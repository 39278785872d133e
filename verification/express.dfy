/** The parts of an Express request the authentication routes look at, the
    session kept by the session store, and the result of a middleware or
    handler step. */
module Express {

  import opened Js
  import opened Http
  import opened UserModel

  /** The server-side session. `loginStartTime` is milliseconds since the
      epoch; the session's other contents are not modelled. */
  datatype Session = Session(loginStartTime: Option<int>)

  /** A request as the handlers see it. `user` is `req.user`, filled in by
      the session strategy or by token authentication; `clientIP` is what
      the request-info middleware stores. The addresses are `req.ip`,
      `req.connection.remoteAddress`, `req.socket.remoteAddress` and
      `req.connection.socket.remoteAddress` (`None` also when the
      connection has no socket). */
  datatype Request = Request(
    authorization: Option<string>,
    sessionId: Option<string>,
    userAgent: Option<string>,
    ip: Option<string>,
    remoteAddress: Option<string>,
    socketAddress: Option<string>,
    connectionSocketAddress: Option<string>,
    clientIP: Option<string>,
    session: Session,
    user: Option<User>)

  /** What one step of the route does: call `next` with the (possibly
      updated) request, or answer and stop. */
  datatype Flow = Next(req: Request) | Halt(reply: Reply)

  /** `req.ip || req.connection.remoteAddress`, the address stored in metrics. */
  function MetricAddress(req: Request): (r: Option<string>)
    ensures TruthyStr(req.ip) ==> r == req.ip
    ensures !TruthyStr(req.ip) ==> r == req.remoteAddress
  {
    OrStr(req.ip, req.remoteAddress)
  }
}
