/** Back-channel logout (`AuthOIDCView.sso_logout`) and the pre-request
    guard (`oidc_check_loggedin_or_logout`), as steps over the
    pending-disconnect queue. Token decoding, the OIDC client and the web
    session are inputs. */
module LogoutFlow {
  import opened Wrappers
  import opened SecurityManager

  /** What `_decode_logout_jwt` produced for the posted `logout_token`. */
  datatype DecodeOutcome =
    | Decoded(sid: Option<Sid>)  // a verified payload; its `sid` claim may be absent
    | ExpiredSignature           // the decoder raised `ExpiredSignatureError`
    | DecodeFailure              // the decoder raised `DecodeError` (malformed token, bad signature)
    | OtherFailure               // any other exception (key lookup, audience mismatch, ...)

  /** The two failures the view catches; for each it returns `(400, msg)`. */
  datatype Rejection = TokenExpired | TokenInvalid

  /** What the back-channel request returns. `BadRequest` is the
      `(400, msg)` value returned for a caught decode error; `Unhandled` is
      an exception escaping the view. */
  datatype Response = Flagged(sid: Sid) | BadRequest(reason: Rejection) | Unhandled

  datatype SsoResult = SsoResult(response: Response, queue: Queue)

  /** `sso_logout`: queues the token's sid for disconnection when the token
      decoded, and returns `(400, msg)` without touching the queue on the two
      recognised decode errors. */
  function SsoLogout(q: Queue, decoded: DecodeOutcome): (r: SsoResult)
    ensures r.response.Flagged? <==> decoded.Decoded? && decoded.sid.Some?
    ensures r.response.Flagged? ==>
      r.response.sid == decoded.sid.value && r.queue == Push(q, decoded.sid.value)
    ensures !r.response.Flagged? ==> r.queue == q
    ensures r.response == BadRequest(TokenExpired) <==> decoded.ExpiredSignature?
    ensures r.response == BadRequest(TokenInvalid) <==> decoded.DecodeFailure?
  {
    match decoded
    case ExpiredSignature => SsoResult(BadRequest(TokenExpired), q)
    case DecodeFailure => SsoResult(BadRequest(TokenInvalid), q)
    case OtherFailure => SsoResult(Unhandled, q)
    case Decoded(None) => SsoResult(Unhandled, q)  // payload["sid"] raises KeyError
    case Decoded(Some(sid)) => SsoResult(Flagged(sid), Push(q, sid))
  }

  /** The state one incoming request presents to the guard. */
  datatype RequestContext = RequestContext(
    oidcConfigured: bool,    // a security manager with an OIDC client exists
    sessionSid: Option<Sid>, // the `oidc-sid` entry of the web session, if any
    providerLoggedIn: bool,  // `oidc.user_loggedin`
    authenticated: bool      // `current_user.is_authenticated`
  )

  datatype GuardResult = GuardResult(queue: Queue, loggedOut: bool)

  /** The session's sid is waiting in the queue. */
  predicate QueuedForDisconnect(q: Queue, ctx: RequestContext)
  {
    ctx.sessionSid.Some? && ctx.sessionSid.value in q
  }

  /** `oidc_check_loggedin_or_logout`: without an OIDC client it does
      nothing. Otherwise it always pops the session's sid (a session without
      one pops nothing, as the queue holds only strings), and logs the user
      out exactly when a user is authenticated and either the provider no
      longer reports a login or the sid was queued. */
  function CheckLoggedInOrLogout(q: Queue, ctx: RequestContext): (r: GuardResult)
    ensures !ctx.oidcConfigured ==> r == GuardResult(q, false)
    ensures ctx.oidcConfigured && ctx.sessionSid.Some? ==>
      r.queue == Pop(q, ctx.sessionSid.value).rest
    ensures ctx.sessionSid.None? ==> r.queue == q
    ensures r.loggedOut <==>
      ctx.oidcConfigured && ctx.authenticated && (!ctx.providerLoggedIn || QueuedForDisconnect(q, ctx))
    ensures multiset(r.queue) <= multiset(q) && |r.queue| >= |q| - 1
  {
    if !ctx.oidcConfigured then GuardResult(q, false)
    else
      var popped := match ctx.sessionSid
        case None => PopResult(None, q)
        case Some(sid) => Pop(q, sid);
      var toDisconnect := popped.found.Some?;
      GuardResult(popped.rest, ctx.authenticated && (!ctx.providerLoggedIn || toDisconnect))
  }

  /** A back-channel logout for a session reaches that session's next
      request, whatever else is queued: an authenticated user is logged out
      there. One copy of the sid is consumed: with no earlier copy the queue
      is back to what it was; with an earlier (duplicate) notification, the
      oldest copy is consumed and the new one stays queued at the end. */
  lemma BackChannelLogoutReachesNextRequest(q: Queue, sid: Sid, ctx: RequestContext)
    requires ctx.oidcConfigured && ctx.authenticated && ctx.sessionSid == Some(sid)
    ensures var notified := SsoLogout(q, Decoded(Some(sid)));
            CheckLoggedInOrLogout(notified.queue, ctx).loggedOut
    ensures var notified := SsoLogout(q, Decoded(Some(sid)));
            sid !in q ==> CheckLoggedInOrLogout(notified.queue, ctx).queue == q
    ensures var notified := SsoLogout(q, Decoded(Some(sid)));
            sid in q ==> CheckLoggedInOrLogout(notified.queue, ctx).queue == Push(Pop(q, sid).rest, sid)
  {
    if sid in q {
      PopIgnoresLaterPushes(q, sid, sid);
    } else {
      PushThenPopTwice(q, sid);
    }
  }

  /** A single notification forces at most one logout: once a request has
      consumed it, a later request of the same session that the provider
      still reports as logged in is left alone. */
  lemma NotificationConsumedOnce(q: Queue, sid: Sid, first: RequestContext, second: RequestContext)
    requires sid !in q
    requires first.oidcConfigured && first.sessionSid == Some(sid)
    requires second.sessionSid == Some(sid) && second.providerLoggedIn
    ensures var notified := SsoLogout(q, Decoded(Some(sid)));
            var next := CheckLoggedInOrLogout(notified.queue, first);
            !CheckLoggedInOrLogout(next.queue, second).loggedOut
  {
    PushThenPopTwice(q, sid);
  }

  /** A back-channel request whose token was not accepted cannot cause a
      logout on a session the provider still reports as logged in. */
  lemma RejectedNotificationLogsNobodyOut(q: Queue, decoded: DecodeOutcome, ctx: RequestContext)
    requires !(decoded.Decoded? && decoded.sid.Some?)
    requires ctx.providerLoggedIn && !QueuedForDisconnect(q, ctx)
    ensures !CheckLoggedInOrLogout(SsoLogout(q, decoded).queue, ctx).loggedOut
  {
  }

  /** The guard consumes a queued sid even when nobody is authenticated in
      that session, so the notification is then spent without a logout. */
  lemma UnauthenticatedRequestSpendsNotification(q: Queue, sid: Sid, ctx: RequestContext)
    requires sid !in q
    requires ctx.oidcConfigured && !ctx.authenticated && ctx.sessionSid == Some(sid)
    ensures var notified := SsoLogout(q, Decoded(Some(sid)));
            var next := CheckLoggedInOrLogout(notified.queue, ctx);
            !next.loggedOut && next.queue == q
  {
    PushThenPopTwice(q, sid);
  }
}
