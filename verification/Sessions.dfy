/** The session of one connection: who it is, its token, and how long it lasts. */
module Sessions {
  import opened Names

  datatype State = Connected | TlsEstablished | Authenticating | Authenticated | Closing | Closed

  class ConnectionSession {
    const connectionId: string
    var state: State
    var authenticated: bool
    var identityId: Option<string>
    var sessionToken: Option<string>
    var authenticatedAt: Option<real>
    var lastActivity: real
    var leaseExpiresAt: Option<real>

    /** An identity is there exactly once authenticated. */
    ghost predicate Valid()
      reads this
    {
      && (authenticated <==> identityId.Some? && authenticatedAt.Some?)
      && (identityId.Some? ==> identityId.value != "")
    }

    constructor (connectionId: string, now: real)
      ensures Valid() && this.connectionId == connectionId && !authenticated && leaseExpiresAt == None && state == Connected
    {
      this.connectionId := connectionId;
      state, authenticated, lastActivity := Connected, false, now;
      identityId, sessionToken, authenticatedAt, leaseExpiresAt := None, None, None, None;
    }

    method Touch(now: real)
      modifies this`lastActivity
      ensures lastActivity == now
    {
      lastActivity := now;
    }

    method MarkAuthenticated(identity: string, now: real) returns (raised: bool)
      requires Valid()
      modifies this`state, this`authenticated, this`identityId, this`authenticatedAt, this`lastActivity
      ensures Valid() && raised == (identity == "")
      ensures !raised ==> identityId == Some(identity) && authenticated && state == Authenticated
      ensures !raised ==> authenticatedAt == Some(now) && lastActivity == now
      ensures raised ==> unchanged(this)
    {
      if identity == "" { return true; }
      identityId, authenticated, authenticatedAt, lastActivity := Some(identity), true, Some(now), now;
      state := Authenticated;
      return false;
    }

    /** `token` is newly drawn at random. */
    method RotateSessionToken(token: string)
      requires Valid()
      modifies this`sessionToken
      ensures Valid() && sessionToken == Some(token)
    {
      sessionToken := Some(token);
    }

    method ClearSessionToken()
      requires Valid()
      modifies this`sessionToken
      ensures Valid() && sessionToken == None
    {
      sessionToken := None;
    }

    method StartLease(seconds: real, now: real)
      requires Valid()
      modifies this`leaseExpiresAt
      ensures Valid() && forall t :: ExpiredAt(t) <==> t >= now + (if seconds > 0.0 then seconds else 0.0)
    {
      leaseExpiresAt := Some(now + if seconds > 0.0 then seconds else 0.0);
    }

    method LeaseRemaining(now: real) returns (left: Option<real>)
      ensures left.Some? <==> leaseExpiresAt.Some?
      ensures left.Some? ==> now + left.value == leaseExpiresAt.value
    {
      if leaseExpiresAt == None { return None; }
      return Some(leaseExpiresAt.value - now);
    }

    method IsLeaseExpired(now: real) returns (expired: bool)
      ensures expired == ExpiredAt(now)
    {
      var left := LeaseRemaining(now);
      return left.Some? && left.value <= 0.0;
    }

    /** Without a lease nothing expires; with one, everything from its end on. */
    predicate ExpiredAt(t: real)
      reads this
    {
      leaseExpiresAt.Some? && t >= leaseExpiresAt.value
    }

    method Transition(state: State)
      modifies this`state
      ensures this.state == state
    {
      this.state := state;
    }
  }
}
