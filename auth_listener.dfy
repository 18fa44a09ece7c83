/**
 * `AuthTokenListenerImpl.getAuthTokenResult`: the handshake decision chain.
 * A cached handshake for the transport session is accepted at once;
 * otherwise the payload must convert, carry a token and a session id, the
 * token must yield a user id and the session must validate.  JWT decoding and
 * session validation are oracles.
 */
module AuthListener {
  import opened Wrappers
  import opened Domain
  import opened Transport
  import opened SessionValidation
  import opened HandshakeCache

  /** `SocketAuth`: either field may be null. */
  datatype SocketAuth = SocketAuth(token: Option<string>, sessionId: Option<string>)

  /** The result of converting the raw payload: it throws, or yields a possibly null `SocketAuth`. */
  datatype Conversion = Unconvertible | Converted(auth: Option<SocketAuth>)

  /** The user id and session id a payload proves, through the token decoder and the session check. */
  datatype Credentials = Credentials(userId: string, sessionId: string)

  /**
   * The checks after a cache miss, in order; none when one rejects.
   * `extractUserId` gives none where decoding the token throws.
   */
  function Authenticate<S>(payload: Conversion, extractUserId: string -> Option<string>,
                           validate: (string, string) -> SessionValidationResult<S>): (r: Option<Credentials>)
    ensures r.Some? ==>
      && payload.Converted? && payload.auth.Some? && payload.auth.value.sessionId == Some(r.value.sessionId)
      && payload.auth.value.token.Some?
      && extractUserId(payload.auth.value.token.value) == Some(r.value.userId)
      && validate(r.value.userId, r.value.sessionId).isValid
    ensures r.None? ==>
      || payload.Unconvertible?
      || payload.auth.None?
      || payload.auth.value.token.None?
      || payload.auth.value.sessionId.None?
      || extractUserId(payload.auth.value.token.value).None?
      || !validate(extractUserId(payload.auth.value.token.value).value, payload.auth.value.sessionId.value).isValid
  {
    match payload
    case Unconvertible => None
    case Converted(auth) =>
      if auth.None? || auth.value.token.None? || auth.value.sessionId.None? then None
      else
        var sessionId := auth.value.sessionId.value;
        match extractUserId(auth.value.token.value)
        case None => None
        case Some(userId) =>
          if validate(userId, sessionId).isValid then Some(Credentials(userId, sessionId)) else None
  }

  /** A payload that passes has one set of credentials: the token's user id and the payload's session id. */
  lemma AuthenticateDeterminesIdentity<S>(token: string, sessionId: string, extractUserId: string -> Option<string>,
                                          validate: (string, string) -> SessionValidationResult<S>)
    requires extractUserId(token).Some?
    ensures var r := Authenticate(Converted(Some(SocketAuth(Some(token), Some(sessionId)))), extractUserId, validate);
            r.Some? <==> validate(extractUserId(token).value, sessionId).isValid
    ensures var r := Authenticate(Converted(Some(SocketAuth(Some(token), Some(sessionId)))), extractUserId, validate);
            r.Some? ==> r.value == Credentials(extractUserId(token).value, sessionId)
  {
  }

  class AuthTokenListener {
    const handshakeCache: HandshakeSessionCacheService

    constructor (handshakeCache: HandshakeSessionCacheService)
      ensures this.handshakeCache == handshakeCache
    {
      this.handshakeCache := handshakeCache;
    }

    /**
     * `getAuthTokenResult`: `accepted` is the result's success flag.  The
     * cache lookup's remote read may fail (`readFails`), as may the remote
     * write after a full validation (`writeFails`).
     */
    method GetAuthTokenResult<S>(client: Client, payload: Conversion, extractUserId: string -> Option<string>,
                                 validate: (string, string) -> SessionValidationResult<S>,
                                 encode: CachedHandshake -> string, decode: string -> Option<CachedHandshake>,
                                 readFails: bool, writeFails: bool)
      returns (accepted: bool)
      modifies client, handshakeCache
      ensures client.groups == old(client.groups) && client.sent == old(client.sent)
      ensures client.currentRoomId == old(client.currentRoomId) && client.disconnected == old(client.disconnected)
      ensures var engineSessionId := client.sessionId;
              var cached := Lookup(old(handshakeCache.local), old(handshakeCache.remote), engineSessionId, decode, readFails);
              var warmed := Warmed(old(handshakeCache.local), old(handshakeCache.remote), engineSessionId, decode, readFails);
              var credentials := Authenticate(payload, extractUserId, validate);
              && accepted == (cached.Some? || credentials.Some?)
              // A cache hit: the user comes from the cached fields, and no check runs.
              && (cached.Some? ==>
                    && client.user == Some(SocketUser(cached.value.userId, cached.value.username, cached.value.sessionId, engineSessionId))
                    && handshakeCache.local == warmed && handshakeCache.remote == old(handshakeCache.remote))
              // A rejection writes nothing.
              && (cached.None? && credentials.None? ==>
                    && client.user == old(client.user)
                    && handshakeCache.local == old(handshakeCache.local) && handshakeCache.remote == old(handshakeCache.remote))
              // A full validation: a nameless user, and the handshake cached for next time.
              && (cached.None? && credentials.Some? ==>
                    var userId, sessionId := credentials.value.userId, credentials.value.sessionId;
                    var handshake := CachedHandshake(userId, sessionId, None);
                    && client.user == Some(SocketUser(userId, None, sessionId, engineSessionId))
                    && handshakeCache.local == old(handshakeCache.local)[engineSessionId := handshake]
                    && handshakeCache.remote == (if writeFails then old(handshakeCache.remote)
                                                 else old(handshakeCache.remote)[RemoteKey(engineSessionId) := Stored(encode(handshake), TTL_SECONDS)]))
    {
      var engineSessionId := client.sessionId;
      var cached := handshakeCache.GetByEngineSession(engineSessionId, decode, readFails);
      if cached.Some? {
        client.user := Some(SocketUser(cached.value.userId, cached.value.username, cached.value.sessionId, engineSessionId));
        return true;
      }
      if payload.Unconvertible? {
        return false;
      }
      var auth := payload.auth;
      if auth.None? || auth.value.token.None? || auth.value.sessionId.None? {
        return false;
      }
      var userId := extractUserId(auth.value.token.value);
      if userId.None? {
        return false;
      }
      if !validate(userId.value, auth.value.sessionId.value).isValid {
        return false;
      }
      client.user := Some(SocketUser(userId.value, None, auth.value.sessionId.value, engineSessionId));
      handshakeCache.CacheByEngineSession(engineSessionId, CachedHandshake(userId.value, auth.value.sessionId.value, None),
                                          encode, writeFails);
      return true;
    }
  }

  /** A second handshake on the same transport session is answered from the cache the first one filled. */
  lemma SecondHandshakeHitsCache(local: map<string, CachedHandshake>, remote: map<string, Stored>, engineSessionId: string,
                                 credentials: Credentials, decode: string -> Option<CachedHandshake>, readFails: bool)
    ensures var filled := local[engineSessionId := CachedHandshake(credentials.userId, credentials.sessionId, None)];
            Lookup(filled, remote, engineSessionId, decode, readFails) == Some(CachedHandshake(credentials.userId, credentials.sessionId, None))
  {
  }
}
