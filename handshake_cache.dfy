/**
 * `HandshakeSessionCacheService`: a two-tier cache of accepted handshakes by
 * transport (engine) session id.  The local tier is a map without expiry; the
 * remote tier holds the encoded handshake under a prefixed key with a TTL.
 * Encoding is an abstract function and decoding a partial one; whether a
 * remote call fails is a parameter.
 */
module HandshakeCache {
  import opened Wrappers
  import opened Domain

  const PREFIX: string := "ws:handshake:engine:"
  const TTL_SECONDS: int := 300

  /** The remote key of an engine session. */
  function RemoteKey(engineSessionId: string): string {
    PREFIX + engineSessionId
  }

  /** Distinct sessions never share a remote key. */
  lemma RemoteKeyInjective(a: string, b: string)
    ensures RemoteKey(a) == RemoteKey(b) ==> a == b
  {
    if RemoteKey(a) == RemoteKey(b) {
      assert a == RemoteKey(a)[|PREFIX|..];
      assert b == RemoteKey(b)[|PREFIX|..];
    }
  }

  /** A remote value with the TTL it was written with. */
  datatype Stored = Stored(json: string, ttlSeconds: int)

  /**
   * What `getByEngineSession` returns: the local entry if any; else, unless
   * the remote read fails, the decoded remote value (none when absent or
   * undecodable).
   */
  function Lookup(local: map<string, CachedHandshake>, remote: map<string, Stored>, engineSessionId: string,
                  decode: string -> Option<CachedHandshake>, readFails: bool): Option<CachedHandshake>
  {
    if engineSessionId in local then Some(local[engineSessionId])
    else if readFails || RemoteKey(engineSessionId) !in remote then None
    else decode(remote[RemoteKey(engineSessionId)].json)
  }

  /** The local tier after `getByEngineSession`: a remote hit is copied in, nothing else changes. */
  function Warmed(local: map<string, CachedHandshake>, remote: map<string, Stored>, engineSessionId: string,
                  decode: string -> Option<CachedHandshake>, readFails: bool): map<string, CachedHandshake>
  {
    var r := Lookup(local, remote, engineSessionId, decode, readFails);
    if engineSessionId !in local && r.Some? then local[engineSessionId := r.value] else local
  }

  /** A local entry answers whatever the remote tier holds or does, and the lookup changes nothing. */
  lemma LocalHitIgnoresRemote(local: map<string, CachedHandshake>, remote: map<string, Stored>, remote2: map<string, Stored>,
                              engineSessionId: string, decode: string -> Option<CachedHandshake>, readFails: bool, readFails2: bool)
    requires engineSessionId in local
    ensures Lookup(local, remote, engineSessionId, decode, readFails) == Lookup(local, remote2, engineSessionId, decode, readFails2)
    ensures Warmed(local, remote, engineSessionId, decode, readFails) == local
  {
  }

  /** After a warm-up, the local tier alone gives the same answer again. */
  lemma WarmedAnswersLocally(local: map<string, CachedHandshake>, remote: map<string, Stored>, engineSessionId: string,
                             decode: string -> Option<CachedHandshake>, readFails: bool)
    ensures var r := Lookup(local, remote, engineSessionId, decode, readFails);
            var w := Warmed(local, remote, engineSessionId, decode, readFails);
            && (r.Some? <==> engineSessionId in w)
            && (r.Some? ==> w[engineSessionId] == r.value)
            && (forall other :: other != engineSessionId ==> (other in w <==> other in local))
  {
  }

  /**
   * A handshake cached on one node whose remote write succeeded is found by
   * any other node sharing the remote tier, given that decoding inverts
   * encoding and the read does not fail.
   */
  lemma {:induction false} RemoteServesOtherNodes(remote: map<string, Stored>, otherLocal: map<string, CachedHandshake>,
                                                  engineSessionId: string, h: CachedHandshake,
                                                  encode: CachedHandshake -> string, decode: string -> Option<CachedHandshake>)
    requires decode(encode(h)) == Some(h)
    requires engineSessionId !in otherLocal
    ensures var written := remote[RemoteKey(engineSessionId) := Stored(encode(h), TTL_SECONDS)];
            && Lookup(otherLocal, written, engineSessionId, decode, false) == Some(h)
            && Warmed(otherLocal, written, engineSessionId, decode, false) == otherLocal[engineSessionId := h]
  {
    var written := remote[RemoteKey(engineSessionId) := Stored(encode(h), TTL_SECONDS)];
    assert written[RemoteKey(engineSessionId)].json == encode(h);
  }

  class HandshakeSessionCacheService {
    var local: map<string, CachedHandshake>
    /** The remote tier by remote key; shared by the nodes. */
    var remote: map<string, Stored>

    constructor (remote: map<string, Stored>)
      ensures local == map[] && this.remote == remote
    {
      local := map[];
      this.remote := remote;
    }

    /** `cacheByEngineSession`: the local write always happens; a failed remote write is swallowed. */
    method CacheByEngineSession(engineSessionId: string, handshake: CachedHandshake,
                                encode: CachedHandshake -> string, writeFails: bool)
      modifies this
      ensures local == old(local)[engineSessionId := handshake]
      ensures remote == if writeFails then old(remote)
                        else old(remote)[RemoteKey(engineSessionId) := Stored(encode(handshake), TTL_SECONDS)]
    {
      local := local[engineSessionId := handshake];
      if !writeFails {
        var json := encode(handshake);
        remote := remote[RemoteKey(engineSessionId) := Stored(json, TTL_SECONDS)];
      }
    }

    /** `getByEngineSession`: local first, then remote with a local warm-up; remote errors give none. */
    method GetByEngineSession(engineSessionId: string, decode: string -> Option<CachedHandshake>, readFails: bool)
      returns (r: Option<CachedHandshake>)
      modifies this
      ensures r == Lookup(old(local), old(remote), engineSessionId, decode, readFails)
      ensures local == Warmed(old(local), old(remote), engineSessionId, decode, readFails)
      ensures remote == old(remote)
    {
      if engineSessionId in local {
        return Some(local[engineSessionId]);
      }
      if readFails {
        return None;
      }
      var key := RemoteKey(engineSessionId);
      if key !in remote {
        return None;
      }
      var parsed := decode(remote[key].json);
      if parsed.None? {
        return None;
      }
      local := local[engineSessionId := parsed.value];
      return parsed;
    }

    /**
     * `evictByEngineSession`: the local entry goes first, then the remote key.
     * The remote delete is not guarded: when it fails the call throws
     * (`thrown`) after the local removal.
     */
    method EvictByEngineSession(engineSessionId: string, deleteFails: bool) returns (thrown: bool)
      modifies this
      ensures thrown == deleteFails
      ensures local == old(local) - {engineSessionId}
      ensures remote == if deleteFails then old(remote) else old(remote) - {RemoteKey(engineSessionId)}
    {
      local := local - {engineSessionId};
      if deleteFails {
        return true;
      }
      remote := remote - {RemoteKey(engineSessionId)};
      return false;
    }

    /** Caching then getting the same session returns that handshake, from the local tier. */
    method CacheThenGet(engineSessionId: string, handshake: CachedHandshake, encode: CachedHandshake -> string,
                        decode: string -> Option<CachedHandshake>, writeFails: bool, readFails: bool)
      returns (r: Option<CachedHandshake>)
      modifies this
      ensures r == Some(handshake)
    {
      CacheByEngineSession(engineSessionId, handshake, encode, writeFails);
      r := GetByEngineSession(engineSessionId, decode, readFails);
    }

    /** After a complete eviction nothing is found, whether the remote read fails or not. */
    method EvictThenGet(engineSessionId: string, deleteFails: bool, decode: string -> Option<CachedHandshake>, readFails: bool)
      returns (thrown: bool, r: Option<CachedHandshake>)
      modifies this
      ensures !thrown ==> r == None
    {
      thrown := EvictByEngineSession(engineSessionId, deleteFails);
      if thrown {
        return thrown, None;
      }
      r := GetByEngineSession(engineSessionId, decode, readFails);
    }
  }
}
