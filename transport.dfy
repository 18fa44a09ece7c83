/**
 * The per-connection state that the Socket.IO gateway exposes to the
 * handlers, and this node's table of local connections.  Handlers update the
 * fields directly, as the gateway's `set`, `del`, `joinRoom`, `leaveRoom`,
 * `sendEvent` and `disconnect` calls do.
 */
module Transport {
  import opened Wrappers
  import opened Domain

  /** One event sent to one connection. */
  datatype SentEvent = SentEvent(event: SocketEvent, payload: Payload)

  /** One event sent to the local members of a room group. */
  datatype RoomDelivery = RoomDelivery(roomId: string, event: SocketEvent, payload: Payload)

  /** A live transport connection (`SocketIOClient`). */
  class Client {
    /** The transport session id (`getSessionId()`). */
    const sessionId: string
    /** The `User-Agent` handshake header, when sent. */
    const userAgent: Option<string>
    /** The remote address, when known. */
    const remoteAddress: Option<string>

    /** The "user" attribute. */
    var user: Option<SocketUser>
    /** The "currentRoomId" attribute. */
    var currentRoomId: Option<string>
    /** The multicast groups this connection has joined. */
    var groups: set<string>
    /** Every event sent to this connection, in order. */
    var sent: seq<SentEvent>
    var disconnected: bool

    constructor (sessionId: string, userAgent: Option<string>, remoteAddress: Option<string>)
      ensures this.sessionId == sessionId && this.userAgent == userAgent && this.remoteAddress == remoteAddress
      ensures user == None && currentRoomId == None && groups == {} && sent == [] && !disconnected
    {
      this.sessionId := sessionId;
      this.userAgent := userAgent;
      this.remoteAddress := remoteAddress;
      user := None;
      currentRoomId := None;
      groups := {};
      sent := [];
      disconnected := false;
    }
  }

  /** This node's Socket.IO server: its local connections and room sends. */
  class SocketServer {
    /** Local connections by session id (`getClient`). */
    var clients: map<string, Client>
    /** Every `getRoomOperations(roomId).sendEvent(...)`, in order. */
    var deliveries: seq<RoomDelivery>

    constructor ()
      ensures clients == map[] && deliveries == []
    {
      clients := map[];
      deliveries := [];
    }
  }
}
