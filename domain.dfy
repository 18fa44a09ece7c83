/**
 * Value types shared by the chat backend's handlers: the identity attached to
 * a connection, stored messages with their reader records, the broadcast
 * event that crosses the shared channel, and the payloads sent to clients.
 */
module Domain {
  import opened Wrappers

  /** The identity stored in a connection's "user" attribute (`SocketUser`). */
  datatype SocketUser = SocketUser(id: string, name: Option<string>, authSessionId: string, socketId: string)

  /** A user as the user cache returns it. */
  datatype User = User(id: string, name: string)

  /** `{id, name}` as sent in presence lists (`UserResponse`). */
  datatype UserResponse = UserResponse(id: string, name: Option<string>)

  /** One reader record of a message (`Message.MessageReader`). */
  datatype MessageReader = MessageReader(userId: string, readAt: int)

  /**
   * A stored message.  `allRead` is the stored flag, with an absent flag read
   * as false (the queries compare it with `ne(true)`).  Timestamps are
   * instants on one integer clock.
   */
  datatype Message = Message(
    id: string,
    roomId: string,
    senderId: Option<string>,
    content: string,
    system: bool,
    timestamp: int,
    isDeleted: bool,
    readers: seq<MessageReader>,
    allRead: bool)

  /** What the handshake cache keeps per transport session (`CachedHandshake`). */
  datatype CachedHandshake = CachedHandshake(userId: string, sessionId: string, username: Option<string>)

  /** A message as returned to the client, with its sender when known. */
  datatype MessageResponse = MessageResponse(message: Message, sender: Option<User>)

  /** `FetchMessagesResponse`: one page of history, oldest first. */
  datatype FetchMessagesResponse = FetchMessagesResponse(messages: seq<MessageResponse>, hasMore: bool)

  /** Socket.IO event names used by the core (the `SocketIOEvents` constants). */
  datatype SocketEvent =
    | MessagesRead
    | JoinRoomSuccess
    | JoinRoomError
    | UserJoined
    | UserLeft
    | ChatMessage
    | Error
    | DuplicateLogin
    | SessionEnded
    | MessageLoadStart
    | PreviousMessagesLoaded

  /** The payloads the core sends, one constructor per shape. */
  datatype Payload =
    | ReadAck(reader: string, messageIds: seq<string>)
    | JoinSnapshot(roomId: string, joined: bool, participants: set<UserResponse>, me: UserResponse)
    | UserJoinedDelta(user: UserResponse)
    | UserLeftDelta(userId: string)
    | SystemNotice(content: string, timestamp: int)
    | ErrorNotice(message: string)
    | CodedErrorNotice(code: string, message: string)
    | NewLoginNotice(noticeType: string, deviceInfo: string, ipAddress: string, timestamp: int)
    | SessionEndedNotice(reason: string, message: string)
    | NoPayload
    | MessagesLoaded(response: FetchMessagesResponse)

  /**
   * How a socket handler call ends: normally, or by a `NullPointerException`
   * (a missing "user" attribute or list dereferenced), which propagates out
   * of the handler.
   */
  datatype Outcome = Done | NullPointer

  /** `ChatBroadcastEvent`: what is published on the shared channel. */
  datatype BroadcastEvent = BroadcastEvent(eventType: string, roomId: string, socketEvent: SocketEvent, payload: Payload)

  // `ChatBroadcastEvent` type constants used by the core.
  const TYPE_MESSAGE: string := "MESSAGE"
  const TYPE_SYSTEM_MESSAGE: string := "SYSTEM_MESSAGE"
  const TYPE_PARTICIPANTS_UPDATE: string := "PARTICIPANTS_UPDATE"
  const TYPE_MESSAGES_READ: string := "MESSAGES_READ"
  const TYPE_USER_LEFT: string := "USER_LEFT"
}
