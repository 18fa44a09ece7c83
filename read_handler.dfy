/**
 * `MessageReadHandler`: the `MARK_MESSAGES_AS_READ` socket event.  Guards
 * return early; otherwise the ids go to the read aggregator once, and in a
 * two-person room a direct "read by this user" notice is published at once.
 */
module ReadHandler {
  import opened Wrappers
  import opened Domain
  import opened Transport
  import opened Rooms
  import opened ReadCommands

  /** `MarkAsReadRequest`: the id list may be null. */
  datatype MarkAsReadRequest = MarkAsReadRequest(messageIds: Option<seq<string>>)

  /** The guards let the request through to the aggregator. */
  predicate Submits(loadTestMode: bool, user: Option<SocketUser>, currentRoomId: Option<string>, data: Option<MarkAsReadRequest>) {
    && !loadTestMode
    && user.Some?
    && data.Some? && data.value.messageIds.Some? && data.value.messageIds.value != []
    && currentRoomId.Some?
  }

  /** The guards dereference a missing user attribute or a null id list. */
  predicate Throws(loadTestMode: bool, user: Option<SocketUser>, data: Option<MarkAsReadRequest>) {
    && !loadTestMode
    && (user.None? || (data.Some? && data.value.messageIds.None?))
  }

  /** The immediate notice of a two-person room: reader `userId`, the ids as sent. */
  function DirectNotice(roomId: string, userId: string, ids: seq<string>): BroadcastEvent {
    BroadcastEvent(TYPE_MESSAGES_READ, roomId, MessagesRead, ReadAck(userId, ids))
  }

  class MessageReadHandler {
    const loadTestMode: bool
    const commands: MessageReadCommandService

    constructor (loadTestMode: bool, commands: MessageReadCommandService)
      ensures this.loadTestMode == loadTestMode && this.commands == commands
    {
      this.loadTestMode := loadTestMode;
      this.commands := commands;
    }

    /**
     * `handleMarkAsRead` at instant `now`; `storeFails` says whether a flush
     * this call triggers has its bulk update fail.  The participant count is
     * the room store's.
     */
    method HandleMarkAsRead(client: Client, data: Option<MarkAsReadRequest>, now: int, storeFails: bool) returns (outcome: Outcome)
      requires commands.Valid()
      modifies commands, commands.buffer.Values, commands.store, commands.broadcaster
      ensures commands.Valid()
      ensures outcome == NullPointer <==> Throws(loadTestMode, client.user, data)
      ensures outcome == NullPointer ==> !Submits(loadTestMode, client.user, client.currentRoomId, data)
      ensures !Submits(loadTestMode, client.user, client.currentRoomId, data) ==>
        && commands.pending == old(commands.pending)
        && commands.store.messages == old(commands.store.messages)
        && commands.broadcaster.channel == old(commands.broadcaster.channel)
      ensures Submits(loadTestMode, client.user, client.currentRoomId, data) ==>
        var roomId, userId, ids := client.currentRoomId.value, client.user.value.id, data.value.messageIds.value;
        var direct := CountOf(commands.rooms.participants, roomId) == 2;
        var channel := commands.broadcaster.channel;
        var processed := if direct && |channel| > 0 then channel[..|channel| - 1] else channel;
        && (direct ==> |channel| > 0 && channel[|channel| - 1] == DirectNotice(roomId, userId, ids))
        && Processed(roomId, userId, ids, commands.rooms.participants, now, storeFails,
                     old(commands.pending), old(commands.store.messages), old(commands.broadcaster.channel),
                     commands.pending, commands.store.messages, processed)
    {
      if loadTestMode {
        return Done;
      }
      if client.user.None? {
        return NullPointer;
      }
      var userId := client.user.value.id;
      if data.None? {
        return Done;
      }
      if data.value.messageIds.None? {
        return NullPointer;
      }
      var ids := data.value.messageIds.value;
      if ids == [] {
        return Done;
      }
      if client.currentRoomId.None? {
        return Done;
      }
      var roomId := client.currentRoomId.value;
      Submit(roomId, userId, ids, now, storeFails);
      return Done;
    }

    /** The submitting half of `handleMarkAsRead`: buffer the ids, then tell a two-person room at once. */
    method Submit(roomId: string, userId: string, ids: seq<string>, now: int, storeFails: bool)
      requires commands.Valid()
      modifies commands, commands.buffer.Values, commands.store, commands.broadcaster
      ensures commands.Valid()
      ensures var direct := CountOf(commands.rooms.participants, roomId) == 2;
              var channel := commands.broadcaster.channel;
              var processed := if direct && |channel| > 0 then channel[..|channel| - 1] else channel;
              && (direct ==> |channel| > 0 && channel[|channel| - 1] == DirectNotice(roomId, userId, ids))
              && Processed(roomId, userId, ids, commands.rooms.participants, now, storeFails,
                           old(commands.pending), old(commands.store.messages), old(commands.broadcaster.channel),
                           commands.pending, commands.store.messages, processed)
    {
      commands.ProcessAsync(roomId, userId, ids, now, storeFails);
      ghost var pending1, messages1, processed := commands.pending, commands.store.messages, commands.broadcaster.channel;
      var participantCount := commands.rooms.CountParticipants(roomId);
      if participantCount == 2 {
        commands.broadcaster.BroadcastToRoom(TYPE_MESSAGES_READ, roomId, MessagesRead, ReadAck(userId, ids));
        assert commands.broadcaster.channel[..|commands.broadcaster.channel| - 1] == processed;
      }
      assert commands.pending == pending1 && commands.store.messages == messages1;
    }
  }
}
