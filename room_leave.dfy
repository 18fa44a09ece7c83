/**
 * `RoomLeaveHandler.handleLeaveRoom`: a member leaves `UserRooms`, the
 * `RoomUserCache` list and the room group; a system message is saved and
 * published when that succeeds, and a `USER_LEFT` delta is always published.
 */
module RoomLeave {
  import opened Wrappers
  import opened Domain
  import opened Transport
  import opened Messages
  import opened Presence
  import opened Broadcast

  const UNAUTHORIZED: string := "Unauthorized"
  const LEFT_SUFFIX: string := "님이 퇴장하였습니다."

  /** Java string concatenation of a possibly null name: `null` prints as "null". */
  function NameText(name: Option<string>): string {
    name.GetOr("null")
  }

  /** The system message's text for a user leaving. */
  function LeaveContent(name: Option<string>): (r: string)
    ensures |r| == |NameText(name)| + |LEFT_SUFFIX|
    ensures r[|NameText(name)|..] == LEFT_SUFFIX
    ensures name.Some? ==> r[..|name.value|] == name.value
    ensures name.None? ==> r[..4] == "null"
  {
    NameText(name) + LEFT_SUFFIX
  }

  /**
   * How `sendSystemMessage` ends: the message is saved and published, the
   * save throws, or the save works and the publish throws.  Both throws are
   * caught there and end only the system message.
   */
  datatype SystemOutcome = Published | SaveFails | PublishFails

  /** The stored system message of `sendSystemMessage` (`id` is the store's new id). */
  function SystemMessage(id: string, roomId: string, content: string, now: int): Message {
    Message(id, roomId, None, content, true, now, false, [], false)
  }

  /** The events a member's leave publishes, in order: the system message when it was published, then the delta. */
  function LeaveEvents(roomId: string, userId: string, content: string, now: int, outcome: SystemOutcome): (r: seq<BroadcastEvent>)
    ensures |r| == (if outcome == Published then 2 else 1)
    ensures r[|r| - 1] == BroadcastEvent(TYPE_USER_LEFT, roomId, UserLeft, UserLeftDelta(userId))
    ensures outcome == Published ==> r[0] == BroadcastEvent(TYPE_SYSTEM_MESSAGE, roomId, ChatMessage, SystemNotice(content, now))
  {
    (if outcome != Published then [] else [BroadcastEvent(TYPE_SYSTEM_MESSAGE, roomId, ChatMessage, SystemNotice(content, now))])
    + [BroadcastEvent(TYPE_USER_LEFT, roomId, UserLeft, UserLeftDelta(userId))]
  }

  class RoomLeaveHandler {
    const userRooms: UserRooms
    const cache: RoomUserCache
    const store: MessageStore
    const broadcaster: RedisBroadcastService

    constructor (userRooms: UserRooms, cache: RoomUserCache, store: MessageStore, broadcaster: RedisBroadcastService)
      ensures this.userRooms == userRooms && this.cache == cache && this.store == store && this.broadcaster == broadcaster
    {
      this.userRooms := userRooms;
      this.cache := cache;
      this.store := store;
      this.broadcaster := broadcaster;
    }

    /**
     * `handleLeaveRoom` at instant `now`; `newId` is the id the store gives
     * the system message, and `outcome` says whether saving or publishing it
     * throws (which is swallowed).
     */
    method HandleLeaveRoom(client: Client, roomId: string, newId: string, now: int, outcome: SystemOutcome)
      modifies client, userRooms, cache, store, broadcaster
      ensures client.user == old(client.user) && client.currentRoomId == old(client.currentRoomId)
      ensures client.disconnected == old(client.disconnected)
      ensures old(client.user).None? ==>
        && client.sent == old(client.sent) + [SentEvent(Error, ErrorNotice(UNAUTHORIZED))]
        && client.groups == old(client.groups)
        && userRooms.rooms == old(userRooms.rooms) && cache.roomUsers == old(cache.roomUsers)
        && store.messages == old(store.messages) && broadcaster.channel == old(broadcaster.channel)
      ensures old(client.user).Some? && roomId !in RoomsOf(old(userRooms.rooms), old(client.user).value.id) ==>
        && client.sent == old(client.sent) && client.groups == old(client.groups)
        && userRooms.rooms == old(userRooms.rooms) && cache.roomUsers == old(cache.roomUsers)
        && store.messages == old(store.messages) && broadcaster.channel == old(broadcaster.channel)
      ensures old(client.user).Some? && roomId in RoomsOf(old(userRooms.rooms), old(client.user).value.id) ==>
        var user := old(client.user).value;
        var content := LeaveContent(user.name);
        && client.sent == old(client.sent)
        && userRooms.rooms == old(userRooms.rooms)[user.id := RoomsOf(old(userRooms.rooms), user.id) - {roomId}]
        && cache.roomUsers == RemovedUser(old(cache.roomUsers), roomId, user.id)
        && client.groups == old(client.groups) - {roomId}
        && store.messages == (if outcome == SaveFails then old(store.messages)
                              else old(store.messages)[newId := SystemMessage(newId, roomId, content, now)])
        && broadcaster.channel == old(broadcaster.channel) + LeaveEvents(roomId, user.id, content, now, outcome)
    {
      if client.user.None? {
        client.sent := client.sent + [SentEvent(Error, ErrorNotice(UNAUTHORIZED))];
        return;
      }
      var userId := client.user.value.id;
      var userName := client.user.value.name;
      if !userRooms.IsInRoom(userId, roomId) {
        return;
      }
      userRooms.Remove(userId, roomId);
      cache.RemoveUser(roomId, userId);
      client.groups := client.groups - {roomId};
      SendSystemMessage(roomId, LeaveContent(userName), newId, now, outcome);
      broadcaster.BroadcastToRoom(TYPE_USER_LEFT, roomId, UserLeft, UserLeftDelta(userId));
    }

    /**
     * `sendSystemMessage`: save, then publish.  A failed save is swallowed
     * and nothing is published; a failed publish is swallowed after the save,
     * so the message is stored but never announced.
     */
    method SendSystemMessage(roomId: string, content: string, newId: string, now: int, outcome: SystemOutcome)
      modifies store, broadcaster
      ensures outcome == SaveFails ==> store.messages == old(store.messages) && broadcaster.channel == old(broadcaster.channel)
      ensures outcome == PublishFails ==>
        && store.messages == old(store.messages)[newId := SystemMessage(newId, roomId, content, now)]
        && broadcaster.channel == old(broadcaster.channel)
      ensures outcome == Published ==>
        && store.messages == old(store.messages)[newId := SystemMessage(newId, roomId, content, now)]
        && broadcaster.channel == old(broadcaster.channel)
             + [BroadcastEvent(TYPE_SYSTEM_MESSAGE, roomId, ChatMessage, SystemNotice(content, now))]
    {
      if outcome == SaveFails {
        return;
      }
      var saved := SystemMessage(newId, roomId, content, now);
      store.Save(saved);
      if outcome == PublishFails {
        return;
      }
      broadcaster.BroadcastToRoom(TYPE_SYSTEM_MESSAGE, roomId, ChatMessage, SystemNotice(saved.content, saved.timestamp));
    }
  }

  /** A second leave of the same room changes nothing: the first one took the room out of `UserRooms`. */
  lemma SecondLeaveIsNoOp(rooms: map<string, set<string>>, userId: string, roomId: string)
    ensures roomId !in RoomsOf(rooms[userId := RoomsOf(rooms, userId) - {roomId}], userId)
  {
  }
}
