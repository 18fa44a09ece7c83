/**
 * `RoomJoinHandler.handleJoinRoom`: resolve the caller's name, check the room,
 * record a first join, join the room group, upsert the caller into this
 * handler's own presence lists, send the caller the full list, and tell the
 * room about a first join only.
 */
module RoomJoin {
  import opened Wrappers
  import opened Domain
  import opened Transport
  import opened Rooms
  import opened Presence
  import opened Broadcast

  const UNAUTHORIZED: string := "Unauthorized"
  const ROOM_NOT_FOUND: string := "채팅방을 찾을 수 없습니다."

  /**
   * The presence lists with `me` put into `roomId`'s list under its user id
   * (the list is created when absent); no other room changes.
   */
  function Upserted(roomUsers: map<string, map<string, UserResponse>>, roomId: string, me: UserResponse)
    : (r: map<string, map<string, UserResponse>>)
    ensures r.Keys == roomUsers.Keys + {roomId}
    ensures forall other :: other in roomUsers && other != roomId ==> r[other] == roomUsers[other]
    ensures r[roomId].Keys == (if roomId in roomUsers then roomUsers[roomId].Keys else {}) + {me.id}
    ensures r[roomId][me.id] == me
    ensures forall u :: u in r[roomId] && u != me.id ==> r[roomId][u] == roomUsers[roomId][u]
  {
    var room := if roomId in roomUsers then roomUsers[roomId] else map[];
    roomUsers[roomId := room[me.id := me]]
  }

  /** Joining again with the same identity changes no presence list. */
  lemma UpsertedIdempotent(roomUsers: map<string, map<string, UserResponse>>, roomId: string, me: UserResponse)
    ensures Upserted(Upserted(roomUsers, roomId, me), roomId, me) == Upserted(roomUsers, roomId, me)
  {
    var once := Upserted(roomUsers, roomId, me);
    assert once[roomId][me.id := me] == once[roomId];
  }

  /** The identity a join works with: the name resolved through the user cache when the attribute has none. */
  function Resolved(user: SocketUser, knownUsers: map<string, User>): SocketUser {
    if user.name.None? && user.id in knownUsers then user.(name := Some(knownUsers[user.id].name)) else user
  }

  class RoomJoinHandler {
    /** This handler's own presence lists (`roomUsers`), apart from `RoomUserCache`. */
    var roomUsers: map<string, map<string, UserResponse>>
    const rooms: RoomStore
    const userRooms: UserRooms
    const broadcaster: RedisBroadcastService

    constructor (rooms: RoomStore, userRooms: UserRooms, broadcaster: RedisBroadcastService)
      ensures this.rooms == rooms && this.userRooms == userRooms && this.broadcaster == broadcaster
      ensures roomUsers == map[]
    {
      this.rooms := rooms;
      this.userRooms := userRooms;
      this.broadcaster := broadcaster;
      roomUsers := map[];
    }

    /**
     * `handleJoinRoom`; `knownUsers` stands for the user cache, and a room
     * exists when the room store has it.
     */
    method HandleJoinRoom(client: Client, roomId: string, knownUsers: map<string, User>)
      modifies this, client, rooms, userRooms, broadcaster
      ensures client.disconnected == old(client.disconnected)
      // No user: an error to the caller, nothing else.
      ensures old(client.user).None? ==>
        && client.sent == old(client.sent) + [SentEvent(JoinRoomError, ErrorNotice(UNAUTHORIZED))]
        && client.user == old(client.user) && client.groups == old(client.groups)
        && client.currentRoomId == old(client.currentRoomId)
        && roomUsers == old(roomUsers) && rooms.participants == old(rooms.participants)
        && userRooms.rooms == old(userRooms.rooms) && broadcaster.channel == old(broadcaster.channel)
      ensures old(client.user).Some? ==>
        var user := Resolved(old(client.user).value, knownUsers);
        var me := UserResponse(user.id, user.name);
        var firstJoin := !(roomId in RoomsOf(old(userRooms.rooms), user.id));
        // The resolved name is written back whatever follows.
        && client.user == Some(user)
        && (roomId !in old(rooms.participants) ==>
              && client.sent == old(client.sent) + [SentEvent(JoinRoomError, ErrorNotice(ROOM_NOT_FOUND))]
              && client.groups == old(client.groups) && client.currentRoomId == old(client.currentRoomId)
              && roomUsers == old(roomUsers) && rooms.participants == old(rooms.participants)
              && userRooms.rooms == old(userRooms.rooms) && broadcaster.channel == old(broadcaster.channel))
        && (roomId in old(rooms.participants) ==>
              && rooms.participants == (if firstJoin then old(rooms.participants)[roomId := old(rooms.participants)[roomId] + {user.id}]
                                        else old(rooms.participants))
              && userRooms.rooms == (if firstJoin then old(userRooms.rooms)[user.id := RoomsOf(old(userRooms.rooms), user.id) + {roomId}]
                                     else old(userRooms.rooms))
              && client.groups == old(client.groups) + {roomId}
              && client.currentRoomId == Some(roomId)
              && roomUsers == Upserted(old(roomUsers), roomId, me)
              && client.sent == old(client.sent) + [SentEvent(JoinRoomSuccess, JoinSnapshot(roomId, true, roomUsers[roomId].Values, me))]
              && broadcaster.channel == old(broadcaster.channel)
                   + (if firstJoin then [BroadcastEvent(TYPE_PARTICIPANTS_UPDATE, roomId, UserJoined, UserJoinedDelta(me))] else []))
    {
      if client.user.None? {
        client.sent := client.sent + [SentEvent(JoinRoomError, ErrorNotice(UNAUTHORIZED))];
        return;
      }
      var socketUser := client.user.value;
      var userId := socketUser.id;
      if socketUser.name.None? {
        if userId in knownUsers {
          var updatedUser := SocketUser(userId, Some(knownUsers[userId].name), socketUser.authSessionId, socketUser.socketId);
          client.user := Some(updatedUser);
          socketUser := updatedUser;
        }
      }
      if !rooms.Exists(roomId) {
        client.sent := client.sent + [SentEvent(JoinRoomError, ErrorNotice(ROOM_NOT_FOUND))];
        return;
      }
      Enter(client, roomId, socketUser);
    }

    /** What `handleJoinRoom` does once the caller's name is resolved and the room is known to exist. */
    method Enter(client: Client, roomId: string, user: SocketUser)
      requires client.user == Some(user) && roomId in rooms.participants
      modifies this, client, rooms, userRooms, broadcaster
      ensures client.disconnected == old(client.disconnected) && client.user == old(client.user)
      ensures var me := UserResponse(user.id, user.name);
              var firstJoin := !(roomId in RoomsOf(old(userRooms.rooms), user.id));
              && rooms.participants == (if firstJoin then old(rooms.participants)[roomId := old(rooms.participants)[roomId] + {user.id}]
                                        else old(rooms.participants))
              && userRooms.rooms == (if firstJoin then old(userRooms.rooms)[user.id := RoomsOf(old(userRooms.rooms), user.id) + {roomId}]
                                     else old(userRooms.rooms))
              && client.groups == old(client.groups) + {roomId}
              && client.currentRoomId == Some(roomId)
              && roomUsers == Upserted(old(roomUsers), roomId, me)
              && client.sent == old(client.sent) + [SentEvent(JoinRoomSuccess, JoinSnapshot(roomId, true, roomUsers[roomId].Values, me))]
              && broadcaster.channel == old(broadcaster.channel)
                   + (if firstJoin then [BroadcastEvent(TYPE_PARTICIPANTS_UPDATE, roomId, UserJoined, UserJoinedDelta(me))] else [])
    {
      var userId := user.id;
      var firstJoin := !userRooms.IsInRoom(userId, roomId);
      if firstJoin {
        rooms.AddParticipant(roomId, userId);
        userRooms.Add(userId, roomId);
      }
      client.groups := client.groups + {roomId};
      client.currentRoomId := Some(roomId);
      var me := UserResponse(userId, user.name);
      roomUsers := Upserted(roomUsers, roomId, me);
      var participants := roomUsers[roomId].Values;
      client.sent := client.sent + [SentEvent(JoinRoomSuccess, JoinSnapshot(roomId, true, participants, me))];
      if firstJoin {
        broadcaster.BroadcastToRoom(TYPE_PARTICIPANTS_UPDATE, roomId, UserJoined, UserJoinedDelta(me));
      }
    }
  }

  /** The joiner is always in the snapshot it receives. */
  lemma SnapshotHoldsJoiner(roomUsers: map<string, map<string, UserResponse>>, roomId: string, me: UserResponse)
    ensures me in Upserted(roomUsers, roomId, me)[roomId].Values
  {
    var r := Upserted(roomUsers, roomId, me);
    assert r[roomId][me.id] == me;
  }
}
