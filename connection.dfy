/**
 * `ConnectionLoginHandler`: the registry of connected users (one entry per
 * user, holding the socket id of that user's latest connection), the
 * connected-users counter, the duplicate-login notice, and the cleanup on
 * disconnect.
 */
module Connection {
  import opened Wrappers
  import opened Domain
  import opened Transport
  import opened Lists
  import opened Messages
  import opened Presence
  import opened Broadcast
  import opened RoomLeave

  const NEW_LOGIN_ATTEMPT: string := "new_login_attempt"
  const UNKNOWN: string := "unknown"
  /** The delay before the old session is told it has ended. */
  const SESSION_END_DELAY_MS: int := 10000
  const SESSION_ENDED_NOTICE: Payload := SessionEndedNotice("duplicate_login", "다른 기기에서 로그인하여 현재 세션이 종료되었습니다.")
  const ROOM_LIST_GROUP: string := "room-list"

  /** The per-user group every connection joins. */
  function UserGroup(userId: string): string {
    "user:" + userId
  }

  /** A `SESSION_ENDED` send the task scheduler holds for `target`, due at instant `at`. */
  datatype ScheduledNotice = ScheduledNotice(target: Client, at: int)

  /** The presence lists after leaving each room of `order` in turn. */
  function LeftRooms(roomUsers: map<string, map<string, UserResponse>>, order: seq<string>, userId: string)
    : map<string, map<string, UserResponse>>
  {
    if order == [] then roomUsers
    else RemovedUser(LeftRooms(roomUsers, order[..|order| - 1], userId), order[|order| - 1], userId)
  }

  /** After leaving the rooms of `order`, the user is in none of their lists, and other rooms are as they were. */
  lemma {:induction false} LeftRoomsRemovesUser(roomUsers: map<string, map<string, UserResponse>>, order: seq<string>, userId: string)
    ensures var after := LeftRooms(roomUsers, order, userId);
            && (forall r :: r in order && r in after ==> userId !in after[r])
            && (forall r :: r !in order ==> (r in after <==> r in roomUsers) && (r in after ==> after[r] == roomUsers[r]))
  {
    if order != [] {
      var front := order[..|order| - 1];
      LeftRoomsRemovesUser(roomUsers, front, userId);
      var mid := LeftRooms(roomUsers, front, userId);
      var after := LeftRooms(roomUsers, order, userId);
      var last := order[|order| - 1];
      assert after == RemovedUser(mid, last, userId);
      forall r | r in order && r in after
        ensures userId !in after[r]
      {
        if r != last {
          assert r in front;
        }
      }
      forall r | r !in order
        ensures (r in after <==> r in roomUsers) && (r in after ==> after[r] == roomUsers[r])
      {
        assert r !in front;
      }
    }
  }

  /** The store after the system messages of leaving each room of `order`. */
  function SavedLeaves(messages: map<string, Message>, order: seq<string>, content: string,
                       newIds: string -> string, now: int, outcomes: string -> SystemOutcome): map<string, Message>
  {
    if order == [] then messages
    else
      var prior := SavedLeaves(messages, order[..|order| - 1], content, newIds, now, outcomes);
      var room := order[|order| - 1];
      if outcomes(room) == SaveFails then prior else prior[newIds(room) := SystemMessage(newIds(room), room, content, now)]
  }

  /** The events published by leaving each room of `order`, in order. */
  function LeavesPublished(order: seq<string>, userId: string, content: string, now: int, outcomes: string -> SystemOutcome)
    : seq<BroadcastEvent>
  {
    if order == [] then []
    else
      var room := order[|order| - 1];
      LeavesPublished(order[..|order| - 1], userId, content, now, outcomes) + LeaveEvents(room, userId, content, now, outcomes(room))
  }

  /** Every left room gets its `USER_LEFT` delta, one per room. */
  lemma {:induction false} LeavesPublishedDeltas(order: seq<string>, userId: string, content: string, now: int, outcomes: string -> SystemOutcome)
    ensures var events := LeavesPublished(order, userId, content, now, outcomes);
            forall r :: r in order ==> BroadcastEvent(TYPE_USER_LEFT, r, UserLeft, UserLeftDelta(userId)) in events
    ensures |order| <= |LeavesPublished(order, userId, content, now, outcomes)| <= 2 * |order|
  {
    if order != [] {
      var front := order[..|order| - 1];
      var room := order[|order| - 1];
      LeavesPublishedDeltas(front, userId, content, now, outcomes);
      var tail := LeaveEvents(room, userId, content, now, outcomes(room));
      assert tail[|tail| - 1] in tail;
      forall r | r in order
        ensures BroadcastEvent(TYPE_USER_LEFT, r, UserLeft, UserLeftDelta(userId)) in LeavesPublished(order, userId, content, now, outcomes)
      {
        if r != room {
          assert r in front;
        }
      }
    }
  }

  /**
   * The connection `notifyDuplicateLogin` reaches for `userId`: the one the
   * registry's socket id names, when that id is a UUID of a local connection.
   */
  function NotifiedClient(connectedUsers: map<string, SocketUser>, userId: string, clients: map<string, Client>,
                          isUuid: string -> bool): Option<Client>
  {
    if userId in connectedUsers && isUuid(connectedUsers[userId].socketId) && connectedUsers[userId].socketId in clients
    then Some(clients[connectedUsers[userId].socketId])
    else None
  }

  /** The `DUPLICATE_LOGIN` event about the new connection `client`: its device and address, "unknown" when absent. */
  function LoginNotice(client: Client, now: int): SentEvent {
    SentEvent(DuplicateLogin, NewLoginNotice(NEW_LOGIN_ATTEMPT, client.userAgent.GetOr(UNKNOWN), client.remoteAddress.GetOr(UNKNOWN), now))
  }

  class ConnectionLoginHandler {
    /** This node's connections, by session id. */
    const server: SocketServer
    const userRooms: UserRooms
    const leave: RoomLeaveHandler
    /** `ConnectedUsers`: user id to the identity of the user's registered connection. */
    var connectedUsers: map<string, SocketUser>
    /** The shared connected-users counter. */
    var connectedCount: int
    /** The `SESSION_ENDED` sends handed to the task scheduler. */
    var scheduled: seq<ScheduledNotice>

    constructor (server: SocketServer, userRooms: UserRooms, leave: RoomLeaveHandler)
      requires leave.userRooms == userRooms
      ensures this.server == server && this.userRooms == userRooms && this.leave == leave
      ensures connectedUsers == map[] && connectedCount == 0 && scheduled == []
    {
      this.server := server;
      this.userRooms := userRooms;
      this.leave := leave;
      connectedUsers := map[];
      connectedCount := 0;
      scheduled := [];
    }

    /**
     * `onConnect` at instant `now`; `isUuid` says which strings parse as a
     * UUID.  A connection without a user is disconnected and nothing else
     * happens.  Otherwise any existing entry triggers the duplicate-login
     * notice, the entry is replaced and the counter goes up by one.
     */
    method OnConnect(client: Client, now: int, isUuid: string -> bool)
      modifies this, client, server.clients.Values
      ensures server.clients == old(server.clients)
      ensures client.user == old(client.user) && client.groups == old(client.groups)
      ensures client.currentRoomId == old(client.currentRoomId)
      ensures forall c :: c in old(server.clients.Values) && c != client ==>
        c.user == old(c.user) && c.groups == old(c.groups) && c.currentRoomId == old(c.currentRoomId) && c.disconnected == old(c.disconnected)
      ensures client.user.None? ==>
        && client.disconnected
        && connectedUsers == old(connectedUsers) && connectedCount == old(connectedCount) && scheduled == old(scheduled)
        && client.sent == old(client.sent)
        && (forall c :: c in old(server.clients.Values) ==> c.sent == old(c.sent))
      ensures client.user.Some? ==>
        var u := client.user.value;
        var target := NotifiedClient(old(connectedUsers), u.id, server.clients, isUuid);
        && client.disconnected == old(client.disconnected)
        && connectedUsers == old(connectedUsers)[u.id := SocketUser(u.id, u.name, u.authSessionId, client.sessionId)]
        && connectedCount == old(connectedCount) + 1
        && scheduled == old(scheduled) + (if target.Some? then [ScheduledNotice(target.value, now + SESSION_END_DELAY_MS)] else [])
        && client.sent == old(client.sent) + (if target == Some(client) then [LoginNotice(client, now)] else [])
        && (forall c :: c in old(server.clients.Values) ==>
              c.sent == old(c.sent) + (if target == Some(c) then [LoginNotice(client, now)] else []))
    {
      if client.user.None? {
        client.disconnected := true;
        return;
      }
      var socketUser := client.user.value;
      var userId := socketUser.id;
      var socketId := client.sessionId;
      if userId in connectedUsers {
        NotifyDuplicateLogin(client, userId, now, isUuid);
      }
      connectedUsers := connectedUsers[userId := SocketUser(userId, socketUser.name, socketUser.authSessionId, socketId)];
      connectedCount := connectedCount + 1;
    }

    /** `notifyDuplicateLogin`: tell the user's registered local connection, and schedule its end. */
    method NotifyDuplicateLogin(client: Client, userId: string, now: int, isUuid: string -> bool)
      modifies this, server.clients.Values
      ensures connectedUsers == old(connectedUsers) && connectedCount == old(connectedCount)
      ensures var target := NotifiedClient(connectedUsers, userId, server.clients, isUuid);
              scheduled == old(scheduled) + (if target.Some? then [ScheduledNotice(target.value, now + SESSION_END_DELAY_MS)] else [])
      ensures var target := NotifiedClient(connectedUsers, userId, server.clients, isUuid);
              forall c :: c in old(server.clients.Values) ==>
                c.sent == old(c.sent) + (if target == Some(c) then [LoginNotice(client, now)] else [])
      ensures forall c :: c in old(server.clients.Values) ==>
        c.user == old(c.user) && c.groups == old(c.groups) && c.currentRoomId == old(c.currentRoomId) && c.disconnected == old(c.disconnected)
    {
      if userId !in connectedUsers {
        return;
      }
      var existingSocketId := connectedUsers[userId].socketId;
      if !isUuid(existingSocketId) {
        return;
      }
      if existingSocketId !in server.clients {
        return;
      }
      var existingClient := server.clients[existingSocketId];
      var deviceInfo := client.userAgent.GetOr(UNKNOWN);
      var ipAddress := client.remoteAddress.GetOr(UNKNOWN);
      existingClient.sent := existingClient.sent + [SentEvent(DuplicateLogin, NewLoginNotice(NEW_LOGIN_ATTEMPT, deviceInfo, ipAddress, now))];
      scheduled := scheduled + [ScheduledNotice(existingClient, now + SESSION_END_DELAY_MS)];
    }

    /**
     * `onDisconnect` at instant `now`: every room of the user is left (in
     * the returned order), even on a stale disconnect; the registry entry is
     * deleted and the counter decremented only when the entry still holds this
     * connection's socket id; the user and room-list groups and the user
     * attribute are released.  `newIds` and `outcomes` give each room's
     * system-message id and how sending it ends.
     */
    method OnDisconnect(client: Client, now: int, newIds: string -> string, outcomes: string -> SystemOutcome)
      returns (order: seq<string>)
      requires leave.userRooms == userRooms
      modifies this, client, userRooms, leave.cache, leave.store, leave.broadcaster
      ensures client.disconnected == old(client.disconnected) && client.currentRoomId == old(client.currentRoomId)
      ensures client.sent == old(client.sent)
      ensures scheduled == old(scheduled)
      ensures old(client.user).None? ==>
        && order == [] && client.user == None && client.groups == old(client.groups)
        && connectedUsers == old(connectedUsers) && connectedCount == old(connectedCount)
        && userRooms.rooms == old(userRooms.rooms) && leave.cache.roomUsers == old(leave.cache.roomUsers)
        && leave.store.messages == old(leave.store.messages) && leave.broadcaster.channel == old(leave.broadcaster.channel)
      ensures old(client.user).Some? ==>
        var user := old(client.user).value;
        var content := LeaveContent(user.name);
        var current := user.id in old(connectedUsers) && old(connectedUsers)[user.id].socketId == client.sessionId;
        && Distinct(order) && Elements(order) == RoomsOf(old(userRooms.rooms), user.id)
        && userRooms.rooms == (if order == [] then old(userRooms.rooms) else old(userRooms.rooms)[user.id := {}])
        && leave.cache.roomUsers == LeftRooms(old(leave.cache.roomUsers), order, user.id)
        && leave.store.messages == SavedLeaves(old(leave.store.messages), order, content, newIds, now, outcomes)
        && leave.broadcaster.channel == old(leave.broadcaster.channel) + LeavesPublished(order, user.id, content, now, outcomes)
        && connectedUsers == (if current then old(connectedUsers) - {user.id} else old(connectedUsers))
        && connectedCount == (if current then old(connectedCount) - 1 else old(connectedCount))
        && client.groups == old(client.groups) - Elements(order) - {UserGroup(user.id), ROOM_LIST_GROUP}
        && client.user == None
    {
      if client.user.None? {
        return [];
      }
      var user := client.user.value;
      var userId := user.id;
      order := CopyToList(userRooms.Get(userId));
      LeaveAll(client, user, order, now, newIds, outcomes);
      var socketId := client.sessionId;
      if userId in connectedUsers && connectedUsers[userId].socketId == socketId {
        connectedUsers := connectedUsers - {userId};
        connectedCount := connectedCount - 1;
      }
      client.groups := client.groups - {UserGroup(userId), ROOM_LIST_GROUP};
      client.user := None;
    }

    /** `onDisconnect`'s loop: leave every room of the snapshot `order` of the user's rooms, in turn. */
    method LeaveAll(client: Client, user: SocketUser, order: seq<string>, now: int,
                    newIds: string -> string, outcomes: string -> SystemOutcome)
      requires leave.userRooms == userRooms
      requires Distinct(order) && Elements(order) == RoomsOf(userRooms.rooms, user.id)
      requires client.user == Some(user)
      modifies client, userRooms, leave.cache, leave.store, leave.broadcaster
      ensures client.user == Some(user) && client.sent == old(client.sent)
      ensures client.disconnected == old(client.disconnected) && client.currentRoomId == old(client.currentRoomId)
      ensures userRooms.rooms == (if order == [] then old(userRooms.rooms) else old(userRooms.rooms)[user.id := {}])
      ensures leave.cache.roomUsers == LeftRooms(old(leave.cache.roomUsers), order, user.id)
      ensures leave.store.messages == SavedLeaves(old(leave.store.messages), order, LeaveContent(user.name), newIds, now, outcomes)
      ensures leave.broadcaster.channel == old(leave.broadcaster.channel) + LeavesPublished(order, user.id, LeaveContent(user.name), now, outcomes)
      ensures client.groups == old(client.groups) - Elements(order)
    {
      ghost var content := LeaveContent(user.name);
      ghost var rooms0 := userRooms.rooms;
      ghost var roomUsers0 := leave.cache.roomUsers;
      ghost var messages0 := leave.store.messages;
      ghost var channel0 := leave.broadcaster.channel;
      ghost var groups0 := client.groups;
      var i := 0;
      while i < |order|
        modifies client, userRooms, leave.cache, leave.store, leave.broadcaster
        invariant i <= |order|
        invariant client.user == Some(user) && client.sent == old(client.sent)
        invariant client.disconnected == old(client.disconnected) && client.currentRoomId == old(client.currentRoomId)
        invariant userRooms.rooms == RoomsLeft(rooms0, user.id, order, i)
        invariant leave.cache.roomUsers == LeftRooms(roomUsers0, order[..i], user.id)
        invariant leave.store.messages == SavedLeaves(messages0, order[..i], content, newIds, now, outcomes)
        invariant leave.broadcaster.channel == channel0 + LeavesPublished(order[..i], user.id, content, now, outcomes)
        invariant client.groups == groups0 - Elements(order[..i])
      {
        LeaveOne(client, user, order, i, now, newIds, outcomes, rooms0, roomUsers0, messages0, channel0, groups0);
        i := i + 1;
      }
      assert order[..i] == order;
      assert order != [] ==> RoomsOf(rooms0, user.id) - Elements(order) == {};
    }

    /** One turn of `onDisconnect`'s loop: leave the `i`-th room of the snapshot `order`. */
    method LeaveOne(client: Client, user: SocketUser, order: seq<string>, i: nat, now: int,
                    newIds: string -> string, outcomes: string -> SystemOutcome,
                    ghost rooms0: map<string, set<string>>, ghost roomUsers0: map<string, map<string, UserResponse>>,
                    ghost messages0: map<string, Message>, ghost channel0: seq<BroadcastEvent>, ghost groups0: set<string>)
      requires leave.userRooms == userRooms
      requires Distinct(order) && Elements(order) == RoomsOf(rooms0, user.id) && i < |order|
      requires client.user == Some(user)
      requires userRooms.rooms == RoomsLeft(rooms0, user.id, order, i)
      requires leave.cache.roomUsers == LeftRooms(roomUsers0, order[..i], user.id)
      requires leave.store.messages == SavedLeaves(messages0, order[..i], LeaveContent(user.name), newIds, now, outcomes)
      requires leave.broadcaster.channel == channel0 + LeavesPublished(order[..i], user.id, LeaveContent(user.name), now, outcomes)
      requires client.groups == groups0 - Elements(order[..i])
      modifies client, userRooms, leave.cache, leave.store, leave.broadcaster
      ensures client.user == Some(user) && client.sent == old(client.sent)
      ensures client.disconnected == old(client.disconnected) && client.currentRoomId == old(client.currentRoomId)
      ensures userRooms.rooms == RoomsLeft(rooms0, user.id, order, i + 1)
      ensures leave.cache.roomUsers == LeftRooms(roomUsers0, order[..i + 1], user.id)
      ensures leave.store.messages == SavedLeaves(messages0, order[..i + 1], LeaveContent(user.name), newIds, now, outcomes)
      ensures leave.broadcaster.channel == channel0 + LeavesPublished(order[..i + 1], user.id, LeaveContent(user.name), now, outcomes)
      ensures client.groups == groups0 - Elements(order[..i + 1])
    {
      var roomId := order[i];
      LeaveStep(order, i, rooms0, user.id);
      LeaveUnfold(order, i, user.id, roomUsers0, messages0, LeaveContent(user.name), newIds, now, outcomes);
      leave.HandleLeaveRoom(client, roomId, newIds(roomId), now, outcomes(roomId));
    }
  }

  /** The user-to-rooms map once the first `i` rooms of `order` are left. */
  function RoomsLeft(rooms0: map<string, set<string>>, userId: string, order: seq<string>, i: nat): map<string, set<string>>
    requires i <= |order|
  {
    if i == 0 then rooms0 else rooms0[userId := RoomsOf(rooms0, userId) - Elements(order[..i])]
  }

  lemma ElementsSnoc(order: seq<string>, i: nat)
    requires i < |order|
    ensures Elements(order[..i + 1]) == Elements(order[..i]) + {order[i]}
  {
    assert order[..i + 1] == order[..i] + [order[i]];
  }

  /** Leaving one more room of `order` extends each fold by that room's leave. */
  lemma LeaveUnfold(order: seq<string>, i: nat, userId: string, roomUsers0: map<string, map<string, UserResponse>>,
                    messages0: map<string, Message>, content: string, newIds: string -> string, now: int,
                    outcomes: string -> SystemOutcome)
    requires i < |order|
    ensures Elements(order[..i + 1]) == Elements(order[..i]) + {order[i]}
    ensures LeftRooms(roomUsers0, order[..i + 1], userId) == RemovedUser(LeftRooms(roomUsers0, order[..i], userId), order[i], userId)
    ensures var prior := SavedLeaves(messages0, order[..i], content, newIds, now, outcomes);
            SavedLeaves(messages0, order[..i + 1], content, newIds, now, outcomes)
              == if outcomes(order[i]) == SaveFails then prior
                 else prior[newIds(order[i]) := SystemMessage(newIds(order[i]), order[i], content, now)]
    ensures LeavesPublished(order[..i + 1], userId, content, now, outcomes)
              == LeavesPublished(order[..i], userId, content, now, outcomes) + LeaveEvents(order[i], userId, content, now, outcomes(order[i]))
  {
    ElementsSnoc(order, i);
    assert order[..i + 1][..i] == order[..i];
  }

  /** The `i`-th room of a distinct leave order is still joined when its turn comes, and afterwards no longer. */
  lemma LeaveStep(order: seq<string>, i: nat, rooms0: map<string, set<string>>, userId: string)
    requires Distinct(order) && Elements(order) == RoomsOf(rooms0, userId) && i < |order|
    ensures var rooms := RoomsLeft(rooms0, userId, order, i);
            && order[i] in RoomsOf(rooms, userId)
            && rooms[userId := RoomsOf(rooms, userId) - {order[i]}] == RoomsLeft(rooms0, userId, order, i + 1)
  {
    ElementsSnoc(order, i);
    assert order[i] in Elements(order);
    assert order[i] !in Elements(order[..i]) by {
      forall j | 0 <= j < i
        ensures order[..i][j] != order[i]
      {
        assert order[..i][j] == order[j];
      }
    }
    assert userId in rooms0;
    var s0 := RoomsOf(rooms0, userId);
    if i == 0 {
      assert Elements(order[..i]) == {};
      assert s0 - {order[i]} == s0 - Elements(order[..i + 1]);
    } else {
      assert (s0 - Elements(order[..i])) - {order[i]} == s0 - Elements(order[..i + 1]);
    }
  }
}
