/**
 * Room presence kept in memory on a node: which rooms each user has joined
 * (`UserRooms`), and the per-room user lists of `RoomUserCache`.
 */
module Presence {
  import opened Domain

  /** The rooms of `userId` in a user-to-rooms map; none when absent. */
  function RoomsOf(rooms: map<string, set<string>>, userId: string): set<string> {
    if userId in rooms then rooms[userId] else {}
  }

  /**
   * `UserRooms`, whose implementation is not part of this model: a map from
   * user id to the set of rooms joined.  `Get` hands out a copy.
   */
  class UserRooms {
    var rooms: map<string, set<string>>

    constructor ()
      ensures rooms == map[]
    {
      rooms := map[];
    }

    predicate IsInRoom(userId: string, roomId: string)
      reads this
    {
      roomId in RoomsOf(rooms, userId)
    }

    function Get(userId: string): set<string>
      reads this
    {
      RoomsOf(rooms, userId)
    }

    method Add(userId: string, roomId: string)
      modifies this
      ensures rooms == old(rooms)[userId := RoomsOf(old(rooms), userId) + {roomId}]
    {
      rooms := rooms[userId := RoomsOf(rooms, userId) + {roomId}];
    }

    method Remove(userId: string, roomId: string)
      modifies this
      ensures rooms == old(rooms)[userId := RoomsOf(old(rooms), userId) - {roomId}]
    {
      rooms := rooms[userId := RoomsOf(rooms, userId) - {roomId}];
    }
  }

  /**
   * The presence lists after `removeUser(roomId, userId)`: the user leaves
   * that room's list, a list left empty disappears, and no other room changes.
   */
  function RemovedUser(roomUsers: map<string, map<string, UserResponse>>, roomId: string, userId: string)
    : (r: map<string, map<string, UserResponse>>)
    ensures roomId !in roomUsers ==> r == roomUsers
    ensures forall other :: other != roomId ==> (other in r <==> other in roomUsers)
    ensures forall other :: other != roomId && other in r ==> r[other] == roomUsers[other]
    ensures roomId in r <==> roomId in roomUsers && roomUsers[roomId].Keys != {userId} && roomUsers[roomId] != map[]
    ensures roomId in r ==> r[roomId] == roomUsers[roomId] - {userId} && userId !in r[roomId]
  {
    if roomId !in roomUsers then roomUsers
    else
      var room := roomUsers[roomId] - {userId};
      assert forall u :: u in roomUsers[roomId] && u != userId ==> u in room;
      if room == map[] then
        roomUsers - {roomId}
      else
        assert exists u :: u in room && u != userId;
        roomUsers[roomId := room]
  }

  /** Removing a user twice is removing it once. */
  lemma RemovedUserIdempotent(roomUsers: map<string, map<string, UserResponse>>, roomId: string, userId: string)
    ensures RemovedUser(RemovedUser(roomUsers, roomId, userId), roomId, userId) == RemovedUser(roomUsers, roomId, userId)
  {
    var once := RemovedUser(roomUsers, roomId, userId);
    if roomId in once {
      assert once[roomId] - {userId} == once[roomId];
    }
  }

  /** Removal never leaves an empty room list behind. */
  lemma RemovedUserKeepsNonEmpty(roomUsers: map<string, map<string, UserResponse>>, roomId: string, userId: string)
    requires forall r :: r in roomUsers ==> roomUsers[r] != map[]
    ensures var after := RemovedUser(roomUsers, roomId, userId);
            forall r :: r in after ==> after[r] != map[]
  {
  }

  /** `RoomUserCache`: room id to (user id to `UserResponse`). */
  class RoomUserCache {
    var roomUsers: map<string, map<string, UserResponse>>

    constructor ()
      ensures roomUsers == map[]
    {
      roomUsers := map[];
    }

    /**
     * `getRoom`: the room's list, created empty when absent; a present list
     * is returned as is and nothing changes.
     */
    method GetRoom(roomId: string) returns (room: map<string, UserResponse>)
      modifies this
      ensures roomId in old(roomUsers) ==> roomUsers == old(roomUsers) && room == old(roomUsers)[roomId]
      ensures roomId !in old(roomUsers) ==> roomUsers == old(roomUsers)[roomId := map[]] && room == map[]
      ensures roomId in roomUsers && room == roomUsers[roomId]
    {
      if roomId !in roomUsers {
        roomUsers := roomUsers[roomId := map[]];
      }
      room := roomUsers[roomId];
    }

    /** `removeUser`. */
    method RemoveUser(roomId: string, userId: string)
      modifies this
      ensures roomUsers == RemovedUser(old(roomUsers), roomId, userId)
    {
      if roomId !in roomUsers {
        return;
      }
      var room := roomUsers[roomId] - {userId};
      if room == map[] {
        roomUsers := roomUsers - {roomId};
      } else {
        roomUsers := roomUsers[roomId := room];
      }
    }
  }
}
