/**
 * The participant methods of `RoomRepository` over the rooms collection,
 * abstracted to each room's participant-id set.
 */
module Rooms {

  /** `countParticipants` on a snapshot: the size of the room's set, or 0 for an absent room. */
  function CountOf(participants: map<string, set<string>>, roomId: string): (n: int)
    ensures roomId !in participants ==> n == 0
    ensures roomId in participants ==> n == |participants[roomId]|
    ensures n >= 0
  {
    if roomId in participants then |participants[roomId]| else 0
  }

  class RoomStore {
    /** Participant ids per existing room. */
    var participants: map<string, set<string>>

    constructor (participants: map<string, set<string>>)
      ensures this.participants == participants
    {
      this.participants := participants;
    }

    /** `countParticipants(roomId)`. */
    function CountParticipants(roomId: string): (n: int)
      reads this
      ensures n == CountOf(participants, roomId)
    {
      CountOf(participants, roomId)
    }

    /** `findById(roomId).isPresent()`. */
    predicate Exists(roomId: string)
      reads this
    {
      roomId in participants
    }

    /**
     * `addParticipant` (`$addToSet`): the user joins the room's set; an absent
     * room stays absent, since the update does not upsert.
     */
    method AddParticipant(roomId: string, userId: string)
      modifies this
      ensures roomId in old(participants) ==> participants == old(participants)[roomId := old(participants)[roomId] + {userId}]
      ensures roomId !in old(participants) ==> participants == old(participants)
      ensures forall r :: r != roomId && r in old(participants) ==> r in participants && participants[r] == old(participants)[r]
    {
      if roomId in participants {
        participants := participants[roomId := participants[roomId] + {userId}];
      }
    }

    /** `removeParticipant` (`$pull`): the user leaves the room's set; nothing else changes. */
    method RemoveParticipant(roomId: string, userId: string)
      modifies this
      ensures roomId in old(participants) ==> participants == old(participants)[roomId := old(participants)[roomId] - {userId}]
      ensures roomId !in old(participants) ==> participants == old(participants)
      ensures forall r :: r != roomId && r in old(participants) ==> r in participants && participants[r] == old(participants)[r]
    {
      if roomId in participants {
        participants := participants[roomId := participants[roomId] - {userId}];
      }
    }
  }

  /** Adding a participant who is already present leaves the store as it was. */
  lemma AddPresentIsNoOp(participants: map<string, set<string>>, roomId: string, userId: string)
    requires roomId in participants && userId in participants[roomId]
    ensures participants[roomId := participants[roomId] + {userId}] == participants
  {
    assert participants[roomId] + {userId} == participants[roomId];
  }

  /** Adding a participant raises the count by one exactly when the user was absent. */
  lemma AddCountsOnce(participants: map<string, set<string>>, roomId: string, userId: string)
    requires roomId in participants
    ensures CountOf(participants[roomId := participants[roomId] + {userId}], roomId)
      == CountOf(participants, roomId) + (if userId in participants[roomId] then 0 else 1)
  {
    if userId in participants[roomId] {
      assert participants[roomId] + {userId} == participants[roomId];
    }
  }
}
