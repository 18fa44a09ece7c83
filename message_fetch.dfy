/**
 * `MessageFetchHandler.handleFetchMessages`: only a participant of an
 * existing room gets history; it is sent a load-start event and then the
 * loader's page.  The room lookup stands for the room cache, read from the
 * room store.
 */
module MessageFetch {
  import opened Wrappers
  import opened Domain
  import opened Transport
  import opened Rooms
  import opened Loader

  const LOAD_ERROR: string := "LOAD_ERROR"
  const ACCESS_DENIED: string := "채팅방 접근 권한이 없습니다."
  const LOAD_FAILED: string := "이전 메시지를 불러오는 중 오류가 발생했습니다."

  /** The requester may read the room: it exists and lists them as a participant. */
  predicate MayRead(participants: map<string, set<string>>, roomId: string, userId: string) {
    roomId in participants && userId in participants[roomId]
  }

  /** The events an authorised fetch sends, in order. */
  function FetchEvents(response: FetchMessagesResponse): (r: seq<SentEvent>)
    ensures |r| == 2 && r[0] == SentEvent(MessageLoadStart, NoPayload)
    ensures r[1] == SentEvent(PreviousMessagesLoaded, MessagesLoaded(response))
  {
    [SentEvent(MessageLoadStart, NoPayload), SentEvent(PreviousMessagesLoaded, MessagesLoaded(response))]
  }

  class MessageFetchHandler {
    const rooms: RoomStore

    constructor (rooms: RoomStore)
      ensures this.rooms == rooms
    {
      this.rooms := rooms;
    }

    /**
     * `handleFetchMessages` at instant `now` over the stored `history` and
     * `users`.  `loadFails` says whether the loader's store calls throw (the
     * loader catches that itself); `lookupError` is the message of an
     * exception thrown by the room lookup, when one is (the message itself
     * may be null).
     */
    method HandleFetchMessages(client: Client, data: Option<FetchMessagesRequest>, history: seq<Message>,
                               users: map<string, User>, now: int, loadFails: bool, lookupError: Option<Option<string>>)
      returns (outcome: Outcome)
      modifies client
      ensures client.user == old(client.user) && client.groups == old(client.groups)
      ensures client.currentRoomId == old(client.currentRoomId) && client.disconnected == old(client.disconnected)
      // The user id and the room id are read before any check.
      ensures outcome == NullPointer <==> client.user.None? || data.None?
      ensures outcome == NullPointer ==> client.sent == old(client.sent)
      ensures outcome == Done ==>
        var roomId, userId := data.value.roomId, client.user.value.id;
        && (lookupError.Some? ==>
              client.sent == old(client.sent) + [SentEvent(Error, CodedErrorNotice(LOAD_ERROR, lookupError.value.GetOr(LOAD_FAILED)))])
        && (lookupError.None? && !MayRead(rooms.participants, roomId, userId) ==>
              client.sent == old(client.sent) + [SentEvent(Error, CodedErrorNotice(LOAD_ERROR, ACCESS_DENIED))])
        && (lookupError.None? && MayRead(rooms.participants, roomId, userId) ==>
              client.sent == old(client.sent) + FetchEvents(LoadMessages(data.value, history, users, now, loadFails)))
    {
      if client.user.None? {
        return NullPointer;
      }
      var userId := client.user.value.id;
      if data.None? {
        return NullPointer;
      }
      var roomId := data.value.roomId;
      if lookupError.Some? {
        client.sent := client.sent + [SentEvent(Error, CodedErrorNotice(LOAD_ERROR, lookupError.value.GetOr(LOAD_FAILED)))];
        return Done;
      }
      if roomId !in rooms.participants || userId !in rooms.participants[roomId] {
        client.sent := client.sent + [SentEvent(Error, CodedErrorNotice(LOAD_ERROR, ACCESS_DENIED))];
        return Done;
      }
      client.sent := client.sent + [SentEvent(MessageLoadStart, NoPayload)];
      var result := LoadMessages(data.value, history, users, now, loadFails);
      client.sent := client.sent + [SentEvent(PreviousMessagesLoaded, MessagesLoaded(result))];
      return Done;
    }
  }
}
