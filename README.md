# ktb chatapp core, modelled in Dafny

The ktb chat application is a multi-node chat backend. Spring serves HTTP,
Socket.IO serves websockets, Redis carries data between nodes and Mongo
holds messages, rooms and sessions. A browser frontend handles file uploads. This
project models the backend's state-update rules and pure helpers, plus the
frontend's file-service validators.

- **Read receipts.** Acknowledgements are buffered per `roomId:userId`.
  A batch is flushed when it reaches 200 ids, or by the periodic sweep.
  A flush appends one reader record per message and lists the messages that
  have just reached `participants - 1` readers. It marks them all-read and
  announces them once with reader `ALL`. In a two-person room, the read
  handler also publishes a direct notice straight away.
- **Connections and handshakes.** The connected-user registry holds one entry
  per user. There is also a duplicate-login notice, and a cleanup on
  disconnect that is guarded by the socket id. The handshake runs a chain of
  checks behind a two-tier cache: a local map first, then a shared remote
  store that warms the local map on a hit.
- **Room presence.** On join, the joiner gets a full snapshot. A delta is
  broadcast only on the first join. A leave by a non-member does nothing.
- **Cross-node fan-out.** Every broadcast goes through one shared channel.
  Each node's subscriber delivers what it decodes to its local room group.
- **History paging.** Only a room participant gets history. The page is the
  newest `limit` messages before a cursor, returned oldest first, with a
  `hasMore` flag.
- **Counters and batches.** A fixed-window rate limiter uses INCR/EXPIRE.
  The last-activity batch flush copies the cache, clears it, then writes each
  entry.
- **Pure helpers.**
  - Token, session-id and client-IP extraction. The `Authorization: Bearer`
    form is section 2.1 of RFC 6750; the scheme is matched case-sensitively
    here.
  - The `verifyToken` decision and the `logout` session check.
  - S3 object keys, URLs and entities.
  - The banned-word check.
  - The frontend file validators and upload cancellation.

## How the model is built

- The Socket.IO client is a `Client` object. It holds the `user` attribute,
  `currentRoomId`, the groups it has joined, the events sent to it in order,
  and a disconnected flag.
- The Redis channel is a `seq` of published events.
- Mongo collections are maps:
  - messages by id;
  - participant sets by room id;
  - the history as a sequence for the paged query.
- The handshake cache is two maps: the local tier and the remote tier.
- Clocks, UUIDs, new ids, JWT decoding, session validation, JSON encoding and
  decoding, the S3 presigner and `formatFileSize` are all parameters.
- An external call whose failure the source catches is a `bool` parameter,
  and the model follows that flag into the catch block. Failures that the
  source does not catch are modelled only where a contract says so; the
  others are listed under "## Left out".
- A `NullPointerException` that the source does not catch is the outcome
  `NullPointer`.
- Code that changes state in place is a class with `modifies` clauses. Its
  methods are proved against specification functions, and the properties
  the source promises are proved about those functions as lemmas.

## Model

| member | source | states |
|---|---|---|
| ReadBatches.ReadBatch.constructor | apps/backend/src/main/java/com/ktb/chatapp/model/ReadBatch.java:17-20 | a new batch keeps its room and user and holds no ids |
| ReadBatches.ReadBatch.Add | apps/backend/src/main/java/com/ktb/chatapp/model/ReadBatch.java:22-24 | the id set becomes the union of the old set and the added ids; room and user are unchanged |
| ReadBatches.ReadBatch.Drain | apps/backend/src/main/java/com/ktb/chatapp/model/ReadBatch.java:34-38 | returns every pending id exactly once, and leaves the batch empty |
| ReadCommands.BufferKeyInjective | apps/backend/src/main/java/com/ktb/chatapp/service/command/MessageReadCommandService.java:68 | if room ids contain no ':', two buffer keys are equal only for the same room and user |
| ReadCommands.BufferKeyCollision | apps/backend/src/main/java/com/ktb/chatapp/service/command/MessageReadCommandService.java:68 | without that condition, two different (room, user) pairs share one buffer key |
| ReadCommands.MessageReadCommandService.constructor | apps/backend/src/main/java/com/ktb/chatapp/service/command/MessageReadCommandService.java:35-36 | the buffer starts empty, and the service uses the given store, rooms and channel |
| ReadCommands.MessageReadCommandService.ProcessAsync | apps/backend/src/main/java/com/ktb/chatapp/service/command/MessageReadCommandService.java:66-81 | the ids are merged into the key's batch, which is created if absent. Below 200 ids the batch stays buffered and nothing is persisted. At 200 or more the whole batch is removed, persisted and announced. The buffer invariant holds afterwards |
| ReadCommands.MessageReadCommandService.Merge | apps/backend/src/main/java/com/ktb/chatapp/service/command/MessageReadCommandService.java:68-75 | `computeIfAbsent` then `add`: the returned batch is the key's entry, holding the merged ids. It is the existing batch object when the key was present, and a fresh one otherwise; every other key keeps its batch object, and no other entry changes |
| ReadCommands.MessageReadCommandService.BatchFor | apps/backend/src/main/java/com/ktb/chatapp/service/command/MessageReadCommandService.java:70-73 | the buffer maps the key to the returned batch and is otherwise unchanged. A present key gives its own batch; an absent one gets a fresh, empty batch for the room and the user |
| ReadCommands.MessageReadCommandService.Flush | apps/backend/src/main/java/com/ktb/chatapp/service/command/MessageReadCommandService.java:88-126 | an empty batch, or a batch the buffer no longer maps that key to, changes nothing. Otherwise the entry is removed, and the store and channel take exactly that batch's flush |
| ReadCommands.MessageReadCommandService.Persist | apps/backend/src/main/java/com/ktb/chatapp/service/command/MessageReadCommandService.java:92-125 | one reader record goes to every stored message of the batch. The expected count is `countParticipants - 1`; the messages that reach it are marked all-read, and one `ALL` notice announces exactly them, or nothing is announced when there are none |
| ReadCommands.MessageReadCommandService.MarkAndAnnounce | apps/backend/src/main/java/com/ktb/chatapp/service/command/MessageReadCommandService.java:110-125 | a non-empty completed list is marked all-read and announced by exactly one `ALL` notice naming exactly those ids; an empty list changes nothing and publishes nothing |
| ReadCommands.MessageReadCommandService.FlushAll | apps/backend/src/main/java/com/ktb/chatapp/service/command/MessageReadCommandService.java:83-85 | flushes every buffered entry in iteration order. Afterwards only empty batches remain, and the store and channel equal the fold of those flushes |
| ReadCommands.AnnouncedAfterShape | apps/backend/src/main/java/com/ktb/chatapp/service/command/MessageReadCommandService.java:104-125 | a flush that completed nothing publishes nothing; one that completed some ids publishes a single notice for exactly those ids in its room |
| ReadCommands.NoticesDisjoint | apps/backend/src/main/java/com/ktb/chatapp/service/command/MessageReadCommandService.java:83-125 | over a sequence of flushes with disjoint completions, each notice names one flush's completions in that flush's room, and no message is announced twice |
| Messages.FindAllReadMessages | apps/backend/src/main/java/com/ktb/chatapp/repository/MessageRepositoryCustomImpl.java:20-34 | the result lists exactly those listed ids whose message is not all-read and has exactly `expectedReaders` reader records, each once |
| Messages.MarkedNeverFoundAgain | apps/backend/src/main/java/com/ktb/chatapp/repository/MessageRepositoryCustomImpl.java:20-46 | right after `markAllRead(ids)`, no query reports any of those ids again |
| Messages.MessageStore.UpdateReadStatus | apps/backend/src/main/java/com/ktb/chatapp/service/MessageReadStatusService.java:27-53 | a null or empty list, or a failing update, leaves the store as it was. Otherwise every listed stored message gains the record `(userId, now)` unless that exact record is already there, and no other message changes |
| Messages.MessageStore.MarkAllRead | apps/backend/src/main/java/com/ktb/chatapp/repository/MessageRepositoryCustomImpl.java:37-46 | sets the all-read flag on exactly the listed stored messages and changes nothing else |
| Messages.FlushKeepsAllRead | apps/backend/src/main/java/com/ktb/chatapp/service/command/MessageReadCommandService.java:92-113 | a flush keeps every stored message and never clears an all-read flag |
| Messages.ExactlyOnceCompletion | apps/backend/src/main/java/com/ktb/chatapp/service/command/MessageReadCommandService.java:92-113 | over any sequence of flushes, a message is reported complete at most once, only if it was not complete before, and it is complete afterwards |
| Messages.AckRecordsReader | apps/backend/src/main/java/com/ktb/chatapp/service/MessageReadStatusService.java:30-45 | unless the bulk update failed, every stored message of the batch carries the batch's reader record |
| Messages.AllReadStaysSet | apps/backend/src/main/java/com/ktb/chatapp/repository/MessageRepositoryCustomImpl.java:37-46 | an all-read flag, once set, stays set over any sequence of flushes |
| Messages.RepeatedReaderCompletes | apps/backend/src/main/java/com/ktb/chatapp/repository/MessageRepositoryCustomImpl.java:24-28 | completion counts reader records, not distinct readers: in a room of three, one user reading twice completes a message |
| Rooms.CountOf | apps/backend/src/main/java/com/ktb/chatapp/repository/RoomRepository.java:45-49 | the size of the room's participant set, or 0 for a missing room |
| Rooms.RoomStore.CountParticipants | apps/backend/src/main/java/com/ktb/chatapp/repository/RoomRepository.java:45-49 | the current store's count for the room, as `CountOf` gives it |
| Rooms.RoomStore.AddParticipant | apps/backend/src/main/java/com/ktb/chatapp/repository/RoomRepository.java:30-32 | the user joins an existing room's set, and a missing room stays missing. Other rooms are unchanged |
| Rooms.RoomStore.RemoveParticipant | apps/backend/src/main/java/com/ktb/chatapp/repository/RoomRepository.java:34-36 | the user leaves an existing room's set, and other rooms are unchanged |
| Rooms.AddPresentIsNoOp | apps/backend/src/main/java/com/ktb/chatapp/repository/RoomRepository.java:30-32 | adding a participant who is already present leaves the store as it was |
| Rooms.AddCountsOnce | apps/backend/src/main/java/com/ktb/chatapp/repository/RoomRepository.java:30-49 | in an existing room, adding raises the count by one exactly when the user was absent |
| ReadHandler.MessageReadHandler.HandleMarkAsRead | apps/backend/src/main/java/com/ktb/chatapp/websocket/socketio/handler/MessageReadHandler.java:53-85 | it throws exactly when the user attribute is missing or the id list is null. Load-test mode, a null request, an empty list or no current room submit nothing. Otherwise the aggregator processes `(room, user, ids)` once, and a direct notice from this user follows exactly when the room has two participants |
| ReadHandler.MessageReadHandler.Submit | apps/backend/src/main/java/com/ktb/chatapp/websocket/socketio/handler/MessageReadHandler.java:64-84 | the aggregator processes `(room, user, ids)` once; exactly when the room has two participants, a notice naming this user and the ids as sent follows |
| Connection.LeftRoomsRemovesUser | apps/backend/src/main/java/com/ktb/chatapp/websocket/socketio/handler/ConnectionLoginHandler.java:120-129 | after leaving every room of the order, the user is in none of their presence lists, and other rooms are as they were |
| Connection.LeavesPublishedDeltas | apps/backend/src/main/java/com/ktb/chatapp/websocket/socketio/handler/ConnectionLoginHandler.java:120-129 | every room left gets its `USER_LEFT` delta; between one and two events are published per room |
| Connection.ConnectionLoginHandler.OnConnect | apps/backend/src/main/java/com/ktb/chatapp/websocket/socketio/handler/ConnectionLoginHandler.java:78-108 | with no user the client is disconnected, and no registry entry, counter, schedule or sent event changes. Otherwise the connection the duplicate-login lookup names (if any) gets exactly one `DUPLICATE_LOGIN` appended to its events, and exactly one `SESSION_ENDED` is scheduled for it. Every other connection's events are unchanged. The entry becomes this connection's and the counter grows by one. The user attribute, groups and current room of the client, and every field of the other connections, stay as they were |
| Connection.ConnectionLoginHandler.NotifyDuplicateLogin | apps/backend/src/main/java/com/ktb/chatapp/websocket/socketio/handler/ConnectionLoginHandler.java:160-198 | when the registered socket id is a UUID of a local connection, that connection's events become its old events plus one `DUPLICATE_LOGIN` with the new device, address ("unknown" when absent) and instant, and one `SESSION_ENDED` is scheduled 10000 ms later. Every other connection's events, and every connection's other fields, are unchanged. Otherwise nothing is sent or scheduled |
| Connection.ConnectionLoginHandler.OnDisconnect | apps/backend/src/main/java/com/ktb/chatapp/websocket/socketio/handler/ConnectionLoginHandler.java:111-145 | with no user nothing changes. Otherwise every room of the user is left, even on a stale disconnect. The entry is deleted and the counter decremented only when the entry holds this socket id. The groups and the user attribute are released |
| AuthListener.Authenticate | apps/backend/src/main/java/com/ktb/chatapp/websocket/socketio/AuthTokenListenerImpl.java:62-83 | the credentials are returned exactly when the payload converts, has a token and a session id, the token yields a user id, and the session check passes |
| AuthListener.AuthenticateDeterminesIdentity | apps/backend/src/main/java/com/ktb/chatapp/websocket/socketio/AuthTokenListenerImpl.java:72-90 | a payload that passes proves the token's user id and the payload's session id |
| AuthListener.AuthTokenListener.GetAuthTokenResult | apps/backend/src/main/java/com/ktb/chatapp/websocket/socketio/AuthTokenListenerImpl.java:47-100 | a cache hit sets the user from the cached fields and succeeds without checks. Otherwise success exactly when the checks pass, which sets the user `(userId, null, sessionId, engineSessionId)` and caches `(userId, sessionId, null)`. A rejection changes neither |
| AuthListener.SecondHandshakeHitsCache | apps/backend/src/main/java/com/ktb/chatapp/websocket/socketio/AuthTokenListenerImpl.java:51-60 | after a validated handshake, the next one on the same transport session is answered from the local cache |
| HandshakeCache.RemoteKeyInjective | apps/backend/src/main/java/com/ktb/chatapp/service/session/HandshakeSessionCacheService.java:21 | distinct engine sessions never share a remote key |
| HandshakeCache.LocalHitIgnoresRemote | apps/backend/src/main/java/com/ktb/chatapp/service/session/HandshakeSessionCacheService.java:48-51 | a local entry gives the same answer whatever the remote tier holds or does, and the lookup leaves the local map as it was |
| HandshakeCache.WarmedAnswersLocally | apps/backend/src/main/java/com/ktb/chatapp/service/session/HandshakeSessionCacheService.java:55-63 | after a warm-up, the local tier alone gives the same answer again |
| HandshakeCache.RemoteServesOtherNodes | apps/backend/src/main/java/com/ktb/chatapp/service/session/HandshakeSessionCacheService.java:27-63 | a handshake cached on one node with a successful remote write is found by another node. This needs decoding to invert encoding and the read not to fail |
| HandshakeCache.HandshakeSessionCacheService.CacheByEngineSession | apps/backend/src/main/java/com/ktb/chatapp/service/session/HandshakeSessionCacheService.java:27-43 | the local write always happens; the remote key gets the encoded value with its 300-second TTL unless that write fails, which is swallowed |
| HandshakeCache.HandshakeSessionCacheService.GetByEngineSession | apps/backend/src/main/java/com/ktb/chatapp/service/session/HandshakeSessionCacheService.java:45-70 | the local entry if any. Otherwise the decoded remote value, which is copied into the local map; none on a miss, an undecodable value or a failed read. The remote tier is unchanged |
| HandshakeCache.HandshakeSessionCacheService.EvictByEngineSession | apps/backend/src/main/java/com/ktb/chatapp/service/session/HandshakeSessionCacheService.java:71-74 | the local entry is removed first; the remote key is deleted unless the delete throws, and the call throws exactly then |
| HandshakeCache.HandshakeSessionCacheService.CacheThenGet | apps/backend/src/main/java/com/ktb/chatapp/service/session/HandshakeSessionCacheService.java:27-51 | caching then getting the same session returns that handshake |
| HandshakeCache.HandshakeSessionCacheService.EvictThenGet | apps/backend/src/main/java/com/ktb/chatapp/service/session/HandshakeSessionCacheService.java:45-74 | after an eviction that did not throw, a get finds nothing, whether or not the remote read fails |
| SessionValidation.Valid | apps/backend/src/main/java/com/ktb/chatapp/service/SessionValidationResult.java:28-30 | valid, with error, message and session all null |
| SessionValidation.ValidWith | apps/backend/src/main/java/com/ktb/chatapp/service/SessionValidationResult.java:32-37 | valid, carrying exactly the given session, with no error or message |
| SessionValidation.Invalid | apps/backend/src/main/java/com/ktb/chatapp/service/SessionValidationResult.java:39-45 | not valid, carrying the given error and message and no session |
| SessionValidation.FactoriesSeparate | apps/backend/src/main/java/com/ktb/chatapp/service/SessionValidationResult.java:28-45 | no invalid result equals a valid one, each result determines its arguments, and `valid(null)` equals `valid()` |
| Presence.RemovedUser | apps/backend/src/main/java/com/ktb/chatapp/websocket/socketio/RoomUserCache.java:19-27 | a missing room changes nothing. Otherwise the user leaves that room's list, a list left empty disappears, and other rooms are unchanged |
| Presence.RemovedUserIdempotent | apps/backend/src/main/java/com/ktb/chatapp/websocket/socketio/RoomUserCache.java:19-27 | removing a user twice is removing them once |
| Presence.RemovedUserKeepsNonEmpty | apps/backend/src/main/java/com/ktb/chatapp/websocket/socketio/RoomUserCache.java:23-26 | if no list was empty before, none is empty after a removal |
| Presence.RoomUserCache.GetRoom | apps/backend/src/main/java/com/ktb/chatapp/websocket/socketio/RoomUserCache.java:15-17 | a present list is returned and nothing changes; an absent one is created empty and returned |
| Presence.RoomUserCache.RemoveUser | apps/backend/src/main/java/com/ktb/chatapp/websocket/socketio/RoomUserCache.java:19-27 | the lists become `RemovedUser` of the old lists |
| RoomJoin.Upserted | apps/backend/src/main/java/com/ktb/chatapp/websocket/socketio/handler/RoomJoinHandler.java:117-119 | the joiner sits under their user id in the room's list, which is created when absent. Other entries and other rooms are unchanged |
| RoomJoin.UpsertedIdempotent | apps/backend/src/main/java/com/ktb/chatapp/websocket/socketio/handler/RoomJoinHandler.java:117-119 | joining again with the same identity changes no presence list |
| RoomJoin.SnapshotHoldsJoiner | apps/backend/src/main/java/com/ktb/chatapp/websocket/socketio/handler/RoomJoinHandler.java:117-128 | the joiner is always in the snapshot they receive |
| RoomJoin.RoomJoinHandler.HandleJoinRoom | apps/backend/src/main/java/com/ktb/chatapp/websocket/socketio/handler/RoomJoinHandler.java:64-146 | no user: only `JOIN_ROOM_ERROR`. A null name is resolved and written back. A missing room: only `JOIN_ROOM_ERROR`. Otherwise a first join adds the participant and the user-room entry; the group and current room are set; the joiner is upserted and sent the full snapshot; `USER_JOINED` is published exactly on a first join |
| RoomJoin.RoomJoinHandler.Enter | apps/backend/src/main/java/com/ktb/chatapp/websocket/socketio/handler/RoomJoinHandler.java:99-140 | for an existing room: a first join adds the participant and the user-room entry, a repeat join adds neither; the group and current room are set; the joiner is upserted and sent the full snapshot; `USER_JOINED` is published exactly on a first join |
| RoomLeave.LeaveContent | apps/backend/src/main/java/com/ktb/chatapp/websocket/socketio/handler/RoomLeaveHandler.java:62 | the name, or "null" for a null name, followed by the leave suffix |
| RoomLeave.LeaveEvents | apps/backend/src/main/java/com/ktb/chatapp/websocket/socketio/handler/RoomLeaveHandler.java:62-97 | the system message's event when it was saved and published, then always the `USER_LEFT` delta last |
| RoomLeave.RoomLeaveHandler.HandleLeaveRoom | apps/backend/src/main/java/com/ktb/chatapp/websocket/socketio/handler/RoomLeaveHandler.java:39-76 | no user: only an `ERROR` event. A non-member: nothing changes. A member leaves the user rooms, the room-user cache and the group; the system message is saved unless its save throws; the events of `LeaveEvents` are published, so a failed save or publish drops only the system message's event |
| RoomLeave.RoomLeaveHandler.SendSystemMessage | apps/backend/src/main/java/com/ktb/chatapp/websocket/socketio/handler/RoomLeaveHandler.java:78-101 | a failed save changes nothing and publishes nothing. A failed publish leaves the message stored and publishes nothing. Otherwise the message is stored and its content and timestamp are published once |
| RoomLeave.SecondLeaveIsNoOp | apps/backend/src/main/java/com/ktb/chatapp/websocket/socketio/handler/RoomLeaveHandler.java:50-55 | after a leave, the room is no longer in the user's rooms, so a second leave takes the no-op branch |
| Broadcast.RedisBroadcastService.BroadcastToRoom | apps/backend/src/main/java/com/ktb/chatapp/websocket/socketio/broadcast/RedisBroadcastService.java:31-43 | exactly one event, built from the four arguments, is appended to the channel |
| Broadcast.RedisBroadcastService.BroadcastMessageToRoom | apps/backend/src/main/java/com/ktb/chatapp/websocket/socketio/broadcast/RedisBroadcastService.java:26-28 | the same as the four-argument form with the plain message type |
| Broadcast.DeliveryOf | apps/backend/src/main/java/com/ktb/chatapp/websocket/socketio/pubsub/RedisMessageSubscriber.java:70-86 | an undecodable message delivers nothing; a decoded one delivers its event name and payload to its room's group |
| Broadcast.FanOutPreservesEvent | apps/backend/src/main/java/com/ktb/chatapp/websocket/socketio/pubsub/RedisMessageSubscriber.java:72-81 | if decoding inverts encoding, whatever is published reaches the room group unchanged |
| Broadcast.RedisMessageSubscriber.OnMessage | apps/backend/src/main/java/com/ktb/chatapp/websocket/socketio/pubsub/RedisMessageSubscriber.java:70-86 | records `DeliveryOf` the message unless the send fails; never throws |
| MessageFetch.FetchEvents | apps/backend/src/main/java/com/ktb/chatapp/websocket/socketio/handler/MessageFetchHandler.java:57-69 | `MESSAGE_LOAD_START`, then `PREVIOUS_MESSAGES_LOADED` with the loader's result, in that order |
| MessageFetch.MessageFetchHandler.HandleFetchMessages | apps/backend/src/main/java/com/ktb/chatapp/websocket/socketio/handler/MessageFetchHandler.java:35-84 | a missing user or request throws before any send. A room lookup that throws sends `LOAD_ERROR` with its message, or the default text. A missing room or non-participant gets `LOAD_ERROR`. Otherwise the two `FetchEvents` are sent |
| Loader.Matching | apps/backend/src/main/java/com/ktb/chatapp/websocket/socketio/handler/MessageLoader.java:69-72 | exactly the history's messages in the room, not deleted and strictly before the cursor |
| Loader.SortNewestFirst | apps/backend/src/main/java/com/ktb/chatapp/websocket/socketio/handler/MessageLoader.java:66-67 | the same messages as a permutation, newest first |
| Loader.QueryPageIsNewest | apps/backend/src/main/java/com/ktb/chatapp/websocket/socketio/handler/MessageLoader.java:66-72 | the page holds `limit` matching messages, or all of them, newest first. No left-out match is newer than one on the page, and `hasNext` says exactly whether any was left out |
| Loader.ReverseOldestFirst | apps/backend/src/main/java/com/ktb/chatapp/websocket/socketio/handler/MessageLoader.java:74-75 | reversing a newest-first page gives the same messages oldest first |
| Loader.LoadMessages | apps/backend/src/main/java/com/ktb/chatapp/websocket/socketio/handler/MessageLoader.java:45-59 | a failure, or a page size below one, gives an empty list without more. Otherwise the result of `loadMessagesInternal` with the request's limit (30 by default) and cursor (now by default) |
| Loader.LoadMessagesPage | apps/backend/src/main/java/com/ktb/chatapp/websocket/socketio/handler/MessageLoader.java:45-99 | at most `limit` messages, all matching and oldest first, each with its known sender. The page holds no message more often than the matches do, so nothing is repeated. Every unreturned match is no newer than those returned, and `hasMore` says whether one exists |
| RateLimit.Incr | apps/backend/src/main/java/com/ktb/chatapp/service/RateLimitService.java:53 | a live key goes up by one, and a missing or expired key starts at 1; no other key changes |
| RateLimit.Counted | apps/backend/src/main/java/com/ktb/chatapp/service/RateLimitService.java:53-58 | the increment, with the expiry set to `now + window` exactly when the count is then 1 |
| RateLimit.WindowSeconds | apps/backend/src/main/java/com/ktb/chatapp/service/RateLimitService.java:46 | `max(window, 1)` |
| RateLimit.Verdict | apps/backend/src/main/java/com/ktb/chatapp/service/RateLimitService.java:61-85 | rejected exactly when `count > maxRequests`. The reset is the positive TTL or else the window, and the reset epoch is `now` plus the reset. The allowed remainder is `max(0, maxRequests - count)` |
| RateLimit.RateLimitService.Init | apps/backend/src/main/java/com/ktb/chatapp/service/RateLimitService.java:25-39 | a non-empty host name is kept. An empty one becomes the local host name, or "unknown-" plus eight UUID characters when that lookup fails |
| RateLimit.RateLimitService.CheckRateLimit | apps/backend/src/main/java/com/ktb/chatapp/service/RateLimitService.java:42-87 | the counter under `rate:<host>:<client>` takes one `Counted` step, and the result is the `Verdict` for the new count and TTL |
| RateLimit.RunWithinWindow | apps/backend/src/main/java/com/ktb/chatapp/service/RateLimitService.java:53-58 | the first check on a missing key opens a window: the k-th check within it reads k, and the key expires one window after the first |
| RateLimit.FixedWindow | apps/backend/src/main/java/com/ktb/chatapp/service/RateLimitService.java:53-85 | within one window the first `L` checks are allowed and the next is rejected. Once the window has passed, the counter restarts at 1 and the check is allowed |
| SessionBatch.WritesExactlyOnce | apps/backend/src/main/java/com/ktb/chatapp/service/session/SessionBatchUpdater.java:32-37 | each copied entry is written exactly once with its own value, and nothing else is written |
| SessionBatch.SessionBatchUpdater.FlushLastActivityBatch | apps/backend/src/main/java/com/ktb/chatapp/service/session/SessionBatchUpdater.java:22-38 | the cache is empty afterwards. The writes are one per entry of the old cache, with its value, in iteration order, up to the first write that throws. The call throws exactly when some write does, and the entries from that one on are written nowhere |
| SessionBatch.FirstFailure | apps/backend/src/main/java/com/ktb/chatapp/service/session/SessionBatchUpdater.java:31-37 | the position of the first session whose write throws: every earlier write succeeds, and the one there fails, or it is the end when none fails |
| SessionBatch.NoFailureWritesAll | apps/backend/src/main/java/com/ktb/chatapp/service/session/SessionBatchUpdater.java:32-37 | when no write throws, the first failure is the end of the order, so every copied entry is written |
| AuthControl.NonEmptyHeader | apps/backend/src/main/java/com/ktb/chatapp/controller/AuthController.java:453-456 | a header that is present and not empty |
| AuthControl.FirstCookieIsEarliest | apps/backend/src/main/java/com/ktb/chatapp/controller/AuthController.java:444-450 | the cookie scan finds a value exactly when some cookie has the name, and then it is the earliest such cookie's |
| AuthControl.ExtractToken | apps/backend/src/main/java/com/ktb/chatapp/controller/AuthController.java:441-465 | the `accessToken` cookie, even if empty; else a non-empty `x-auth-token` header; else what follows `Bearer ` in `Authorization`; else none |
| AuthControl.ExtractSessionId | apps/backend/src/main/java/com/ktb/chatapp/controller/AuthController.java:420-439 | the `sessionId` cookie; else a non-empty `x-session-id` header; else the `sessionId` parameter, which may be absent |
| AuthControl.FirstField | apps/backend/src/main/java/com/ktb/chatapp/controller/AuthController.java:409 | `split(",")[0]`: the text before the first comma, or none exactly when the text is all commas and the index throws |
| AuthControl.ClientIpAddress | apps/backend/src/main/java/com/ktb/chatapp/controller/AuthController.java:406-418 | the trimmed first field of a non-empty `X-Forwarded-For`; else a non-empty `X-Real-IP`; else the peer address; none when the forwarded header is all commas |
| AuthControl.CommaOnlyForwardedThrows | apps/backend/src/main/java/com/ktb/chatapp/controller/AuthController.java:408-409 | an `X-Forwarded-For` of "," makes the lookup throw |
| AuthControl.ForwardedFirstHop | apps/backend/src/main/java/com/ktb/chatapp/controller/AuthController.java:408-409 | a forwarded chain yields its first hop, trimmed, whatever follows the first comma |
| AuthControl.VerifyToken | apps/backend/src/main/java/com/ktb/chatapp/controller/AuthController.java:307-346 | 400 exactly when the token or session id is missing. 200, carrying only the user id, exactly when the token is valid, yields a user id and the session check passes. 401 otherwise, with `INVALID_TOKEN` for a token that fails validation, `VERIFY_FAILED` when the user id or the session check throws, and `EXPIRED_SESSION` for an invalid session; every non-200 carries no user |
| AuthControl.EmptySessionCookieCounts | apps/backend/src/main/java/com/ktb/chatapp/controller/AuthController.java:420-428 | an empty `sessionId` cookie wins over the header and passes the presence check |
| AuthControl.AuthController.Logout | apps/backend/src/main/java/com/ktb/chatapp/controller/AuthController.java:252-289 | 400 with no removal when the session id is missing or empty. Otherwise, when the authentication carries a user id, that session is removed and a logout session-ended event is published; a removal that throws gives 500 and no event. Without an authentication or a user id, the call gives 200 and removes nothing |
| S3Files.GetExtension | apps/backend/src/main/java/com/ktb/chatapp/service/S3FileService.java:83-88 | "" for a null name or one with no '.'; otherwise the name's suffix from its last '.', case kept |
| S3Files.KeyKeepsExtension | apps/backend/src/main/java/com/ktb/chatapp/service/S3FileService.java:40-42 | if the file id has no '.', the object key has the same extension as the original name |
| S3Files.S3FileService.GeneratePresignedUrl | apps/backend/src/main/java/com/ktb/chatapp/service/S3FileService.java:39-81 | the key is `prefix/fileId` plus the extension. The saved entity has the key as filename and path and the uploader as user. The URL is presigned for 10 minutes, the access URL is the CDN base plus `/key`, and `expiresIn` is 600 |
| BannedWords.BannedWordChecker.constructor | apps/backend/src/main/java/com/ktb/chatapp/util/BannedWordChecker.java:19-27 | the dictionary's keys are exactly the lower-cased non-null, non-blank words, each mapped to a word of the set that lowercases to it |
| BannedWords.UnicodeBlankWordSkipped | apps/backend/src/main/java/com/ktb/chatapp/util/BannedWordChecker.java:20-24 | a banned word made of ideographic spaces is blank and enters no key, while a word that is a no-break space is kept, as `isBlank` decides |
| BannedWords.NewBannedWordChecker | apps/backend/src/main/java/com/ktb/chatapp/util/BannedWordChecker.java:14-28 | a null or empty word set is rejected; otherwise a checker over that set is built |
| BannedWords.FlaggedIffContainsWord | apps/backend/src/main/java/com/ktb/chatapp/util/BannedWordChecker.java:30-38 | a message is flagged exactly when it is not null or blank (blank as Java's `Character.isWhitespace` has it, Unicode separators included) and its lower-cased form contains the lower-cased form of some non-blank banned word |
| BannedWords.CaseInsensitive | apps/backend/src/main/java/com/ktb/chatapp/util/BannedWordChecker.java:30-38 | a message and its lower-cased form are flagged alike |
| FileClient.GetFileExtension | apps/frontend/services/fileService.js:240-244 | "" exactly for a missing name or one without '.' |
| FileClient.ExtensionIsLoweredSuffix | apps/frontend/services/fileService.js:240-244 | the lower-cased form of the name's suffix from its last '.'; it starts with '.' and has no other '.' |
| FileClient.FirstByMime | apps/frontend/services/fileService.js:47-54 | the first allowed type listing the MIME type, or none exactly when no type lists it |
| FileClient.ValidateFile | apps/frontend/services/fileService.js:29-76 | the loop's result is the `Validation` decision with its error messages |
| FileClient.ValidationAcceptsExactly | apps/frontend/services/fileService.js:8-76 | success exactly for a present file of at most 50 MB that is an image MIME of at most 10 MB with an image extension, or a PDF of at most 20 MB with extension ".pdf"; a message is given exactly on failure |
| FileClient.AcceptedTypeAgrees | apps/frontend/services/fileService.js:229-238 | for an accepted file, `getFileType`'s extension match picks the same type as validation's MIME match |
| FileClient.GetFileType | apps/frontend/services/fileService.js:229-238 | "unknown" for a missing or empty name; else the key of the first type listing the extension, or "unknown" |
| FileClient.RetryableExactly | apps/frontend/services/fileService.js:424-431 | retryable exactly with no response, or a status of 408, 429, 500, 502, 503 or 504 |
| FileClient.FileService.TrackUpload | apps/frontend/services/fileService.js:104-105 | the upload's cancel source is registered under its file name |
| FileClient.FileService.CancelUpload | apps/frontend/services/fileService.js:370-384 | success exactly when the name is registered: its source is cancelled and the entry removed. Otherwise the map is unchanged and the not-found message is returned |
| FileClient.FileService.CancelAllUploads | apps/frontend/services/fileService.js:386-399 | every registered source is cancelled once with "All uploads canceled". The map is left empty, and the message reports the prior count |

## Left out

- Collaborators whose implementation is not part of this model are abstract
  maps or parameters:
  - `UserRooms` is a map from user to rooms;
  - `RoomCacheService` reads the room store;
  - `UserCacheService` is a map of known users;
  - `SessionService` and `JwtService` are validation functions;
  - the connected-users counter is an integer.
- `ConnectedUsers` is a map, and the `RateLimitCheckResult` class is a
  datatype built by its two factories.
- `FetchMessagesRequest` defaults are modelled by `limit(d)`/`before(d)`
  alone. `MessageResponseMapper.mapToMessageResponse` is a pair: the message
  with its sender.
- Concurrency: the scheduler, `@Async`, and races between worker threads
  are not modelled. `flushAll` is run alone, and the delayed `SESSION_ENDED`
  is recorded as a scheduled entry instead of being run.
- Presence.RoomUserCache.GetRoom: returns a copy of the room's list. Later
  changes to the live map that Java hands out are not visible through it.
- Logging, the Micrometer gauge, the unused semaphore, and the unused
  Caffeine cache.
- JSON encoding and decoding are abstract functions, and decoding is
  partial. Jackson's actual format is not modelled.
- Header names are matched exactly. Servlet headers are case-insensitive.
- Redis expiry is an instant compared with the clock. Eviction timing and
  the handshake's 300-second TTL are recorded, not simulated.
- Counters are unbounded integers. The `long` count's overflow and the
  `(int)` cast of `remaining` are not modelled.
- BannedWords.BannedWordChecker.constructor:
  - the Aho-Corasick trie is replaced by its specification, substring search
    over the dictionary keys;
  - which original word a lower-case key keeps when several words collide is
    left unspecified;
  - the trie's construction, which the source runs even when the filtered
    dictionary is empty, is not modelled.
- ReadCommands.MessageReadCommandService.Persist: only the caught failure
  of the bulk reader update is modelled. `countParticipants`,
  `findAllReadMessages`, `markAllRead` and the Redis publish can also throw,
  each after the batch has left the buffer. The model always completes the
  flush, so it does not capture that such a throw loses the batch, and its
  read notice, with nothing logged.
- ReadCommands.MessageReadCommandService.Flush: has the same gap. A flush
  that throws after the buffer removal is not modelled, nor is
  `processAsync`'s size-triggered flush throwing.
- ReadCommands.MessageReadCommandService.FlushAll: the sweep always visits
  every key. In the source, a throw from one flush leaves the `forEach`, so
  the later keys of that sweep are skipped. `scheduleAtFixedRate` also
  cancels a task that throws, so no later sweep runs, and batches below 200
  ids are from then on never flushed.
- RoomJoin.RoomJoinHandler.HandleJoinRoom: collaborators never throw in the
  model. The catch-all that sends `JOIN_ROOM_ERROR` "채팅방 입장 실패" after
  a collaborator throws, possibly after part of the join, is not modelled.
- RoomLeave.RoomLeaveHandler.HandleLeaveRoom: the catch-all `ERROR`
  "채팅방 퇴장 중 오류" after a collaborator throws is not modelled. Only the
  swallowed failures of the system message's save and publish are.
- Connection.ConnectionLoginHandler.OnDisconnect: the catch-all `ERROR`
  "연결 종료 처리 중 오류가 발생했습니다." after a collaborator throws,
  possibly after some rooms were left, is not modelled.
- AuthControl.AuthController.Logout: `SecurityContextHolder.clearContext()`
  is not represented. An authentication whose details map is null throws a
  `NullPointerException` inside the try; the source then answers with the
  generic 500 and removes nothing. The model's authentication always carries
  details, so it has no such case. Publishing the session-ended event also
  runs inside the try, so a listener that throws would give the same 500
  after the session was removed; the model's publish never throws.
- Text.Lower maps ASCII letters only. Java's `toLowerCase(Locale.ROOT)`
  and JavaScript's `toLowerCase` also fold other scripts.
- FileClient.FileService.CancelAllUploads: the JavaScript `Map`'s insertion
  order is not kept. The cancellation order is some order of the keys, and
  it is returned.
- fileService.js network and UI code is not part of this model: `uploadFile`,
  `downloadFile`, toasts, the URL builders and `getErrorMessage`.
- `formatFileSize` uses floating point, so it is a parameter of
  FileClient.ValidateFile.
- `generatePresignedUrl` takes the S3 presigner, the file id and the upload
  date as parameters.
- The register, login and refresh endpoints of `AuthController` are not
  modelled, nor is `FileController`.
- Loader.SortNewestFirst: the store does not promise an order among messages
  that share a timestamp, and neither does the model.

## Behaviour notes

Behaviours of the code a reader may not expect:

- A submission that takes a batch to 200 ids or more flushes the whole batch,
  including the ids past the 200th. Nothing is held back for a later flush.
- The handshake cache's remote key prefix is `ws:handshake:engine:`.
- The host-name placeholder `${HOSTNAME:''}` defaults to the two-character
  text `''`, which is not empty. So `init` never generates a name when
  `HOSTNAME` is unset.
- A flush for a room that no longer exists asks for messages with
  `0 - 1 = -1` readers (`$size: -1`). The model's store matches nothing for
  a negative count, so that flush completes nothing. A real server may
  instead refuse the query, and that throw is one of the uncaught failures
  listed under `Persist` above.
- Buffer keys are `roomId + ":" + userId`. They are ambiguous if a room id
  contains ':' (`BufferKeyCollision`). Mongo ids contain none, so the model
  keeps the code's key.
- Completion counts reader records: a user who acknowledges twice at
  different instants is counted twice (`RepeatedReaderCompletes`).
- Join writes presence into the join handler's own `roomUsers`. Leave removes
  the user from `RoomUserCache` only. So a user who left still appears in
  later join snapshots, and leave never removes the stored participant.
- On a stale disconnect, every room is still left before the socket-id check.
  The duplicate-login notice fires for any registered entry, without
  comparing socket ids.
- `flushLastActivityBatch` clears the cache before writing. So a write that
  throws loses its own entry and every later one; nothing puts them back.
- `handleFetchMessages` gets the user id without a null check. So a missing
  user attribute throws before the `UNAUTHORIZED` check. Only a user whose
  id is null would reach that branch, and the model's user ids are never
  null.
- An `X-Forwarded-For` made only of commas makes `split(",")[0]` throw in
  `getClientIpAddress` (`CommaOnlyForwardedThrows`).
