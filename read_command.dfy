/**
 * `MessageReadCommandService`: read acknowledgements are buffered per
 * `roomId:userId`, flushed when a batch reaches `MAX_BATCH_SIZE` or by the
 * periodic sweep, and each flush persists the reader records, fixes the
 * messages that have become read by everyone and announces them once with
 * reader "ALL".
 */
module ReadCommands {
  import opened Wrappers
  import opened Domain
  import opened Lists
  import opened ReadBatches
  import opened Messages
  import opened Rooms
  import opened Broadcast

  const MAX_BATCH_SIZE: nat := 200
  /** The reader named in a flush's announcement. */
  const ALL_READERS: string := "ALL"

  /** The buffer key of a user's batch in a room. */
  function BufferKey(roomId: string, userId: string): string {
    roomId + ":" + userId
  }

  /** Keys are unambiguous as long as room ids contain no ':'. */
  lemma BufferKeyInjective(r1: string, u1: string, r2: string, u2: string)
    requires ':' !in r1 && ':' !in r2
    requires BufferKey(r1, u1) == BufferKey(r2, u2)
    ensures r1 == r2 && u1 == u2
  {
    var k := BufferKey(r1, u1);
    KeyLayout(r1, u1);
    KeyLayout(r2, u2);
    if |r1| < |r2| {
      assert false;
    } else if |r2| < |r1| {
      assert false;
    }
    assert r1 == k[..|r1|] == r2;
    assert u1 == k[|r1| + 1..] == u2;
  }

  /** A key is the room id, then ':' at position `|roomId|`. */
  lemma KeyLayout(roomId: string, userId: string)
    ensures |BufferKey(roomId, userId)| == |roomId| + 1 + |userId|
    ensures BufferKey(roomId, userId)[|roomId|] == ':'
    ensures forall i :: 0 <= i < |roomId| ==> BufferKey(roomId, userId)[i] == roomId[i]
  {
  }

  /** Without that condition two different users' batches share a key. */
  lemma BufferKeyCollision()
    ensures BufferKey("a:b", "c") == BufferKey("a", "b:c")
  {
  }

  /** What a buffered batch holds. */
  datatype PendingBatch = PendingBatch(roomId: string, userId: string, ids: set<string>)

  /**
   * The batch for `roomId:userId` after merging `ids`: the existing entry's
   * batch (whatever room and user it was created for) or a new one.
   */
  function Merged(pending: map<string, PendingBatch>, roomId: string, userId: string, ids: seq<string>): PendingBatch {
    var key := BufferKey(roomId, userId);
    if key in pending then pending[key].(ids := pending[key].ids + Elements(ids))
    else PendingBatch(roomId, userId, Elements(ids))
  }

  /** The flush of a batch at instant `now`: `countParticipants(roomId) - 1` readers are expected. */
  function StepOf(p: PendingBatch, participants: map<string, set<string>>, now: int, storeFails: bool): FlushStep {
    FlushStep(p.roomId, p.ids, MessageReader(p.userId, now), CountOf(participants, p.roomId) - 1, storeFails)
  }

  /** A `MESSAGES_READ` event for the room with reader "ALL" and exactly the ids `ids`, each once. */
  predicate IsReadNotice(e: BroadcastEvent, roomId: string, ids: set<string>) {
    && e.eventType == TYPE_MESSAGES_READ
    && e.roomId == roomId
    && e.socketEvent == MessagesRead
    && e.payload.ReadAck?
    && e.payload.reader == ALL_READERS
    && Elements(e.payload.messageIds) == ids
    && Distinct(e.payload.messageIds)
  }

  /** The room and message ids of a read-by-everyone announcement. */
  datatype Notice = Notice(roomId: string, ids: set<string>)

  /** The ids an event announces as read by everyone. */
  function NoticeIds(e: BroadcastEvent): set<string> {
    if e.payload.ReadAck? then Elements(e.payload.messageIds) else {}
  }

  /** What a channel event announces: a notice for a read-by-everyone event, nothing for any other. */
  function NoticeOf(e: BroadcastEvent): (r: Option<Notice>)
    ensures r.Some? <==> IsReadNotice(e, e.roomId, NoticeIds(e))
    ensures r.Some? ==> r.value == Notice(e.roomId, NoticeIds(e))
  {
    if IsReadNotice(e, e.roomId, NoticeIds(e)) then Some(Notice(e.roomId, NoticeIds(e))) else None
  }

  /** `NoticeOf` of each event, in order. */
  function NoticesIn(events: seq<BroadcastEvent>): (r: seq<Option<Notice>>)
    ensures |r| == |events|
    ensures forall i :: 0 <= i < |events| ==> r[i] == NoticeOf(events[i])
  {
    seq(|events|, i requires 0 <= i < |events| => NoticeOf(events[i]))
  }

  /** The announcement a flush in `roomId` that completed `ids` publishes: none if it completed nothing. */
  function NoticeFor(roomId: string, ids: set<string>): seq<Option<Notice>> {
    if ids == {} then [] else [Some(Notice(roomId, ids))]
  }

  /** The announcements the flushes `steps`, whose completions are `completions`, publish in order. */
  function NoticesDue(steps: seq<FlushStep>, completions: seq<set<string>>): seq<Option<Notice>>
    requires |steps| == |completions|
  {
    if steps == [] then []
    else NoticesDue(steps[..|steps| - 1], completions[..|completions| - 1])
         + NoticeFor(steps[|steps| - 1].roomId, completions[|completions| - 1])
  }

  /** `after` is `before` followed by events that announce exactly `due`, in order. */
  predicate Announced(before: seq<BroadcastEvent>, after: seq<BroadcastEvent>, due: seq<Option<Notice>>) {
    && |before| <= |after|
    && after[..|before|] == before
    && NoticesIn(after[|before|..]) == due
  }

  /** `after` is `before` plus the announcement of a flush in `roomId` that completed `ids`. */
  predicate AnnouncedAfter(before: seq<BroadcastEvent>, after: seq<BroadcastEvent>, roomId: string, ids: set<string>) {
    Announced(before, after, NoticeFor(roomId, ids))
  }

  /** Publishing one read-by-everyone event for a distinct, non-empty id list announces exactly those ids. */
  lemma AnnounceRead(before: seq<BroadcastEvent>, roomId: string, ids: seq<string>)
    requires ids != [] && Distinct(ids)
    ensures AnnouncedAfter(before, before + [BroadcastEvent(TYPE_MESSAGES_READ, roomId, MessagesRead, ReadAck(ALL_READERS, ids))],
                           roomId, Elements(ids))
  {
    var e := BroadcastEvent(TYPE_MESSAGES_READ, roomId, MessagesRead, ReadAck(ALL_READERS, ids));
    var after := before + [e];
    assert ids[0] in Elements(ids);
    assert after[..|before|] == before;
    assert after[|before|..] == [e];
    assert IsReadNotice(e, roomId, NoticeIds(e));
  }

  /** Publishing nothing announces nothing. */
  lemma AnnounceNothing(before: seq<BroadcastEvent>, roomId: string)
    ensures AnnouncedAfter(before, before, roomId, {})
  {
    assert before[|before|..] == [];
  }

  /** `after` is `before` plus the announcements of the flushes `steps`, whose completions are `completions`. */
  predicate AnnouncedAll(before: seq<BroadcastEvent>, after: seq<BroadcastEvent>, steps: seq<FlushStep>, completions: seq<set<string>>) {
    |steps| == |completions| && Announced(before, after, NoticesDue(steps, completions))
  }

  /** A flush that completed nothing publishes nothing; one that completed `ids` publishes exactly one read notice. */
  lemma AnnouncedAfterShape(before: seq<BroadcastEvent>, after: seq<BroadcastEvent>, roomId: string, ids: set<string>)
    requires AnnouncedAfter(before, after, roomId, ids)
    ensures ids == {} ==> after == before
    ensures ids != {} ==> |after| == |before| + 1 && after[..|before|] == before && IsReadNotice(after[|before|], roomId, ids)
  {
    assert after == before + after[|before|..];
    if ids != {} {
      assert NoticesIn(after[|before|..])[0] == NoticeOf(after[|before|]);
    }
  }

  /** Each of `due` is a notice for a flush of `steps` that completed something. */
  predicate EachFromSome(due: seq<Option<Notice>>, steps: seq<FlushStep>, completions: seq<set<string>>)
    requires |steps| == |completions|
  {
    forall i :: 0 <= i < |due| ==>
      due[i].Some? && exists x :: 0 <= x < |steps| && due[i].value == Notice(steps[x].roomId, completions[x]) && completions[x] != {}
  }

  /** The notices of `due` name pairwise disjoint sets of ids. */
  predicate PairwiseDisjoint(due: seq<Option<Notice>>) {
    forall i, j :: 0 <= i < j < |due| && due[i].Some? && due[j].Some? ==> due[i].value.ids !! due[j].value.ids
  }

  /** The due announcements, when completions are pairwise disjoint: each is a notice for one flush, and none repeats an id. */
  lemma {:induction false} NoticesDueDisjoint(steps: seq<FlushStep>, completions: seq<set<string>>)
    requires |steps| == |completions|
    requires forall i, j :: 0 <= i < j < |completions| ==> completions[i] !! completions[j]
    ensures EachFromSome(NoticesDue(steps, completions), steps, completions)
    ensures PairwiseDisjoint(NoticesDue(steps, completions))
    decreases |steps|
  {
    if steps != [] {
      var n := |steps| - 1;
      var front := NoticesDue(steps[..n], completions[..n]);
      NoticesDueDisjoint(steps[..n], completions[..n]);
      var due := NoticesDue(steps, completions);
      assert due == front + NoticeFor(steps[n].roomId, completions[n]);
      forall i | 0 <= i < |front|
        ensures front[i].Some? && exists x :: 0 <= x < n && front[i].value == Notice(steps[x].roomId, completions[x]) && completions[x] != {}
      {
        var x :| 0 <= x < n && front[i].value == Notice(steps[..n][x].roomId, completions[..n][x]) && completions[..n][x] != {};
      }
      if completions[n] != {} {
        forall i | 0 <= i < |front|
          ensures front[i].value.ids !! completions[n]
        {
          var x :| 0 <= x < n && front[i].value == Notice(steps[x].roomId, completions[x]) && completions[x] != {};
        }
      }
    }
  }

  /**
   * When the flushes' completions are pairwise disjoint, each announcement
   * names the completions of one flush in that flush's room, and no message
   * is announced twice.
   */
  lemma NoticesDisjoint(before: seq<BroadcastEvent>, after: seq<BroadcastEvent>, steps: seq<FlushStep>, completions: seq<set<string>>)
    requires AnnouncedAll(before, after, steps, completions)
    requires forall i, j :: 0 <= i < j < |completions| ==> completions[i] !! completions[j]
    ensures |before| <= |after| && after[..|before|] == before
    ensures forall i :: |before| <= i < |after| ==>
      && IsReadNotice(after[i], after[i].roomId, NoticeIds(after[i]))
      && exists x :: 0 <= x < |completions| && after[i].roomId == steps[x].roomId && NoticeIds(after[i]) == completions[x] != {}
    ensures forall i, j :: |before| <= i < j < |after| ==> NoticeIds(after[i]) !! NoticeIds(after[j])
  {
    NoticesDueDisjoint(steps, completions);
    var due := NoticesDue(steps, completions);
    forall i | |before| <= i < |after|
      ensures NoticeOf(after[i]) == due[i - |before|]
    {
      assert after[|before|..][i - |before|] == after[i];
    }
    forall i, j | |before| <= i < j < |after|
      ensures NoticeIds(after[i]) !! NoticeIds(after[j])
    {
      assert due[i - |before|].Some? && due[j - |before|].Some?;
    }
  }

  /**
   * The flushes a sweep performs in iteration order `order`: one per
   * buffered non-empty batch; `clock` and `storeFails` give each flush's
   * instant and whether its bulk update fails.
   */
  function SweepSteps(order: seq<string>, pending: map<string, PendingBatch>, participants: map<string, set<string>>,
                      clock: string -> int, storeFails: string -> bool): (r: seq<FlushStep>)
    ensures |r| <= |order|
    decreases |order|
  {
    if order == [] then []
    else
      var k := order[|order| - 1];
      var rest := SweepSteps(order[..|order| - 1], pending, participants, clock, storeFails);
      if k in pending && pending[k].ids != {} then rest + [StepOf(pending[k], participants, clock(k), storeFails(k))]
      else rest
  }

  /**
   * The effect of flushing batch `p` held under `key`: the entry is gone, the
   * store has taken the flush, and the channel has its announcement.
   */
  predicate Flushed(key: string, p: PendingBatch, participants: map<string, set<string>>, now: int, storeFails: bool,
                    pending: map<string, PendingBatch>, messages: map<string, Message>, channel: seq<BroadcastEvent>,
                    pending': map<string, PendingBatch>, messages': map<string, Message>, channel': seq<BroadcastEvent>)
  {
    var s := StepOf(p, participants, now, storeFails);
    && pending' == pending - {key}
    && messages' == AfterFlush(messages, s)
    && AnnouncedAfter(channel, channel', p.roomId, CompletedBy(messages, s))
  }

  /**
   * The effect of `processAsync(roomId, userId, ids)` at instant `now`: the
   * merged batch stays buffered below `MAX_BATCH_SIZE` ids; at or above, the
   * whole batch is flushed, persisted and announced.
   */
  predicate Processed(roomId: string, userId: string, ids: seq<string>, participants: map<string, set<string>>, now: int, storeFails: bool,
                      pending: map<string, PendingBatch>, messages: map<string, Message>, channel: seq<BroadcastEvent>,
                      pending': map<string, PendingBatch>, messages': map<string, Message>, channel': seq<BroadcastEvent>)
  {
    var key := BufferKey(roomId, userId);
    var p := Merged(pending, roomId, userId, ids);
    var s := StepOf(p, participants, now, storeFails);
    if |p.ids| < MAX_BATCH_SIZE then
      && pending' == pending[key := p]
      && messages' == messages
      && channel' == channel
    else
      && pending' == pending - {key}
      && messages' == AfterFlush(messages, s)
      && AnnouncedAfter(channel, channel', p.roomId, CompletedBy(messages, s))
  }

  /** A full merged batch that was then flushed is what `processAsync` promises for a full batch. */
  lemma FlushedIsProcessed(roomId: string, userId: string, ids: seq<string>, participants: map<string, set<string>>, now: int, storeFails: bool,
                           pending: map<string, PendingBatch>, messages: map<string, Message>, channel: seq<BroadcastEvent>,
                           pending': map<string, PendingBatch>, messages': map<string, Message>, channel': seq<BroadcastEvent>)
    requires |Merged(pending, roomId, userId, ids).ids| >= MAX_BATCH_SIZE
    requires var key := BufferKey(roomId, userId);
             var p := Merged(pending, roomId, userId, ids);
             Flushed(key, p, participants, now, storeFails, pending[key := p], messages, channel, pending', messages', channel')
    ensures Processed(roomId, userId, ids, participants, now, storeFails, pending, messages, channel, pending', messages', channel')
  {
    var key := BufferKey(roomId, userId);
    assert pending[key := Merged(pending, roomId, userId, ids)] - {key} == pending - {key};
  }

  /** One more key of the iteration order adds at most its own flush. */
  lemma SweepStepsAppend(order: seq<string>, i: nat, pending: map<string, PendingBatch>, participants: map<string, set<string>>,
                         clock: string -> int, storeFails: string -> bool)
    requires i < |order|
    ensures var k := order[i];
            SweepSteps(order[..i + 1], pending, participants, clock, storeFails)
              == SweepSteps(order[..i], pending, participants, clock, storeFails)
                 + (if k in pending && pending[k].ids != {} then [StepOf(pending[k], participants, clock(k), storeFails(k))] else [])
  {
    assert order[..i + 1][..i] == order[..i];
  }

  /** Announcements chain: `due` then `more` after `before` is `due + more`. */
  lemma AnnouncedChain(before: seq<BroadcastEvent>, mid: seq<BroadcastEvent>, after: seq<BroadcastEvent>,
                       due: seq<Option<Notice>>, more: seq<Option<Notice>>)
    requires Announced(before, mid, due)
    requires Announced(mid, after, more)
    ensures Announced(before, after, due + more)
  {
    assert after[|before|..] == mid[|before|..] + after[|mid|..];
  }

  /** Announcing one more flush extends `AnnouncedAll` by that flush. */
  lemma AnnouncedAllAppend(before: seq<BroadcastEvent>, mid: seq<BroadcastEvent>, after: seq<BroadcastEvent>,
                           steps: seq<FlushStep>, completions: seq<set<string>>, s: FlushStep, c: set<string>)
    requires AnnouncedAll(before, mid, steps, completions)
    requires AnnouncedAfter(mid, after, s.roomId, c)
    ensures AnnouncedAll(before, after, steps + [s], completions + [c])
  {
    AnnouncedChain(before, mid, after, NoticesDue(steps, completions), NoticeFor(s.roomId, c));
    assert (steps + [s])[..|steps|] == steps;
    assert (completions + [c])[..|completions|] == completions;
  }

  /** The batches a sweep leaves once it has visited the keys `done`: the empty ones, and those not yet visited. */
  function Remaining(pending: map<string, PendingBatch>, done: set<string>): map<string, PendingBatch> {
    map k | k in pending && !(k in done && pending[k].ids != {}) :: pending[k]
  }

  /** The empty batches of `pending`. */
  function EmptyBatches(pending: map<string, PendingBatch>): (r: map<string, PendingBatch>)
    ensures forall k :: k in r <==> k in pending && pending[k].ids == {}
    ensures forall k :: k in r ==> r[k] == pending[k]
  {
    map k | k in pending && pending[k].ids == {} :: pending[k]
  }

  /** Visiting one more key drops its batch if non-empty. */
  lemma RemainingVisit(pending: map<string, PendingBatch>, done: set<string>, key: string)
    requires key in pending && key !in done
    ensures pending[key].ids != {} ==> Remaining(pending, done + {key}) == Remaining(pending, done) - {key}
    ensures pending[key].ids == {} ==> Remaining(pending, done + {key}) == Remaining(pending, done)
  {
  }

  class MessageReadCommandService {
    /** The message collection both the status service and the repository update. */
    const store: MessageStore
    const rooms: RoomStore
    const broadcaster: RedisBroadcastService
    /** `roomId:userId` to its pending batch. */
    var buffer: map<string, ReadBatch>
    /** The buffered batches as values. */
    ghost var pending: map<string, PendingBatch>

    /**
     * `pending` mirrors the batches; each batch sits under its own key, and no
     * batch sits under two keys.
     */
    ghost predicate Valid()
      reads this, buffer.Values
    {
      && buffer.Keys == pending.Keys
      && (forall k :: k in buffer ==> pending[k] == PendingBatch(buffer[k].roomId, buffer[k].userId, buffer[k].messageIds))
      && (forall k :: k in pending ==> BufferKey(pending[k].roomId, pending[k].userId) == k)
      && (forall k, k' :: k in buffer && k' in buffer && k != k' ==> buffer[k] != buffer[k'])
    }

    constructor (store: MessageStore, rooms: RoomStore, broadcaster: RedisBroadcastService)
      ensures this.store == store && this.rooms == rooms && this.broadcaster == broadcaster
      ensures buffer == map[] && pending == map[] && Valid()
    {
      this.store := store;
      this.rooms := rooms;
      this.broadcaster := broadcaster;
      buffer := map[];
      pending := map[];
    }

    /**
     * `processAsync` at instant `now`: merge into the key's batch (created if
     * absent), and flush the whole batch once it holds `MAX_BATCH_SIZE` ids.
     */
    method ProcessAsync(roomId: string, userId: string, messageIds: seq<string>, now: int, storeFails: bool)
      requires Valid()
      modifies this, buffer.Values, store, broadcaster
      ensures Valid()
      ensures Processed(roomId, userId, messageIds, rooms.participants, now, storeFails,
                        old(pending), old(store.messages), old(broadcaster.channel), pending, store.messages, broadcaster.channel)
    {
      var key := BufferKey(roomId, userId);
      ghost var pending0, messages0, channel0 := pending, store.messages, broadcaster.channel;
      ghost var p := Merged(pending, roomId, userId, messageIds);
      var batch := Merge(roomId, userId, messageIds);
      assert PendingBatch(batch.roomId, batch.userId, batch.messageIds) == p;
      assert store.messages == messages0 && broadcaster.channel == channel0;
      if batch.Size() >= MAX_BATCH_SIZE {
        assert batch.messageIds != {} && key in buffer && buffer[key] == batch;
        Flush(key, batch, now, storeFails);
        FlushedIsProcessed(roomId, userId, messageIds, rooms.participants, now, storeFails,
                           pending0, messages0, channel0, pending, store.messages, broadcaster.channel);
      }
    }

    /** The `computeIfAbsent` and `add` half of `processAsync`; returns the key's batch. */
    method Merge(roomId: string, userId: string, messageIds: seq<string>) returns (batch: ReadBatch)
      requires Valid()
      modifies this, buffer.Values
      ensures Valid()
      ensures var key := BufferKey(roomId, userId);
              && key in buffer && buffer[key] == batch
              && pending == old(pending)[key := Merged(old(pending), roomId, userId, messageIds)]
              && buffer == old(buffer)[key := batch]
              && (key in old(buffer) ==> batch == old(buffer)[key])
              && (key !in old(buffer) ==> fresh(batch))
    {
      var key := BufferKey(roomId, userId);
      batch := BatchFor(roomId, userId);
      var merged := Merged(pending, roomId, userId, messageIds);
      batch.Add(messageIds);
      pending := pending[key := merged];
    }

    /** `computeIfAbsent`: the key's batch, created empty and stored when absent. */
    method BatchFor(roomId: string, userId: string) returns (batch: ReadBatch)
      modifies this
      ensures pending == old(pending)
      ensures var key := BufferKey(roomId, userId);
              && buffer == old(buffer)[key := batch]
              && (key in old(buffer) ==> batch == old(buffer)[key])
              && (key !in old(buffer) ==> fresh(batch) && batch.roomId == roomId && batch.userId == userId && batch.messageIds == {})
    {
      var key := BufferKey(roomId, userId);
      if key in buffer {
        batch := buffer[key];
      } else {
        batch := new ReadBatch(roomId, userId);
        buffer := buffer[key := batch];
      }
    }

    /**
     * `flush(key, batch)`: nothing for an empty batch or one the buffer no
     * longer maps `key` to; otherwise remove it and persist and announce it.
     */
    method Flush(key: string, batch: ReadBatch, now: int, storeFails: bool)
      requires Valid()
      modifies this, store, broadcaster
      ensures Valid()
      ensures var p := PendingBatch(batch.roomId, batch.userId, batch.messageIds);
              if batch.messageIds == {} || key !in old(buffer) || old(buffer)[key] != batch then
                && buffer == old(buffer)
                && pending == old(pending)
                && store.messages == old(store.messages)
                && broadcaster.channel == old(broadcaster.channel)
              else
                && p == old(pending)[key]
                && buffer == old(buffer) - {key}
                && Flushed(key, p, rooms.participants, now, storeFails,
                           old(pending), old(store.messages), old(broadcaster.channel), pending, store.messages, broadcaster.channel)
    {
      if batch.Size() == 0 {
        return;
      }
      if !(key in buffer && buffer[key] == batch) {
        return;
      }
      buffer := buffer - {key};
      pending := pending - {key};
      Persist(batch, now, storeFails);
    }

    /** The body of a flush once the batch has been removed: persist, detect, fix, announce. */
    method Persist(batch: ReadBatch, now: int, storeFails: bool)
      requires batch.messageIds != {}
      modifies store, broadcaster
      ensures var step := StepOf(PendingBatch(batch.roomId, batch.userId, batch.messageIds), rooms.participants, now, storeFails);
              && store.messages == AfterFlush(old(store.messages), step)
              && AnnouncedAfter(old(broadcaster.channel), broadcaster.channel, batch.roomId, CompletedBy(old(store.messages), step))
    {
      ghost var step := StepOf(PendingBatch(batch.roomId, batch.userId, batch.messageIds), rooms.participants, now, storeFails);
      var messageIds := CopyToList(batch.GetMessageIds());
      assert Elements(messageIds) == batch.messageIds;
      store.UpdateReadStatus(Some(messageIds), batch.userId, now, storeFails);
      assert store.messages == AfterAck(old(store.messages), step);
      var participantsToRead := rooms.CountParticipants(batch.roomId) - 1;
      var allReadMessageIds := FindAllReadMessages(store.messages, messageIds, participantsToRead);
      assert Elements(allReadMessageIds) == CompletedBy(old(store.messages), step);
      MarkAndAnnounce(batch.roomId, allReadMessageIds);
    }

    /** The end of a flush: mark the completed ids read by everyone and announce them, or do nothing when there are none. */
    method MarkAndAnnounce(roomId: string, allReadMessageIds: seq<string>)
      requires Distinct(allReadMessageIds)
      modifies store, broadcaster
      ensures store.messages == AllReadMarked(old(store.messages), Elements(allReadMessageIds))
      ensures AnnouncedAfter(old(broadcaster.channel), broadcaster.channel, roomId, Elements(allReadMessageIds))
    {
      if allReadMessageIds != [] {
        store.MarkAllRead(allReadMessageIds);
        AnnounceRead(broadcaster.channel, roomId, allReadMessageIds);
        broadcaster.BroadcastToRoom(TYPE_MESSAGES_READ, roomId, MessagesRead, ReadAck(ALL_READERS, allReadMessageIds));
      } else {
        assert AllReadMarked(store.messages, {}) == store.messages;
        AnnounceNothing(broadcaster.channel, roomId);
      }
    }

    /**
     * `flushAll`, run alone: a flush of every buffered entry, in the
     * buffer's iteration order, which is returned.  Afterwards no non-empty
     * batch remains.
     */
    method FlushAll(clock: string -> int, storeFails: string -> bool) returns (order: seq<string>)
      requires Valid()
      modifies this, store, broadcaster
      ensures Valid()
      ensures Distinct(order) && Elements(order) == old(buffer).Keys
      ensures pending == EmptyBatches(old(pending))
      ensures var steps := SweepSteps(order, old(pending), rooms.participants, clock, storeFails);
              && store.messages == AfterFlushes(old(store.messages), steps)
              && AnnouncedAll(old(broadcaster.channel), broadcaster.channel, steps, CompletionsOf(old(store.messages), steps))
    {
      order := CopyToList(buffer.Keys);
      assert Elements(order) == buffer.Keys;
      var entries := buffer;
      ghost var pending0 := pending;
      ghost var messages0 := store.messages;
      ghost var channel0 := broadcaster.channel;
      ghost var steps: seq<FlushStep> := [];
      ghost var completions: seq<set<string>> := [];
      SweepStart(order, pending0, rooms.participants, clock, storeFails);
      var i := 0;
      while i < |order|
        invariant i <= |order|
        invariant Valid()
        invariant entries.Keys == pending0.Keys
        invariant forall k :: k in buffer ==> k in entries && buffer[k] == entries[k]
        invariant pending == Remaining(pending0, Elements(order[..i]))
        invariant steps == SweepSteps(order[..i], pending0, rooms.participants, clock, storeFails)
        invariant completions == CompletionsOf(messages0, steps)
        invariant store.messages == AfterFlushes(messages0, steps)
        invariant AnnouncedAll(channel0, broadcaster.channel, steps, completions)
      {
        steps, completions := SweepOne(order, i, entries, clock, storeFails, pending0, messages0, channel0, steps, completions);
        i := i + 1;
      }
      assert order[..i] == order;
      SweepFinish(order, pending0, pending);
    }

    /** One iteration of `flushAll`: the flush of `order[i]`, and the sweep's bookkeeping one key further. */
    method SweepOne(order: seq<string>, i: nat, entries: map<string, ReadBatch>, clock: string -> int, storeFails: string -> bool,
                    ghost pending0: map<string, PendingBatch>, ghost messages0: map<string, Message>,
                    ghost channel0: seq<BroadcastEvent>, ghost steps: seq<FlushStep>, ghost completions: seq<set<string>>)
      returns (ghost steps': seq<FlushStep>, ghost completions': seq<set<string>>)
      requires Valid()
      requires Distinct(order) && i < |order| && order[i] in entries
      requires entries.Keys == pending0.Keys
      requires forall k :: k in buffer ==> k in entries && buffer[k] == entries[k]
      requires pending == Remaining(pending0, Elements(order[..i]))
      requires steps == SweepSteps(order[..i], pending0, rooms.participants, clock, storeFails)
      requires completions == CompletionsOf(messages0, steps)
      requires store.messages == AfterFlushes(messages0, steps)
      requires AnnouncedAll(channel0, broadcaster.channel, steps, completions)
      modifies this, store, broadcaster
      ensures Valid()
      ensures forall k :: k in buffer ==> k in entries && buffer[k] == entries[k]
      ensures pending == Remaining(pending0, Elements(order[..i + 1]))
      ensures steps' == SweepSteps(order[..i + 1], pending0, rooms.participants, clock, storeFails)
      ensures completions' == CompletionsOf(messages0, steps')
      ensures store.messages == AfterFlushes(messages0, steps')
      ensures AnnouncedAll(channel0, broadcaster.channel, steps', completions')
    {
      var key := order[i];
      var batch := entries[key];
      SweepVisit(order, i, pending0, pending);
      SweepStepsAppend(order, i, pending0, rooms.participants, clock, storeFails);
      ghost var p1, m1, c1 := pending, store.messages, broadcaster.channel;
      Flush(key, batch, clock(key), storeFails(key));
      if pending0[key].ids != {} {
        ghost var s := StepOf(pending0[key], rooms.participants, clock(key), storeFails(key));
        SweepExtend(messages0, channel0, steps, completions, s, m1, c1, store.messages, broadcaster.channel);
        steps', completions' := steps + [s], completions + [CompletedBy(m1, s)];
      } else {
        steps', completions' := steps, completions;
      }
    }
  }

  lemma SweepStart(order: seq<string>, pending0: map<string, PendingBatch>, participants: map<string, set<string>>,
                   clock: string -> int, storeFails: string -> bool)
    ensures Remaining(pending0, Elements(order[..0])) == pending0
    ensures SweepSteps(order[..0], pending0, participants, clock, storeFails) == []
  {
    assert order[..0] == [];
    assert Elements(order[..0]) == {};
  }

  /**
   * Visiting `order[i]` of a distinct order: a non-empty batch under it is
   * still buffered, and afterwards it counts as visited.
   */
  lemma SweepVisit(order: seq<string>, i: nat, pending0: map<string, PendingBatch>, pending: map<string, PendingBatch>)
    requires Distinct(order) && i < |order| && order[i] in pending0
    requires pending == Remaining(pending0, Elements(order[..i]))
    ensures pending0[order[i]].ids != {} ==> order[i] in pending && pending[order[i]] == pending0[order[i]]
    ensures pending0[order[i]].ids != {} ==> Remaining(pending0, Elements(order[..i + 1])) == pending - {order[i]}
    ensures pending0[order[i]].ids == {} ==> Remaining(pending0, Elements(order[..i + 1])) == pending
  {
    var key := order[i];
    assert key !in order[..i];
    assert Elements(order[..i + 1]) == Elements(order[..i]) + {key} by {
      assert order[..i + 1] == order[..i] + [key];
    }
    RemainingVisit(pending0, Elements(order[..i]), key);
  }

  /** One more flush extends the store fold, the completions and the announcements in step. */
  lemma SweepExtend(messages0: map<string, Message>, channel0: seq<BroadcastEvent>, steps: seq<FlushStep>,
                    completions: seq<set<string>>, s: FlushStep, messages: map<string, Message>, channel: seq<BroadcastEvent>,
                    messages': map<string, Message>, channel': seq<BroadcastEvent>)
    requires completions == CompletionsOf(messages0, steps)
    requires messages == AfterFlushes(messages0, steps)
    requires AnnouncedAll(channel0, channel, steps, completions)
    requires messages' == AfterFlush(messages, s)
    requires AnnouncedAfter(channel, channel', s.roomId, CompletedBy(messages, s))
    ensures completions + [CompletedBy(messages, s)] == CompletionsOf(messages0, steps + [s])
    ensures messages' == AfterFlushes(messages0, steps + [s])
    ensures AnnouncedAll(channel0, channel', steps + [s], completions + [CompletedBy(messages, s)])
  {
    AfterFlushesAppend(messages0, steps, s);
    CompletionsAppend(messages0, steps, s);
    AnnouncedAllAppend(channel0, channel, channel', steps, completions, s, CompletedBy(messages, s));
  }

  /** A sweep that has visited every key leaves exactly the empty batches. */
  lemma SweepFinish(order: seq<string>, pending0: map<string, PendingBatch>, pending: map<string, PendingBatch>)
    requires Elements(order) == pending0.Keys
    requires pending == Remaining(pending0, Elements(order))
    ensures pending == EmptyBatches(pending0)
  {
  }
}
