/**
 * The message collection as the read-receipt path sees it:
 * `MessageReadStatusService.updateReadStatus` appends one reader record to
 * many messages at once, `MessageRepositoryCustomImpl.findAllReadMessages`
 * selects the messages whose reader count has just reached the expected
 * number, and `markAllRead` fixes their flag.
 */
module Messages {
  import opened Wrappers
  import opened Domain
  import opened Lists

  /** `$addToSet`: a record already present (same user, same instant) is not added again. */
  function WithReader(m: Message, r: MessageReader): Message {
    if r in m.readers then m else m.(readers := m.readers + [r])
  }

  /** The store after appending reader `r` to every stored message whose id is in `ids`. */
  function ReadersAdded(messages: map<string, Message>, ids: set<string>, r: MessageReader): map<string, Message> {
    map id | id in messages :: if id in ids then WithReader(messages[id], r) else messages[id]
  }

  /** The query of `findAllReadMessages`: not yet all-read, and exactly `expected` reader records. */
  predicate CompletesNow(messages: map<string, Message>, id: string, expectedReaders: int) {
    id in messages && !messages[id].allRead && |messages[id].readers| == expectedReaders
  }

  /**
   * `findAllReadMessages(ids, expectedReaders)`: the listed ids whose message
   * matches the query, each once.
   */
  function FindAllReadMessages(messages: map<string, Message>, ids: seq<string>, expectedReaders: int): (r: seq<string>)
    ensures forall id :: id in r <==> id in ids && CompletesNow(messages, id, expectedReaders)
    ensures Distinct(r)
    ensures |r| <= |ids|
  {
    if ids == [] then []
    else
      var rest := FindAllReadMessages(messages, ids[1..], expectedReaders);
      if CompletesNow(messages, ids[0], expectedReaders) && ids[0] !in rest then [ids[0]] + rest else rest
  }

  /** The store after `markAllRead(ids)`. */
  function AllReadMarked(messages: map<string, Message>, ids: set<string>): map<string, Message> {
    map id | id in messages :: if id in ids then messages[id].(allRead := true) else messages[id]
  }

  /** Right after `markAllRead(ids)` none of those ids can be reported complete again. */
  lemma {:induction false} MarkedNeverFoundAgain(messages: map<string, Message>, ids: seq<string>, others: seq<string>, expectedReaders: int)
    ensures forall id :: id in ids ==> id !in FindAllReadMessages(AllReadMarked(messages, Elements(ids)), others, expectedReaders)
  {
  }

  /** The message collection (Mongo `messages`), keyed by id. */
  class MessageStore {
    var messages: map<string, Message>

    constructor (messages: map<string, Message>)
      ensures this.messages == messages
    {
      this.messages := messages;
    }

    /**
     * `updateReadStatus(messageIds, userId)` at instant `now`.  A null or empty
     * list does nothing; `storeFails` stands for a failing `updateMulti`,
     * whose exception is logged and swallowed.
     */
    method UpdateReadStatus(messageIds: Option<seq<string>>, userId: string, now: int, storeFails: bool)
      modifies this
      ensures messageIds.None? || messageIds.value == [] || storeFails ==> messages == old(messages)
      ensures messageIds.Some? && messageIds.value != [] && !storeFails ==>
        messages == ReadersAdded(old(messages), Elements(messageIds.value), MessageReader(userId, now))
      ensures messages.Keys == old(messages).Keys
      ensures forall id :: id in messages && (messageIds.None? || id !in messageIds.value) ==> messages[id] == old(messages)[id]
    {
      if messageIds.None? || messageIds.value == [] {
        return;
      }
      var reader := MessageReader(userId, now);
      if storeFails {
        return;
      }
      messages := ReadersAdded(messages, Elements(messageIds.value), reader);
    }

    /** `markAllRead(ids)`: sets the flag on exactly the listed messages and changes nothing else. */
    method MarkAllRead(messageIds: seq<string>)
      modifies this
      ensures messages == AllReadMarked(old(messages), Elements(messageIds))
      ensures messages.Keys == old(messages).Keys
      ensures forall id :: id in messages ==>
        messages[id] == if id in messageIds then old(messages)[id].(allRead := true) else old(messages)[id]
    {
      messages := AllReadMarked(messages, Elements(messageIds));
    }

    /** `save`: stores a message under its id. */
    method Save(m: Message)
      modifies this
      ensures messages == old(messages)[m.id := m]
    {
      messages := messages[m.id := m];
    }
  }

  // ---------------------------------------------------------------------
  // The store-side effect of one flush, and exactly-once completion.

  /**
   * One flush: the batch's room and ids, its reader record, the expected
   * reader count, and whether the bulk reader append failed.
   */
  datatype FlushStep = FlushStep(roomId: string, ids: set<string>, reader: MessageReader, expectedReaders: int, storeFails: bool)

  /** The store after the bulk reader append of a flush (unchanged if it failed). */
  function AfterAck(messages: map<string, Message>, s: FlushStep): map<string, Message> {
    if s.storeFails then messages else ReadersAdded(messages, s.ids, s.reader)
  }

  /** The ids a flush reports as read by everyone. */
  function CompletedBy(messages: map<string, Message>, s: FlushStep): set<string> {
    set id | id in s.ids && CompletesNow(AfterAck(messages, s), id, s.expectedReaders)
  }

  /** The store after the whole flush. */
  function AfterFlush(messages: map<string, Message>, s: FlushStep): map<string, Message> {
    AllReadMarked(AfterAck(messages, s), CompletedBy(messages, s))
  }

  /** The store after a sequence of flushes, in order. */
  function AfterFlushes(messages: map<string, Message>, steps: seq<FlushStep>): map<string, Message>
    decreases |steps|
  {
    if steps == [] then messages else AfterFlushes(AfterFlush(messages, steps[0]), steps[1..])
  }

  /** What each flush of a sequence reports as read by everyone. */
  function CompletionsOf(messages: map<string, Message>, steps: seq<FlushStep>): (r: seq<set<string>>)
    ensures |r| == |steps|
    decreases |steps|
  {
    if steps == [] then [] else [CompletedBy(messages, steps[0])] + CompletionsOf(AfterFlush(messages, steps[0]), steps[1..])
  }

  /** A flush keeps every message and never clears an all-read flag. */
  lemma FlushKeepsAllRead(messages: map<string, Message>, s: FlushStep)
    ensures AfterFlush(messages, s).Keys == messages.Keys
    ensures forall id :: id in messages && messages[id].allRead ==> AfterFlush(messages, s)[id].allRead
    ensures forall id :: id in CompletedBy(messages, s) ==> id in messages && !messages[id].allRead
    ensures forall id :: id in CompletedBy(messages, s) ==> AfterFlush(messages, s)[id].allRead
  {
  }

  /**
   * Over any sequence of flushes, a message is reported complete at most
   * once, only if it was not already complete, and is complete afterwards.
   */
  lemma ExactlyOnceCompletion(messages: map<string, Message>, steps: seq<FlushStep>)
    ensures forall i, j :: 0 <= i < j < |steps| ==> CompletionsOf(messages, steps)[i] !! CompletionsOf(messages, steps)[j]
    ensures forall i, id :: 0 <= i < |steps| && id in CompletionsOf(messages, steps)[i] ==> id in messages && !messages[id].allRead
    ensures forall i, id :: 0 <= i < |steps| && id in CompletionsOf(messages, steps)[i] ==>
      id in AfterFlushes(messages, steps) && AfterFlushes(messages, steps)[id].allRead
    ensures AfterFlushes(messages, steps).Keys == messages.Keys
  {
    CompletionsDisjoint(messages, steps);
    CompletionsWereIncomplete(messages, steps);
    CompletionsEndRead(messages, steps);
    AllReadStaysSet(messages, steps);
  }

  /** Whatever a flush in the sequence reports complete was in the store and not yet complete at the start. */
  lemma {:induction false} CompletionsWereIncomplete(messages: map<string, Message>, steps: seq<FlushStep>)
    ensures forall i, id :: 0 <= i < |steps| && id in CompletionsOf(messages, steps)[i] ==> id in messages && !messages[id].allRead
    decreases |steps|
  {
    if steps != [] {
      var s := steps[0];
      var next := AfterFlush(messages, s);
      var c := CompletionsOf(messages, steps);
      var rest := CompletionsOf(next, steps[1..]);
      assert c == [CompletedBy(messages, s)] + rest;
      FlushKeepsAllRead(messages, s);
      CompletionsWereIncomplete(next, steps[1..]);
      forall i, id | 0 <= i < |steps| && id in c[i]
        ensures id in messages && !messages[id].allRead
      {
        if i > 0 {
          assert id in rest[i - 1];
        }
      }
    }
  }

  /** Whatever a flush in the sequence reports complete is complete after the whole sequence. */
  lemma {:induction false} CompletionsEndRead(messages: map<string, Message>, steps: seq<FlushStep>)
    ensures forall i, id :: 0 <= i < |steps| && id in CompletionsOf(messages, steps)[i] ==>
      id in AfterFlushes(messages, steps) && AfterFlushes(messages, steps)[id].allRead
    decreases |steps|
  {
    if steps != [] {
      var s := steps[0];
      var next := AfterFlush(messages, s);
      var c := CompletionsOf(messages, steps);
      var rest := CompletionsOf(next, steps[1..]);
      var after := AfterFlushes(next, steps[1..]);
      assert c == [CompletedBy(messages, s)] + rest;
      assert AfterFlushes(messages, steps) == after;
      FlushKeepsAllRead(messages, s);
      CompletionsEndRead(next, steps[1..]);
      AllReadStaysSet(next, steps[1..]);
      forall i, id | 0 <= i < |steps| && id in c[i]
        ensures id in after && after[id].allRead
      {
        if i > 0 {
          assert id in rest[i - 1];
        } else {
          assert id in next && next[id].allRead;
        }
      }
    }
  }

  /** No message is reported complete by two flushes of the sequence. */
  lemma {:induction false} CompletionsDisjoint(messages: map<string, Message>, steps: seq<FlushStep>)
    ensures forall i, j :: 0 <= i < j < |steps| ==> CompletionsOf(messages, steps)[i] !! CompletionsOf(messages, steps)[j]
    decreases |steps|
  {
    if steps != [] {
      var s := steps[0];
      var next := AfterFlush(messages, s);
      var c := CompletionsOf(messages, steps);
      var rest := CompletionsOf(next, steps[1..]);
      assert c == [CompletedBy(messages, s)] + rest;
      FlushKeepsAllRead(messages, s);
      CompletionsDisjoint(next, steps[1..]);
      CompletionsWereIncomplete(next, steps[1..]);
      forall i, j | 0 <= i < j < |steps|
        ensures c[i] !! c[j]
      {
        if i == 0 {
          assert c[j] == rest[j - 1];
          forall id | id in c[0] ensures id !in c[j] {
            assert next[id].allRead;
          }
        } else {
          assert c[i] == rest[i - 1] && c[j] == rest[j - 1];
        }
      }
    }
  }

  /** Flushing one more batch extends the fold by one step. */
  lemma {:induction false} AfterFlushesAppend(messages: map<string, Message>, steps: seq<FlushStep>, s: FlushStep)
    ensures AfterFlushes(messages, steps + [s]) == AfterFlush(AfterFlushes(messages, steps), s)
    decreases |steps|
  {
    if steps == [] {
      assert [] + [s] == [s];
      assert [s][1..] == [];
    } else {
      assert (steps + [s])[0] == steps[0];
      assert (steps + [s])[1..] == steps[1..] + [s];
      AfterFlushesAppend(AfterFlush(messages, steps[0]), steps[1..], s);
    }
  }

  /** Flushing one more batch adds that batch's completions at the end. */
  lemma {:induction false} CompletionsAppend(messages: map<string, Message>, steps: seq<FlushStep>, s: FlushStep)
    ensures CompletionsOf(messages, steps + [s]) == CompletionsOf(messages, steps) + [CompletedBy(AfterFlushes(messages, steps), s)]
    decreases |steps|
  {
    if steps == [] {
      assert [] + [s] == [s];
      assert [s][1..] == [];
    } else {
      assert (steps + [s])[0] == steps[0];
      assert (steps + [s])[1..] == steps[1..] + [s];
      CompletionsAppend(AfterFlush(messages, steps[0]), steps[1..], s);
    }
  }

  /** Unless the bulk update failed, every stored message of the batch carries the batch's reader record. */
  lemma AckRecordsReader(messages: map<string, Message>, s: FlushStep)
    requires !s.storeFails
    ensures forall id :: id in s.ids && id in messages ==> s.reader in AfterFlush(messages, s)[id].readers
    ensures forall id :: id in messages && id !in s.ids ==> AfterFlush(messages, s)[id] == messages[id]
  {
  }

  /** A flag that is set stays set over any sequence of flushes. */
  lemma {:induction false} AllReadStaysSet(messages: map<string, Message>, steps: seq<FlushStep>)
    ensures AfterFlushes(messages, steps).Keys == messages.Keys
    ensures forall id :: id in messages && messages[id].allRead ==> AfterFlushes(messages, steps)[id].allRead
    decreases |steps|
  {
    if steps != [] {
      FlushKeepsAllRead(messages, steps[0]);
      AllReadStaysSet(AfterFlush(messages, steps[0]), steps[1..]);
    }
  }

  /**
   * Completion counts reader records, not distinct readers: in a room of
   * three, one reader who acknowledges a message twice at different instants
   * completes it although the third participant never read it.
   */
  lemma RepeatedReaderCompletes(m: Message)
    requires m.readers == [] && !m.allRead
    ensures var s0 := map[m.id := m];
            var first := FlushStep(m.roomId, {m.id}, MessageReader("a", 1), 2, false);
            var second := FlushStep(m.roomId, {m.id}, MessageReader("a", 2), 2, false);
            CompletedBy(s0, first) == {} && CompletedBy(AfterFlush(s0, first), second) == {m.id}
  {
    var s0 := map[m.id := m];
    var first := FlushStep(m.roomId, {m.id}, MessageReader("a", 1), 2, false);
    var s1 := AfterFlush(s0, first);
    assert AfterAck(s0, first)[m.id].readers == [MessageReader("a", 1)];
    assert CompletedBy(s0, first) == {};
    var second := FlushStep(m.roomId, {m.id}, MessageReader("a", 2), 2, false);
    assert s1[m.id].readers == [MessageReader("a", 1)];
    assert AfterAck(s1, second)[m.id].readers == [MessageReader("a", 1), MessageReader("a", 2)];
    assert m.id in CompletedBy(s1, second);
  }
}
