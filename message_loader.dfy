/**
 * `MessageLoader`: one page of a room's history before a cursor.  The store
 * query returns the newest `limit` matching messages, newest first, and
 * whether more exist; the page is then presented oldest first, each message
 * with its sender from one bulk user lookup.  The query's descending order is
 * modelled by an insertion sort on timestamps (ties among equal timestamps
 * are in an order the store does not promise either).
 */
module Loader {
  import opened Wrappers
  import opened Domain

  const BATCH_SIZE: int := 30

  /**
   * `FetchMessagesRequest`: `limit(d)` and `before(d)` give the field, or `d`
   * when it is null.
   */
  datatype FetchMessagesRequest = FetchMessagesRequest(roomId: string, limit: Option<int>, before: Option<int>)

  /** The store query's filter: in the room, not deleted, strictly before the cursor. */
  predicate Matches(m: Message, roomId: string, before: int) {
    m.roomId == roomId && !m.isDeleted && m.timestamp < before
  }

  /** The messages of `history` the query selects, in store order. */
  function Matching(history: seq<Message>, roomId: string, before: int): (r: seq<Message>)
    ensures forall m :: m in r <==> m in history && Matches(m, roomId, before)
    ensures |r| <= |history|
  {
    if history == [] then []
    else
      var rest := Matching(history[1..], roomId, before);
      assert forall m :: m in history <==> m == history[0] || m in history[1..];
      if Matches(history[0], roomId, before) then [history[0]] + rest else rest
  }

  /** Newest first. */
  predicate NewestFirst(s: seq<Message>) {
    forall i, j :: 0 <= i < j < |s| ==> s[i].timestamp >= s[j].timestamp
  }

  /** Oldest first. */
  predicate OldestFirst(s: seq<Message>) {
    forall i, j :: 0 <= i < j < |s| ==> s[i].timestamp <= s[j].timestamp
  }

  /** No message of `s` is newer than `t`. */
  predicate NoNewerThan(s: seq<Message>, t: int) {
    forall i :: 0 <= i < |s| ==> s[i].timestamp <= t
  }

  /** `m` put into a newest-first sequence, after every message at least as new. */
  function Insert(m: Message, s: seq<Message>): (r: seq<Message>)
    ensures |r| == |s| + 1
    ensures multiset(r) == multiset(s) + multiset{m}
  {
    if s == [] then [m]
    else if s[0].timestamp >= m.timestamp then
      assert s == [s[0]] + s[1..];
      [s[0]] + Insert(m, s[1..])
    else [m] + s
  }

  /** Inserting keeps a sequence newest first, and adds nothing newer than `m` or the sequence's head. */
  lemma {:induction false} InsertNewestFirst(m: Message, s: seq<Message>)
    requires NewestFirst(s)
    ensures NewestFirst(Insert(m, s))
    ensures forall t :: NoNewerThan(s, t) && m.timestamp <= t ==> NoNewerThan(Insert(m, s), t)
  {
    if s != [] && s[0].timestamp >= m.timestamp {
      var rest := Insert(m, s[1..]);
      assert NewestFirst(s[1..]) by {
        forall i, j | 0 <= i < j < |s[1..]|
          ensures s[1..][i].timestamp >= s[1..][j].timestamp
        {
          assert s[1..][i] == s[i + 1] && s[1..][j] == s[j + 1];
        }
      }
      InsertNewestFirst(m, s[1..]);
      forall t | NoNewerThan(s, t)
        ensures NoNewerThan(s[1..], t)
      {
        forall i | 0 <= i < |s[1..]|
          ensures s[1..][i].timestamp <= t
        {
          assert s[1..][i] == s[i + 1];
        }
      }
      assert NoNewerThan(s[1..], s[0].timestamp) by {
        forall i | 0 <= i < |s[1..]|
          ensures s[1..][i].timestamp <= s[0].timestamp
        {
          assert s[1..][i] == s[i + 1];
        }
      }
      ConsNewestFirst(s[0], rest);
    } else if s != [] {
      assert NoNewerThan(s, m.timestamp) by {
        forall i | 0 <= i < |s|
          ensures s[i].timestamp <= m.timestamp
        {
          assert s[i].timestamp <= s[0].timestamp;
        }
      }
      ConsNewestFirst(m, s);
    }
  }

  lemma ConsNewestFirst(a: Message, rest: seq<Message>)
    requires NewestFirst(rest) && NoNewerThan(rest, a.timestamp)
    ensures NewestFirst([a] + rest)
    ensures forall t :: NoNewerThan(rest, t) && a.timestamp <= t ==> NoNewerThan([a] + rest, t)
  {
    var r := [a] + rest;
    forall i, j | 0 <= i < j < |r|
      ensures r[i].timestamp >= r[j].timestamp
    {
      assert r[j] == rest[j - 1];
      if i > 0 {
        assert r[i] == rest[i - 1];
      }
    }
    forall t | NoNewerThan(rest, t) && a.timestamp <= t
      ensures NoNewerThan(r, t)
    {
      forall i | 0 <= i < |r|
        ensures r[i].timestamp <= t
      {
        if i > 0 {
          assert r[i] == rest[i - 1];
        }
      }
    }
  }

  /** The query's order: the same messages, newest first. */
  function SortNewestFirst(s: seq<Message>): (r: seq<Message>)
    ensures NewestFirst(r)
    ensures multiset(r) == multiset(s)
    ensures |r| == |s|
  {
    if s == [] then []
    else
      assert s == [s[0]] + s[1..];
      var rest := SortNewestFirst(s[1..]);
      InsertNewestFirst(s[0], rest);
      Insert(s[0], rest)
  }

  /** The store's answer to the paged query: the page's content and `hasNext`. */
  datatype Page = Page(content: seq<Message>, hasNext: bool)

  /** `findByRoomIdAndIsDeletedAndTimestampBefore` with page 0 of size `limit`, newest first. */
  function QueryPage(history: seq<Message>, roomId: string, before: int, limit: int): Page
    requires limit >= 1
  {
    var sorted := SortNewestFirst(Matching(history, roomId, before));
    var n := if |sorted| <= limit then |sorted| else limit;
    Page(sorted[..n], |sorted| > limit)
  }

  /**
   * The page holds `limit` matching messages, or all of them when fewer,
   * newest first; every matching message left out is no newer than any
   * message on the page; and `hasNext` says exactly whether some were left out.
   */
  lemma {:induction false} QueryPageIsNewest(history: seq<Message>, roomId: string, before: int, limit: int)
    requires limit >= 1
    ensures var page := QueryPage(history, roomId, before, limit);
            var matching := Matching(history, roomId, before);
            && |page.content| == (if |matching| <= limit then |matching| else limit)
            && (forall m :: m in page.content ==> m in history && Matches(m, roomId, before))
            && NewestFirst(page.content)
            && multiset(page.content) <= multiset(matching)
            && (forall m, k :: m in matching && m !in page.content && 0 <= k < |page.content| ==>
                  m.timestamp <= page.content[k].timestamp)
            && (page.hasNext <==> |matching| > limit)
  {
    var matching := Matching(history, roomId, before);
    var sorted := SortNewestFirst(matching);
    var n := if |sorted| <= limit then |sorted| else limit;
    PrefixIsNewest(sorted, n);
    forall m | m in matching
      ensures m in sorted
    {
      assert m in multiset(sorted);
    }
    forall m | m in sorted[..n]
      ensures m in history && Matches(m, roomId, before)
    {
      assert m in multiset(matching);
      assert m in matching;
    }
  }

  /**
   * A prefix of a newest-first sequence holds its newest messages: the same
   * messages as a sub-multiset, and whatever is left out is no newer.
   */
  lemma PrefixIsNewest(sorted: seq<Message>, n: nat)
    requires NewestFirst(sorted) && n <= |sorted|
    ensures NewestFirst(sorted[..n])
    ensures multiset(sorted[..n]) <= multiset(sorted)
    ensures forall m :: m in sorted[..n] ==> m in sorted
    ensures forall m, k :: m in sorted && m !in sorted[..n] && 0 <= k < n ==> m.timestamp <= sorted[..n][k].timestamp
  {
    assert sorted == sorted[..n] + sorted[n..];
    assert multiset(sorted) == multiset(sorted[..n]) + multiset(sorted[n..]);
    forall m, k | m in sorted && m !in sorted[..n] && 0 <= k < n
      ensures m.timestamp <= sorted[..n][k].timestamp
    {
      var j :| 0 <= j < |sorted| && sorted[j] == m;
      assert j >= n;
    }
  }

  /** A sequence back to front. */
  function Reverse<T>(s: seq<T>): (r: seq<T>)
    ensures |r| == |s|
    ensures forall i :: 0 <= i < |s| ==> r[i] == s[|s| - 1 - i]
  {
    if s == [] then [] else Reverse(s[1..]) + [s[0]]
  }

  /** Reversing keeps every element with its multiplicity. */
  lemma {:induction false} ReverseMultiset<T>(s: seq<T>)
    ensures multiset(Reverse(s)) == multiset(s)
  {
    if s != [] {
      ReverseMultiset(s[1..]);
      assert s == [s[0]] + s[1..];
    }
  }

  /** The sender of `m` from the bulk lookup over the page's non-null sender ids. */
  function SenderOf(m: Message, users: map<string, User>): Option<User> {
    if m.senderId.Some? && m.senderId.value in users then Some(users[m.senderId.value]) else None
  }

  /** `loadMessagesInternal`: the page reversed to oldest first, each message mapped with its sender. */
  function LoadMessagesInternal(history: seq<Message>, users: map<string, User>, roomId: string, limit: int, before: int)
    : FetchMessagesResponse
    requires limit >= 1
  {
    var page := QueryPage(history, roomId, before, limit);
    var sorted := Reverse(page.content);
    FetchMessagesResponse(Responses(sorted, users), page.hasNext)
  }

  /** Each message mapped with its sender, in order. */
  function Responses(messages: seq<Message>, users: map<string, User>): (r: seq<MessageResponse>)
    ensures |r| == |messages|
    ensures forall i :: 0 <= i < |r| ==> r[i] == MessageResponse(messages[i], SenderOf(messages[i], users))
  {
    seq(|messages|, i requires 0 <= i < |messages| => MessageResponse(messages[i], SenderOf(messages[i], users)))
  }

  /** The messages of a response list, in order. */
  function MessagesOf(responses: seq<MessageResponse>): (r: seq<Message>)
    ensures |r| == |responses|
    ensures forall i :: 0 <= i < |r| ==> r[i] == responses[i].message
  {
    seq(|responses|, i requires 0 <= i < |responses| => responses[i].message)
  }

  /** Reversing a newest-first sequence gives the same messages oldest first. */
  lemma ReverseOldestFirst(s: seq<Message>)
    requires NewestFirst(s)
    ensures OldestFirst(Reverse(s))
    ensures forall m :: m in Reverse(s) <==> m in s
  {
    var r := Reverse(s);
    forall m | m in r
      ensures m in s
    {
      var i :| 0 <= i < |r| && r[i] == m;
      assert m == s[|s| - 1 - i];
    }
    forall m | m in s
      ensures m in r
    {
      var i :| 0 <= i < |s| && s[i] == m;
      assert r[|s| - 1 - i] == m;
    }
  }

  /**
   * `loadMessages` at instant `now`; `fails` says whether the store or user
   * lookup throws.  A page size below one makes the page request throw too.
   * Any exception gives an empty page without more.
   */
  function LoadMessages(data: FetchMessagesRequest, history: seq<Message>, users: map<string, User>, now: int, fails: bool)
    : (r: FetchMessagesResponse)
    ensures var limit := data.limit.GetOr(BATCH_SIZE);
            (fails || limit < 1) ==> r == FetchMessagesResponse([], false)
  {
    var limit := data.limit.GetOr(BATCH_SIZE);
    var before := data.before.GetOr(now);
    if fails || limit < 1 then FetchMessagesResponse([], false)
    else LoadMessagesInternal(history, users, data.roomId, limit, before)
  }

  /**
   * What a successful load returns: at most `limit` messages (30 unless the
   * request says otherwise), all in the room, not deleted and before the
   * cursor (now unless the request says otherwise), oldest first, each with
   * its known sender, each matching message at most as often as it is
   * stored; every matching message not returned is no newer than those
   * returned, and `hasMore` says whether any was not returned.
   */
  lemma LoadMessagesPage(data: FetchMessagesRequest, history: seq<Message>, users: map<string, User>, now: int)
    requires data.limit.GetOr(BATCH_SIZE) >= 1
    ensures var limit, before := data.limit.GetOr(BATCH_SIZE), data.before.GetOr(now);
            var r := LoadMessages(data, history, users, now, false);
            var returned := MessagesOf(r.messages);
            var matching := Matching(history, data.roomId, before);
            && |r.messages| == (if |matching| <= limit then |matching| else limit)
            && (forall i :: 0 <= i < |r.messages| ==>
                  && r.messages[i].message in history && Matches(r.messages[i].message, data.roomId, before)
                  && r.messages[i].sender == SenderOf(r.messages[i].message, users))
            && OldestFirst(returned)
            && (forall m, k :: m in matching && m !in returned && 0 <= k < |returned| ==> m.timestamp <= returned[k].timestamp)
            && (r.hasMore <==> |matching| > limit)
            && multiset(returned) <= multiset(matching)
  {
    var limit, before := data.limit.GetOr(BATCH_SIZE), data.before.GetOr(now);
    QueryPageIsNewest(history, data.roomId, before, limit);
    var page := QueryPage(history, data.roomId, before, limit);
    ReversedPage(page.content, history, data.roomId, before, users);
    var r := LoadMessages(data, history, users, now, false);
    assert r.messages == Responses(Reverse(page.content), users);
  }

  /** The responses of a newest-first page, reversed: the same messages oldest first, each with its sender. */
  lemma ReversedPage(content: seq<Message>, history: seq<Message>, roomId: string, before: int, users: map<string, User>)
    requires NewestFirst(content)
    requires forall m :: m in content ==> m in history && Matches(m, roomId, before)
    ensures var rs := Responses(Reverse(content), users);
            var returned := MessagesOf(rs);
            && |rs| == |content|
            && (forall i :: 0 <= i < |rs| ==>
                  && rs[i].message in history && Matches(rs[i].message, roomId, before)
                  && rs[i].sender == SenderOf(rs[i].message, users))
            && OldestFirst(returned)
            && (forall m :: m in returned <==> m in content)
            && (forall k :: 0 <= k < |returned| ==> returned[k] == content[|content| - 1 - k])
            && multiset(returned) == multiset(content)
  {
    ReverseOldestFirst(content);
    ReverseMultiset(content);
    var rs := Responses(Reverse(content), users);
    var returned := MessagesOf(rs);
    assert returned == Reverse(content);
    forall i | 0 <= i < |rs|
      ensures rs[i].message in history && Matches(rs[i].message, roomId, before)
    {
      assert rs[i].message == returned[i];
      assert returned[i] in returned;
    }
  }
}
