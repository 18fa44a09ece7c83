/**
 * `SessionBatchUpdater.flushLastActivityBatch`: the session service's
 * last-activity cache is copied and cleared, then each copied entry is
 * written to the session store once.  The cache and the store are not part
 * of this model beyond a map and a log of writes.
 */
module SessionBatch {
  import opened Lists

  /** One `updateLastActivityBatch(sessionId, lastActivity)` call. */
  datatype ActivityWrite = ActivityWrite(sessionId: string, lastActivity: int)

  /** The writes for the sessions of `order`, in that order, each with its value in `copy`. */
  function WritesFor(copy: map<string, int>, order: seq<string>): (r: seq<ActivityWrite>)
    requires forall s :: s in order ==> s in copy
    ensures |r| == |order|
    ensures forall i :: 0 <= i < |r| ==> r[i] == ActivityWrite(order[i], copy[order[i]])
  {
    seq(|order|, i requires 0 <= i < |order| => ActivityWrite(order[i], copy[order[i]]))
  }

  /** Each entry of `copy` is written exactly once, with its own value, and nothing else is written. */
  lemma {:induction false} WritesExactlyOnce(copy: map<string, int>, order: seq<string>)
    requires Distinct(order) && (forall s :: s in order <==> s in copy)
    ensures var w := WritesFor(copy, order);
            && |w| == |copy|
            && (forall s, v :: ActivityWrite(s, v) in w <==> s in copy && copy[s] == v)
            && (forall i, j :: 0 <= i < j < |w| ==> w[i].sessionId != w[j].sessionId)
  {
    var w := WritesFor(copy, order);
    assert Elements(order) == copy.Keys;
    DistinctCard(order);
    forall s, v | ActivityWrite(s, v) in w
      ensures s in copy && copy[s] == v
    {
      var i :| 0 <= i < |w| && w[i] == ActivityWrite(s, v);
    }
    forall s, v | s in copy && copy[s] == v
      ensures ActivityWrite(s, v) in w
    {
      var i :| 0 <= i < |order| && order[i] == s;
      assert w[i] == ActivityWrite(s, v);
    }
  }

  /**
   * The position in `order` of the first session whose write throws, or
   * `|order|` when none does.
   */
  function FirstFailure(order: seq<string>, fails: string -> bool): (k: nat)
    ensures k <= |order|
    ensures forall i :: 0 <= i < k ==> !fails(order[i])
    ensures k < |order| ==> fails(order[k])
  {
    if order == [] then 0
    else if fails(order[0]) then 0
    else FirstFailure(order[1..], fails) + 1
  }

  /** With no failing write, every copied entry is written: the whole of `WritesExactlyOnce` applies. */
  lemma NoFailureWritesAll(order: seq<string>, fails: string -> bool)
    requires forall s :: s in order ==> !fails(s)
    ensures FirstFailure(order, fails) == |order|
  {
    assert forall i :: 0 <= i < |order| ==> order[i] in order;
  }

  /** Writing one more session extends the writes by that session's entry. */
  lemma WritesForStep(copy: map<string, int>, order: seq<string>, i: nat)
    requires i < |order| && forall s :: s in order ==> s in copy
    ensures WritesFor(copy, order[..i + 1]) == WritesFor(copy, order[..i]) + [ActivityWrite(order[i], copy[order[i]])]
  {
    assert forall s :: s in order[..i + 1] ==> s in order;
  }

  /** A position with no failure before it, at the end or at a failure, is the first failure. */
  lemma FirstFailureAt(order: seq<string>, fails: string -> bool, i: nat)
    requires i <= |order| && (forall j :: 0 <= j < i ==> !fails(order[j]))
    requires i < |order| ==> fails(order[i])
    ensures FirstFailure(order, fails) == i
  {
  }

  /** A duplicate-free sequence has as many elements as its set. */
  lemma {:induction false} DistinctCard<T>(s: seq<T>)
    requires Distinct(s)
    ensures |Elements(s)| == |s|
  {
    if s != [] {
      var front := s[..|s| - 1];
      assert Distinct(front);
      DistinctCard(front);
      assert Elements(s) == Elements(front) + {s[|s| - 1]};
      assert s[|s| - 1] !in Elements(front);
    }
  }

  class SessionBatchUpdater {
    /** `SessionService`'s last-activity cache, by session id. */
    var lastActivityCache: map<string, int>
    /** Every store write, in order. */
    var writes: seq<ActivityWrite>

    constructor (cache: map<string, int>)
      ensures lastActivityCache == cache && writes == []
    {
      lastActivityCache := cache;
      writes := [];
    }

    /**
     * `flushLastActivityBatch`; the copy's entries are visited in `order`, the
     * map's iteration order, and `fails` says which sessions' writes throw.
     * The cache is empty afterwards.  The first throw ends the call
     * (`thrown`): the entries from the failing one on are written nowhere,
     * since the cache was cleared before the writes.
     */
    method FlushLastActivityBatch(fails: string -> bool) returns (order: seq<string>, thrown: bool)
      modifies this
      ensures lastActivityCache == map[]
      ensures Distinct(order) && (forall s :: s in order <==> s in old(lastActivityCache))
      ensures thrown <==> FirstFailure(order, fails) < |order|
      ensures writes == old(writes) + WritesFor(old(lastActivityCache), order[..FirstFailure(order, fails)])
    {
      var copy := lastActivityCache;
      lastActivityCache := map[];
      if copy == map[] {
        return [], false;
      }
      order := CopyToList(copy.Keys);
      var i := 0;
      while i < |order| && !fails(order[i])
        invariant i <= |order|
        invariant forall j :: 0 <= j < i ==> !fails(order[j])
        invariant lastActivityCache == map[]
        invariant writes == old(writes) + WritesFor(copy, order[..i])
      {
        WritesForStep(copy, order, i);
        writes := writes + [ActivityWrite(order[i], copy[order[i]])];
        i := i + 1;
      }
      FirstFailureAt(order, fails, i);
      thrown := i < |order|;
    }
  }
}
