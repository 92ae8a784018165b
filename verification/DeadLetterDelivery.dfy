/** From giving up on an event to its replays: which dead letters a startup posts, and how often the server
    commits an item in all. */
module DeadLetterDelivery {
  import opened Common
  import opened DeadLetters
  import opened DeadLetterRuns
  import PostDelivery

  type Attempt = PostDelivery.Attempt

  /** The request left and no response came back. */
  predicate Ambiguous(a: Attempt) {
    && a.Raised?
    && a.error != PostDelivery.ConnectError && a.error != PostDelivery.ConnectTimeout && a.error != PostDelivery.PoolTimeout
  }

  /** The record of an item that was given up after the attempt `last`. */
  function GivenUp(sessionId: string, eventType: string, payload: string, other: string, last: Attempt): Record {
    Record(sessionId, eventType, Some(payload), Some(Ambiguous(last)), if last.Responded? then Some(last.status) else None, other)
  }

  /** What a replay makes of one attempt. */
  function Result(a: Attempt): RepostResult {
    RepostResult(a.Responded? && a.status < 400, Ambiguous(a), if a.Responded? && a.status >= 400 then Some(a.status) else None)
  }

  // ----- which records are posted -----

  lemma {:induction false} StoppedMeansDeferred(es: seq<Entry>, s: Startup)
    ensures var p := ReplayEntries(es, FRESH, s);
            p.stop <==> p.deferred > 0
  {
    if es != [] {
      StoppedMeansDeferred(es[..|es| - 1], s);
    }
  }

  /** There is room in the budget for one more POST after those of `es`, and none has been put off. */
  predicate Room(es: seq<Entry>, s: Startup) {
    var p := ReplayEntries(es, FRESH, s);
    p.deferred == 0 && (s.maxRecords.Some? ==> p.attempted < s.maxRecords.value) && !s.expired(p.attempted)
  }

  /** A startup posts the entry after `es` exactly if there is room and it is a whole record whose failure was
      classified, was not ambiguous, and saw no response or one with a retryable status. */
  lemma PostedExactly(es: seq<Entry>, e: Entry, s: Startup)
    ensures var p, q := ReplayEntries(es, FRESH, s), ReplayEntries(es + [e], FRESH, s);
            q.attempted == p.attempted +
                           if && Room(es, s) && e.Dropped?
                              && e.record.sessionId != "" && e.record.eventType != "" && e.record.payload.Some?
                              && e.record.ambiguous == Some(false)
                              && (e.record.httpStatus.Some? ==> e.record.httpStatus.value in s.retryable)
                           then 1 else 0
  {
    assert (es + [e])[..|es|] == es;
    StoppedMeansDeferred(es, s);
  }

  /** What becomes of an entry that is posted: gone if the server took it, else kept with its classification
      refreshed; any other entry is kept as it is. */
  lemma KeptExactly(es: seq<Entry>, e: Entry, s: Startup)
    ensures var p, q := ReplayEntries(es, FRESH, s), ReplayEntries(es + [e], FRESH, s);
            q.retained == p.retained +
                          if q.attempted == p.attempted then [e]
                          else if s.repost(p.attempted).delivered then []
                          else [Dropped(e.record.(ambiguous := Some(s.repost(p.attempted).ambiguous),
                                                  httpStatus := s.repost(p.attempted).httpStatus))]
  {
    assert (es + [e])[..|es|] == es;
  }

  /** The delivery loop gave up on an item: its last attempt was not taken. */
  ghost predicate GaveUp(attempt: nat -> Attempt, made: nat, maxAttempts: nat, retryStatusCodes: set<int>) {
    && made == PostDelivery.MadeFrom(attempt, 0, true, maxAttempts, retryStatusCodes) && made > 0
    && !(attempt(made - 1).Responded? && attempt(made - 1).status < 400)
  }

  /** With room in the budget, the record of an item that the delivery loop gave up is posted exactly if the
      last attempt was no ambiguous failure and no response with a status outside the retry set. */
  lemma GivenUpIsPosted(attempt: nat -> Attempt, made: nat, maxAttempts: nat, sessionId: string, eventType: string,
                        payload: string, other: string, es: seq<Entry>, s: Startup)
    requires GaveUp(attempt, made, maxAttempts, s.retryable) && sessionId != "" && eventType != "" && Room(es, s)
    ensures var last := attempt(made - 1);
            var e := Dropped(GivenUp(sessionId, eventType, payload, other, last));
            ReplayEntries(es + [e], FRESH, s).attempted == ReplayEntries(es, FRESH, s).attempted +
                                                           if Ambiguous(last) || (last.Responded? && last.status !in s.retryable) then 0 else 1
  {
    PostedExactly(es, Dropped(GivenUp(sessionId, eventType, payload, other, attempt(made - 1))), s);
  }

  /** A record without a classification is never posted. */
  lemma UnclassifiedIsNeverPosted(es: seq<Entry>, r: Record, s: Startup)
    requires r.ambiguous.None?
    ensures ReplayEntries(es + [Dropped(r)], FRESH, s).attempted == ReplayEntries(es, FRESH, s).attempted
  {
    PostedExactly(es, Dropped(r), s);
  }

  // ----- an item is committed once in all -----

  /** The n-th POST of the startup is the attempt `tries(n)` for an item. */
  ghost predicate Tries(s: Startup, tries: nat -> Attempt) {
    forall n: nat :: s.repost(n) == Result(tries(n)) && s.committed(n) == tries(n).committed && PostDelivery.Honest(tries(n))
  }

  lemma TriesAreHonest(s: Startup, tries: nat -> Attempt)
    requires Tries(s, tries)
    ensures Honest(s)
  {
  }

  lemma {:induction false} OnlyTheLastCommits(attempt: nat -> Attempt, k: nat, maxAttempts: nat, retryStatusCodes: set<int>)
    requires k <= maxAttempts && PostDelivery.Commits(attempt, k) == 0
    requires forall j :: PostDelivery.Honest(attempt(j))
    ensures var made := PostDelivery.MadeFrom(attempt, k, true, maxAttempts, retryStatusCodes);
            PostDelivery.Commits(attempt, made) == if made > k && attempt(made - 1).committed then 1 else 0
    decreases maxAttempts - k
  {
    if k < maxAttempts && !PostDelivery.Ends(attempt(k), true, retryStatusCodes) {
      OnlyTheLastCommits(attempt, k + 1, maxAttempts, retryStatusCodes);
      assert !attempt(k).committed;
    }
  }

  /** An item that the delivery loop gave up, and whose record was appended as entry `i`, is committed at most
      once in all, by the loop and by all replays together, over any sequence of appends and startups. */
  lemma ItemCommittedOnceInAll(attempt: nat -> Attempt, made: nat, maxAttempts: nat, sessionId: string, eventType: string,
                               payload: string, other: string, f: Files, events: seq<Event>, i: nat, retryable: set<int>)
    requires GaveUp(attempt, made, maxAttempts, retryable) && forall j :: PostDelivery.Honest(attempt(j))
    requires forall v :: v in events && v.Started? ==> v.s.retryable == retryable && exists tries :: Tries(v.s, tries)
    requires i < |AllEntries(f, events)|
    requires AllEntries(f, events)[i] == Dropped(GivenUp(sessionId, eventType, payload, other, attempt(made - 1)))
    ensures i < |LedgerAfter(Start(f), events).slots|
    ensures PostDelivery.Commits(attempt, made) + LedgerAfter(Start(f), events).slots[i].commits <= 1
  {
    hide LedgerAfter, AllEntries, OldestFirst;
    forall v | v in events && v.Started?
      ensures Honest(v.s)
    {
      var tries :| Tries(v.s, tries);
      TriesAreHonest(v.s, tries);
    }
    EveryRecordAccountedFor(f, events, retryable);
    OnlyTheLastCommits(attempt, 0, maxAttempts, retryable);
    var e := AllEntries(f, events)[i];
    assert AccountedFor(e, LedgerAfter(Start(f), events).slots[i], retryable);
    if attempt(made - 1).committed {
      assert Ambiguous(attempt(made - 1)) && !Replayable(e, retryable);
    }
  }
}
