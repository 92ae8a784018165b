/** Posting one session event with bounded retries, to a server that appends conversation items without
    deduplicating them, and what that makes of a whole reader run. */
module PostDelivery {
  import opened Common
  import opened TrajectorySteps
  import opened CommittedChannel

  const POST_MAX_ATTEMPTS: nat := 3
  const POST_RETRY_STATUS_CODES := {408, 409, 425, 429, 500, 502, 503, 504}

  datatype TransportError = ConnectError | ConnectTimeout | PoolTimeout | OtherTransport

  /** One POST as it went. Whether the server committed the event is hidden from the poster. */
  datatype Attempt =
    | Responded(status: int, committed: bool)
    | Raised(error: TransportError, committed: bool)

  /** The request may have reached the server though no response was seen. */
  predicate MayHaveBeenDelivered(error: TransportError) { error.OtherTransport? }

  /** The server commits nothing that it answers with an error or that never reached it. */
  predicate Honest(a: Attempt) {
    a.committed ==>
      match a
      case Responded(status, _) => status < 400
      case Raised(error, _) => error != ConnectError && error != ConnectTimeout && error != PoolTimeout
  }

  /** The retry loop ends with this attempt though it may have attempts left. */
  predicate Ends(a: Attempt, isItem: bool, retryStatusCodes: set<int>) {
    match a
    case Responded(status, _) => status < 400 || status !in retryStatusCodes
    case Raised(error, _) => isItem && MayHaveBeenDelivered(error)
  }

  /** An attempt after which the next one is made, if there may be one: a retryable error status, a failure
      to connect, or any transport failure of an event that is not an item. */
  predicate Retried(a: Attempt, isItem: bool, retryStatusCodes: set<int>) {
    match a
    case Responded(status, _) => status >= 400 && status in retryStatusCodes
    case Raised(error, _) => !isItem || error == ConnectError || error == ConnectTimeout || error == PoolTimeout
  }

  /** How many attempts are made, from attempt `k` on. */
  function MadeFrom(attempt: nat -> Attempt, k: nat, isItem: bool, maxAttempts: nat, retryStatusCodes: set<int>): (n: nat)
    requires k <= maxAttempts
    ensures k <= n <= maxAttempts
    decreases maxAttempts - k
  {
    if k == maxAttempts then k
    else if Ends(attempt(k), isItem, retryStatusCodes) then k + 1
    else MadeFrom(attempt, k + 1, isItem, maxAttempts, retryStatusCodes)
  }

  /** How often the first `n` attempts commit the event. */
  function Commits(attempt: nat -> Attempt, n: nat): nat {
    if n == 0 then 0 else Commits(attempt, n - 1) + if attempt(n - 1).committed then 1 else 0
  }

  method PostSessionEventWithRetry(attempt: nat -> Attempt, isItem: bool, maxAttempts: nat, retryStatusCodes: set<int>)
    returns (response: Option<int>, made: nat)
    ensures made == MadeFrom(attempt, 0, isItem, maxAttempts, retryStatusCodes)
    ensures response == if made > 0 && attempt(made - 1).Responded? then Some(attempt(made - 1).status) else None
    ensures maxAttempts > 0 ==> made > 0
    ensures forall k :: 0 <= k < made - 1 ==> Retried(attempt(k), isItem, retryStatusCodes)
    ensures 0 < made < maxAttempts ==> !Retried(attempt(made - 1), isItem, retryStatusCodes)
    ensures isItem && (forall k :: Honest(attempt(k))) ==> Commits(attempt, made) <= 1
  {
    made := 0;
    while made < maxAttempts
      invariant made <= maxAttempts
      invariant MadeFrom(attempt, 0, isItem, maxAttempts, retryStatusCodes) ==
                MadeFrom(attempt, made, isItem, maxAttempts, retryStatusCodes)
      invariant made > 0 ==> made < maxAttempts
      invariant forall k :: 0 <= k < made ==> !Ends(attempt(k), isItem, retryStatusCodes)
      invariant isItem && (forall k :: Honest(attempt(k))) ==> Commits(attempt, made) == 0
      decreases maxAttempts - made
    {
      var sent := attempt(made);
      made := made + 1;
      match sent {
        case Raised(error, _) =>
          if isItem && MayHaveBeenDelivered(error) {
            return None, made;
          }
          if made >= maxAttempts {
            return None, made;
          }
        case Responded(status, _) =>
          if status < 400 {
            return Some(status), made;
          }
          if status !in retryStatusCodes {
            return Some(status), made;
          }
          if made >= maxAttempts {
            return Some(status), made;
          }
      }
    }
    return None, made;
  }

  lemma {:induction false} ItemCommittedAtMostOnce(attempt: nat -> Attempt, k: nat, maxAttempts: nat, retryStatusCodes: set<int>)
    requires k <= maxAttempts && Commits(attempt, k) == 0
    requires forall j :: Honest(attempt(j))
    ensures Commits(attempt, MadeFrom(attempt, k, true, maxAttempts, retryStatusCodes)) <= 1
    decreases maxAttempts - k
  {
    if k < maxAttempts && !Ends(attempt(k), true, retryStatusCodes) {
      ItemCommittedAtMostOnce(attempt, k + 1, maxAttempts, retryStatusCodes);
    }
  }

  /** An event that is not an item is retried after an ambiguous failure, and so can be committed as
      often as there are attempts. */
  lemma OthersCanBeCommittedRepeatedly(maxAttempts: nat)
    requires maxAttempts > 0
    ensures var attempt := (k: nat) => if k + 1 < maxAttempts then Raised(OtherTransport, true) else Responded(200, true);
            && (forall k :: Honest(attempt(k)))
            && Commits(attempt, MadeFrom(attempt, 0, false, maxAttempts, POST_RETRY_STATUS_CODES)) == maxAttempts
  {
    var attempt := (k: nat) => if k + 1 < maxAttempts then Raised(OtherTransport, true) else Responded(200, true);
    var k := 0;
    while k < maxAttempts - 1
      invariant k <= maxAttempts - 1 && Commits(attempt, k) == k
      invariant MadeFrom(attempt, 0, false, maxAttempts, POST_RETRY_STATUS_CODES) ==
                MadeFrom(attempt, k, false, maxAttempts, POST_RETRY_STATUS_CODES)
    {
      k := k + 1;
    }
  }

  // ----- a whole reader run -----

  /** How the attempts for each posted event went. */
  type Network = nat -> (nat -> Attempt)

  /** How many copies of post number `i` the server committed. */
  function Copies(posts: seq<Post>, network: Network, i: nat): nat
    requires i < |posts|
  {
    Commits(network(i), MadeFrom(network(i), 0, IsConversationItem(posts[i].event), POST_MAX_ATTEMPTS, POST_RETRY_STATUS_CODES))
  }

  /** The items the server holds for `key` after the posts, copies included. */
  function ServerItems(key: StepKey, posts: seq<Post>, network: Network): multiset<Event> {
    if posts == [] then multiset{}
    else
      var n := |posts| - 1;
      var held := ServerItems(key, posts[..n], network);
      if posts[n].key == key && IsConversationItem(posts[n].event)
      then held + multiset{}[posts[n].event := Copies(posts, network, n)]
      else held
  }

  lemma {:induction false} ServerHoldsNoMoreThanPosted(key: StepKey, posts: seq<Post>, network: Network)
    requires forall i, j :: Honest(network(i)(j))
    ensures ServerItems(key, posts, network) <= multiset(ItemsFor(key, posts))
  {
    if posts != [] {
      var n := |posts| - 1;
      ServerHoldsNoMoreThanPosted(key, posts[..n], network);
      if IsConversationItem(posts[n].event) {
        ItemCommittedAtMostOnce(network(n), 0, POST_MAX_ATTEMPTS, POST_RETRY_STATUS_CODES);
      }
    }
  }

  /** Over a whole reader run, with every step sighted any number of times and any failures on the
      way, the server holds at most one copy of each item of each step: no more than the mapper gives
      for the step's first settled sighting. */
  lemma EachItemCommittedAtMostOnce(os: seq<Sighting>, conversation: string, catalog: Catalog, network: Network, key: StepKey)
    requires forall i, j :: Honest(network(i)(j))
    ensures var steps := FirstSettled(os, {});
            var held := ServerItems(key, ObserveAll(os, {}, Start(conversation), catalog).1.posts, network);
            && (key !in Keys(steps) ==> held == multiset{})
            && forall i :: 0 <= i < |steps| && KeyOf(steps[i]) == key ==>
                             held <= multiset(MapStep(steps[i], Fold(steps[..i], Start(conversation), catalog).allocation).0)
  {
    hide MapStep, Fold, ObserveAll;
    var start, steps := Start(conversation), FirstSettled(os, {});
    OneFoldOverFirstSettled(os, {}, start, catalog);
    FirstSettledIsNew(os, {});
    ItemsPostedOncePerStep(steps, start, catalog, key);
    ServerHoldsNoMoreThanPosted(key, Fold(steps, start, catalog).posts, network);
    assert ItemsFor(key, start.posts) == [];
    forall i | 0 <= i < |steps| && KeyOf(steps[i]) == key
      ensures ItemsFor(key, Fold(steps, start, catalog).posts) == MapStep(steps[i], Fold(steps[..i], start, catalog).allocation).0
    {
      assert [] + MapStep(steps[i], Fold(steps[..i], start, catalog).allocation).0
          == MapStep(steps[i], Fold(steps[..i], start, catalog).allocation).0;
    }
  }
}
