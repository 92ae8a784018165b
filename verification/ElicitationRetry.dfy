/** The long-poll that asks the web for a verdict, re-posted across severed connections within a fixed
    budget of seconds. */
module ElicitationRetry {
  import opened Common

  const REQUEST_TIMEOUT: real := 86405.0
  const INITIAL_BACKOFF: real := 1.0
  const MAX_BACKOFF: real := 30.0

  const MOST_SLEEPS: nat := 2884

  /** What one POST came to: an HTTP status, or a transport error. */
  datatype Attempt = Responded(status: int) | TransportError

  predicate IsFinal(a: Attempt) { a.Responded? && a.status < 500 }

  function Doubled(backoff: real): real { if backoff * 2.0 < MAX_BACKOFF then backoff * 2.0 else MAX_BACKOFF }

  /** The length of sleep number `n`, counted from 0. */
  function Backoff(n: nat): (b: real)
    ensures 0.0 < b <= MAX_BACKOFF
  {
    if n == 0 then INITIAL_BACKOFF else Doubled(Backoff(n - 1))
  }

  /** The sleeps double from one second up to half a minute. */
  lemma {:induction false} BackoffSchedule(n: nat)
    ensures Backoff(n) == if n < 5 then [1.0, 2.0, 4.0, 8.0, 16.0][n] else 30.0
  {
    if n > 0 {
      BackoffSchedule(n - 1);
    }
  }

  /** The seconds the first `n` sleeps take at least. */
  function Slept(n: nat): real { if n == 0 then 0.0 else Slept(n - 1) + Backoff(n - 1) }

  lemma {:induction false} SleptClosedForm(n: nat)
    requires n >= 5
    ensures Backoff(n) == 30.0 && Slept(n) == 31.0 + 30.0 * (n - 5) as real
  {
    if n == 5 {
      assert Backoff(1) == 2.0 && Backoff(2) == 4.0 && Backoff(3) == 8.0 && Backoff(4) == 16.0;
      assert Slept(1) == 1.0 && Slept(2) == 3.0 && Slept(3) == 7.0 && Slept(4) == 15.0;
    } else {
      SleptClosedForm(n - 1);
    }
  }

  /** The budget has room for sleep number `n` exactly when at most `MOST_SLEEPS` sleeps are made, even
      if no time passes but in the sleeps. */
  lemma RoomForSleep(n: nat)
    ensures Slept(n) + Backoff(n) < REQUEST_TIMEOUT <==> n < MOST_SLEEPS
  {
    if n >= 5 {
      SleptClosedForm(n);
    } else {
      assert Slept(1) == 1.0 && Slept(2) == 3.0 && Slept(3) == 7.0 && Slept(4) == 15.0;
    }
  }

  /** `clock(0)` is read before the first POST and `clock(k)` after the k-th one. The clock never goes
      back and no sleep returns early. */
  ghost predicate FairClock(clock: nat -> real) {
    clock(0) <= clock(1) && forall k: nat :: k > 0 ==> clock(k) + Backoff(k - 1) <= clock(k + 1)
  }

  lemma {:induction false} TimePasses(clock: nat -> real, k: nat)
    requires FairClock(clock) && k > 0
    ensures clock(0) + Slept(k - 1) <= clock(k)
  {
    if k > 1 {
      TimePasses(clock, k - 1);
    }
  }

  /** Posts until an answer is final or the budget has no room for the next sleep; at most
      `MOST_SLEEPS + 1` times. */
  method PostElicitationRequest(attempt: nat -> Attempt, clock: nat -> real)
    returns (response: Option<int>, posts: nat)
    requires FairClock(clock)
    ensures 1 <= posts <= MOST_SLEEPS + 1
    ensures forall k :: 0 <= k < posts - 1 ==> attempt(k).TransportError? || attempt(k).status >= 500
    ensures response == match attempt(posts - 1) {
                          case TransportError => None
                          case Responded(status) => if status < 500 then Some(status) else None
                        }
    ensures response.None? ==> clock(posts) + Backoff(posts - 1) >= clock(0) + REQUEST_TIMEOUT
    ensures forall k :: 0 < k < posts ==> clock(k) + Backoff(k - 1) < clock(0) + REQUEST_TIMEOUT
  {
    var deadline := clock(0) + REQUEST_TIMEOUT;
    var backoff := INITIAL_BACKOFF;
    posts := 0;
    while true
      invariant posts <= MOST_SLEEPS && backoff == Backoff(posts)
      invariant forall k :: 0 <= k < posts ==> !IsFinal(attempt(k))
      invariant forall k :: 0 < k <= posts ==> clock(k) + Backoff(k - 1) < deadline
      decreases MOST_SLEEPS - posts
    {
      var sent := attempt(posts);
      posts := posts + 1;
      if IsFinal(sent) {
        return Some(sent.status), posts;
      }
      if clock(posts) + backoff >= deadline {
        return None, posts;
      }
      TimePasses(clock, posts);
      RoomForSleep(posts - 1);
      backoff := Doubled(backoff);
    }
  }
}
