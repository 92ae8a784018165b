/** The interaction bridge: ask for a verdict on a waiting step, re-read, deliver, and start over against
    the retry step when the agent has timed the step out meanwhile. */
module InteractionBridge {
  import opened Common
  import opened TrajectorySteps

  type Snapshot = seq<Step>

  // ----- picking a step -----

  predicate Eligible(step: Step, kind: InteractionKind, after: Option<int>) {
    match Pending(step)
    case None => false
    case Some(p) => p.kind == kind && (after.None? || p.stepIndex > after.value)
  }

  /** The first of the eligible waiting steps with the highest index. */
  function Freshest(steps: Snapshot, kind: InteractionKind, after: Option<int>): Option<PendingInteraction> {
    if steps == [] then None
    else
      var best, last := Freshest(steps[..|steps| - 1], kind, after), steps[|steps| - 1];
      if Eligible(last, kind, after) && (best.None? || Pending(last).value.stepIndex > best.value.stepIndex)
      then Pending(last)
      else best
  }

  ghost predicate IsFreshest(best: Option<PendingInteraction>, steps: Snapshot, kind: InteractionKind, after: Option<int>) {
    match best
    case None => forall s :: s in steps ==> !Eligible(s, kind, after)
    case Some(p) =>
      && (exists s :: s in steps && Eligible(s, kind, after) && Pending(s) == best)
      && forall s :: s in steps && Eligible(s, kind, after) ==> Pending(s).value.stepIndex <= p.stepIndex
  }

  method FreshestWaiting(steps: Snapshot, kind: InteractionKind, after: Option<int>)
    returns (best: Option<PendingInteraction>)
    ensures best == Freshest(steps, kind, after)
    ensures IsFreshest(best, steps, kind, after)
  {
    best := None;
    for i := 0 to |steps|
      invariant best == Freshest(steps[..i], kind, after)
    {
      assert steps[..i + 1][..i] == steps[..i];
      var pending := Pending(steps[i]);
      if pending.None? {
        continue;
      }
      if after.Some? && pending.value.stepIndex <= after.value {
        continue;
      }
      if pending.value.kind != kind {
        continue;
      }
      if best.None? || pending.value.stepIndex > best.value.stepIndex {
        best := pending;
      }
    }
    assert steps[..|steps|] == steps;
    FreshestIsFreshest(steps, kind, after);
  }

  lemma {:induction false} FreshestIsFreshest(steps: Snapshot, kind: InteractionKind, after: Option<int>)
    ensures IsFreshest(Freshest(steps, kind, after), steps, kind, after)
  {
    if steps != [] {
      var init, last := steps[..|steps| - 1], steps[|steps| - 1];
      FreshestIsFreshest(init, kind, after);
      assert steps == init + [last];
      assert last in steps;
    }
  }

  predicate WaitsAt(step: Step, trajectoryId: string, stepIndex: int) {
    match Pending(step)
    case None => false
    case Some(p) => p.trajectoryId == trajectoryId && p.stepIndex == stepIndex
  }

  function StepAt(steps: Snapshot, trajectoryId: string, stepIndex: int): Option<PendingInteraction> {
    if steps == [] then None
    else if WaitsAt(steps[0], trajectoryId, stepIndex) then Pending(steps[0])
    else StepAt(steps[1..], trajectoryId, stepIndex)
  }

  lemma {:induction false} StepAtFinds(steps: Snapshot, trajectoryId: string, stepIndex: int)
    ensures var found := StepAt(steps, trajectoryId, stepIndex);
            && (found.Some? <==> exists s :: s in steps && WaitsAt(s, trajectoryId, stepIndex))
            && (found.Some? ==> found.value.trajectoryId == trajectoryId && found.value.stepIndex == stepIndex)
            && (found.Some? ==> exists s :: s in steps && Pending(s) == found)
  {
    hide Pending;
    if steps != [] {
      StepAtFinds(steps[1..], trajectoryId, stepIndex);
      assert steps == [steps[0]] + steps[1..];
    }
  }

  method WaitingStepAt(steps: Snapshot, trajectoryId: string, stepIndex: int) returns (found: Option<PendingInteraction>)
    ensures found == StepAt(steps, trajectoryId, stepIndex)
  {
    assert steps[0..] == steps;
    for i := 0 to |steps|
      invariant StepAt(steps[i..], trajectoryId, stepIndex) == StepAt(steps, trajectoryId, stepIndex)
    {
      assert steps[i..][0] == steps[i] && steps[i..][1..] == steps[i + 1..];
      var pending := Pending(steps[i]);
      if pending.None? {
        continue;
      }
      if pending.value.trajectoryId == trajectoryId && pending.value.stepIndex == stepIndex {
        return pending;
      }
    }
    return None;
  }

  /** Where a verdict on `asked` goes: to the step asked about while it waits, else to the freshest of
      its kind. */
  function Target(asked: PendingInteraction, steps: Snapshot): Option<PendingInteraction> {
    var pinned := StepAt(steps, asked.trajectoryId, asked.stepIndex);
    if pinned.Some? then pinned else Freshest(steps, asked.kind, None)
  }

  // ----- one bridge run -----

  type Verdict = string

  datatype Delivery = Accepted | NotRegistered | Failed

  /** What the world does in one iteration. A verdict of None is a timeout, a cancel or a rejection; a
      read of None raised. */
  datatype Round = Round(verdict: Option<Verdict>, reread: Option<Snapshot>, delivery: Delivery, retryRead: Option<Snapshot>)

  datatype BridgeEvent =
    | Asked(asked: PendingInteraction)
    | Sent(asked: PendingInteraction, target: PendingInteraction, verdict: Verdict, accepted: bool)

  /** What a bridge does from iteration `k` on. */
  function Bridge(current: PendingInteraction, rounds: nat -> Round, k: nat, maxRetries: nat): seq<BridgeEvent>
    decreases maxRetries - k
  {
    if k >= maxRetries then []
    else
      var r := rounds(k);
      if r.verdict.None? || r.reread.None? then [Asked(current)]
      else
        match Target(current, r.reread.value)
        case None => [Asked(current)]
        case Some(target) =>
          [Asked(current), Sent(current, target, r.verdict.value, r.delivery == Accepted)] + Retry(current, target, rounds, k, maxRetries)
  }

  function Retry(current: PendingInteraction, target: PendingInteraction, rounds: nat -> Round, k: nat, maxRetries: nat): seq<BridgeEvent>
    requires k < maxRetries
    decreases maxRetries - k, 0
  {
    var r := rounds(k);
    if r.delivery != NotRegistered || r.retryRead.None? then []
    else
      match Freshest(r.retryRead.value, current.kind, Some(target.stepIndex))
      case None => []
      case Some(retry) => Bridge(retry, rounds, k + 1, maxRetries)
  }

  // ----- the exchange, round by round -----

  predicate SameIds(p: PendingInteraction, q: PendingInteraction) { p.trajectoryId == q.trajectoryId && p.stepIndex == q.stepIndex }

  /** Some step waits under the ids asked about. */
  predicate StillWaits(asked: PendingInteraction, steps: Snapshot) {
    exists s :: s in steps && Pending(s).Some? && SameIds(Pending(s).value, asked)
  }

  /** Some gate of the kind waits above the bound. */
  predicate KindWaits(kind: InteractionKind, above: Option<int>, steps: Snapshot) {
    exists s :: s in steps && Pending(s).Some? && Pending(s).value.kind == kind
                && (above.Some? ==> Pending(s).value.stepIndex > above.value)
  }

  /** `p` waits, is of the kind and above the bound, and no such gate is higher. */
  ghost predicate HighestOfKind(p: PendingInteraction, kind: InteractionKind, above: Option<int>, steps: Snapshot) {
    && p.kind == kind && (above.Some? ==> p.stepIndex > above.value)
    && (exists s :: s in steps && Pending(s) == Some(p))
    && forall s :: s in steps && Pending(s).Some? && Pending(s).value.kind == kind ==> Pending(s).value.stepIndex <= p.stepIndex
  }

  /** A question is answered exactly if its round gave a verdict and the re-read showed the ids asked about,
      or a gate of the kind, waiting; and the verdict goes to the ids asked about while they wait, else to
      the highest gate of the kind. */
  ghost predicate Answered(asked: PendingInteraction, answer: Option<BridgeEvent>, r: Round) {
    && (answer.Some? <==>
        r.verdict.Some? && r.reread.Some? && (StillWaits(asked, r.reread.value) || KindWaits(asked.kind, None, r.reread.value)))
    && (answer.Some? ==>
          && answer.value.Sent? && answer.value.asked == asked && Some(answer.value.verdict) == r.verdict
          && (answer.value.accepted <==> r.delivery == Accepted)
          && (if StillWaits(asked, r.reread.value)
              then SameIds(answer.value.target, asked) && (exists s :: s in r.reread.value && Pending(s) == Some(answer.value.target))
              else HighestOfKind(answer.value.target, asked.kind, None, r.reread.value)))
  }

  /** An answer is followed by another question exactly if the agent no longer had the step registered, the
      retry read shows a gate of the kind above the target, and retries are left; the question is about
      the highest such gate. */
  ghost predicate AskedAgain(sent: BridgeEvent, again: Option<BridgeEvent>, r: Round, left: bool)
    requires sent.Sent?
  {
    && (again.Some? <==>
        && left && r.delivery == NotRegistered && r.retryRead.Some?
        && KindWaits(sent.asked.kind, Some(sent.target.stepIndex), r.retryRead.value))
    && (again.Some? ==>
          again.value.Asked?
          && HighestOfKind(again.value.asked, sent.asked.kind, Some(sent.target.stepIndex), r.retryRead.value))
  }

  function EventAt(events: seq<BridgeEvent>, i: nat): Option<BridgeEvent> { if i < |events| then Some(events[i]) else None }

  /** Questions stand at even places and answers at odd ones, and each is followed by what its round calls
      for. */
  ghost predicate TurnAt(events: seq<BridgeEvent>, i: nat, rounds: nat -> Round, k: nat, maxRetries: nat)
    requires i < |events|
  {
    var round := k + i / 2;
    if i % 2 == 0 then events[i].Asked? && Answered(events[i].asked, EventAt(events, i + 1), rounds(round))
    else events[i].Sent? && AskedAgain(events[i], EventAt(events, i + 1), rounds(round), round + 1 < maxRetries)
  }

  /** The exchange that the rounds from `k` on call for, from the question about `pending` on. */
  ghost predicate Exchange(events: seq<BridgeEvent>, pending: PendingInteraction, rounds: nat -> Round, k: nat, maxRetries: nat) {
    && EventAt(events, 0) == (if k < maxRetries then Some(Asked(pending)) else None)
    && forall i :: 0 <= i < |events| ==> TurnAt(events, i, rounds, k, maxRetries)
  }

  lemma TargetFits(asked: PendingInteraction, steps: Snapshot)
    ensures var target := Target(asked, steps);
            && (target.Some? <==> StillWaits(asked, steps) || KindWaits(asked.kind, None, steps))
            && (target.Some? ==>
                  if StillWaits(asked, steps)
                  then SameIds(target.value, asked) && exists s :: s in steps && Pending(s) == target
                  else HighestOfKind(target.value, asked.kind, None, steps))
  {
    hide Pending, Freshest, StepAt;
    StepAtFinds(steps, asked.trajectoryId, asked.stepIndex);
    assert StillWaits(asked, steps) <==> exists s :: s in steps && WaitsAt(s, asked.trajectoryId, asked.stepIndex);
    FreshestFits(steps, asked.kind, None);
  }

  lemma FreshestFits(steps: Snapshot, kind: InteractionKind, after: Option<int>)
    ensures var best := Freshest(steps, kind, after);
            && (best.Some? <==> KindWaits(kind, after, steps))
            && (best.Some? ==> HighestOfKind(best.value, kind, after, steps))
  {
    hide Pending, Freshest;
    FreshestIsFreshest(steps, kind, after);
    assert KindWaits(kind, after, steps) <==> exists s :: s in steps && Eligible(s, kind, after);
  }

  lemma ExchangeOneMore(asked: PendingInteraction, sent: BridgeEvent, rest: seq<BridgeEvent>, rounds: nat -> Round, k: nat, maxRetries: nat)
    requires k < maxRetries && sent.Sent?
    requires Answered(asked, Some(sent), rounds(k))
    requires AskedAgain(sent, EventAt(rest, 0), rounds(k), k + 1 < maxRetries)
    requires rest != [] ==> rest[0].Asked? && Exchange(rest, rest[0].asked, rounds, k + 1, maxRetries)
    ensures Exchange([Asked(asked), sent] + rest, asked, rounds, k, maxRetries)
  {
    hide Answered, AskedAgain;
    var events := [Asked(asked), sent] + rest;
    assert EventAt(events, 1) == Some(sent) && EventAt(events, 2) == EventAt(rest, 0);
    assert TurnAt(events, 0, rounds, k, maxRetries) && TurnAt(events, 1, rounds, k, maxRetries);
    forall i | 2 <= i < |events|
      ensures TurnAt(events, i, rounds, k, maxRetries)
    {
      LaterTurn(Asked(asked), sent, rest, i - 2, rounds, k, maxRetries);
    }
  }

  lemma LaterTurn(asked: BridgeEvent, sent: BridgeEvent, rest: seq<BridgeEvent>, i: nat, rounds: nat -> Round, k: nat, maxRetries: nat)
    requires i < |rest| && TurnAt(rest, i, rounds, k + 1, maxRetries)
    ensures TurnAt([asked, sent] + rest, i + 2, rounds, k, maxRetries)
  {
    hide Answered, AskedAgain;
    var events := [asked, sent] + rest;
    assert events[i + 2] == rest[i] && EventAt(events, i + 3) == EventAt(rest, i + 1);
    assert k + 1 + i / 2 == k + (i + 2) / 2;
  }

  /** What a bridge does is the exchange that its rounds call for. */
  lemma {:induction false} BridgeIsExchange(current: PendingInteraction, rounds: nat -> Round, k: nat, maxRetries: nat)
    ensures Exchange(Bridge(current, rounds, k, maxRetries), current, rounds, k, maxRetries)
    decreases maxRetries - k
  {
    hide Target, Freshest, StillWaits, KindWaits, HighestOfKind, SameIds;
    if k < maxRetries {
      var r, events := rounds(k), Bridge(current, rounds, k, maxRetries);
      if r.reread.Some? { TargetFits(current, r.reread.value); }
      if r.verdict.Some? && r.reread.Some? && Target(current, r.reread.value).Some? {
        var target := Target(current, r.reread.value).value;
        var rest := Retry(current, target, rounds, k, maxRetries);
        assert events == [events[0], events[1]] + rest;
        if r.retryRead.Some? {
          FreshestFits(r.retryRead.value, current.kind, Some(target.stepIndex));
          var retry := Freshest(r.retryRead.value, current.kind, Some(target.stepIndex));
          if retry.Some? {
            BridgeIsExchange(retry.value, rounds, k + 1, maxRetries);
          }
        }
        ExchangeOneMore(current, events[1], rest, rounds, k, maxRetries);
      }
    }
  }

  method BridgeInteraction(pending: PendingInteraction, rounds: nat -> Round, maxRetries: nat)
    returns (events: seq<BridgeEvent>)
    ensures events == Bridge(pending, rounds, 0, maxRetries)
    ensures Exchange(events, pending, rounds, 0, maxRetries)
  {
    hide Freshest, StepAt, IsFreshest, Exchange;
    BridgeIsExchange(pending, rounds, 0, maxRetries);
    events := [];
    var current := pending;
    for attempt := 0 to maxRetries
      invariant events + Bridge(current, rounds, attempt, maxRetries) == Bridge(pending, rounds, 0, maxRetries)
    {
      ghost var before := events;
      var r := rounds(attempt);
      events := events + [Asked(current)];
      if r.verdict.None? {
        return;
      }
      if r.reread.None? {
        return;
      }
      var steps := r.reread.value;
      var target := WaitingStepAt(steps, current.trajectoryId, current.stepIndex);
      if target.None? {
        target := FreshestWaiting(steps, current.kind, None);
      }
      if target.None? {
        return;
      }
      events := events + [Sent(current, target.value, r.verdict.value, r.delivery == Accepted)];
      ghost var more := Retry(current, target.value, rounds, attempt, maxRetries);
      assert events + more == Bridge(pending, rounds, 0, maxRetries) by {
        assert events + more == before + ([Asked(current), events[|events| - 1]] + more);
      }
      assert more == [] ==> events + more == events;
      if r.delivery != NotRegistered {
        return;
      }
      if r.retryRead.None? {
        return;
      }
      var retry := FreshestWaiting(r.retryRead.value, current.kind, Some(target.value.stepIndex));
      if retry.None? {
        return;
      }
      current := retry.value;
    }
    assert events + [] == events;
  }

  // ----- what every run keeps, whatever the agent does -----

  function Questions(events: seq<BridgeEvent>): seq<int> {
    if events == [] then []
    else (if events[0].Asked? then [events[0].asked.stepIndex] else []) + Questions(events[1..])
  }

  /** Every verdict sent follows the question it answers, and nothing follows one that was accepted. */
  ghost predicate InTurn(events: seq<BridgeEvent>) {
    forall i :: 0 <= i < |events| ==>
                  && (events[i].Sent? ==> i > 0 && events[i - 1] == Asked(events[i].asked))
                  && (events[i].Sent? && events[i].accepted ==> i == |events| - 1)
  }

  /** The verdict sent in the round of event `i` is the one given in that round, it goes to a step that
      the round's re-read showed waiting, and it counts as accepted only if the agent took it. */
  predicate FromItsRound(event: BridgeEvent, r: Round) {
    event.Sent? ==>
      && r.verdict == Some(event.verdict)
      && r.reread.Some? && (exists s :: s in r.reread.value && Pending(s) == Some(event.target))
      && (event.accepted <==> r.delivery == Accepted)
  }

  ghost predicate EachFromItsRound(events: seq<BridgeEvent>, rounds: nat -> Round, k: nat) {
    forall i :: 0 <= i < |events| ==> FromItsRound(events[i], rounds(k + i / 2))
  }

  lemma OneRoundMore(asked: BridgeEvent, sent: BridgeEvent, rest: seq<BridgeEvent>, rounds: nat -> Round, k: nat)
    requires FromItsRound(asked, rounds(k)) && FromItsRound(sent, rounds(k)) && EachFromItsRound(rest, rounds, k + 1)
    ensures EachFromItsRound([asked, sent] + rest, rounds, k)
  {
    hide FromItsRound;
    var events := [asked, sent] + rest;
    assert forall i :: 2 <= i < |events| ==> events[i] == rest[i - 2] && k + 1 + (i - 2) / 2 == k + i / 2;
  }

  lemma TargetIsWaiting(asked: PendingInteraction, steps: Snapshot)
    requires Target(asked, steps).Some?
    ensures exists s :: s in steps && Pending(s) == Target(asked, steps)
  {
    hide Pending, Freshest, StepAt;
    StepAtFinds(steps, asked.trajectoryId, asked.stepIndex);
    FreshestIsFreshest(steps, asked.kind, None);
  }

  /** No verdict is sent that was not given in its own round, nor to a step that round did not show
      waiting. */
  lemma {:induction false} VerdictsFromTheirRounds(current: PendingInteraction, rounds: nat -> Round, k: nat, maxRetries: nat)
    requires k <= maxRetries
    ensures EachFromItsRound(Bridge(current, rounds, k, maxRetries), rounds, k)
    decreases maxRetries - k
  {
    hide Target, Freshest, Pending;
    if k < maxRetries {
      var events, r := Bridge(current, rounds, k, maxRetries), rounds(k);
      if r.verdict.Some? && r.reread.Some? && Target(current, r.reread.value).Some? {
        var target := Target(current, r.reread.value).value;
        TargetIsWaiting(current, r.reread.value);
        var rest := Retry(current, target, rounds, k, maxRetries);
        if rest != [] {
          VerdictsFromTheirRounds(Freshest(r.retryRead.value, current.kind, Some(target.stepIndex)).value, rounds, k + 1, maxRetries);
        }
        OneRoundMore(events[0], events[1], rest, rounds, k);
      }
    }
  }

  lemma QuestionsAfterFirst(asked: PendingInteraction, sent: BridgeEvent, rest: seq<BridgeEvent>)
    requires sent.Sent?
    ensures Questions([Asked(asked), sent] + rest) == [asked.stepIndex] + Questions(rest)
    ensures Questions([Asked(asked)]) == [asked.stepIndex]
  {
    var events := [Asked(asked), sent] + rest;
    assert events[1..] == [sent] + rest && events[1..][1..] == rest;
    assert [Asked(asked)][1..] == [];
  }

  lemma InTurnOneMore(asked: PendingInteraction, sent: BridgeEvent, rest: seq<BridgeEvent>)
    requires sent.Sent? && sent.asked == asked && InTurn(rest)
    requires rest != [] ==> rest[0].Asked? && !sent.accepted
    ensures InTurn([Asked(asked), sent] + rest)
  {
    var events := [Asked(asked), sent] + rest;
    assert forall i :: 2 <= i < |events| ==> events[i] == rest[i - 2];
  }

  /** At most `maxRetries` questions are asked, each verdict sent follows its own question, and at most
      one is accepted, which ends the run. */
  lemma {:induction false} QuestionsBounded(current: PendingInteraction, rounds: nat -> Round, k: nat, maxRetries: nat)
    requires k <= maxRetries
    ensures var events := Bridge(current, rounds, k, maxRetries);
            && |Questions(events)| <= maxRetries - k
            && InTurn(events)
            && (k < maxRetries ==> events != [] && events[0] == Asked(current))
    decreases maxRetries - k
  {
    hide Freshest, Target;
    if k < maxRetries {
      var events := Bridge(current, rounds, k, maxRetries);
      if |events| >= 2 {
        var target := events[1].target;
        var rest := Retry(current, target, rounds, k, maxRetries);
        assert events == [events[0], events[1]] + rest;
        if rest != [] {
          var retry := Freshest(rounds(k).retryRead.value, current.kind, Some(target.stepIndex)).value;
          QuestionsBounded(retry, rounds, k + 1, maxRetries);
        }
        QuestionsAfterFirst(current, events[1], rest);
        InTurnOneMore(current, events[1], rest);
      } else {
        assert events == [Asked(current)];
        assert [Asked(current)][1..] == [];
      }
    }
  }

  // ----- against an agent that only moves forward -----

  datatype Gate = Gate(stepIndex: int, kind: InteractionKind)

  function GateOf(p: PendingInteraction): Gate { Gate(p.stepIndex, p.kind) }

  /** The gates a snapshot shows waiting. */
  function Waiting(steps: Snapshot): set<Gate> { set s | s in steps && Pending(s).Some? :: GateOf(Pending(s).value) }

  /** The snapshots in the order they are read: the one the step was detected in, then two a round. */
  function ReadAt(detected: Snapshot, rounds: nat -> Round, t: nat): Option<Snapshot> {
    if t == 0 then Some(detected)
    else if t % 2 == 1 then rounds(t / 2).reread
    else rounds(t / 2 - 1).retryRead
  }

  ghost predicate OneTrajectory(steps: Snapshot, trajectoryId: string) {
    forall s :: s in steps && Pending(s).Some? ==> Pending(s).value.trajectoryId == trajectoryId
  }

  /** One trajectory; and a gate that waits at `t` but did not at an earlier `s` is above every gate
      seen waiting up to `s`: new gates open above the old ones and none is reopened. */
  ghost predicate OnlyForward(detected: Snapshot, rounds: nat -> Round, trajectoryId: string) {
    && (forall t: nat :: ReadAt(detected, rounds, t).Some? ==> OneTrajectory(ReadAt(detected, rounds, t).value, trajectoryId))
    && (forall u: nat, s: nat, t: nat, x, y ::
          && u <= s < t
          && SeenAt(detected, rounds, u, y) && SeenAt(detected, rounds, t, x)
          && ReadAt(detected, rounds, s).Some? && !SeenAt(detected, rounds, s, x) ==>
            x.stepIndex > y.stepIndex)
  }

  ghost predicate SeenAt(detected: Snapshot, rounds: nat -> Round, t: nat, g: Gate) {
    ReadAt(detected, rounds, t).Some? && g in Waiting(ReadAt(detected, rounds, t).value)
  }

  lemma NoneAboveFreshest(steps: Snapshot, target: PendingInteraction, other: PendingInteraction)
    requires Freshest(steps, other.kind, None) == Some(target) && other.stepIndex > target.stepIndex
    ensures GateOf(other) !in Waiting(steps)
  {
    hide Pending;
    FreshestIsFreshest(steps, other.kind, None);
    forall s | s in steps && Pending(s).Some?
      ensures GateOf(Pending(s).value) != GateOf(other)
    {
      if Pending(s).value.kind == other.kind {
        assert Eligible(s, other.kind, None);
      }
    }
  }

  lemma RetryIsNewer(detected: Snapshot, rounds: nat -> Round, trajectoryId: string, k: nat,
                     current: PendingInteraction, target: PendingInteraction, retry: PendingInteraction)
    requires OnlyForward(detected, rounds, trajectoryId)
    requires SeenAt(detected, rounds, 2 * k, GateOf(current)) && current.trajectoryId == trajectoryId
    requires rounds(k).reread.Some? && Target(current, rounds(k).reread.value) == Some(target)
    requires rounds(k).retryRead.Some?
    requires Freshest(rounds(k).retryRead.value, current.kind, Some(target.stepIndex)) == Some(retry)
    ensures retry.stepIndex > current.stepIndex && retry.trajectoryId == trajectoryId
    ensures SeenAt(detected, rounds, 2 * (k + 1), GateOf(retry))
  {
    hide Pending, Freshest, StepAt;
    var s1, s2 := rounds(k).reread.value, rounds(k).retryRead.value;
    assert ReadAt(detected, rounds, 2 * k + 1) == Some(s1) && ReadAt(detected, rounds, 2 * k + 2) == Some(s2);
    FreshestIsFreshest(s2, current.kind, Some(target.stepIndex));
    assert SeenAt(detected, rounds, 2 * k + 2, GateOf(retry));
    StepAtFinds(s1, current.trajectoryId, current.stepIndex);
    if StepAt(s1, current.trajectoryId, current.stepIndex).None? {
      NoneAboveFreshest(s1, target, retry);
    }
  }

  /** Against such an agent the steps asked about in one bridge run strictly increase. */
  lemma {:induction false} SurfacedStepsIncrease(detected: Snapshot, rounds: nat -> Round, trajectoryId: string, k: nat,
                                                 current: PendingInteraction, maxRetries: nat)
    requires OnlyForward(detected, rounds, trajectoryId)
    requires SeenAt(detected, rounds, 2 * k, GateOf(current)) && current.trajectoryId == trajectoryId
    requires k <= maxRetries
    ensures var asked := Questions(Bridge(current, rounds, k, maxRetries));
            && (forall i, j :: 0 <= i < j < |asked| ==> asked[i] < asked[j])
            && (asked != [] ==> asked[0] == current.stepIndex)
    decreases maxRetries - k
  {
    hide OnlyForward, SeenAt;
    if k < maxRetries {
      var events := Bridge(current, rounds, k, maxRetries);
      if |events| >= 2 {
        var target := events[1].target;
        var rest := Retry(current, target, rounds, k, maxRetries);
        assert events == [events[0], events[1]] + rest;
        QuestionsAfterFirst(current, events[1], rest);
        if rest != [] {
          var retry := Freshest(rounds(k).retryRead.value, current.kind, Some(target.stepIndex)).value;
          RetryIsNewer(detected, rounds, trajectoryId, k, current, target, retry);
          SurfacedStepsIncrease(detected, rounds, trajectoryId, k + 1, retry, maxRetries);
        }
      } else {
        assert events == [Asked(current)];
        assert [Asked(current)][1..] == [];
      }
    }
  }

  // ----- where a verdict goes -----

  /** A verdict goes to the step asked about, or above it, exactly when that step still waits or a
      waiting step of its kind is above it; otherwise the freshest of its kind is an older gate. */
  lemma VerdictTarget(asked: PendingInteraction, steps: Snapshot, target: PendingInteraction)
    requires Target(asked, steps) == Some(target)
    ensures target.stepIndex >= asked.stepIndex <==>
            exists s :: && s in steps && Pending(s).Some?
                        && (|| WaitsAt(s, asked.trajectoryId, asked.stepIndex)
                            || (Pending(s).value.kind == asked.kind && Pending(s).value.stepIndex >= asked.stepIndex))
  {
    StepAtFinds(steps, asked.trajectoryId, asked.stepIndex);
    FreshestIsFreshest(steps, asked.kind, None);
  }

  /** A verdict goes to a gate of another kind exactly when the step asked about now waits on one. */
  lemma VerdictKind(asked: PendingInteraction, steps: Snapshot, target: PendingInteraction)
    requires Target(asked, steps) == Some(target)
    ensures target.kind != asked.kind <==>
            var pinned := StepAt(steps, asked.trajectoryId, asked.stepIndex);
            pinned.Some? && pinned.value.kind != asked.kind
  {
    FreshestIsFreshest(steps, asked.kind, None);
  }

  /** Whatever was asked, a gate of the other kind that waits under the same ids takes the verdict. */
  lemma VerdictCanCrossKinds(asked: PendingInteraction) returns (now: Step)
    ensures Pending(now).Some? && Pending(now).value.kind != asked.kind
    ensures Target(asked, [now]) == Pending(now)
  {
    var other := if asked.kind == Question then Requested(None, Some("")) else Requested(Some(""), None);
    now := Step(AskQuestion, TrajectorySteps.Waiting, Some(asked.trajectoryId), Some(asked.stepIndex), None,
                None, "", None, None, None, "", None, Some(other));
    assert WaitsAt([now][0], asked.trajectoryId, asked.stepIndex);
  }

  /** A gate that has timed out while only an older one of its kind waits: the verdict on it goes to
      the older one. */
  lemma VerdictCanGoToOlderGate(asked: PendingInteraction, older: Step)
    requires Pending(older).Some? && Pending(older).value.kind == asked.kind
    requires Pending(older).value.stepIndex < asked.stepIndex
    ensures Target(asked, [older]) == Pending(older)
  {
    var steps := [older];
    assert steps[..|steps| - 1] == [] && steps[1..] == [];
    assert StepAt(steps, asked.trajectoryId, asked.stepIndex) == StepAt([], asked.trajectoryId, asked.stepIndex) == None;
    assert Freshest([], asked.kind, None) == None && Eligible(steps[0], asked.kind, None);
  }
}
