/** How the reader hands waiting steps to the interaction bridge: one bridge at a time, off the reader's
    loop, with a re-scan after each for the gates turned away meanwhile, and with the cards of gates
    answered elsewhere withdrawn. The tasks run interleaved, so the model is a state machine. */
module InteractionGates {
  import opened Common
  import opened TrajectorySteps
  import opened CommittedChannel

  const RESCAN_POLL_ATTEMPTS: nat := 3

  /** Deterministic over the step's ids; the cascade id is the same for a whole run. */
  datatype ElicitationId = ElicitationId(trajectoryId: string, stepIndex: int)

  /** A bridge's task, its completion callback and the re-scan the callback schedules, in turn. A
      re-scan either reads a snapshot (`Ended`) or gives up after its last failed read. */
  datatype Phase = Unfinished | Finished | Rescanning(failures: nat) | Ended | GaveUp

  datatype GateEvent =
    | HandedOver(key: StepKey, id: ElicitationId)
    | Withdrawn(key: StepKey, id: ElicitationId)

  datatype Gates = Gates(
    interacted: set<StepKey>, surfaced: map<StepKey, ElicitationId>,
    bridges: seq<Phase>, slot: Option<nat>, log: seq<GateEvent>)

  const NO_GATES := Gates({}, map[], [], None, [])

  // ----- transitions -----

  predicate Busy(g: Gates) { g.slot.Some? && g.slot.value < |g.bridges| && g.bridges[g.slot.value].Unfinished? }

  /** A waiting step is handed to a new bridge unless it already was or another bridge is running. */
  function Handle(step: Step, g: Gates): Gates {
    match Pending(step)
    case None => g
    case Some(p) =>
      var key, id := KeyOf(step), ElicitationId(p.trajectoryId, p.stepIndex);
      if key in g.interacted || Busy(g) then g
      else
        Gates(g.interacted + {key}, g.surfaced[key := id], g.bridges + [Unfinished], Some(|g.bridges|),
              g.log + [HandedOver(key, id)])
  }

  /** A surfaced step sighted without a pending interaction has its card withdrawn. */
  function Withdraw(step: Step, g: Gates): Gates {
    var key := KeyOf(step);
    if key !in g.surfaced || Pending(step).Some? then g
    else g.(surfaced := g.surfaced - {key}, log := g.log + [Withdrawn(key, g.surfaced[key])])
  }

  function HandleAll(steps: seq<Step>, g: Gates): Gates {
    if steps == [] then g else HandleAll(steps[1..], Handle(steps[0], g))
  }

  /** What the reader's loop and its tasks can do; `bridge` numbers the bridges in start order. */
  datatype Action =
    | Sight(step: Step)
    | Finish(bridge: nat)
    | RunCallback(bridge: nat)
    | ReadFails(bridge: nat)
    | ReadSucceeds(bridge: nat, snapshot: seq<Step>)

  predicate Enabled(a: Action, g: Gates) {
    match a
    case Sight(_) => true
    case Finish(b) => b < |g.bridges| && g.bridges[b].Unfinished?
    case RunCallback(b) => b < |g.bridges| && g.bridges[b].Finished?
    case ReadFails(b) => b < |g.bridges| && g.bridges[b].Rescanning?
    case ReadSucceeds(b, _) => b < |g.bridges| && g.bridges[b].Rescanning?
  }

  function Next(a: Action, g: Gates): Gates
    requires Enabled(a, g)
  {
    match a
    case Sight(step) => Withdraw(step, Handle(step, g))
    case Finish(b) => g.(bridges := g.bridges[b := Finished])
    case RunCallback(b) =>
      g.(bridges := g.bridges[b := Rescanning(0)], slot := if g.slot == Some(b) then None else g.slot)
    case ReadFails(b) =>
      var failures := g.bridges[b].failures + 1;
      g.(bridges := g.bridges[b := if failures >= RESCAN_POLL_ATTEMPTS then GaveUp else Rescanning(failures)])
    case ReadSucceeds(b, snapshot) => HandleAll(snapshot, g.(bridges := g.bridges[b := Ended]))
  }

  // ----- what every reachable state keeps -----

  /** In the log each key is handed over at most once and withdrawn at most once, after that. */
  ghost predicate LogInOrder(log: seq<GateEvent>) {
    && (forall i, j :: 0 <= i < j < |log| && log[i].key == log[j].key ==> log[i].HandedOver? && log[j].Withdrawn?)
    && (forall j :: 0 <= j < |log| && log[j].Withdrawn? ==> HandedOver(log[j].key, log[j].id) in log[..j])
  }

  ghost predicate Valid(g: Gates) {
    && (g.slot.Some? ==> g.slot.value < |g.bridges|)
    && (forall b :: 0 <= b < |g.bridges| && g.bridges[b].Unfinished? ==> g.slot == Some(b))
    && (forall b :: 0 <= b < |g.bridges| && g.bridges[b].Rescanning? ==> g.bridges[b].failures < RESCAN_POLL_ATTEMPTS)
    && LogInOrder(g.log)
    && (forall e :: e in g.log ==> e.key in g.interacted)
    && (forall k :: k in g.surfaced ==> HandedOver(k, g.surfaced[k]) in g.log)
    && (forall e :: e in g.log && e.key in g.surfaced ==> e.HandedOver?)
    && |g.bridges| == |g.interacted|
  }

  /** A key that is not in the log can be handed over next. */
  lemma LogTakesHandOver(log: seq<GateEvent>, e: GateEvent)
    requires LogInOrder(log) && e.HandedOver? && forall d :: d in log ==> d.key != e.key
    ensures LogInOrder(log + [e])
  {
    assert forall j :: 0 <= j <= |log| ==> (log + [e])[..j] == log[..j];
  }

  /** A key that was handed over and not withdrawn can be withdrawn next. */
  lemma LogTakesWithdrawal(log: seq<GateEvent>, e: GateEvent)
    requires LogInOrder(log) && e.Withdrawn? && HandedOver(e.key, e.id) in log
    requires forall d :: d in log && d.key == e.key ==> d.HandedOver?
    ensures LogInOrder(log + [e])
  {
    assert forall j :: 0 <= j <= |log| ==> (log + [e])[..j] == log[..j];
  }

  lemma HandleKeepsValid(step: Step, g: Gates)
    requires Valid(g)
    ensures Valid(Handle(step, g))
  {
    hide LogInOrder, KeyOf, Pending;
    var g' := Handle(step, g);
    if g' != g {
      LogTakesHandOver(g.log, g'.log[|g.log|]);
    }
  }

  lemma WithdrawKeepsValid(step: Step, g: Gates)
    requires Valid(g)
    ensures Valid(Withdraw(step, g))
  {
    hide LogInOrder, KeyOf, Pending;
    var g' := Withdraw(step, g);
    if g' != g {
      LogTakesWithdrawal(g.log, g'.log[|g.log|]);
    }
  }

  lemma {:induction false} HandleAllKeepsValid(steps: seq<Step>, g: Gates)
    requires Valid(g)
    ensures Valid(HandleAll(steps, g))
  {
    if steps != [] {
      HandleKeepsValid(steps[0], g);
      HandleAllKeepsValid(steps[1..], Handle(steps[0], g));
    }
  }

  lemma EndedKeepsValid(b: nat, g: Gates)
    requires Valid(g) && b < |g.bridges| && g.bridges[b].Rescanning?
    ensures Valid(g.(bridges := g.bridges[b := Ended]))
  {
    hide LogInOrder;
  }

  lemma NextKeepsValid(a: Action, g: Gates)
    requires Valid(g) && Enabled(a, g)
    ensures Valid(Next(a, g))
  {
    match a
    case Sight(step) =>
      HandleKeepsValid(step, g);
      WithdrawKeepsValid(step, Handle(step, g));
    case ReadSucceeds(b, snapshot) =>
      EndedKeepsValid(b, g);
      HandleAllKeepsValid(snapshot, g.(bridges := g.bridges[b := Ended]));
    case _ => hide LogInOrder;
  }

  /** In every reachable state at most one bridge is unfinished, every key was handed over at most
      once, and every card was withdrawn at most once and only after it was surfaced. */
  lemma AtMostOnceEach(g: Gates)
    requires Valid(g)
    ensures forall b, c | 0 <= b < |g.bridges| && 0 <= c < |g.bridges| ::
              g.bridges[b].Unfinished? && g.bridges[c].Unfinished? ==> b == c
    ensures forall i, j :: 0 <= i < j < |g.log| && g.log[i].key == g.log[j].key ==>
                             g.log[i].HandedOver? && g.log[j].Withdrawn? && g.log[i].id == g.log[j].id
  {
    forall i, j | 0 <= i < j < |g.log| && g.log[i].key == g.log[j].key
      ensures g.log[i].id == g.log[j].id
    {
      var h :| 0 <= h < j && g.log[h] == HandedOver(g.log[j].key, g.log[j].id);
      assert h == i;
    }
  }

  lemma {:induction false} HandlingOnlyHandsOver(steps: seq<Step>, g: Gates)
    ensures var log' := HandleAll(steps, g).log;
            g.log <= log' && forall i :: |g.log| <= i < |log'| ==> log'[i].HandedOver?
  {
    if steps != [] {
      HandlingOnlyHandsOver(steps[1..], Handle(steps[0], g));
    }
  }

  /** A card is withdrawn only on a sighting of its own key that shows no pending interaction, and only
      if it is out. */
  lemma WithdrawnOnOwnSighting(a: Action, g: Gates)
    requires Enabled(a, g)
    ensures var log' := Next(a, g).log;
            && g.log <= log'
            && forall i :: |g.log| <= i < |log'| && log'[i].Withdrawn? ==>
                             && a.Sight? && KeyOf(a.step) == log'[i].key && Pending(a.step).None?
                             && log'[i].key in g.surfaced && g.surfaced[log'[i].key] == log'[i].id
  {
    hide KeyOf, Pending;
    match a
    case ReadSucceeds(b, snapshot) => HandlingOnlyHandsOver(snapshot, g.(bridges := g.bridges[b := Ended]));
    case _ =>
  }
}
