/** No gate is stranded: what becomes of every waiting step that was turned away because a bridge was
    running, over every interleaving of the reader and its tasks. */
module GateLedger {
  import opened Common
  import opened TrajectorySteps
  import opened CommittedChannel
  import opened InteractionGates

  /** The fate of the keys turned away so far. `deferred` says behind which bridge a key waits; a key
      is `resolved` once a later sighting or read shows it no longer waiting, and `abandoned` once the
      re-scan it waited for has given up. */
  datatype Ledger = Ledger(turnedAway: set<StepKey>, deferred: map<StepKey, nat>, resolved: set<StepKey>, abandoned: set<StepKey>)

  const NOTHING_TURNED_AWAY := Ledger({}, map[], {}, {})

  function WaitingKeys(steps: seq<Step>): set<StepKey> { set s | s in steps && Pending(s).Some? :: KeyOf(s) }

  /** The keys that `steps` show waiting and that are still not handed over. */
  function StillWaiting(steps: seq<Step>, g: Gates): set<StepKey> { WaitingKeys(steps) - g.interacted }

  function Behind(bridge: nat, l: Ledger): set<StepKey> { set k | k in l.deferred && l.deferred[k] == bridge }

  /** `gone` no longer wait, `shown` are turned away by the bridge in the slot, and what has been handed
      over is no longer deferred. */
  function Settle(gone: set<StepKey>, shown: set<StepKey>, g': Gates, l: Ledger): Ledger {
    Ledger(l.turnedAway + shown,
           map k | k in (l.deferred.Keys - gone - g'.interacted) + shown ::
             if k in shown then g'.slot.GetOr(0) else l.deferred[k],
           (l.resolved + gone) - shown,
           l.abandoned - shown)
  }

  /** The ledger after an action that took the gates to `g'`. */
  function Record(a: Action, g': Gates, l: Ledger): Ledger {
    match a
    case Sight(step) =>
      Settle(if Pending(step).None? then {KeyOf(step)} else {}, StillWaiting([step], g'), g', l)
    case ReadSucceeds(b, snapshot) =>
      Settle(Behind(b, l) - WaitingKeys(snapshot), StillWaiting(snapshot, g'), g', l)
    case ReadFails(b) =>
      if b < |g'.bridges| && g'.bridges[b].GaveUp? then
        l.(deferred := l.deferred - Behind(b, l), abandoned := l.abandoned + Behind(b, l))
      else l
    case _ => l
  }

  predicate StillComing(p: Phase) { p.Unfinished? || p.Finished? || p.Rescanning? }

  /** Every key still deferred has a running bridge, a pending callback or a pending re-scan ahead of
      it, and every key ever turned away is accounted for. */
  ghost predicate Accounted(g: Gates, l: Ledger) {
    && AheadOfAll(l.deferred, g)
    && l.deferred.Keys !! g.interacted
    && l.turnedAway <= l.deferred.Keys + g.interacted + l.resolved + l.abandoned
    && (l.abandoned != {} ==> SomeReScanGaveUp(g))
  }

  ghost predicate AheadOfAll(deferred: map<StepKey, nat>, g: Gates) {
    forall k :: k in deferred ==> deferred[k] < |g.bridges| && StillComing(g.bridges[deferred[k]])
  }

  ghost predicate SomeReScanGaveUp(g: Gates) { exists b :: 0 <= b < |g.bridges| && g.bridges[b].GaveUp? }

  lemma HandlingOneHands(step: Step, g: Gates)
    requires Valid(g)
    ensures var g' := Handle(step, g);
            && g.interacted <= g'.interacted
            && g.bridges <= g'.bridges
            && (StillWaiting([step], g') != {} ==> Busy(g'))
            && (Busy(g) ==> g' == g)
  {
  }

  lemma WaitingKeysCons(steps: seq<Step>)
    requires steps != []
    ensures WaitingKeys(steps) == WaitingKeys([steps[0]]) + WaitingKeys(steps[1..])
  {
    assert steps == [steps[0]] + steps[1..];
  }

  lemma {:induction false} HandleAllHands(steps: seq<Step>, g: Gates)
    requires Valid(g)
    ensures var g' := HandleAll(steps, g);
            && g.interacted <= g'.interacted
            && |g.bridges| <= |g'.bridges|
            && (forall b :: 0 <= b < |g.bridges| ==> g'.bridges[b] == g.bridges[b])
            && (StillWaiting(steps, g') != {} ==> Busy(g'))
            && (Busy(g) ==> g' == g)
  {
    assert WaitingKeys([]) == {};
    hide Valid, WaitingKeys;
    if steps != [] {
      var g1 := Handle(steps[0], g);
      HandleKeepsValid(steps[0], g);
      HandlingOneHands(steps[0], g);
      hide Handle;
      HandleAllHands(steps[1..], g1);
      WaitingKeysCons(steps);
    }
  }

  lemma SettleKeepsAccount(gone: set<StepKey>, shown: set<StepKey>, g: Gates, g': Gates, l: Ledger)
    requires Accounted(g, l)
    requires g.interacted <= g'.interacted && shown !! g'.interacted && (shown != {} ==> Busy(g'))
    requires forall k :: k in l.deferred && k !in gone + g'.interacted + shown ==>
                           l.deferred[k] < |g'.bridges| && StillComing(g'.bridges[l.deferred[k]])
    requires SomeReScanGaveUp(g) ==> SomeReScanGaveUp(g')
    ensures Accounted(g', Settle(gone, shown, g', l))
  {
    hide SomeReScanGaveUp;
    var l' := Settle(gone, shown, g', l);
    forall k | k in l'.turnedAway
      ensures k in l'.deferred.Keys + g'.interacted + l'.resolved + l'.abandoned
    {
      if k !in shown {
        assert k in l.deferred.Keys + g.interacted + l.resolved + l.abandoned;
      }
    }
  }

  lemma GivenUpStays(g: Gates, g': Gates)
    requires forall b :: 0 <= b < |g.bridges| && g.bridges[b].GaveUp? ==> b < |g'.bridges| && g'.bridges[b].GaveUp?
    ensures SomeReScanGaveUp(g) ==> SomeReScanGaveUp(g')
  {
  }

  lemma HandledOrBusy(step: Step, g: Gates)
    requires Valid(g)
    ensures var g' := Next(Sight(step), g);
            && g.interacted <= g'.interacted
            && g.bridges <= g'.bridges
            && (StillWaiting([step], g') != {} ==> Busy(g'))
  {
    hide Valid, KeyOf, Pending;
    assert HandleAll([step], g) == Handle(step, g) by { assert [step][1..] == []; }
    HandleAllHands([step], g);
  }

  lemma SightKeepsAccount(step: Step, g: Gates, l: Ledger)
    requires Valid(g) && Accounted(g, l)
    ensures Accounted(Next(Sight(step), g), Record(Sight(step), Next(Sight(step), g), l))
  {
    hide Valid, Pending, KeyOf, Next, WaitingKeys, Busy, Settle;
    var g' := Next(Sight(step), g);
    HandledOrBusy(step, g);
    GivenUpStays(g, g');
    SettleKeepsAccount(if Pending(step).None? then {KeyOf(step)} else {}, StillWaiting([step], g'), g, g', l);
  }

  lemma ReadHands(b: nat, snapshot: seq<Step>, g: Gates)
    requires Valid(g) && Enabled(ReadSucceeds(b, snapshot), g)
    ensures var g' := Next(ReadSucceeds(b, snapshot), g);
            && g.interacted <= g'.interacted
            && |g.bridges| <= |g'.bridges|
            && (forall c :: 0 <= c < |g.bridges| && c != b ==> g'.bridges[c] == g.bridges[c])
            && (StillWaiting(snapshot, g') != {} ==> Busy(g'))
  {
    hide Valid, HandleAll, StillWaiting, Busy;
    EndedKeepsValid(b, g);
    HandleAllHands(snapshot, g.(bridges := g.bridges[b := Ended]));
  }

  lemma AnsweredReadSettles(b: nat, waiting: set<StepKey>, g: Gates, g': Gates, l: Ledger)
    requires Accounted(g, l)
    requires b < |g.bridges| <= |g'.bridges| && !g.bridges[b].GaveUp?
    requires forall c :: 0 <= c < |g.bridges| && c != b ==> g'.bridges[c] == g.bridges[c]
    requires g.interacted <= g'.interacted && (waiting - g'.interacted != {} ==> Busy(g'))
    ensures Accounted(g', Settle(Behind(b, l) - waiting, waiting - g'.interacted, g', l))
  {
    hide Busy, Settle;
    GivenUpStays(g, g');
    SettleKeepsAccount(Behind(b, l) - waiting, waiting - g'.interacted, g, g', l);
  }

  lemma ReadKeepsAccount(b: nat, snapshot: seq<Step>, g: Gates, l: Ledger)
    requires Valid(g) && Accounted(g, l) && Enabled(ReadSucceeds(b, snapshot), g)
    ensures var g' := Next(ReadSucceeds(b, snapshot), g);
            Accounted(g', Record(ReadSucceeds(b, snapshot), g', l))
  {
    var ended := g.(bridges := g.bridges[b := Ended]);
    ReadHands(b, snapshot, g);
    hide Accounted, HandleAll, WaitingKeys, Busy, Settle, Behind, Valid;
    AnsweredReadSettles(b, WaitingKeys(snapshot), g, HandleAll(snapshot, ended), l);
  }

  lemma ReadFailureKeepsAccount(b: nat, g: Gates, l: Ledger)
    requires Accounted(g, l) && Enabled(ReadFails(b), g)
    ensures Accounted(Next(ReadFails(b), g), Record(ReadFails(b), Next(ReadFails(b), g), l))
  {
    var g' := Next(ReadFails(b), g);
    if SomeReScanGaveUp(g) {
      var c :| 0 <= c < |g.bridges| && g.bridges[c].GaveUp?;
      assert g'.bridges[c].GaveUp?;
    }
    if g'.bridges[b].GaveUp? {
      assert SomeReScanGaveUp(g');
    }
  }

  lemma TaskKeepsAccount(a: Action, g: Gates, l: Ledger)
    requires (a.Finish? || a.RunCallback?) && Enabled(a, g) && Accounted(g, l)
    ensures Accounted(Next(a, g), Record(a, Next(a, g), l))
  {
    var g' := Next(a, g);
    if SomeReScanGaveUp(g) {
      var c :| 0 <= c < |g.bridges| && g.bridges[c].GaveUp?;
      assert g'.bridges[c].GaveUp?;
    }
  }

  lemma RecordKeepsAccount(a: Action, g: Gates, l: Ledger)
    requires Valid(g) && Enabled(a, g) && Accounted(g, l)
    ensures Accounted(Next(a, g), Record(a, Next(a, g), l))
  {
    hide Valid, Accounted, Record, Next, Enabled;
    match a
    case Sight(step) => SightKeepsAccount(step, g, l);
    case ReadSucceeds(b, snapshot) => ReadKeepsAccount(b, snapshot, g, l);
    case ReadFails(b) => ReadFailureKeepsAccount(b, g, l);
    case _ => TaskKeepsAccount(a, g, l);
  }

  // ----- whole runs -----

  ghost predicate Possible(actions: seq<Action>, g: Gates) {
    actions != [] ==> Enabled(actions[0], g) && Possible(actions[1..], Next(actions[0], g))
  }

  ghost function GatesAfter(actions: seq<Action>, g: Gates): Gates
    requires Possible(actions, g)
  {
    if actions == [] then g else GatesAfter(actions[1..], Next(actions[0], g))
  }

  ghost function LedgerAfter(actions: seq<Action>, g: Gates, l: Ledger): Ledger
    requires Possible(actions, g)
  {
    if actions == [] then l
    else
      var g' := Next(actions[0], g);
      LedgerAfter(actions[1..], g', Record(actions[0], g', l))
  }

  /** Nothing is left that could still hand a gate over by itself. */
  predicate Quiet(g: Gates) { forall b :: 0 <= b < |g.bridges| ==> !StillComing(g.bridges[b]) }

  lemma {:induction false} RunsKeepAccount(actions: seq<Action>, g: Gates, l: Ledger)
    requires Possible(actions, g) && Valid(g) && Accounted(g, l)
    ensures Valid(GatesAfter(actions, g)) && Accounted(GatesAfter(actions, g), LedgerAfter(actions, g, l))
  {
    hide Valid, Accounted, Record, Next, Enabled;
    if actions != [] {
      NextKeepsValid(actions[0], g);
      RecordKeepsAccount(actions[0], g, l);
      var g' := Next(actions[0], g);
      RunsKeepAccount(actions[1..], g', Record(actions[0], g', l));
    }
  }

  /** In every interleaving each gate turned away by a running bridge still has a bridge, a callback or
      a re-scan ahead of it, or was handed over, or was seen no longer waiting, or waited for a re-scan
      that failed its last read; once all is quiet nothing is deferred. */
  lemma NoGateStranded(actions: seq<Action>)
    requires Possible(actions, NO_GATES)
    ensures var g := GatesAfter(actions, NO_GATES);
            var l := LedgerAfter(actions, NO_GATES, NOTHING_TURNED_AWAY);
            && Valid(g) && Accounted(g, l)
            && (Quiet(g) ==> l.deferred == map[] && l.turnedAway <= g.interacted + l.resolved + l.abandoned)
            && ((forall b :: 0 <= b < |g.bridges| ==> !g.bridges[b].GaveUp?) ==> l.abandoned == {})
  {
    RunsKeepAccount(actions, NO_GATES, NOTHING_TURNED_AWAY);
  }

  /** In every reachable state at most one bridge is unfinished, and each key was handed over at most
      once and withdrawn at most once, after that. */
  lemma EveryKeyOnce(actions: seq<Action>)
    requires Possible(actions, NO_GATES)
    ensures var g := GatesAfter(actions, NO_GATES);
            && (forall b, c | 0 <= b < |g.bridges| && 0 <= c < |g.bridges| ::
                  g.bridges[b].Unfinished? && g.bridges[c].Unfinished? ==> b == c)
            && (forall i, j :: 0 <= i < j < |g.log| && g.log[i].key == g.log[j].key ==>
                  g.log[i].HandedOver? && g.log[j] == Withdrawn(g.log[i].key, g.log[i].id))
  {
    RunsKeepAccount(actions, NO_GATES, NOTHING_TURNED_AWAY);
    AtMostOnceEach(GatesAfter(actions, NO_GATES));
  }

  // ----- the tasks come to rest -----

  function Cost(p: Phase): nat {
    match p
    case Unfinished => 5
    case Finished => 4
    case Rescanning(failures) => if failures < RESCAN_POLL_ATTEMPTS then RESCAN_POLL_ATTEMPTS - failures else 1
    case _ => 0
  }

  function Work(bridges: seq<Phase>): nat {
    if bridges == [] then 0 else Work(bridges[..|bridges| - 1]) + Cost(bridges[|bridges| - 1])
  }

  /** An upper bound on what the tasks can still do, given every key that will ever be seen waiting. */
  function Effort(g: Gates, keys: set<StepKey>): nat { 6 * |keys - g.interacted| + Work(g.bridges) }

  lemma {:induction false} WorkAfterUpdate(bridges: seq<Phase>, b: nat, p: Phase)
    requires b < |bridges|
    ensures Work(bridges[b := p]) == Work(bridges) - Cost(bridges[b]) + Cost(p)
  {
    var n := |bridges| - 1;
    if b == n {
      assert bridges[b := p][..n] == bridges[..n];
    } else {
      assert bridges[b := p][..n] == bridges[..n][b := p];
      WorkAfterUpdate(bridges[..n], b, p);
    }
  }

  lemma HandlingIsWithinEffort(step: Step, g: Gates, keys: set<StepKey>)
    requires WaitingKeys([step]) <= keys
    ensures Effort(Handle(step, g), keys) <= Effort(g, keys)
  {
    var g' := Handle(step, g);
    if g' != g {
      var key := KeyOf(step);
      assert key in WaitingKeys([step]);
      assert keys - g.interacted == (keys - g'.interacted) + {key};
      assert g'.bridges[..|g.bridges|] == g.bridges;
    }
  }

  lemma {:induction false} HandlingAllIsWithinEffort(steps: seq<Step>, g: Gates, keys: set<StepKey>)
    requires WaitingKeys(steps) <= keys
    ensures Effort(HandleAll(steps, g), keys) <= Effort(g, keys)
  {
    if steps != [] {
      assert steps == [steps[0]] + steps[1..];
      assert WaitingKeys([steps[0]]) <= WaitingKeys(steps) && WaitingKeys(steps[1..]) <= WaitingKeys(steps);
      HandlingIsWithinEffort(steps[0], g, keys);
      HandlingAllIsWithinEffort(steps[1..], Handle(steps[0], g), keys);
    }
  }

  function Shown(a: Action): set<StepKey> {
    match a
    case Sight(step) => WaitingKeys([step])
    case ReadSucceeds(_, snapshot) => WaitingKeys(snapshot)
    case _ => {}
  }

  /** Every task action, a failed read included, uses up effort, and no sighting adds any. */
  lemma ActionsUseEffort(a: Action, g: Gates, keys: set<StepKey>)
    requires Enabled(a, g) && Valid(g) && Shown(a) <= keys
    ensures Effort(Next(a, g), keys) + (if a.Sight? then 0 else 1) <= Effort(g, keys)
  {
    hide Valid;
    match a
    case Sight(step) => HandlingIsWithinEffort(step, g, keys);
    case ReadSucceeds(b, snapshot) =>
      WorkAfterUpdate(g.bridges, b, Ended);
      HandlingAllIsWithinEffort(snapshot, g.(bridges := g.bridges[b := Ended]), keys);
    case Finish(b) => WorkAfterUpdate(g.bridges, b, Finished);
    case RunCallback(b) => WorkAfterUpdate(g.bridges, b, Rescanning(0));
    case ReadFails(b) => WorkAfterUpdate(g.bridges, b, Next(a, g).bridges[b]);
  }

  function TaskActions(actions: seq<Action>): nat {
    if actions == [] then 0 else (if actions[0].Sight? then 0 else 1) + TaskActions(actions[1..])
  }

  lemma {:induction false} TasksComeToRest(actions: seq<Action>, g: Gates, keys: set<StepKey>)
    requires Possible(actions, g) && Valid(g)
    requires forall a :: a in actions ==> Shown(a) <= keys
    ensures TaskActions(actions) + Effort(GatesAfter(actions, g), keys) <= Effort(g, keys)
  {
    hide Valid, Next, Enabled, Effort, Shown;
    if actions != [] {
      NextKeepsValid(actions[0], g);
      ActionsUseEffort(actions[0], g, keys);
      TasksComeToRest(actions[1..], Next(actions[0], g), keys);
    }
  }

  // ----- standing gates are handed over one by one -----

  function Finishes(actions: seq<Action>): nat {
    if actions == [] then 0 else (if actions[0].Finish? then 1 else 0) + Finishes(actions[1..])
  }

  /** The bridge running, if any, and the standing gates not yet handed over. */
  function Ahead(standing: set<StepKey>, g: Gates): nat { (if Busy(g) then 1 else 0) + |standing - g.interacted| }

  lemma {:induction false} HandingOverKeepsAhead(steps: seq<Step>, standing: set<StepKey>, g: Gates)
    requires WaitingKeys(steps) <= standing
    ensures Ahead(standing, HandleAll(steps, g)) <= Ahead(standing, g)
  {
    if steps != [] {
      assert steps == [steps[0]] + steps[1..];
      assert WaitingKeys(steps[1..]) <= WaitingKeys(steps);
      var g' := Handle(steps[0], g);
      if g' != g {
        var key := KeyOf(steps[0]);
        assert key in WaitingKeys(steps);
        assert standing - g.interacted == (standing - g'.interacted) + {key};
      }
      HandingOverKeepsAhead(steps[1..], standing, g');
    }
  }

  /** Every answered read shows the standing gates not yet handed over, no re-scan fails its last read,
      and nothing outside `all` is ever shown waiting. */
  ghost predicate Shows(a: Action, standing: set<StepKey>, all: set<StepKey>, g: Gates)
    requires Enabled(a, g)
  {
    match a
    case Sight(step) => WaitingKeys([step]) <= all
    case ReadSucceeds(_, snapshot) => standing - g.interacted <= WaitingKeys(snapshot) <= all
    case ReadFails(b) => g.bridges[b].failures + 1 < RESCAN_POLL_ATTEMPTS
    case _ => true
  }

  ghost predicate ShownThroughout(actions: seq<Action>, standing: set<StepKey>, all: set<StepKey>, g: Gates)
    requires Possible(actions, g)
  {
    actions != [] ==>
      Shows(actions[0], standing, all, g) && ShownThroughout(actions[1..], standing, all, Next(actions[0], g))
  }

  lemma StandingAfterSighting(step: Step, standing: set<StepKey>, all: set<StepKey>, g: Gates)
    requires Valid(g) && WaitingKeys([step]) <= all
    requires standing - g.interacted != {} ==> !Quiet(g)
    ensures var g' := Next(Sight(step), g);
            (standing - g'.interacted != {} ==> !Quiet(g')) && Ahead(all, g') <= Ahead(all, g)
  {
    hide Valid, WaitingKeys, Pending, KeyOf;
    HandledOrBusy(step, g);
    assert HandleAll([step], g) == Handle(step, g) by { assert [step][1..] == []; }
    HandingOverKeepsAhead([step], all, g);
  }

  lemma StandingAfterRead(b: nat, snapshot: seq<Step>, standing: set<StepKey>, all: set<StepKey>, g: Gates)
    requires Valid(g) && Enabled(ReadSucceeds(b, snapshot), g)
    requires standing - g.interacted <= WaitingKeys(snapshot) <= all
    ensures var g' := Next(ReadSucceeds(b, snapshot), g);
            (standing - g'.interacted != {} ==> !Quiet(g')) && Ahead(all, g') <= Ahead(all, g)
  {
    hide Valid, WaitingKeys, HandleAll;
    ReadHands(b, snapshot, g);
    HandingOverKeepsAhead(snapshot, all, g.(bridges := g.bridges[b := Ended]));
    var g' := Next(ReadSucceeds(b, snapshot), g);
    assert standing - g'.interacted <= StillWaiting(snapshot, g');
  }

  lemma StandingGatesStep(a: Action, standing: set<StepKey>, all: set<StepKey>, g: Gates)
    requires Enabled(a, g) && Valid(g) && Shows(a, standing, all, g)
    requires standing - g.interacted != {} ==> !Quiet(g)
    ensures var g' := Next(a, g);
            && (standing - g'.interacted != {} ==> !Quiet(g'))
            && (if a.Finish? then 1 else 0) + Ahead(all, g') <= Ahead(all, g)
  {
    hide WaitingKeys, HandleAll;
    match a
    case Sight(step) => StandingAfterSighting(step, standing, all, g);
    case ReadSucceeds(b, snapshot) => StandingAfterRead(b, snapshot, standing, all, g);
    case Finish(b) => assert StillComing(Next(a, g).bridges[b]);
    case RunCallback(b) => assert StillComing(Next(a, g).bridges[b]);
    case ReadFails(b) => assert StillComing(Next(a, g).bridges[b]);
  }

  /** However sightings, tasks and re-scans interleave, as long as each answered re-scan shows the
      `standing` gates not yet handed over and none fails its last read, all of them have been handed
      over once all is quiet; after at most one bridge completion for each gate that was shown waiting
      at any time and one for the bridge running at the start. */
  lemma {:induction false} StandingGatesAllHandedOver(actions: seq<Action>, standing: set<StepKey>, all: set<StepKey>, g: Gates)
    requires Possible(actions, g) && Valid(g) && ShownThroughout(actions, standing, all, g)
    requires standing - g.interacted != {} ==> !Quiet(g)
    requires Quiet(GatesAfter(actions, g))
    ensures standing <= GatesAfter(actions, g).interacted
    ensures Finishes(actions) <= Ahead(all, g)
  {
    hide Valid, Next, Enabled, WaitingKeys, Ahead, Shows, Quiet;
    if actions == [] {
      assert forall k :: k in standing && k !in g.interacted ==> k in standing - g.interacted;
    } else {
      NextKeepsValid(actions[0], g);
      StandingGatesStep(actions[0], standing, all, g);
      StandingGatesAllHandedOver(actions[1..], standing, all, Next(actions[0], g));
    }
  }
}
