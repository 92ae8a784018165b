/** When a gate is handed over and when its card is withdrawn, over every interleaving: exactly which
    sightings and reads bring it about. */
module GateHistory {
  import opened Common
  import opened TrajectorySteps
  import opened CommittedChannel
  import opened InteractionGates
  import opened GateLedger

  /** The gates before action `i`. */
  ghost function GatesAt(actions: seq<Action>, i: nat, g: Gates): Gates
    requires Possible(actions, g) && i <= |actions|
  {
    if i == 0 then g else GatesAt(actions[1..], i - 1, Next(actions[0], g))
  }

  predicate NoneUnfinished(g: Gates) { forall b :: 0 <= b < |g.bridges| ==> !g.bridges[b].Unfinished? }

  /** The step waits under this key and these ids. */
  predicate Asks(step: Step, key: StepKey, id: ElicitationId) {
    && Pending(step).Some? && KeyOf(step) == key
    && step.trajectoryId == Some(id.trajectoryId) && step.stepIndex.GetOr(0) == id.stepIndex
  }

  predicate WasHandedOver(key: StepKey, g: Gates) { exists e :: e in g.log && e.HandedOver? && e.key == key }

  /** Some step of the snapshot waits under this key and these ids, and every gate waiting in front of it
      has been handed over before. */
  predicate FirstToAsk(snapshot: seq<Step>, g: Gates, key: StepKey, id: ElicitationId) {
    exists m :: 0 <= m < |snapshot| && Asks(snapshot[m], key, id) &&
                forall n :: 0 <= n < m && Pending(snapshot[n]).Some? ==> WasHandedOver(KeyOf(snapshot[n]), g)
  }

  /** With no bridge running, the action shows the gate waiting. */
  predicate Offers(a: Action, g: Gates, key: StepKey, id: ElicitationId) {
    NoneUnfinished(g) &&
    match a
    case Sight(step) => Asks(step, key, id)
    case ReadSucceeds(_, snapshot) => FirstToAsk(snapshot, g, key, id)
    case _ => false
  }

  /** The step is sighted, and nothing is pending in it. */
  predicate ShowsAnswered(a: Action, key: StepKey) { a.Sight? && KeyOf(a.step) == key && Pending(a.step).None? }

  /** What is in the log is what was handed over, and a card that was not withdrawn is out. */
  ghost predicate Recorded(g: Gates) {
    && (forall k :: k in g.interacted ==> WasHandedOver(k, g))
    && (forall e :: e in g.log && e.HandedOver? ==>
          Withdrawn(e.key, e.id) in g.log || (e.key in g.surfaced && g.surfaced[e.key] == e.id))
  }

  // ----- one step of a snapshot -----

  lemma LastOf(log: seq<GateEvent>, e: GateEvent)
    ensures forall d :: d in log + [e] <==> d in log || d == e
  {
  }

  lemma HandledOnce(step: Step, g: Gates, key: StepKey, id: ElicitationId)
    requires Valid(g) && Recorded(g)
    ensures var g' := Handle(step, g);
            && Recorded(g')
            && (HandedOver(key, id) in g'.log <==>
                HandedOver(key, id) in g.log || (NoneUnfinished(g) && Asks(step, key, id) && !WasHandedOver(key, g)))
            && (forall k, i :: Withdrawn(k, i) in g'.log <==> Withdrawn(k, i) in g.log)
  {
    hide LogInOrder, KeyOf;
    var g' := Handle(step, g);
    assert Busy(g) <==> !NoneUnfinished(g);
    if g' != g {
      LastOf(g.log, g'.log[|g.log|]);
      assert HandedOver(KeyOf(step), g'.surfaced[KeyOf(step)]) in g'.log;
      assert forall k :: WasHandedOver(k, g) ==> WasHandedOver(k, g');
    }
  }

  lemma FirstToAskCons(steps: seq<Step>, g: Gates, key: StepKey, id: ElicitationId)
    requires steps != []
    ensures FirstToAsk(steps, g, key, id) <==>
            || Asks(steps[0], key, id)
            || ((Pending(steps[0]).Some? ==> WasHandedOver(KeyOf(steps[0]), g)) && FirstToAsk(steps[1..], g, key, id))
  {
    hide Asks, WasHandedOver, Pending, KeyOf;
    var rest := steps[1..];
    if FirstToAsk(steps, g, key, id) && !Asks(steps[0], key, id) {
      var m :| 0 <= m < |steps| && Asks(steps[m], key, id) &&
               forall n :: 0 <= n < m && Pending(steps[n]).Some? ==> WasHandedOver(KeyOf(steps[n]), g);
      assert rest[m - 1] == steps[m] && forall n :: 0 <= n < m - 1 ==> rest[n] == steps[n + 1];
    }
    if (Pending(steps[0]).Some? ==> WasHandedOver(KeyOf(steps[0]), g)) && FirstToAsk(rest, g, key, id) {
      var m :| 0 <= m < |rest| && Asks(rest[m], key, id) &&
               forall n :: 0 <= n < m && Pending(rest[n]).Some? ==> WasHandedOver(KeyOf(rest[n]), g);
      assert steps[m + 1] == rest[m] && forall n :: 0 < n < m + 1 ==> steps[n] == rest[n - 1];
    }
  }

  lemma HandledMeansNew(step: Step, g: Gates)
    requires Valid(g) && Recorded(g)
    ensures Handle(step, g) == g <==> (Pending(step).Some? ==> !NoneUnfinished(g) || WasHandedOver(KeyOf(step), g))
    ensures Handle(step, g) != g ==> Busy(Handle(step, g))
    ensures Busy(g) <==> !NoneUnfinished(g)
  {
    hide LogInOrder, KeyOf;
    assert WasHandedOver(KeyOf(step), g) ==> KeyOf(step) in g.interacted;
  }

  lemma {:induction false} HandledInTurn(steps: seq<Step>, g: Gates, key: StepKey, id: ElicitationId)
    requires Valid(g) && Recorded(g)
    ensures var g' := HandleAll(steps, g);
            && Recorded(g')
            && (HandedOver(key, id) in g'.log <==>
                HandedOver(key, id) in g.log || (NoneUnfinished(g) && FirstToAsk(steps, g, key, id) && !WasHandedOver(key, g)))
            && (forall k, i :: Withdrawn(k, i) in g'.log <==> Withdrawn(k, i) in g.log)
  {
    hide Valid, Recorded, KeyOf, Handle, WasHandedOver, NoneUnfinished, FirstToAsk, Busy, Pending;
    if steps != [] {
      var g1 := Handle(steps[0], g);
      HandledOnce(steps[0], g, key, id);
      HandledMeansNew(steps[0], g);
      HandleKeepsValid(steps[0], g);
      HandledInTurn(steps[1..], g1, key, id);
      HandleAllHands(steps[1..], g1);
      FirstToAskCons(steps, g, key, id);
    } else {
      assert !FirstToAsk([], g, key, id) by { NobodyAsks(g, key, id); }
    }
  }

  lemma NobodyAsks(g: Gates, key: StepKey, id: ElicitationId)
    ensures !FirstToAsk([], g, key, id)
  {
  }

  // ----- one action -----

  lemma WithdrawnOnce(step: Step, g: Gates, key: StepKey, id: ElicitationId)
    requires Valid(g) && Recorded(g) && HandedOver(key, id) in g.log
    ensures var g' := Withdraw(step, g);
            Withdrawn(key, id) in g'.log <==>
            Withdrawn(key, id) in g.log || (KeyOf(step) == key && Pending(step).None?)
  {
    hide LogInOrder, KeyOf, Pending;
    var g' := Withdraw(step, g);
    if g' != g {
      LastOf(g.log, g'.log[|g.log|]);
      SameIds(g, KeyOf(step), key, id);
    }
  }

  lemma SameIds(g: Gates, surfaced: StepKey, key: StepKey, id: ElicitationId)
    requires Valid(g) && HandedOver(key, id) in g.log && surfaced in g.surfaced
    ensures surfaced == key ==> g.surfaced[surfaced] == id
  {
    assert HandedOver(surfaced, g.surfaced[surfaced]) in g.log;
    var i :| 0 <= i < |g.log| && g.log[i] == HandedOver(key, id);
    var j :| 0 <= j < |g.log| && g.log[j] == HandedOver(surfaced, g.surfaced[surfaced]);
  }

  lemma WithdrawKeepsRecord(step: Step, g: Gates)
    requires Valid(g) && Recorded(g)
    ensures var g' := Withdraw(step, g);
            && Recorded(g')
            && forall k, i :: HandedOver(k, i) in g'.log <==> HandedOver(k, i) in g.log
  {
    hide LogInOrder, KeyOf, Pending;
    var g' := Withdraw(step, g);
    if g' != g {
      var last := g'.log[|g.log|];
      LastOf(g.log, last);
      forall k | k in g'.interacted
        ensures WasHandedOver(k, g')
      {
        assert WasHandedOver(k, g);
        var e :| e in g.log && e.HandedOver? && e.key == k;
        assert e in g'.log;
      }
      forall e | e in g'.log && e.HandedOver?
        ensures Withdrawn(e.key, e.id) in g'.log || (e.key in g'.surfaced && g'.surfaced[e.key] == e.id)
      {
        assert e in g.log;
      }
    }
  }

  lemma SightingRecords(step: Step, g: Gates, key: StepKey, id: ElicitationId)
    requires Valid(g) && Recorded(g)
    ensures var a, g' := Sight(step), Next(Sight(step), g);
            && Recorded(g')
            && (HandedOver(key, id) in g'.log <==> HandedOver(key, id) in g.log || (Offers(a, g, key, id) && !WasHandedOver(key, g)))
            && (HandedOver(key, id) in g.log ==>
                  (Withdrawn(key, id) in g'.log <==> Withdrawn(key, id) in g.log || ShowsAnswered(a, key)))
  {
    hide Valid, Recorded, KeyOf, Pending, Handle, Withdraw, WasHandedOver, NoneUnfinished;
    HandledOnce(step, g, key, id);
    HandleKeepsValid(step, g);
    var g1 := Handle(step, g);
    WithdrawKeepsRecord(step, g1);
    if HandedOver(key, id) in g.log {
      WithdrawnOnce(step, g1, key, id);
    }
  }

  lemma ReadRecords(b: nat, snapshot: seq<Step>, g: Gates, key: StepKey, id: ElicitationId)
    requires Valid(g) && Recorded(g) && Enabled(ReadSucceeds(b, snapshot), g)
    ensures var a, g' := ReadSucceeds(b, snapshot), Next(ReadSucceeds(b, snapshot), g);
            && Recorded(g')
            && (HandedOver(key, id) in g'.log <==> HandedOver(key, id) in g.log || (Offers(a, g, key, id) && !WasHandedOver(key, g)))
            && (Withdrawn(key, id) in g'.log <==> Withdrawn(key, id) in g.log)
  {
    hide Valid, KeyOf, Pending, HandleAll, Asks;
    var ended := g.(bridges := g.bridges[b := Ended]);
    EndedKeepsValid(b, g);
    assert NoneUnfinished(ended) <==> NoneUnfinished(g) by {
      assert forall c :: 0 <= c < |g.bridges| ==> (ended.bridges[c].Unfinished? <==> g.bridges[c].Unfinished?);
    }
    assert FirstToAsk(snapshot, ended, key, id) <==> FirstToAsk(snapshot, g, key, id) by {
      assert forall k :: WasHandedOver(k, ended) <==> WasHandedOver(k, g);
    }
    HandledInTurn(snapshot, ended, key, id);
  }

  lemma ActionRecords(a: Action, g: Gates, key: StepKey, id: ElicitationId)
    requires Valid(g) && Recorded(g) && Enabled(a, g)
    ensures var g' := Next(a, g);
            && Recorded(g')
            && (HandedOver(key, id) in g'.log <==> HandedOver(key, id) in g.log || (Offers(a, g, key, id) && !WasHandedOver(key, g)))
            && (HandedOver(key, id) in g.log ==>
                  (Withdrawn(key, id) in g'.log <==> Withdrawn(key, id) in g.log || ShowsAnswered(a, key)))
  {
    hide Valid, KeyOf, Pending, Asks, FirstToAsk;
    match a
    case Sight(step) => SightingRecords(step, g, key, id);
    case ReadSucceeds(b, snapshot) => ReadRecords(b, snapshot, g, key, id);
    case _ => assert Next(a, g).log == g.log;
  }

  // ----- whole runs -----

  lemma {:induction false} HandedOverInRun(actions: seq<Action>, g: Gates, key: StepKey, id: ElicitationId)
    requires Possible(actions, g) && Valid(g) && Recorded(g)
    ensures HandedOver(key, id) in GatesAfter(actions, g).log <==>
            || HandedOver(key, id) in g.log
            || exists i :: 0 <= i < |actions| && Offers(actions[i], GatesAt(actions, i, g), key, id)
                           && !WasHandedOver(key, GatesAt(actions, i, g))
  {
    hide Valid, Recorded, Next, Enabled, Offers, WasHandedOver;
    if actions != [] {
      var g' := Next(actions[0], g);
      ActionRecords(actions[0], g, key, id);
      NextKeepsValid(actions[0], g);
      HandedOverInRun(actions[1..], g', key, id);
      assert GatesAt(actions, 0, g) == g;
      assert forall i :: 0 < i < |actions| ==> actions[i] == actions[1..][i - 1] && GatesAt(actions, i, g) == GatesAt(actions[1..], i - 1, g');
      if j :| 0 <= j < |actions| - 1 && Offers(actions[1..][j], GatesAt(actions[1..], j, g'), key, id)
              && !WasHandedOver(key, GatesAt(actions[1..], j, g')) {
        assert actions[j + 1] == actions[1..][j] && GatesAt(actions, j + 1, g) == GatesAt(actions[1..], j, g');
      }
    }
  }

  lemma {:induction false} WithdrawnInRun(actions: seq<Action>, g: Gates, key: StepKey, id: ElicitationId)
    requires Possible(actions, g) && Valid(g) && Recorded(g)
    ensures HandedOver(key, id) in GatesAfter(actions, g).log ==>
              (Withdrawn(key, id) in GatesAfter(actions, g).log <==>
               || Withdrawn(key, id) in g.log
               || exists i :: 0 <= i < |actions| && HandedOver(key, id) in GatesAt(actions, i, g).log && ShowsAnswered(actions[i], key))
  {
    hide Valid, Recorded, Next, Enabled, ShowsAnswered;
    if actions != [] {
      var g' := Next(actions[0], g);
      ActionRecords(actions[0], g, key, id);
      NotWithdrawnBefore(actions[0], g, key, id);
      NextKeepsValid(actions[0], g);
      WithdrawnInRun(actions[1..], g', key, id);
      assert GatesAt(actions, 0, g) == g;
      assert forall i :: 0 < i < |actions| ==> actions[i] == actions[1..][i - 1] && GatesAt(actions, i, g) == GatesAt(actions[1..], i - 1, g');
      if j :| 0 <= j < |actions| - 1 && HandedOver(key, id) in GatesAt(actions[1..], j, g').log && ShowsAnswered(actions[1..][j], key) {
        assert actions[j + 1] == actions[1..][j] && GatesAt(actions, j + 1, g) == GatesAt(actions[1..], j, g');
      }
    }
  }

  lemma NotWithdrawnBefore(a: Action, g: Gates, key: StepKey, id: ElicitationId)
    requires Valid(g) && Enabled(a, g)
    ensures Withdrawn(key, id) in g.log || Withdrawn(key, id) in Next(a, g).log ==> HandedOver(key, id) in g.log
  {
    hide Next, KeyOf, Pending;
    var log' := Next(a, g).log;
    WithdrawnOnOwnSighting(a, g);
    if j :| 0 <= j < |g.log| && g.log[j] == Withdrawn(key, id) {
      assert HandedOver(key, id) in g.log[..j];
    } else if j :| |g.log| <= j < |log'| && log'[j] == Withdrawn(key, id) {
      assert HandedOver(key, g.surfaced[key]) in g.log;
    }
  }

  /** In every run a gate is handed over, under its own ids, exactly if at some moment no bridge ran and a
      sighting or an answered re-scan showed it waiting, in front of every other gate not yet handed
      over; and the card of a gate that was handed over is withdrawn exactly if a later sighting of its
      step showed nothing pending. */
  lemma HandedOverAndWithdrawnExactly(actions: seq<Action>, key: StepKey, id: ElicitationId)
    requires Possible(actions, NO_GATES)
    ensures var log := GatesAfter(actions, NO_GATES).log;
            && (HandedOver(key, id) in log <==>
                exists i :: 0 <= i < |actions| && Offers(actions[i], GatesAt(actions, i, NO_GATES), key, id)
                            && !WasHandedOver(key, GatesAt(actions, i, NO_GATES)))
            && (HandedOver(key, id) in log ==>
                  (Withdrawn(key, id) in log <==>
                   exists i :: 0 <= i < |actions| && HandedOver(key, id) in GatesAt(actions, i, NO_GATES).log
                               && ShowsAnswered(actions[i], key)))
  {
    hide GatesAfter, Possible, Offers;
    HandedOverInRun(actions, NO_GATES, key, id);
    WithdrawnInRun(actions, NO_GATES, key, id);
  }
}
