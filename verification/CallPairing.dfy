/** Tool calls and their results over a whole trajectory, where the agent gives neither of them an id: which
    result closes which call. */
module CallPairing {
  import opened ToolCallIds
  import opened TrajectorySteps

  /** No call a step makes or resolves has an id of its own. */
  predicate HasNoIds(step: Step) {
    && (forall i :: 0 <= i < |ToolCalls(step)| && IsCall(ToolCalls(step)[i]) ==> ToolCalls(step)[i].id == "")
    && step.resultCallId.None?
  }

  function CallIds(events: seq<Event>): seq<string> {
    if events == [] then []
    else (if events[0].FunctionCall? then [events[0].callId] else []) + CallIds(events[1..])
  }

  function OutputIds(events: seq<Event>): seq<string> {
    if events == [] then []
    else (if events[0].FunctionCallOutput? then [events[0].callId] else []) + OutputIds(events[1..])
  }

  /** The ids that `ids` shares with `others`, in the order of `ids`. */
  function Among(ids: seq<string>, others: seq<string>): seq<string> {
    if ids == [] then []
    else Among(ids[..|ids| - 1], others) + if ids[|ids| - 1] in others then [ids[|ids| - 1]] else []
  }

  lemma {:induction false} IdsAppend(events: seq<Event>, more: seq<Event>)
    ensures CallIds(events + more) == CallIds(events) + CallIds(more)
    ensures OutputIds(events + more) == OutputIds(events) + OutputIds(more)
  {
    if events == [] {
      assert events + more == more;
    } else {
      assert (events + more)[1..] == events[1..] + more;
      IdsAppend(events[1..], more);
    }
  }

  // ----- what a trajectory asks of the allocator -----

  /** The ids given to results by a history, orphans' included, in order. */
  function Outputs(conversation: string, ops: seq<Op>): seq<string> {
    if ops == [] then []
    else
      var init := ops[..|ops| - 1];
      Outputs(conversation, init) +
      if ops[|ops| - 1] == Resolve then [Match(Run(conversation, init).now).0] else []
  }

  /** Each id given to a result was either matched or made for an orphan, and the matched ones come in
      order. */
  lemma {:induction false} OutputsAreMatchedOrOrphaned(conversation: string, ops: seq<Op>, claimed: seq<string>)
    requires var h := Run(conversation, ops);
             (forall id :: id in h.matched ==> id in claimed) && (forall id :: id in h.orphaned ==> id !in claimed)
    ensures Among(Outputs(conversation, ops), claimed) == Run(conversation, ops).matched
    ensures forall id :: id in Outputs(conversation, ops) ==>
                           id in Run(conversation, ops).matched || id in Run(conversation, ops).orphaned
  {
    hide Claim, Match;
    if ops != [] {
      var init := ops[..|ops| - 1];
      OutputsAreMatchedOrOrphaned(conversation, init, claimed);
      if ops[|ops| - 1] == Resolve {
        var h, h' := Run(conversation, init), Run(conversation, ops);
        var id := Match(h.now).0;
        AmongOneMore(Outputs(conversation, init), id, claimed);
        if h.now.pending != [] {
          assert id == h'.matched[|h.matched|];
        } else {
          assert id == h'.orphaned[|h.orphaned|];
        }
      } else {
        assert Outputs(conversation, ops) == Outputs(conversation, init);
      }
    }
  }

  lemma AmongOneMore(ids: seq<string>, id: string, others: seq<string>)
    ensures Among(ids + [id], others) == Among(ids, others) + if id in others then [id] else []
  {
    assert (ids + [id])[..|ids|] == ids;
  }

  lemma MatchedOrOrphaned(conversation: string, ops: seq<Op>)
    ensures var h := Run(conversation, ops);
            (forall id :: id in h.matched ==> id in h.claimed) && (forall id :: id in h.orphaned ==> id !in h.claimed)
  {
    PairingIsFirstInFirstOut(conversation, ops);
  }

  lemma {:induction false} OutputsDistinct(conversation: string, ops: seq<Op>)
    ensures Distinct(Outputs(conversation, ops))
  {
    hide Run, Match;
    if ops != [] {
      var init := ops[..|ops| - 1];
      OutputsDistinct(conversation, init);
      if ops[|ops| - 1] == Resolve {
        NewOutputIsNew(conversation, ops);
        MatchedOrOrphaned(conversation, init);
        OutputsAreMatchedOrOrphaned(conversation, init, Run(conversation, init).claimed);
      }
    }
  }

  lemma NewOutputIsNew(conversation: string, ops: seq<Op>)
    requires ops != [] && ops[|ops| - 1] == Resolve
    ensures var h := Run(conversation, ops[..|ops| - 1]);
            Match(h.now).0 !in h.matched && Match(h.now).0 !in h.orphaned
  {
    hide Match;
    var h, h' := Run(conversation, ops[..|ops| - 1]), Run(conversation, ops);
    PairingIsFirstInFirstOut(conversation, ops);
    MatchedOrOrphaned(conversation, ops);
    var id := Match(h.now).0;
    if h.now.pending != [] {
      LastIsNew(h.matched, id);
      assert id == h'.matched[|h.matched|];
    } else {
      LastIsNew(h.orphaned, id);
      assert id == h'.orphaned[|h.orphaned|];
    }
  }

  lemma LastIsNew(ids: seq<string>, id: string)
    requires Distinct(ids + [id])
    ensures id !in ids
  {
    assert forall i :: 0 <= i < |ids| ==> (ids + [id])[i] == ids[i] && (ids + [id])[|ids|] == id;
  }

  // ----- a trajectory is a history -----

  /** `events` and `now` are what the operations `more` make of the history of `ops`. */
  ghost predicate Follows(conversation: string, ops: seq<Op>, more: seq<Op>, events: seq<Event>, now: Allocation) {
    var h, h' := Run(conversation, ops), Run(conversation, ops + more);
    && now == h'.now
    && h'.claimed == h.claimed + CallIds(events)
    && Outputs(conversation, ops + more) == Outputs(conversation, ops) + OutputIds(events)
  }

  lemma NothingFollows(conversation: string, ops: seq<Op>, events: seq<Event>)
    requires CallIds(events) == OutputIds(events) == []
    ensures Follows(conversation, ops, [], events, Run(conversation, ops).now)
  {
    assert ops + [] == ops;
  }

  lemma FollowsInTurn(conversation: string, ops: seq<Op>, more: seq<Op>, events: seq<Event>, now: Allocation,
                      evenMore: seq<Op>, later: seq<Event>, last: Allocation)
    requires Follows(conversation, ops, more, events, now)
    requires Follows(conversation, ops + more, evenMore, later, last)
    ensures Follows(conversation, ops, more + evenMore, events + later, last)
  {
    hide Run, Outputs, CallIds, OutputIds;
    IdsAppend(events, later);
    assert ops + (more + evenMore) == (ops + more) + evenMore;
  }

  lemma OneMore(conversation: string, ops: seq<Op>, op: Op)
    ensures var h, h' := Run(conversation, ops), Run(conversation, ops + [op]);
            var (id, now) := if op == Invoke then Claim(h.now) else Match(h.now);
            && h'.now == now
            && h'.claimed == h.claimed + (if op == Invoke then [id] else [])
            && Outputs(conversation, ops + [op]) == Outputs(conversation, ops) + if op == Resolve then [id] else []
  {
    hide Claim, Match;
    assert (ops + [op])[..|ops|] == ops;
  }

  lemma FollowsNow(conversation: string, ops: seq<Op>, more: seq<Op>, events: seq<Event>, now: Allocation)
    requires Follows(conversation, ops, more, events, now)
    ensures now == Run(conversation, ops + more).now
  {
  }

  lemma InvokeFollows(conversation: string, ops: seq<Op>, event: Event)
    requires event.FunctionCall? && event.callId == Claim(Run(conversation, ops).now).0
    ensures Follows(conversation, ops, [Invoke], [event], Claim(Run(conversation, ops).now).1)
  {
    OneMore(conversation, ops, Invoke);
    hide Claim, Match, Run, Outputs;
    assert [event][1..] == [] && [event] == [event] + [];
    assert CallIds([]) == OutputIds([]) == [];
  }

  lemma ResolveFollows(conversation: string, ops: seq<Op>, event: Event)
    requires event.FunctionCallOutput? && event.callId == Match(Run(conversation, ops).now).0
    ensures Follows(conversation, ops, [Resolve], [event], Match(Run(conversation, ops).now).1)
  {
    OneMore(conversation, ops, Resolve);
    hide Claim, Match, Run, Outputs;
    assert [event][1..] == [] && [event] == [event] + [];
    assert CallIds([]) == OutputIds([]) == [];
  }

  function CallOps(entries: seq<ToolCallEntry>): seq<Op> {
    if entries == [] then [] else (if IsCall(entries[0]) then [Invoke] else []) + CallOps(entries[1..])
  }

  function StepOps(step: Step): seq<Op> {
    if step.kind.PlannerResponse? && step.status == Done then CallOps(ToolCalls(step))
    else if IsTerminalToolResult(step) then [Resolve]
    else []
  }

  function AllOps(steps: seq<Step>): seq<Op> {
    if steps == [] then [] else StepOps(steps[0]) + AllOps(steps[1..])
  }

  lemma {:induction false} CallsFollow(conversation: string, ops: seq<Op>, entries: seq<ToolCallEntry>, stepIndex: int)
    requires forall i :: 0 <= i < |entries| && IsCall(entries[i]) ==> entries[i].id == ""
    ensures var (events, now) := FunctionCalls(entries, stepIndex, Run(conversation, ops).now);
            Follows(conversation, ops, CallOps(entries), events, now)
    decreases |entries|
  {
    hide Follows, Claim, Run;
    if entries == [] {
      NothingFollows(conversation, ops, []);
    } else if !IsCall(entries[0]) {
      CallsFollow(conversation, ops, entries[1..], stepIndex);
      assert [] + CallOps(entries[1..]) == CallOps(entries[1..]);
    } else {
      var (id, now) := Claim(Run(conversation, ops).now);
      var event := FunctionCall(stepIndex, entries[0].name, entries[0].arguments.value, id);
      InvokeFollows(conversation, ops, event);
      FollowsNow(conversation, ops, [Invoke], [event], now);
      CallsFollow(conversation, ops + [Invoke], entries[1..], stepIndex);
      var (more, last) := FunctionCalls(entries[1..], stepIndex, now);
      FollowsInTurn(conversation, ops, [Invoke], [event], now, CallOps(entries[1..]), more, last);
    }
  }

  lemma StepFollows(conversation: string, ops: seq<Op>, step: Step)
    requires HasNoIds(step)
    ensures var (events, now) := MapStep(step, Run(conversation, ops).now);
            Follows(conversation, ops, StepOps(step), events, now)
  {
    hide Follows, Match, FunctionCalls;
    var a := Run(conversation, ops).now;
    var (events, now) := MapStep(step, a);
    if step.kind.PlannerResponse? && step.status == Done && step.planner.Some? {
      var (calls, last) := FunctionCalls(ToolCalls(step), IndexOrZero(step), a);
      var message := events[..|events| - |calls|];
      assert events == message + calls;
      NothingFollows(conversation, ops, message);
      CallsFollow(conversation, ops, ToolCalls(step), IndexOrZero(step));
      assert ops + [] == ops && [] + StepOps(step) == StepOps(step);
      FollowsInTurn(conversation, ops, [], message, a, StepOps(step), calls, now);
    } else if IsTerminalToolResult(step) {
      ResolveFollows(conversation, ops, events[0]);
    } else {
      NothingFollows(conversation, ops, events);
    }
  }

  lemma {:induction false} TrajectoryFollows(conversation: string, ops: seq<Op>, steps: seq<Step>)
    requires forall s :: s in steps ==> HasNoIds(s)
    ensures var (events, now) := MapAll(steps, Run(conversation, ops).now);
            Follows(conversation, ops, AllOps(steps), events, now)
    decreases |steps|
  {
    hide Follows, MapStep, StepOps, HasNoIds;
    if steps == [] {
      NothingFollows(conversation, ops, []);
    } else {
      var (first, now) := MapStep(steps[0], Run(conversation, ops).now);
      StepFollows(conversation, ops, steps[0]);
      FollowsNow(conversation, ops, StepOps(steps[0]), first, now);
      TrajectoryFollows(conversation, ops + StepOps(steps[0]), steps[1..]);
      var (more, last) := MapAll(steps[1..], now);
      FollowsInTurn(conversation, ops, StepOps(steps[0]), first, now, AllOps(steps[1..]), more, last);
    }
  }

  /** In a trajectory without ids no two calls share an id and no two results do; and the results that
      close a call close the calls in the order they were made, with the calls still open at the end of
      the line. */
  lemma ResultsCloseCallsInOrder(conversation: string, steps: seq<Step>)
    requires forall s :: s in steps ==> HasNoIds(s)
    ensures var (events, now) := MapAll(steps, Fresh(conversation));
            && Distinct(CallIds(events)) && Distinct(OutputIds(events))
            && Among(OutputIds(events), CallIds(events)) + now.pending == CallIds(events)
  {
    hide MapAll, Claim, Match;
    var (events, now) := MapAll(steps, Fresh(conversation));
    var ops := AllOps(steps);
    TrajectoryFollows(conversation, [], steps);
    assert [] + ops == ops && [] + CallIds(events) == CallIds(events) && [] + OutputIds(events) == OutputIds(events);
    PairingIsFirstInFirstOut(conversation, ops);
    MatchedOrOrphaned(conversation, ops);
    OutputsAreMatchedOrOrphaned(conversation, ops, CallIds(events));
    OutputsDistinct(conversation, ops);
  }
}
