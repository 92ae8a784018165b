/** The reader's per-run state and the methods that change it, each proved against the specification of
    its channel: committed events, live deltas, interaction gates. */
module Reader {
  import opened Common
  import opened ToolCallIds
  import opened TrajectorySteps
  import opened CommittedChannel
  import opened LiveDeltas
  import opened GateLedger
  import TurnEdges
  import ReaderRuns
  import opened InteractionGates

  // ----- what the loops amount to -----

  function Concat(frames: seq<seq<Step>>): seq<Step> {
    if frames == [] then [] else Concat(frames[..|frames| - 1]) + frames[|frames| - 1]
  }

  /** What successful polls read; a failed one reads nothing. */
  function Answered(polls: seq<Option<seq<Step>>>): seq<Step> {
    if polls == [] then [] else Answered(polls[..|polls| - 1]) + polls[|polls| - 1].GetOr([])
  }

  function Sightings(steps: seq<Step>, streamed: bool): (os: seq<Sighting>)
    ensures |os| == |steps| && forall i :: 0 <= i < |os| ==> os[i] == Sighting(steps[i], streamed)
  {
    seq(|steps|, i requires 0 <= i < |steps| => Sighting(steps[i], streamed))
  }

  /** A gate's sightings: a streamed step that is still generating shows none. */
  function SightAll(os: seq<Sighting>, g: Gates): Gates {
    if os == [] then g
    else
      var before, o := SightAll(os[..|os| - 1], g), os[|os| - 1];
      if o.streamed && IsGeneratingPlanner(o.step) then before else Next(Sight(o.step), before)
  }

  lemma {:induction false} ObserveAllAppend(os: seq<Sighting>, more: seq<Sighting>, seen: set<StepKey>, c: Committed, catalog: Catalog)
    ensures var (seen', c') := ObserveAll(os, seen, c, catalog);
            ObserveAll(os + more, seen, c, catalog) == ObserveAll(more, seen', c', catalog)
  {
    hide Observe;
    if os == [] {
      assert os + more == more;
    } else {
      var (seen', c') := Observe(os[0], seen, c, catalog);
      assert (os + more)[1..] == os[1..] + more;
      ObserveAllAppend(os[1..], more, seen', c', catalog);
    }
  }

  lemma {:induction false} SightAllAppend(os: seq<Sighting>, more: seq<Sighting>, g: Gates)
    ensures SightAll(os + more, g) == SightAll(more, SightAll(os, g))
  {
    hide Next, IsGeneratingPlanner;
    if more == [] {
      assert os + more == os;
    } else {
      assert (os + more)[..|os + more| - 1] == os + more[..|more| - 1];
      SightAllAppend(os, more[..|more| - 1], g);
    }
  }

  lemma OneMoreSighting(os: seq<Sighting>, o: Sighting, seen: set<StepKey>, c: Committed, g: Gates, catalog: Catalog)
    ensures var (seen', c') := ObserveAll(os, seen, c, catalog);
            ObserveAll(os + [o], seen, c, catalog) == Observe(o, seen', c', catalog)
    ensures SightAll(os + [o], g) == SightAll([o], SightAll(os, g))
  {
    hide Observe;
    ObserveAllAppend(os, [o], seen, c, catalog);
    assert [o][1..] == [];
    SightAllAppend(os, [o], g);
  }

  /** What sighting `os` from a fresh dedup set leaves. */
  ghost predicate Reached(os: seq<Sighting>, c0: Committed, g0: Gates, catalog: Catalog, seen: set<StepKey>, c: Committed, g: Gates) {
    (seen, c) == ObserveAll(os, {}, c0, catalog) && g == SightAll(os, g0)
  }

  lemma ReachedMore(os: seq<Sighting>, more: seq<Sighting>, c0: Committed, g0: Gates, catalog: Catalog,
                    seen: set<StepKey>, c: Committed, g: Gates)
    requires Reached(os, c0, g0, catalog, seen, c, g)
    ensures var (seen', c') := ObserveAll(more, seen, c, catalog);
            Reached(os + more, c0, g0, catalog, seen', c', SightAll(more, g))
  {
    ObserveAllAppend(os, more, {}, c0, catalog);
    SightAllAppend(os, more, g0);
  }

  /** Of every step, exactly its first sighting as a user input, done or failed is remembered and posted. */
  ghost predicate PostedWhenOver(os: seq<Sighting>, c: Committed, seen: set<StepKey>, c': Committed, catalog: Catalog) {
    && (forall key :: key in seen <==> exists i :: 0 <= i < |os| && KeyOf(os[i].step) == key && ReaderRuns.Over(os[i].step))
    && (forall key :: key !in seen ==> ReaderRuns.EventsFor(key, c'.posts) == ReaderRuns.EventsFor(key, c.posts))
    && (forall i :: 0 <= i < |os| && ReaderRuns.FirstOver(os, i) ==> PostedAt(os, i, c, c', catalog))
  }

  ghost predicate PostedAt(os: seq<Sighting>, i: nat, c: Committed, c': Committed, catalog: Catalog)
    requires i < |os|
  {
    var step, before := os[i].step, ObserveAll(os[..i], {}, c, catalog).1;
    var totals := ObserveAll(os[..i + 1], {}, c, catalog).1.totals;
    ReaderRuns.EventsFor(KeyOf(step), c'.posts) ==
    ReaderRuns.EventsFor(KeyOf(step), c.posts) +
    ReaderRuns.EventsOf(step, MapStep(step, before.allocation).0, before, totals, catalog)
  }

  lemma RunPostsWhenOver(os: seq<Sighting>, c: Committed, catalog: Catalog)
    ensures var (seen, c') := ObserveAll(os, {}, c, catalog);
            PostedWhenOver(os, c, seen, c', catalog)
  {
    hide ObserveAll, KeyOf, ReaderRuns.EventsFor, ReaderRuns.EventsOf, ReaderRuns.FirstOver, ReaderRuns.Over;
    var (seen, c') := ObserveAll(os, {}, c, catalog);
    forall key
      ensures key in seen <==> exists i :: 0 <= i < |os| && KeyOf(os[i].step) == key && ReaderRuns.Over(os[i].step)
      ensures key !in seen ==> ReaderRuns.EventsFor(key, c'.posts) == ReaderRuns.EventsFor(key, c.posts)
    {
      ReaderRuns.StepsPostedWhenOver(os, c, catalog, key);
    }
    forall i | 0 <= i < |os| && ReaderRuns.FirstOver(os, i)
      ensures PostedAt(os, i, c, c', catalog)
    {
      ReaderRuns.StepsPostedWhenOver(os, c, catalog, KeyOf(os[i].step));
    }
  }

  /** The state a re-scan leaves: up to three reads, the first answered one is dispatched. */
  function ReScan(bridge: nat, answers: seq<Option<seq<Step>>>, g: Gates): Gates {
    if answers == [] || !Enabled(ReadFails(bridge), g) then g
    else
      match answers[0]
      case Some(snapshot) => Next(ReadSucceeds(bridge, snapshot), g)
      case None => ReScan(bridge, answers[1..], Next(ReadFails(bridge), g))
  }

  lemma {:induction false} GatesAfterAppend(actions: seq<Action>, a: Action, g: Gates)
    requires Possible(actions, g) && Enabled(a, GatesAfter(actions, g))
    ensures Possible(actions + [a], g) && GatesAfter(actions + [a], g) == Next(a, GatesAfter(actions, g))
  {
    hide Enabled, Next;
    if actions == [] {
      assert [a][1..] == [];
    } else {
      assert (actions + [a])[1..] == actions[1..] + [a];
      GatesAfterAppend(actions[1..], a, Next(actions[0], g));
    }
  }

  /** The sightings that can touch a gate: all but those of a planner still generating on the stream. */
  function SightsOf(os: seq<Sighting>): seq<Action> {
    if os == [] then []
    else
      var last := os[|os| - 1];
      SightsOf(os[..|os| - 1]) +
      if last.streamed && last.step.kind == PlannerResponse && last.step.status == Generating then [] else [Sight(last.step)]
  }

  /** What the reader's own loop does to the gates is a run of the gates' state machine. */
  lemma {:induction false} SightingsAreARun(os: seq<Sighting>, g: Gates) returns (actions: seq<Action>)
    ensures Possible(actions, g) && GatesAfter(actions, g) == SightAll(os, g)
    ensures actions == SightsOf(os)
  {
    hide Next;
    actions := [];
    if os != [] {
      var o := os[|os| - 1];
      actions := SightingsAreARun(os[..|os| - 1], g);
      if !(o.streamed && IsGeneratingPlanner(o.step)) {
        GatesAfterAppend(actions, Sight(o.step), g);
        actions := actions + [Sight(o.step)];
      }
    }
  }

  function ReadAction(bridge: nat, answer: Option<seq<Step>>): Action {
    match answer
    case None => ReadFails(bridge)
    case Some(snapshot) => ReadSucceeds(bridge, snapshot)
  }

  /** So is a re-scan: its reads in order, up to the first answered one, or up to the last one allowed. */
  lemma {:induction false} ReScanIsARun(bridge: nat, answers: seq<Option<seq<Step>>>, g: Gates) returns (actions: seq<Action>)
    ensures Possible(actions, g) && GatesAfter(actions, g) == ReScan(bridge, answers, g)
    ensures |actions| <= |answers| && forall i :: 0 <= i < |actions| ==> actions[i] == ReadAction(bridge, answers[i])
    ensures forall i :: 0 <= i < |actions| - 1 ==> answers[i].None?
    ensures bridge < |g.bridges| && g.bridges[bridge].Rescanning? && g.bridges[bridge].failures < 3 ==>
              && |actions| + g.bridges[bridge].failures <= 3
              && (|actions| < |answers| ==>
                    |actions| + g.bridges[bridge].failures == 3 || (actions != [] && answers[|actions| - 1].Some?))
    decreases |answers|
  {
    if answers == [] || !Enabled(ReadFails(bridge), g) {
      actions := [];
    } else {
      match answers[0]
      case Some(snapshot) =>
        actions := [ReadSucceeds(bridge, snapshot)];
        assert actions[1..] == [];
      case None =>
        hide HandleAll;
        var rest := ReScanIsARun(bridge, answers[1..], Next(ReadFails(bridge), g));
        actions := [ReadFails(bridge)] + rest;
        assert actions[1..] == rest;
    }
  }

  class ReaderState {
    const allocator: ToolCallIdAllocator
    const catalog: Catalog
    var seen: set<StepKey>
    var turnActive: bool
    var postedModel: Option<string>
    var totals: Totals
    var prefixes: map<int, string>
    var reasoningPrefixes: map<int, string>
    var interacted: set<StepKey>
    var surfaced: map<StepKey, ElicitationId>
    var bridges: seq<Phase>
    var slot: Option<nat>
    // what the session has been sent
    var posts: seq<Post>
    var deltas: seq<Delta>
    var gateLog: seq<GateEvent>

    function CommittedView(): Committed
      reads this, allocator
    {
      Committed(allocator.View(), turnActive, postedModel, totals, posts)
    }

    function TrackersView(): Trackers
      reads this
    {
      Trackers(prefixes, reasoningPrefixes, deltas)
    }

    function GatesView(): Gates
      reads this
    {
      Gates(interacted, surfaced, bridges, slot, gateLog)
    }

    constructor (cascadeId: string, catalog: Catalog)
      ensures fresh(allocator) && this.catalog == catalog
      ensures seen == {} && CommittedView() == Start(cascadeId)
      ensures TrackersView() == Stream([]) && GatesView() == NO_GATES
    {
      allocator := new ToolCallIdAllocator(cascadeId);
      this.catalog := catalog;
      seen, turnActive, postedModel, totals := {}, false, None, Totals(0, 0, 0);
      prefixes, reasoningPrefixes := map[], map[];
      interacted, surfaced, bridges, slot := {}, map[], [], None;
      posts, deltas, gateLog := [], [], [];
    }

    // ----- committed events -----

    method PostEvent(key: StepKey, event: Event)
      modifies this`posts
      ensures posts == old(posts) + [Post(key, event)]
    {
      posts := posts + [Post(key, event)];
    }

    method EmitStep(step: Step, active: bool) returns (stillActive: bool)
      modifies this`posts, allocator
      ensures CommittedView().(turnActive := stillActive) ==
              CommittedChannel.EmitStep(step, old(CommittedView()).(turnActive := active))
    {
      hide MapStep;
      var key := KeyOf(step);
      stillActive := active;
      if IsUserTurnStep(step) && !stillActive {
        stillActive := true;
        PostEvent(key, SessionStatusEdge(TrajectorySteps.Running));
      }
      var events := MapStepToEvents(step, allocator);
      label Mapped:
      for i := 0 to |events|
        invariant posts == old@Mapped(posts) + Tagged(key, events[..i])
        invariant allocator.View() == old@Mapped(allocator.View())
      {
        PostEvent(key, events[i]);
        assert Tagged(key, events[..i + 1]) == Tagged(key, events[..i]) + [Post(key, events[i])];
      }
      assert events[..|events|] == events;
      if IsTurnCloseStep(step) && stillActive {
        stillActive := false;
        PostEvent(key, SessionStatusEdge(if IsErrorPlanner(step) then Failed else Idle));
      }
      assert posts == old(posts) + Tagged(key, Emission(step, old(CommittedView()).(turnActive := active)));
    }

    method MaybeEmitModelChange(step: Step)
      modifies this`posts, this`postedModel
      ensures CommittedView() == EmitModelChange(step, old(CommittedView()), catalog)
    {
      if !IsUserTurnStep(step) || step.requestedModel == "" {
        return;
      }
      if postedModel == Some(step.requestedModel) {
        return;
      }
      PostEvent(KeyOf(step), ModelChange(DisplayName(step.requestedModel, catalog)));
      postedModel := Some(step.requestedModel);
    }

    method MaybeEmitSessionUsage(step: Step)
      modifies this`posts, this`totals
      ensures CommittedView() == EmitUsage(step, old(CommittedView()), catalog)
    {
      var reported := ReportedUsage(step);
      if reported.None? {
        return;
      }
      var usage := reported.value;
      totals := Totals(totals.input + Positive(usage.input), totals.output + Positive(usage.output),
                       totals.cacheRead + Positive(usage.cacheRead));
      var name := None;
      if usage.model != "" {
        name := Some(DisplayName(usage.model, catalog));
      }
      PostEvent(KeyOf(step), SessionUsage(totals, name));
    }

    /** The backstop, run when the agent has reported the cascade idle. */
    method CloseTurnIfStranded()
      modifies this`posts, this`turnActive
      ensures CommittedView() == TurnEdges.CloseIfStranded(old(CommittedView()))
    {
      if !turnActive {
        return;
      }
      turnActive := false;
      PostEvent(TurnEdges.BACKSTOP_POST.key, SessionStatusEdge(Idle));
    }

    // ----- interactions -----

    method MaybeHandleInteraction(step: Step)
      modifies this`interacted, this`surfaced, this`bridges, this`slot, this`gateLog
      ensures GatesView() == Handle(step, old(GatesView()))
    {
      var pending := Pending(step);
      if pending.None? {
        return;
      }
      var key := KeyOf(step);
      if key in interacted {
        return;
      }
      if slot.Some? && slot.value < |bridges| && bridges[slot.value].Unfinished? {
        return;
      }
      var id := ElicitationId(pending.value.trajectoryId, pending.value.stepIndex);
      interacted := interacted + {key};
      surfaced := surfaced[key := id];
      slot := Some(|bridges|);
      bridges := bridges + [Unfinished];
      gateLog := gateLog + [HandedOver(key, id)];
    }

    method MaybeWithdrawInteraction(step: Step)
      modifies this`surfaced, this`gateLog
      ensures GatesView() == Withdraw(step, old(GatesView()))
    {
      var key := KeyOf(step);
      if key !in surfaced {
        return;
      }
      if Pending(step).Some? {
        return;
      }
      var id := surfaced[key];
      surfaced := surfaced - {key};
      gateLog := gateLog + [Withdrawn(key, id)];
    }

    /** The bridge's completion callback: frees the slot if it is still this bridge's and schedules the
        re-scan. */
    method ClearSlot(bridge: nat)
      requires Enabled(RunCallback(bridge), GatesView())
      modifies this`slot, this`bridges
      ensures GatesView() == Next(RunCallback(bridge), old(GatesView()))
    {
      if slot == Some(bridge) {
        slot := None;
      }
      bridges := bridges[bridge := Rescanning(0)];
    }

    /** The re-scan: `answers` holds what its reads return, None for a failed one. */
    method ResurfacePendingInteraction(bridge: nat, answers: seq<Option<seq<Step>>>)
      requires bridge < |bridges| && bridges[bridge] == Rescanning(0) && |answers| >= RESCAN_POLL_ATTEMPTS
      modifies this`interacted, this`surfaced, this`bridges, this`slot, this`gateLog
      ensures GatesView() == ReScan(bridge, answers, old(GatesView()))
    {
      var steps: Option<seq<Step>> := None;
      for attempt := 0 to RESCAN_POLL_ATTEMPTS
        invariant steps.None? && bridge < |bridges| && bridges[bridge] == Rescanning(attempt) && attempt < RESCAN_POLL_ATTEMPTS
        invariant ReScan(bridge, answers[attempt..], GatesView()) == ReScan(bridge, answers, old(GatesView()))
      {
        steps := answers[attempt];
        assert answers[attempt..][0] == steps && answers[attempt..][1..] == answers[attempt + 1..];
        if steps.Some? {
          break;
        }
        if attempt == RESCAN_POLL_ATTEMPTS - 1 {
          bridges := bridges[bridge := GaveUp];
          return;
        }
        bridges := bridges[bridge := Rescanning(attempt + 1)];
      }
      bridges := bridges[bridge := Ended];
      label Read:
      for i := 0 to |steps.value|
        invariant HandleAll(steps.value[i..], GatesView()) == HandleAll(steps.value, old@Read(GatesView()))
      {
        MaybeHandleInteraction(steps.value[i]);
        assert steps.value[i..][1..] == steps.value[i + 1..];
      }
    }

    // ----- one sighting -----

    method CommitNewStep(step: Step)
      modifies this`posts, this`turnActive, this`postedModel, this`totals, allocator
      ensures CommittedView() == CommitStep(step, old(CommittedView()), catalog)
    {
      hide CommittedChannel.EmitStep, EmitModelChange, EmitUsage;
      var active := EmitStep(step, turnActive);
      turnActive := active;
      assert CommittedView() == CommittedChannel.EmitStep(step, old(CommittedView()));
      MaybeEmitModelChange(step);
      MaybeEmitSessionUsage(step);
    }

    method ProcessCommittedStep(step: Step)
      modifies this, allocator
      ensures (seen, CommittedView()) ==
              Observe(Sighting(step, false), old(seen), old(CommittedView()), catalog)
      ensures GatesView() == Next(Sight(step), old(GatesView()))
      ensures TrackersView() == old(TrackersView())
    {
      hide Handle, Withdraw, CommitStep, KeyOf, IsSettled, IsGeneratingPlanner;
      var key := KeyOf(step);
      if key !in seen {
        if IsSettled(step) {
          seen := seen + {key};
        }
        CommitNewStep(step);
      }
      MaybeHandleInteraction(step);
      MaybeWithdrawInteraction(step);
    }

    method EmitPartialDelta(step: Step)
      modifies this`prefixes, this`deltas
      ensures TrackersView() == LiveDeltas.EmitPartialDelta(step, old(TrackersView()))
    {
      var text := PartialText(step);
      if step.stepIndex.None? || text.None? {
        return;
      }
      var idx := step.stepIndex.value;
      var forwarded := if idx in prefixes then prefixes[idx] else "";
      if forwarded <= text.value && |text.value| > |forwarded| {
        deltas := deltas + [TextDelta(idx, text.value[|forwarded|..])];
      }
      prefixes := prefixes[idx := text.value];
    }

    method EmitPartialReasoningDelta(step: Step)
      modifies this`reasoningPrefixes, this`deltas
      ensures TrackersView() == LiveDeltas.EmitPartialReasoningDelta(step, old(TrackersView()))
    {
      var text := PartialThinking(step);
      if step.stepIndex.None? || text.None? {
        return;
      }
      var idx := step.stepIndex.value;
      var started := idx !in reasoningPrefixes;
      var forwarded := if idx in reasoningPrefixes then reasoningPrefixes[idx] else "";
      if forwarded <= text.value && |text.value| > |forwarded| {
        deltas := deltas + [ReasoningDelta(idx, text.value[|forwarded|..], started)];
      }
      reasoningPrefixes := reasoningPrefixes[idx := text.value];
    }

    method ProcessStreamStep(step: Step)
      modifies this, allocator
      ensures (seen, CommittedView()) ==
              Observe(Sighting(step, true), old(seen), old(CommittedView()), catalog)
      ensures GatesView() == SightAll([Sighting(step, true)], old(GatesView()))
      ensures TrackersView() == StreamStep(step, old(TrackersView()))
    {
      hide CommitStep, Next, LiveDeltas.EmitPartialDelta, LiveDeltas.EmitPartialReasoningDelta;
      assert [Sighting(step, true)][..0] == [];
      if IsGeneratingPlanner(step) {
        EmitPartialReasoningDelta(step);
        EmitPartialDelta(step);
        return;
      }
      ProcessCommittedStep(step);
      if step.stepIndex.Some? {
        prefixes := prefixes - {step.stepIndex.value};
        reasoningPrefixes := reasoningPrefixes - {step.stepIndex.value};
      }
    }

    // ----- the loops -----

    /** The steps of one stream frame; `before` is what was streamed earlier. */
    method MirrorFrame(steps: seq<Step>, ghost before: seq<Step>)
      requires TrackersView() == Stream(before)
      modifies this, allocator
      ensures (seen, CommittedView()) == ObserveAll(Sightings(steps, true), old(seen), old(CommittedView()), catalog)
      ensures GatesView() == SightAll(Sightings(steps, true), old(GatesView()))
      ensures TrackersView() == Stream(before + steps)
    {
      hide Observe, ObserveAll, SightAll, StreamStep;
      ghost var seen0, c0, g0 := seen, CommittedView(), GatesView();
      NothingMoreSighted(seen, c0, g0, catalog, true);
      assert before + [] == before;
      for i := 0 to |steps|
        invariant (seen, CommittedView()) == ObserveAll(Sightings(steps[..i], true), seen0, c0, catalog)
        invariant GatesView() == SightAll(Sightings(steps[..i], true), g0)
        invariant TrackersView() == Stream(before + steps[..i])
      {
        OneMoreSighting(Sightings(steps[..i], true), Sighting(steps[i], true), seen0, c0, g0, catalog);
        assert Sightings(steps[..i + 1], true) == Sightings(steps[..i], true) + [Sighting(steps[i], true)];
        assert (before + steps[..i + 1])[..|before| + i] == before + steps[..i];
        ProcessStreamStep(steps[i]);
      }
      assert steps[..|steps|] == steps;
    }

    /** The steps one poll read. */
    method MirrorPoll(steps: seq<Step>)
      modifies this, allocator
      ensures (seen, CommittedView()) == ObserveAll(Sightings(steps, false), old(seen), old(CommittedView()), catalog)
      ensures GatesView() == SightAll(Sightings(steps, false), old(GatesView()))
      ensures TrackersView() == old(TrackersView())
    {
      hide Observe, ObserveAll, SightAll, Next;
      ghost var seen0, c0, g0 := seen, CommittedView(), GatesView();
      NothingMoreSighted(seen, c0, g0, catalog, false);
      for i := 0 to |steps|
        invariant (seen, CommittedView()) == ObserveAll(Sightings(steps[..i], false), seen0, c0, catalog)
        invariant GatesView() == SightAll(Sightings(steps[..i], false), g0)
        invariant TrackersView() == old(TrackersView())
      {
        OneMoreSighting(Sightings(steps[..i], false), Sighting(steps[i], false), seen0, c0, g0, catalog);
        assert Sightings(steps[..i + 1], false) == Sightings(steps[..i], false) + [Sighting(steps[i], false)];
        PolledSighting(steps[i], GatesView());
        ProcessCommittedStep(steps[i]);
      }
      assert steps[..|steps|] == steps;
    }

    /** The reader's body: the stream, and the poll loop once the stream has failed. Whatever the two
        paths sight, and however often, the session is sent one fold over the first settled sighting
        of each step. */
    method RunBody(frames: seq<seq<Step>>, streamFails: bool, polls: seq<Option<seq<Step>>>)
      requires seen == {} && TrackersView() == Stream([])
      modifies this, allocator
      ensures var os := Sightings(Concat(frames), true) +
                        if streamFails then Sightings(Answered(polls), false) else [];
              && CommittedView() == Fold(FirstSettled(os, {}), old(CommittedView()), catalog)
              && seen == Keys(FirstSettled(os, {}))
              && GatesView() == SightAll(os, old(GatesView()))
      ensures TrackersView() == Stream(Concat(frames))
      ensures var os := Sightings(Concat(frames), true) +
                        if streamFails then Sightings(Answered(polls), false) else [];
              PostedWhenOver(os, old(CommittedView()), seen, CommittedView(), catalog)
    {
      hide PostedWhenOver;
      hide Fold, FirstSettled, ObserveAll, SightAll, Stream;
      ghost var c0, g0 := CommittedView(), GatesView();
      assert Reached(Sightings([], true), c0, g0, catalog, seen, c0, g0) by { NothingSighted(c0, g0, catalog); }
      for i := 0 to |frames|
        invariant Reached(Sightings(Concat(frames[..i]), true), c0, g0, catalog, seen, CommittedView(), GatesView())
        invariant TrackersView() == Stream(Concat(frames[..i]))
      {
        ghost var before := Concat(frames[..i]);
        ReachedMore(Sightings(before, true), Sightings(frames[i], true), c0, g0, catalog, seen, CommittedView(), GatesView());
        MirrorFrame(frames[i], before);
        assert frames[..i + 1][..i] == frames[..i];
        assert Sightings(before + frames[i], true) == Sightings(before, true) + Sightings(frames[i], true);
      }
      assert frames[..|frames|] == frames;
      ghost var streamed := Sightings(Concat(frames), true);
      assert streamed + Sightings([], false) == streamed;
      if streamFails {
        for i := 0 to |polls|
          invariant Reached(streamed + Sightings(Answered(polls[..i]), false), c0, g0, catalog, seen, CommittedView(), GatesView())
          invariant TrackersView() == Stream(Concat(frames))
        {
          ghost var before := Answered(polls[..i]);
          ghost var read := polls[i].GetOr([]);
          assert polls[..i + 1][..i] == polls[..i];
          assert streamed + Sightings(before + read, false) == (streamed + Sightings(before, false)) + Sightings(read, false);
          ReachedMore(streamed + Sightings(before, false), Sightings(read, false), c0, g0, catalog, seen,
                      CommittedView(), GatesView());
          if polls[i].None? {
            NothingMoreSighted(seen, CommittedView(), GatesView(), catalog, false);
            continue;
          }
          MirrorPoll(polls[i].value);
        }
        assert polls[..|polls|] == polls;
      } else {
        assert streamed + [] == streamed;
      }
      ghost var os := streamed + if streamFails then Sightings(Answered(polls), false) else [];
      OneFoldOverFirstSettled(os, {}, c0, catalog);
      assert {} + Keys(FirstSettled(os, {})) == Keys(FirstSettled(os, {}));
      RunPostsWhenOver(os, c0, catalog);
    }
  }

  lemma NothingSighted(c: Committed, g: Gates, catalog: Catalog)
    ensures Reached(Sightings([], true), c, g, catalog, {}, c, g)
  {
  }

  lemma NothingMoreSighted(seen: set<StepKey>, c: Committed, g: Gates, catalog: Catalog, streamed: bool)
    ensures ObserveAll(Sightings([], streamed), seen, c, catalog) == (seen, c) && SightAll(Sightings([], streamed), g) == g
  {
  }

  lemma PolledSighting(step: Step, g: Gates)
    ensures SightAll([Sighting(step, false)], g) == Next(Sight(step), g)
  {
    assert [Sighting(step, false)][..0] == [];
  }
}
