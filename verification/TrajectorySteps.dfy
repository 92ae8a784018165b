/** Trajectory steps as the agent reports them, and the mapper from one step to the conversation
    items it commits. */
module TrajectorySteps {
  import opened Common
  import opened ToolCallIds

  // ----- a step -----

  datatype StepType =
    | UserInput | PlannerResponse | RunCommand | ListDirectory | AskQuestion
    | OtherType(name: string)
    | NotAType

  datatype Status = Done | Error | Waiting | Generating | OtherStatus(name: string)

  /** One entry of a planner's tool calls. `name` and `id` are "" where the entry has none; `arguments`
      is the text mirrored for the call, None where the entry's own is not JSON. */
  datatype ToolCallEntry = NotAnEntry | Entry(name: string, arguments: Option<string>, id: string)

  datatype Planner = Planner(
    modified: Option<string>, response: Option<string>, thinking: Option<string>,
    toolCalls: seq<ToolCallEntry>, errorText: string)

  datatype UserTurn = UserTurn(userResponse: Option<string>, items: seq<string>)

  datatype Usage = Usage(input: int, output: int, cacheRead: int, model: string)

  datatype Requested = Requested(askQuestion: Option<string>, permission: Option<string>)

  /** `discriminator` is the step's execution id or, failing that, its creation time. `resultText` is
      what the extractor of the step's type finds. */
  datatype Step = Step(
    kind: StepType, status: Status,
    trajectoryId: Option<string>, stepIndex: Option<int>, discriminator: Option<string>,
    userTurn: Option<UserTurn>, requestedModel: string,
    planner: Option<Planner>, usage: Option<Usage>,
    resultCallId: Option<string>, toolName: string, resultText: Option<string>,
    requested: Option<Requested>)

  function IndexOrZero(step: Step): int { step.stepIndex.GetOr(0) }

  // ----- a pending interaction -----

  datatype InteractionKind = Question | Permission

  datatype PendingInteraction = PendingInteraction(kind: InteractionKind, trajectoryId: string, stepIndex: int, spec: string)

  function Pending(step: Step): (p: Option<PendingInteraction>)
    ensures p.Some? <==> && step.status == Waiting && step.trajectoryId.Some? && step.requested.Some?
                         && (step.requested.value.askQuestion.Some? || step.requested.value.permission.Some?)
    ensures p.Some? ==>
              && Some(p.value.trajectoryId) == step.trajectoryId
              && p.value.stepIndex == (if step.stepIndex.Some? then step.stepIndex.value else 0)
              && Some(p.value.spec) == (if p.value.kind == Question then step.requested.value.askQuestion
                                        else step.requested.value.permission)
              && (p.value.kind == Permission ==> step.requested.value.askQuestion.None?)
  {
    if step.status != Waiting then None
    else
      match (step.requested, step.trajectoryId)
      case (Some(Requested(Some(spec), _)), Some(tid)) =>
        Some(PendingInteraction(Question, tid, IndexOrZero(step), spec))
      case (Some(Requested(None, Some(spec))), Some(tid)) =>
        Some(PendingInteraction(Permission, tid, IndexOrZero(step), spec))
      case _ => None
  }

  // ----- what a step means for its turn -----

  predicate IsSettled(step: Step) { step.kind == UserInput || step.status == Done || step.status == Error }

  predicate IsUserTurnStep(step: Step) { step.kind == UserInput }

  predicate IsErrorPlanner(step: Step) { step.kind == PlannerResponse && step.status == Error }

  predicate IsGeneratingPlanner(step: Step) { step.kind == PlannerResponse && step.status == Generating }

  predicate Space(c: char) {
    var n := c as int;
    || 9 <= n <= 13 || 0x1C <= n <= 0x20 || n == 0x85 || n == 0xA0 || n == 0x1680 || 0x2000 <= n <= 0x200A
    || n == 0x2028 || n == 0x2029 || n == 0x202F || n == 0x205F || n == 0x3000
  }

  predicate Blank(s: string) { forall i :: 0 <= i < |s| ==> Space(s[i]) }

  function PlannerText(planner: Planner): string {
    if planner.modified.GetOr("") != "" then planner.modified.value else planner.response.GetOr("")
  }

  predicate IsAssistantTextCloseStep(step: Step) {
    && step.status == Done && step.kind == PlannerResponse && step.planner.Some?
    && !Blank(PlannerText(step.planner.value)) && step.planner.value.toolCalls == []
  }

  function ToolCalls(step: Step): seq<ToolCallEntry> {
    if step.planner.Some? then step.planner.value.toolCalls else []
  }

  /** A turn ends with a planner step that failed or that is done and calls no tool, with or without
      any text. */
  predicate IsTurnCloseStep(step: Step)
    ensures IsTurnCloseStep(step) <==>
            step.kind == PlannerResponse && (step.status == Error || (step.status == Done && ToolCalls(step) == []))
  {
    if IsAssistantTextCloseStep(step) then true
    else if step.kind != PlannerResponse then false
    else if step.status == Error then true
    else if step.status != Done then false
    else ToolCalls(step) == []
  }

  // ----- events posted for a session -----

  datatype SessionStatus = Running | Idle | Failed

  datatype Totals = Totals(input: nat, output: nat, cacheRead: nat)

  datatype Event =
    | UserMessage(text: string)
    | AssistantMessage(stepIndex: int, text: string)
    | FunctionCall(stepIndex: int, name: string, arguments: string, callId: string)
    | FunctionCallOutput(stepIndex: int, callId: string, output: string)
    | SessionStatusEdge(status: SessionStatus)
    | ModelChange(model: string)
    | SessionUsage(totals: Totals, displayName: Option<string>)

  /** The events the server appends as conversation items, without deduplicating them. */
  predicate IsConversationItem(e: Event) {
    e.UserMessage? || e.AssistantMessage? || e.FunctionCall? || e.FunctionCallOutput?
  }

  // ----- the mapper -----

  function JoinNonEmpty(parts: seq<string>): string {
    if parts == [] then ""
    else
      var more := JoinNonEmpty(parts[1..]);
      if parts[0] == "" then more else if more == "" then parts[0] else parts[0] + "\n" + more
  }

  function UserInputText(turn: Option<UserTurn>): (text: string)
    ensures text != "" ==> !Blank(text)
  {
    match turn
    case None => ""
    case Some(UserTurn(response, items)) =>
      if response.Some? && !Blank(response.value) then response.value
      else if !Blank(JoinNonEmpty(items)) then JoinNonEmpty(items)
      else ""
  }

  function PlannerErrorText(step: Step): string {
    "[antigravity: the model did not complete this turn (status ERROR)" +
    (if step.planner.Some? && step.planner.value.errorText != "" then ": " + step.planner.value.errorText else "") + "]"
  }

  function ToolErrorOutput(step: Step): string {
    "[antigravity: " + (if step.toolName != "" then step.toolName else "tool") + " did not complete (status ERROR)]"
  }

  predicate IsCall(entry: ToolCallEntry) { entry.Entry? && entry.name != "" && entry.arguments.Some? }

  predicate IsKnownToolResult(step: Step) {
    step.kind == RunCommand || step.kind == ListDirectory || step.kind == AskQuestion
  }

  /** A result step whose call is over, whether or not it has a result to show. */
  predicate IsTerminalToolResult(step: Step) {
    && !step.kind.UserInput? && !step.kind.PlannerResponse? && !step.kind.NotAType?
    && (IsKnownToolResult(step) || step.resultCallId.Some?)
    && (step.status == Done || step.status == Error)
  }

  function ToolResultOutput(step: Step): string {
    if IsKnownToolResult(step) && step.resultText.Some? then step.resultText.value
    else if step.status == Error then ToolErrorOutput(step)
    else ""
  }

  function FunctionCalls(entries: seq<ToolCallEntry>, stepIndex: int, a: Allocation): (seq<Event>, Allocation) {
    if entries == [] then ([], a)
    else if !IsCall(entries[0]) then FunctionCalls(entries[1..], stepIndex, a)
    else
      var e := entries[0];
      var (id, a') := if e.id != "" then (e.id, a) else Claim(a);
      var (more, last) := FunctionCalls(entries[1..], stepIndex, a');
      ([FunctionCall(stepIndex, e.name, e.arguments.value, id)] + more, last)
  }

  function MapPlanner(step: Step, a: Allocation): (seq<Event>, Allocation) {
    if step.status == Error then ([AssistantMessage(IndexOrZero(step), PlannerErrorText(step))], a)
    else if step.status != Done || step.planner.None? then ([], a)
    else
      var text := PlannerText(step.planner.value);
      var message := if text == "" then [] else [AssistantMessage(IndexOrZero(step), text)];
      var (calls, a') := FunctionCalls(step.planner.value.toolCalls, IndexOrZero(step), a);
      (message + calls, a')
  }

  function MapStep(step: Step, a: Allocation): (seq<Event>, Allocation) {
    if step.kind.UserInput? then
      var text := UserInputText(step.userTurn);
      (if text == "" then [] else [UserMessage(text)], a)
    else if step.kind.PlannerResponse? then MapPlanner(step, a)
    else if IsTerminalToolResult(step) then
      var (id, a') := if step.resultCallId.Some? then (step.resultCallId.value, a) else Match(a);
      ([FunctionCallOutput(IndexOrZero(step), id, ToolResultOutput(step))], a')
    else ([], a)
  }

  method FunctionCallEvents(entries: seq<ToolCallEntry>, stepIndex: int, allocator: ToolCallIdAllocator)
    returns (events: seq<Event>)
    modifies allocator
    ensures (events, allocator.View()) == FunctionCalls(entries, stepIndex, old(allocator.View()))
  {
    events := [];
    assert entries[0..] == entries;
    ghost var all := FunctionCalls(entries, stepIndex, allocator.View());
    assert [] + all.0 == all.0;
    for i := 0 to |entries|
      invariant var (more, last) := FunctionCalls(entries[i..], stepIndex, allocator.View());
                all == (events + more, last)
    {
      var entry := entries[i];
      assert entries[i..][1..] == entries[i + 1..];
      if !IsCall(entry) {
        continue;
      }
      var callId := entry.id;
      if callId == "" {
        callId := allocator.ClaimCallId();
      }
      ghost var more := FunctionCalls(entries[i + 1..], stepIndex, allocator.View()).0;
      var event := FunctionCall(stepIndex, entry.name, entry.arguments.value, callId);
      assert events + ([event] + more) == (events + [event]) + more;
      events := events + [event];
    }
    assert events + [] == events;
  }

  method MapStepToEvents(step: Step, allocator: ToolCallIdAllocator) returns (events: seq<Event>)
    modifies allocator
    ensures (events, allocator.View()) == MapStep(step, old(allocator.View()))
  {
    events := [];
    match step.kind {
      case NotAType =>
      case UserInput =>
        var text := UserInputText(step.userTurn);
        if text != "" {
          events := [UserMessage(text)];
        }
      case PlannerResponse =>
        if step.status == Error {
          events := [AssistantMessage(IndexOrZero(step), PlannerErrorText(step))];
        } else if step.status == Done && step.planner.Some? {
          var planner := step.planner.value;
          if PlannerText(planner) != "" {
            events := [AssistantMessage(IndexOrZero(step), PlannerText(planner))];
          }
          if planner.toolCalls != [] {
            var calls := FunctionCallEvents(planner.toolCalls, IndexOrZero(step), allocator);
            events := events + calls;
          } else {
            assert events + [] == events;
          }
        }
      case _ =>
        if (IsKnownToolResult(step) || step.resultCallId.Some?) && (step.status == Done || step.status == Error) {
          var callId;
          if step.resultCallId.Some? {
            callId := step.resultCallId.value;
          } else {
            callId := allocator.MatchOutputId();
          }
          events := [FunctionCallOutput(IndexOrZero(step), callId, ToolResultOutput(step))];
        }
    }
  }

  // ----- what the mapper promises its callers -----

  /** Before a step settles the mapper says nothing and leaves the allocator alone. */
  lemma MapperSilentUntilSettled(step: Step, a: Allocation)
    requires !IsSettled(step)
    ensures MapStep(step, a) == ([], a)
  {
  }

  lemma {:induction false} CallsAreItems(entries: seq<ToolCallEntry>, stepIndex: int, a: Allocation)
    ensures forall e :: e in FunctionCalls(entries, stepIndex, a).0 ==> e.FunctionCall?
  {
    if entries != [] {
      var a' := if IsCall(entries[0]) && entries[0].id == "" then Claim(a).1 else a;
      CallsAreItems(entries[1..], stepIndex, a');
    }
  }

  /** Everything the mapper says is a conversation item. */
  lemma MappedAreItems(step: Step, a: Allocation)
    ensures forall e :: e in MapStep(step, a).0 ==> IsConversationItem(e)
  {
    CallsAreItems(ToolCalls(step), IndexOrZero(step), a);
  }

  /** Every call a step makes or resolves has an id of its own. */
  predicate HasRealIds(step: Step) {
    && (step.kind.PlannerResponse? && step.status == Done ==>
          forall i :: 0 <= i < |ToolCalls(step)| && IsCall(ToolCalls(step)[i]) ==> ToolCalls(step)[i].id != "")
    && (IsTerminalToolResult(step) ==> step.resultCallId.Some?)
  }

  function MapAll(steps: seq<Step>, a: Allocation): (seq<Event>, Allocation) {
    if steps == [] then ([], a)
    else
      var (first, a') := MapStep(steps[0], a);
      var (more, last) := MapAll(steps[1..], a');
      (first + more, last)
  }

  lemma {:induction false} RealIdCalls(entries: seq<ToolCallEntry>, stepIndex: int, a: Allocation, b: Allocation)
    requires forall i :: 0 <= i < |entries| && IsCall(entries[i]) ==> entries[i].id != ""
    ensures FunctionCalls(entries, stepIndex, a) == (FunctionCalls(entries, stepIndex, b).0, a)
  {
    if entries != [] {
      RealIdCalls(entries[1..], stepIndex, a, b);
    }
  }

  /** With real ids the allocator plays no part. */
  lemma RealIdsBypassAllocator(step: Step, a: Allocation, b: Allocation)
    requires HasRealIds(step)
    ensures MapStep(step, a) == (MapStep(step, b).0, a)
  {
    if step.kind.PlannerResponse? && step.status == Done {
      RealIdCalls(ToolCalls(step), IndexOrZero(step), a, b);
    }
  }

  lemma MapAllFirst(first: Step, rest: seq<Step>, a: Allocation)
    requires HasRealIds(first)
    ensures MapAll([first] + rest, a).0 == MapStep(first, a).0 + MapAll(rest, a).0
  {
    hide MapStep, HasRealIds;
    assert ([first] + rest)[1..] == rest;
    RealIdsBypassAllocator(first, a, a);
  }

  lemma {:induction false} MapAllSplits(before: seq<Step>, step: Step, after: seq<Step>, a: Allocation)
    requires forall s :: s in before + [step] + after ==> HasRealIds(s)
    ensures multiset(MapAll(before + [step] + after, a).0) ==
            multiset(MapStep(step, a).0) + multiset(MapAll(before + after, a).0)
  {
    hide MapStep, MapAll, HasRealIds;
    if before == [] {
      assert before + [step] + after == [step] + after && before + after == after;
      MapAllFirst(step, after, a);
    } else {
      var first, rest := before[0], before[1..];
      assert before + [step] + after == [first] + (rest + [step] + after);
      assert before + after == [first] + (rest + after);
      MapAllFirst(first, rest + [step] + after, a);
      MapAllFirst(first, rest + after, a);
      MapAllSplits(rest, step, after, a);
    }
  }

  lemma SplitAround(step: Step, rest: seq<Step>, others: seq<Step>) returns (before: seq<Step>, after: seq<Step>)
    requires multiset(others) == multiset([step] + rest)
    ensures others == before + [step] + after && multiset(rest) == multiset(before + after)
  {
    assert step in multiset(others);
    var k :| 0 <= k < |others| && others[k] == step;
    before, after := others[..k], others[k + 1..];
    assert others == before + [step] + after;
    assert multiset(before + after) == multiset(others) - multiset{step};
  }

  /** With real ids, mapping the same steps in any order gives the same events. */
  lemma {:induction false} OrderIndependentWithRealIds(steps: seq<Step>, others: seq<Step>, a: Allocation)
    requires multiset(steps) == multiset(others)
    requires forall s :: s in steps ==> HasRealIds(s)
    ensures multiset(MapAll(steps, a).0) == multiset(MapAll(others, a).0)
    decreases |steps|
  {
    hide MapStep, MapAll, HasRealIds;
    if steps == [] {
      assert |multiset(others)| == 0;
    } else {
      var s, rest := steps[0], steps[1..];
      assert steps == [] + [s] + rest && [] + rest == rest;
      var before, after := SplitAround(s, rest, others);
      assert forall t :: t in others ==> t in multiset(steps);
      OrderIndependentWithRealIds(rest, before + after, a);
      MapAllSplits([], s, rest, a);
      MapAllSplits(before, s, after, a);
    }
  }

  /** Each terminal tool-result step closes exactly one call, and no other step closes any. */
  lemma OneOutputPerTerminalResult(step: Step, a: Allocation)
    ensures var events := MapStep(step, a).0;
            if IsTerminalToolResult(step) then |events| == 1 && events[0].FunctionCallOutput?
            else forall e :: e in events ==> !e.FunctionCallOutput?
    ensures IsTerminalToolResult(step) && step.resultCallId.Some? ==>
              MapStep(step, a).0[0].callId == step.resultCallId.value
  {
    hide FunctionCalls;
    CallsAreItems(ToolCalls(step), IndexOrZero(step), a);
  }
}
