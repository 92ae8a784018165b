/** What the mapper makes of each kind of step, read off the step's own fields. */
module MapperItems {
  import opened Common
  import opened ToolCallIds
  import opened TrajectorySteps

  /** The entries of a planner's tool calls that are calls: they have a name and readable arguments. */
  function CallEntries(entries: seq<ToolCallEntry>): seq<ToolCallEntry> {
    if entries == [] then []
    else
      (if entries[0].Entry? && entries[0].name != "" && entries[0].arguments.Some? then [entries[0]] else [])
      + CallEntries(entries[1..])
  }

  /** One call for each entry that is one, in order, with the entry's own id where it has one. */
  ghost predicate CallsFor(entries: seq<ToolCallEntry>, stepIndex: int, calls: seq<Event>) {
    var es := CallEntries(entries);
    && |calls| == |es|
    && forall j :: 0 <= j < |calls| ==> CallFor(es[j], stepIndex, calls[j])
  }

  predicate CallFor(e: ToolCallEntry, stepIndex: int, call: Event) {
    && e.Entry? && call.FunctionCall? && call.stepIndex == stepIndex
    && call.name == e.name && Some(call.arguments) == e.arguments && (e.id != "" ==> call.callId == e.id)
  }

  lemma {:induction false} CallsInOrder(entries: seq<ToolCallEntry>, stepIndex: int, a: Allocation)
    ensures CallsFor(entries, stepIndex, FunctionCalls(entries, stepIndex, a).0)
  {
    if entries != [] {
      var e := entries[0];
      var a' := if IsCall(e) && e.id == "" then Claim(a).1 else a;
      hide Claim;
      CallsInOrder(entries[1..], stepIndex, a');
    }
  }

  /** A planner step that is done says its text, the moderated one if there is any, and then makes its calls
      in order; a failed one says that it failed; any other says nothing. */
  lemma PlannerSays(step: Step, a: Allocation) returns (message: seq<Event>, calls: seq<Event>)
    requires step.kind == PlannerResponse
    ensures MapStep(step, a).0 == message + calls
    ensures var index := if step.stepIndex.Some? then step.stepIndex.value else 0;
            if step.status == Error then
              && calls == [] && |message| == 1 && message[0].AssistantMessage? && message[0].stepIndex == index
              && message[0].text == "[antigravity: the model did not complete this turn (status ERROR)" +
                                    (match step.planner
                                     case Some(p) => if p.errorText != "" then ": " + p.errorText else ""
                                     case None => "") + "]"
            else if step.status == Done && step.planner.Some? then
              var p := step.planner.value;
              var text := match p.modified
                          case Some(m) => if m != "" then m else p.response.GetOr("")
                          case None => p.response.GetOr("");
              message == (if text == "" then [] else [AssistantMessage(index, text)]) && CallsFor(p.toolCalls, index, calls)
            else message == calls == []
  {
    message, calls := MapStep(step, a).0, [];
    if step.status == Done && step.planner.Some? {
      CallsInOrder(step.planner.value.toolCalls, IndexOrZero(step), a);
      calls := FunctionCalls(step.planner.value.toolCalls, IndexOrZero(step), a).0;
      hide FunctionCalls, CallsFor;
      message := message[..|message| - |calls|];
    }
  }

  /** The parts that are not empty, from left to right with a line break between them. */
  lemma {:induction false} JoinedLeftToRight(parts: seq<string>, last: string)
    ensures var joined := JoinNonEmpty(parts);
            JoinNonEmpty(parts + [last]) ==
            if last == "" then joined else if joined == "" then last else joined + "\n" + last
  {
    if parts == [] {
      assert ([] + [last])[1..] == [];
    } else {
      assert (parts + [last])[1..] == parts[1..] + [last];
      JoinedLeftToRight(parts[1..], last);
      var more := JoinNonEmpty(parts[1..]);
      if parts[0] != "" && more != "" && last != "" {
        assert parts[0] + "\n" + (more + "\n" + last) == (parts[0] + "\n" + more) + "\n" + last;
      }
    }
  }

  /** A user input says the user's response, or its items' texts where the response is blank, and nothing if
      those are blank too, in any status. */
  lemma UserSays(step: Step, a: Allocation)
    requires step.kind == UserInput
    ensures MapStep(step, a).1 == a
    ensures MapStep(step, a).0 ==
            match step.userTurn
            case None => []
            case Some(turn) =>
              if turn.userResponse.Some? && !Blank(turn.userResponse.value) then [UserMessage(turn.userResponse.value)]
              else if !Blank(JoinNonEmpty(turn.items)) then [UserMessage(JoinNonEmpty(turn.items))]
              else []
  {
    hide JoinNonEmpty;
    assert Blank("");
  }

  /** A result step that is done or failed closes its call with what it shows, or with a note that it failed,
      or with nothing; and no other step says anything. */
  lemma ResultSays(step: Step, a: Allocation)
    requires step.kind != UserInput && step.kind != PlannerResponse
    ensures var known := step.kind == RunCommand || step.kind == ListDirectory || step.kind == AskQuestion;
            var events := MapStep(step, a).0;
            if step.kind != NotAType && (known || step.resultCallId.Some?) && (step.status == Done || step.status == Error) then
              && |events| == 1 && events[0].FunctionCallOutput?
              && events[0].stepIndex == (if step.stepIndex.Some? then step.stepIndex.value else 0)
              && (step.resultCallId.Some? ==> events[0].callId == step.resultCallId.value)
              && events[0].output == (if known && step.resultText.Some? then step.resultText.value
                                      else if step.status == Done then ""
                                      else "[antigravity: " + (if step.toolName == "" then "tool" else step.toolName) +
                                           " did not complete (status ERROR)]")
            else events == []
  {
    hide Match;
  }
}
