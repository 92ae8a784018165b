/** What a whole reader run posts, read off the sightings themselves: statuses and fields written out, one
    step at a time. */
module ReaderRuns {
  import opened Common
  import opened TrajectorySteps
  import opened CommittedChannel

  /** Two sightings are of one step if trajectory and index agree; where there is no index the execution
      must agree too. */
  lemma OneStepOneKey(s: Step, t: Step)
    ensures KeyOf(s) == KeyOf(t) <==>
            s.trajectoryId == t.trajectoryId && s.stepIndex == t.stepIndex
            && (s.stepIndex.None? ==> s.discriminator == t.discriminator)
  {
  }

  /** Nothing more will come of the step: it is the user's, or done, or failed. */
  predicate Over(step: Step) { step.kind == UserInput || step.status == Done || step.status == Error }

  /** Sighting `i` is the first one of its step that shows it over. */
  ghost predicate FirstOver(os: seq<Sighting>, i: nat)
    requires i < |os|
  {
    Over(os[i].step) && forall j :: 0 <= j < i && Over(os[j].step) ==> KeyOf(os[j].step) != KeyOf(os[i].step)
  }

  lemma {:induction false} SettledKeys(os: seq<Sighting>, seen: set<StepKey>, key: StepKey)
    ensures key in Keys(FirstSettled(os, seen)) <==>
            key !in seen && exists i :: 0 <= i < |os| && KeyOf(os[i].step) == key && Over(os[i].step)
  {
    hide KeyOf;
    if os != [] {
      var step, rest := os[0].step, os[1..];
      if IsSettled(step) && KeyOf(step) !in seen {
        SettledKeys(rest, seen + {KeyOf(step)}, key);
        KeysCons(step, FirstSettled(rest, seen + {KeyOf(step)}));
      } else {
        SettledKeys(rest, seen, key);
      }
      assert forall i :: 1 <= i < |os| ==> os[i] == rest[i - 1];
    }
  }

  /** The first sighting that shows a step over is folded after what was folded before it. */
  lemma FirstOverIsFolded(os: seq<Sighting>, i: nat)
    requires i < |os| && FirstOver(os, i)
    ensures var earlier := FirstSettled(os[..i], {});
            earlier + [os[i].step] <= FirstSettled(os, {})
  {
    hide KeyOf;
    var step, earlier := os[i].step, FirstSettled(os[..i], {});
    assert os == os[..i] + os[i..];
    FirstSettledAppend(os[..i], os[i..], {});
    SettledKeys(os[..i], {}, KeyOf(step));
    assert os[i..][0] == os[i] && KeyOf(step) !in {} + Keys(earlier);
  }

  // ----- the events of one step -----

  /** The events posted for `key`, in order. */
  function EventsFor(key: StepKey, posts: seq<Post>): seq<Event> {
    if posts == [] then []
    else
      var last := posts[|posts| - 1];
      EventsFor(key, posts[..|posts| - 1]) + if last.key == key then [last.event] else []
  }

  lemma {:induction false} EventsForTagged(key: StepKey, posts: seq<Post>, tag: StepKey, events: seq<Event>)
    ensures EventsFor(key, posts + Tagged(tag, events)) == EventsFor(key, posts) + if tag == key then events else []
  {
    if events == [] {
      assert posts + Tagged(tag, events) == posts;
    } else {
      var n := |events| - 1;
      EventsForTagged(key, posts, tag, events[..n]);
      var all := posts + Tagged(tag, events);
      assert all[..|all| - 1] == posts + Tagged(tag, events[..n]);
      assert events == events[..n] + [events[n]];
    }
  }

  /** What one step posts, in order: the running edge of a turn it opens, its items, the closing edge of a
      turn it ends, its turn's model where that is a new one, and the totals up to it. */
  function EventsOf(step: Step, items: seq<Event>, c: Committed, totals: Totals, catalog: Catalog): seq<Event> {
    (if step.kind == UserInput && !c.turnActive then [SessionStatusEdge(Running)] else [])
    + items
    + (if step.kind == PlannerResponse && c.turnActive && step.status == Error then [SessionStatusEdge(Failed)]
       else if step.kind == PlannerResponse && c.turnActive && step.status == Done
            && (step.planner.None? || step.planner.value.toolCalls == []) then [SessionStatusEdge(Idle)]
       else [])
    + (if step.kind == UserInput && step.requestedModel != "" && c.postedModel != Some(step.requestedModel)
       then [ModelChange(DisplayName(step.requestedModel, catalog))] else [])
    + (if ReportsUsage(step) then [SessionUsage(totals, ReportedModel(step, catalog))] else [])
  }

  predicate ReportsUsage(step: Step) {
    && step.kind == PlannerResponse && step.status == Done && step.usage.Some?
    && var u := step.usage.value; u.input > 0 || u.output > 0 || u.cacheRead > 0 || u.model != ""
  }

  function ReportedModel(step: Step, catalog: Catalog): Option<string> {
    match step.usage
    case Some(u) => if u.model == "" then None else Some(DisplayName(u.model, catalog))
    case None => None
  }

  lemma CommitPosts(step: Step, c: Committed, catalog: Catalog)
    ensures var c' := CommitStep(step, c, catalog);
            c'.posts == c.posts + Tagged(KeyOf(step), EventsOf(step, MapStep(step, c.allocation).0, c, c'.totals, catalog))
  {
    hide MapStep, AddUsage, KeyOf;
    var c' := CommitStep(step, c, catalog);
    var events := EventsOf(step, MapStep(step, c.allocation).0, c, c'.totals, catalog);
    var emitted := Emission(step, c);
    assert emitted <= events && |events| <= |emitted| + 2;
    assert c'.posts == c.posts + Tagged(KeyOf(step), events);
  }

  lemma {:induction false} FoldPosts(key: StepKey, steps: seq<Step>, c: Committed, catalog: Catalog)
    requires forall s :: s in steps ==> KeyOf(s) != key
    ensures EventsFor(key, Fold(steps, c, catalog).posts) == EventsFor(key, c.posts)
  {
    hide CommitStep, EventsOf, KeyOf, EventsFor;
    if steps != [] {
      var c' := CommitStep(steps[0], c, catalog);
      CommitPosts(steps[0], c, catalog);
      EventsForTagged(key, c.posts, KeyOf(steps[0]), EventsOf(steps[0], MapStep(steps[0], c.allocation).0, c, c'.totals, catalog));
      assert EventsFor(key, c.posts) + [] == EventsFor(key, c.posts);
      FoldPosts(key, steps[1..], c', catalog);
    }
  }

  /** In any run, a step is remembered exactly if some sighting showed it over. The first such sighting
      posts the step's events, with the items the mapper gives for it, and nothing else is ever posted
      for the step. */
  lemma StepsPostedWhenOver(os: seq<Sighting>, c: Committed, catalog: Catalog, key: StepKey)
    ensures var (seen, c') := ObserveAll(os, {}, c, catalog);
            && (key in seen <==> exists i :: 0 <= i < |os| && KeyOf(os[i].step) == key && Over(os[i].step))
            && (key !in seen ==> EventsFor(key, c'.posts) == EventsFor(key, c.posts))
    ensures forall i :: 0 <= i < |os| && KeyOf(os[i].step) == key && FirstOver(os, i) ==>
              var step, before := os[i].step, ObserveAll(os[..i], {}, c, catalog).1;
              var totals := ObserveAll(os[..i + 1], {}, c, catalog).1.totals;
              EventsFor(key, ObserveAll(os, {}, c, catalog).1.posts) ==
              EventsFor(key, c.posts) + EventsOf(step, MapStep(step, before.allocation).0, before, totals, catalog)
  {
    hide ObserveAll, Fold, FirstSettled, EventsFor, EventsOf, KeyOf, FirstOver;
    var steps := FirstSettled(os, {});
    OneFoldOverFirstSettled(os, {}, c, catalog);
    SettledKeys(os, {}, key);
    assert {} + Keys(steps) == Keys(steps);
    if key !in Keys(steps) {
      FoldPosts(key, steps, c, catalog);
    }
    forall i | 0 <= i < |os| && KeyOf(os[i].step) == key && FirstOver(os, i)
      ensures var step, before := os[i].step, ObserveAll(os[..i], {}, c, catalog).1;
              var totals := ObserveAll(os[..i + 1], {}, c, catalog).1.totals;
              EventsFor(key, ObserveAll(os, {}, c, catalog).1.posts) ==
              EventsFor(key, c.posts) + EventsOf(step, MapStep(step, before.allocation).0, before, totals, catalog)
    {
      OverPosts(os, i, c, catalog);
    }
  }

  lemma OverPosts(os: seq<Sighting>, i: nat, c: Committed, catalog: Catalog)
    requires i < |os| && FirstOver(os, i)
    ensures var step, before := os[i].step, ObserveAll(os[..i], {}, c, catalog).1;
            var totals := ObserveAll(os[..i + 1], {}, c, catalog).1.totals;
            EventsFor(KeyOf(step), ObserveAll(os, {}, c, catalog).1.posts) ==
            EventsFor(KeyOf(step), c.posts) + EventsOf(step, MapStep(step, before.allocation).0, before, totals, catalog)
  {
    hide ObserveAll, Fold, FirstSettled, EventsFor, EventsOf, KeyOf, FirstOver, CommitStep;
    var steps, earlier, step, key := FirstSettled(os, {}), FirstSettled(os[..i], {}), os[i].step, KeyOf(os[i].step);
    var n := |earlier|;
    OneFoldOverFirstSettled(os, {}, c, catalog);
    OneFoldOverFirstSettled(os[..i], {}, c, catalog);
    FirstOverIsFolded(os, i);
    FirstSettledIsNew(os, {});
    assert steps[..n] == earlier && steps[n] == step;
    var before := Fold(earlier, c, catalog);
    var after := CommitStep(step, before, catalog);
    TotalsAfter(os, i, c, catalog);
    FoldSplits(steps, n, c, catalog);
    FoldPosts(key, earlier, c, catalog);
    CommitPosts(step, before, catalog);
    EventsForTagged(key, before.posts, key, EventsOf(step, MapStep(step, before.allocation).0, before, after.totals, catalog));
    FoldPosts(key, steps[n + 1..], after, catalog);
  }

  lemma TotalsAfter(os: seq<Sighting>, i: nat, c: Committed, catalog: Catalog)
    requires i < |os| && FirstOver(os, i)
    ensures ObserveAll(os[..i + 1], {}, c, catalog).1 ==
            CommitStep(os[i].step, ObserveAll(os[..i], {}, c, catalog).1, catalog)
  {
    hide ObserveAll, Fold, FirstSettled, KeyOf, CommitStep;
    var upTo := os[..i + 1];
    assert upTo[..i] == os[..i] && FirstOver(upTo, i);
    OneFoldOverFirstSettled(os[..i], {}, c, catalog);
    OneFoldOverFirstSettled(upTo, {}, c, catalog);
    LastIsFoldedLast(os[..i], os[i]);
    assert upTo == os[..i] + [os[i]];
    FoldOneMore(FirstSettled(os[..i], {}), os[i].step, c, catalog);
  }

  lemma LastIsFoldedLast(os: seq<Sighting>, o: Sighting)
    requires FirstOver(os + [o], |os|)
    ensures FirstSettled(os + [o], {}) == FirstSettled(os, {}) + [o.step]
  {
    var seen := {} + Keys(FirstSettled(os, {}));
    assert FirstSettled([o], seen) == [o.step] by {
      hide KeyOf;
      assert forall j :: 0 <= j < |os| ==> (os + [o])[j] == os[j];
      SettledKeys(os, {}, KeyOf(o.step));
      OnlySettled(o, seen);
    }
    hide FirstSettled, FirstOver, KeyOf;
    FirstSettledAppend(os, [o], {});
  }

  lemma OnlySettled(o: Sighting, seen: set<StepKey>)
    requires Over(o.step) && KeyOf(o.step) !in seen
    ensures FirstSettled([o], seen) == [o.step]
  {
    assert [o][1..] == [];
  }

  lemma FoldOneMore(steps: seq<Step>, step: Step, c: Committed, catalog: Catalog)
    ensures Fold(steps + [step], c, catalog) == CommitStep(step, Fold(steps, c, catalog), catalog)
  {
    hide CommitStep;
    var all := steps + [step];
    assert all[..|steps|] == steps && all[|steps| + 1..] == [];
    FoldSplits(all, |steps|, c, catalog);
  }

  // ----- the totals posted -----

  /** The usage events among the posts, in order. */
  function UsageEvents(posts: seq<Post>): seq<Event> {
    if posts == [] then []
    else
      var last := posts[|posts| - 1].event;
      UsageEvents(posts[..|posts| - 1]) + if last.SessionUsage? then [last] else []
  }

  function Reporting(steps: seq<Step>): seq<Step> {
    if steps == [] then []
    else Reporting(steps[..|steps| - 1]) + if ReportsUsage(steps[|steps| - 1]) then [steps[|steps| - 1]] else []
  }

  function Sums(steps: seq<Step>): Totals { Totals(Tokens(steps, Input), Tokens(steps, Output), Tokens(steps, CacheRead)) }

  lemma {:induction false} UsageEventsTagged(posts: seq<Post>, key: StepKey, events: seq<Event>)
    requires forall i :: 0 <= i < |events| - 1 ==> !events[i].SessionUsage?
    ensures UsageEvents(posts + Tagged(key, events)) ==
            UsageEvents(posts) + if events != [] && events[|events| - 1].SessionUsage? then [events[|events| - 1]] else []
  {
    var all := posts + Tagged(key, events);
    if events == [] {
      assert all == posts;
    } else {
      var n := |events| - 1;
      UsageEventsTagged(posts, key, events[..n]);
      assert all[..|all| - 1] == posts + Tagged(key, events[..n]);
    }
  }

  lemma CommitUsage(step: Step, c: Committed, catalog: Catalog)
    ensures var c' := CommitStep(step, c, catalog);
            UsageEvents(c'.posts) ==
            UsageEvents(c.posts) + if ReportsUsage(step) then [SessionUsage(c'.totals, ReportedModel(step, catalog))] else []
  {
    hide MapStep, CommitStep, KeyOf, UsageEvents;
    var c' := CommitStep(step, c, catalog);
    var items := MapStep(step, c.allocation).0;
    MappedAreItems(step, c.allocation);
    assert forall i :: 0 <= i < |items| ==> IsConversationItem(items[i]);
    CommitPosts(step, c, catalog);
    UsageEventsTagged(c.posts, KeyOf(step), EventsOf(step, items, c, c'.totals, catalog));
  }

  lemma {:induction false} TokensAppend(steps: seq<Step>, step: Step, count: Usage -> int)
    ensures Tokens(steps + [step], count) == Tokens(steps, count) + Tokens([step], count)
  {
    if steps == [] {
      assert [] + [step] == [step];
    } else {
      assert (steps + [step])[1..] == steps[1..] + [step];
      TokensAppend(steps[1..], step, count);
    }
  }

  lemma SumsAppend(steps: seq<Step>, step: Step)
    ensures var s, t := Sums(steps), Sums([step]);
            Sums(steps + [step]) == Totals(s.input + t.input, s.output + t.output, s.cacheRead + t.cacheRead)
  {
    hide Tokens;
    TokensAppend(steps, step, Input);
    TokensAppend(steps, step, Output);
    TokensAppend(steps, step, CacheRead);
  }

  lemma SilentStep(step: Step)
    requires !ReportsUsage(step)
    ensures Sums([step]) == Totals(0, 0, 0)
  {
    assert [step][1..] == [];
    assert Tokens([step], Input) == 0;
    assert Tokens([step], Output) == 0;
    assert Tokens([step], CacheRead) == 0;
  }

  lemma {:induction false} SilentStepsAddNothing(steps: seq<Step>)
    ensures Sums(Reporting(steps)) == Sums(steps)
  {
    if steps != [] {
      var init, last := steps[..|steps| - 1], steps[|steps| - 1];
      SilentStepsAddNothing(init);
      assert steps == init + [last];
      hide Sums, ReportsUsage;
      SumsAppend(init, last);
      SumsAppend(Reporting(init), last);
      if ReportsUsage(last) {
        assert Reporting(steps) == Reporting(init) + [last];
      } else {
        SilentStep(last);
        assert Reporting(steps) == Reporting(init);
      }
    }
  }

  /** A run posts usage once for each step that reports any, and the totals posted with the k-th one are
      the sums over the first k. */
  lemma {:induction false} PostedTotalsAreSums(steps: seq<Step>, conversation: string, catalog: Catalog)
    ensures var posted, reporting := UsageEvents(Fold(steps, Start(conversation), catalog).posts), Reporting(steps);
            && |posted| == |reporting|
            && forall k :: 0 <= k < |posted| ==>
                             posted[k] == SessionUsage(Sums(reporting[..k + 1]), ReportedModel(reporting[k], catalog))
  {
    hide CommitStep, Fold, UsageEvents, Sums;
    var start := Start(conversation);
    if steps == [] {
      assert Fold(steps, start, catalog) == start && UsageEvents([]) == [] by { NothingPosted(start, catalog); }
    } else {
      var init, last := steps[..|steps| - 1], steps[|steps| - 1];
      PostedTotalsAreSums(init, conversation, catalog);
      assert steps == init + [last];
      FoldOneMore(init, last, start, catalog);
      CommitUsage(last, Fold(init, start, catalog), catalog);
      RunSums(steps, conversation, catalog);
      SilentStepsAddNothing(steps);
      var reporting, n := Reporting(steps), |Reporting(init)|;
      assert forall k :: 0 <= k < n ==> reporting[..k + 1] == Reporting(init)[..k + 1] && reporting[k] == Reporting(init)[k];
      assert reporting[..|reporting|] == reporting;
    }
  }

  lemma NothingPosted(c: Committed, catalog: Catalog)
    ensures Fold([], c, catalog) == c && UsageEvents([]) == []
  {
  }

  lemma RunSums(steps: seq<Step>, conversation: string, catalog: Catalog)
    ensures Fold(steps, Start(conversation), catalog).totals == Sums(steps)
  {
    hide Fold;
    TotalsAreSums(steps, Start(conversation), catalog);
  }

  /** The totals posted over a whole run, whatever it sights. */
  lemma RunPostsSums(os: seq<Sighting>, conversation: string, catalog: Catalog)
    ensures var posted := UsageEvents(ObserveAll(os, {}, Start(conversation), catalog).1.posts);
            var reporting := Reporting(FirstSettled(os, {}));
            && |posted| == |reporting|
            && forall k :: 0 <= k < |posted| ==>
                             posted[k] == SessionUsage(Sums(reporting[..k + 1]), ReportedModel(reporting[k], catalog))
  {
    hide Fold, ObserveAll, FirstSettled, UsageEvents, Sums;
    OneFoldOverFirstSettled(os, {}, Start(conversation), catalog);
    PostedTotalsAreSums(FirstSettled(os, {}), conversation, catalog);
  }
}
