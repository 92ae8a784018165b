/** The committed side of the reader: conversation items, turn edges, model changes and usage totals,
    posted from a view of the trajectory in which every step is sighted many times and in many
    statuses. The specification is one fold over the first settled sighting of each step. */
module CommittedChannel {
  import opened Common
  import opened ToolCallIds
  import opened TrajectorySteps

  datatype StepKey = StepKey(trajectoryId: Option<string>, stepIndex: Option<int>, discriminator: Option<string>)

  /** A step's identity within a run. */
  function KeyOf(step: Step): StepKey {
    StepKey(step.trajectoryId, step.stepIndex, if step.stepIndex.Some? then None else step.discriminator)
  }

  type Catalog = map<string, string>

  function DisplayName(model: string, catalog: Catalog): (name: string)
    ensures if model in catalog then name == catalog[model] else name == model
  {
    if model in catalog then catalog[model] else model
  }

  /** A posted event with the step it was posted for. */
  datatype Post = Post(key: StepKey, event: Event)

  datatype Committed = Committed(
    allocation: Allocation, turnActive: bool, postedModel: Option<string>, totals: Totals, posts: seq<Post>)

  function Start(conversation: string): Committed {
    Committed(Fresh(conversation), false, None, Totals(0, 0, 0), [])
  }

  function Tagged(key: StepKey, events: seq<Event>): (posts: seq<Post>)
    ensures |posts| == |events| && forall i :: 0 <= i < |posts| ==> posts[i] == Post(key, events[i])
  {
    seq(|events|, i requires 0 <= i < |events| => Post(key, events[i]))
  }

  // ----- what one new step posts -----

  function Opening(step: Step, turnActive: bool): seq<Event> {
    if IsUserTurnStep(step) && !turnActive then [SessionStatusEdge(Running)] else []
  }

  function Closing(step: Step, turnActive: bool): seq<Event> {
    if IsTurnCloseStep(step) && (turnActive || IsUserTurnStep(step)) then
      [SessionStatusEdge(if IsErrorPlanner(step) then Failed else Idle)]
    else []
  }

  function TurnAfter(step: Step, turnActive: bool): bool {
    (turnActive || IsUserTurnStep(step)) && !IsTurnCloseStep(step)
  }

  /** The events one step's emission posts, in order. */
  function Emission(step: Step, c: Committed): seq<Event> {
    Opening(step, c.turnActive) + MapStep(step, c.allocation).0 + Closing(step, c.turnActive)
  }

  function EmitStep(step: Step, c: Committed): Committed {
    c.(allocation := MapStep(step, c.allocation).1,
       turnActive := TurnAfter(step, c.turnActive),
       posts := c.posts + Tagged(KeyOf(step), Emission(step, c)))
  }

  function EmitModelChange(step: Step, c: Committed, catalog: Catalog): Committed {
    var model := step.requestedModel;
    if !IsUserTurnStep(step) || model == "" || c.postedModel == Some(model) then c
    else
      c.(postedModel := Some(model),
         posts := c.posts + [Post(KeyOf(step), ModelChange(DisplayName(model, catalog)))])
  }

  function Positive(n: int): nat { if n > 0 then n else 0 }

  /** The usage a step reports: only a completed planner step's, and only if it says anything. */
  function ReportedUsage(step: Step): Option<Usage> {
    if step.kind != PlannerResponse || step.status != Done then None
    else
      match step.usage
      case Some(u) => if u.input > 0 || u.output > 0 || u.cacheRead > 0 || u.model != "" then Some(u) else None
      case None => None
  }

  function AddUsage(t: Totals, step: Step): Totals {
    match ReportedUsage(step)
    case None => t
    case Some(u) =>
      Totals(t.input + Positive(u.input), t.output + Positive(u.output), t.cacheRead + Positive(u.cacheRead))
  }

  function EmitUsage(step: Step, c: Committed, catalog: Catalog): Committed {
    match ReportedUsage(step)
    case None => c
    case Some(u) =>
      var name := if u.model == "" then None else Some(DisplayName(u.model, catalog));
      c.(totals := AddUsage(c.totals, step),
         posts := c.posts + [Post(KeyOf(step), SessionUsage(AddUsage(c.totals, step), name))])
  }

  function CommitStep(step: Step, c: Committed, catalog: Catalog): Committed {
    EmitUsage(step, EmitModelChange(step, EmitStep(step, c), catalog), catalog)
  }

  /** What model change and usage add: nothing but telemetry events at the end of the posts. */
  lemma TelemetryOnlyAdds(step: Step, c: Committed, catalog: Catalog) returns (more: seq<Post>)
    ensures var c' := EmitUsage(step, EmitModelChange(step, c, catalog), catalog);
            c'.posts == c.posts + more && c'.turnActive == c.turnActive
    ensures forall p :: p in more ==> p.event.ModelChange? || p.event.SessionUsage?
  {
    hide AddUsage;
    var c2 := EmitModelChange(step, c, catalog);
    var c3 := EmitUsage(step, c2, catalog);
    var first := if c2 == c then [] else [c2.posts[|c.posts|]];
    var second := if c3 == c2 then [] else [c3.posts[|c2.posts|]];
    assert c2.posts == c.posts + first;
    more := first + second;
  }

  // ----- what the reader does with a sighting -----

  /** One sighting of a step, on the stream or by a poll. */
  datatype Sighting = Sighting(step: Step, streamed: bool)

  function Observe(o: Sighting, seen: set<StepKey>, c: Committed, catalog: Catalog): (set<StepKey>, Committed) {
    if o.streamed && IsGeneratingPlanner(o.step) then (seen, c)
    else if KeyOf(o.step) in seen then (seen, c)
    else (if IsSettled(o.step) then seen + {KeyOf(o.step)} else seen, CommitStep(o.step, c, catalog))
  }

  function ObserveAll(os: seq<Sighting>, seen: set<StepKey>, c: Committed, catalog: Catalog)
    : (set<StepKey>, Committed)
  {
    if os == [] then (seen, c)
    else
      var (seen', c') := Observe(os[0], seen, c, catalog);
      ObserveAll(os[1..], seen', c', catalog)
  }

  // ----- the specification -----

  /** The first settled sighting of each step that is not yet in `seen`. */
  function FirstSettled(os: seq<Sighting>, seen: set<StepKey>): seq<Step> {
    if os == [] then []
    else if IsSettled(os[0].step) && KeyOf(os[0].step) !in seen then
      [os[0].step] + FirstSettled(os[1..], seen + {KeyOf(os[0].step)})
    else FirstSettled(os[1..], seen)
  }

  function Keys(steps: seq<Step>): set<StepKey> { set s | s in steps :: KeyOf(s) }

  function Fold(steps: seq<Step>, c: Committed, catalog: Catalog): Committed {
    if steps == [] then c else Fold(steps[1..], CommitStep(steps[0], c, catalog), catalog)
  }

  lemma UnsettledCommitsNothing(step: Step, c: Committed, catalog: Catalog)
    requires !IsSettled(step)
    ensures CommitStep(step, c, catalog) == c
  {
    MapperSilentUntilSettled(step, c.allocation);
    assert Emission(step, c) == [];
    assert c.posts + [] == c.posts;
  }

  /** One sighting counts exactly when it is the first settled one of its step. */
  lemma SightingCounts(o: Sighting, seen: set<StepKey>, c: Committed, catalog: Catalog)
    ensures Observe(o, seen, c, catalog) ==
            if IsSettled(o.step) && KeyOf(o.step) !in seen
            then (seen + {KeyOf(o.step)}, CommitStep(o.step, c, catalog))
            else (seen, c)
  {
    if !IsSettled(o.step) {
      UnsettledCommitsNothing(o.step, c, catalog);
    }
  }

  lemma KeysCons(step: Step, rest: seq<Step>)
    ensures Keys([step] + rest) == {KeyOf(step)} + Keys(rest)
  {
    assert forall s :: s in [step] + rest <==> s == step || s in rest;
  }

  /** Whatever the repeats, the statuses in between and the path each sighting took, what is posted
      and counted is one fold over the first settled sighting of each step. */
  lemma {:induction false} OneFoldOverFirstSettled(os: seq<Sighting>, seen: set<StepKey>, c: Committed, catalog: Catalog)
    ensures ObserveAll(os, seen, c, catalog) ==
            (seen + Keys(FirstSettled(os, seen)), Fold(FirstSettled(os, seen), c, catalog))
  {
    hide CommitStep;
    if os == [] {
      assert seen + Keys([]) == seen;
    } else {
      SightingCounts(os[0], seen, c, catalog);
      var (seen', c') := Observe(os[0], seen, c, catalog);
      OneFoldOverFirstSettled(os[1..], seen', c', catalog);
      var rest := FirstSettled(os[1..], seen');
      KeysCons(os[0].step, rest);
      assert ([os[0].step] + rest)[1..] == rest;
      assert seen + {KeyOf(os[0].step)} + Keys(rest) == seen + ({KeyOf(os[0].step)} + Keys(rest));
    }
  }

  lemma {:induction false} FirstSettledAppend(os: seq<Sighting>, more: seq<Sighting>, seen: set<StepKey>)
    ensures FirstSettled(os + more, seen) ==
            FirstSettled(os, seen) + FirstSettled(more, seen + Keys(FirstSettled(os, seen)))
  {
    if os == [] {
      assert os + more == more && seen + Keys([]) == seen;
    } else {
      var step := os[0].step;
      assert (os + more)[1..] == os[1..] + more;
      if IsSettled(step) && KeyOf(step) !in seen {
        var seen' := seen + {KeyOf(step)};
        var rest := FirstSettled(os[1..], seen');
        FirstSettledAppend(os[1..], more, seen');
        KeysCons(step, rest);
        assert seen' + Keys(rest) == seen + Keys([step] + rest);
      } else {
        FirstSettledAppend(os[1..], more, seen);
      }
    }
  }

  ghost predicate NewAndDistinct(steps: seq<Step>, seen: set<StepKey>) {
    && (forall s :: s in steps ==> IsSettled(s) && KeyOf(s) !in seen)
    && DistinctKeys(steps)
  }

  ghost predicate DistinctKeys(steps: seq<Step>) {
    forall i, j :: 0 <= i < j < |steps| ==> KeyOf(steps[i]) != KeyOf(steps[j])
  }

  lemma {:induction false} FirstSettledIsNew(os: seq<Sighting>, seen: set<StepKey>)
    ensures NewAndDistinct(FirstSettled(os, seen), seen)
  {
    hide KeyOf, IsSettled;
    if os != [] {
      var step := os[0].step;
      if IsSettled(step) && KeyOf(step) !in seen {
        FirstSettledIsNew(os[1..], seen + {KeyOf(step)});
      } else {
        FirstSettledIsNew(os[1..], seen);
      }
    }
  }

  lemma {:induction false} NothingNewLeft(os: seq<Sighting>, seen: set<StepKey>)
    requires forall o :: o in os && IsSettled(o.step) ==> KeyOf(o.step) in seen
    ensures FirstSettled(os, seen) == []
  {
    if os != [] {
      NothingNewLeft(os[1..], seen);
    }
  }

  /** A snapshot re-read, in any order and by either path, posts nothing and counts nothing again. */
  lemma ReReadPostsNothing(os: seq<Sighting>, again: seq<Sighting>, c: Committed, catalog: Catalog)
    requires forall o :: o in again && IsSettled(o.step) ==> KeyOf(o.step) in Keys(FirstSettled(os, {}))
    ensures ObserveAll(os + again, {}, c, catalog) == ObserveAll(os, {}, c, catalog)
  {
    OneFoldOverFirstSettled(os, {}, c, catalog);
    OneFoldOverFirstSettled(os + again, {}, c, catalog);
    FirstSettledAppend(os, again, {});
    NothingNewLeft(again, {} + Keys(FirstSettled(os, {})));
    assert FirstSettled(os, {}) + [] == FirstSettled(os, {});
  }

  // ----- usage totals -----

  function Input(u: Usage): int { u.input }

  function Output(u: Usage): int { u.output }

  function CacheRead(u: Usage): int { u.cacheRead }

  /** The tokens of one kind reported by the completed planner steps. */
  function Tokens(steps: seq<Step>, count: Usage -> int): nat {
    if steps == [] then 0
    else
      var first := steps[0];
      (if first.kind == PlannerResponse && first.status == Done && first.usage.Some?
          && count(first.usage.value) > 0
       then count(first.usage.value) else 0)
      + Tokens(steps[1..], count)
  }

  predicate AtMost(s: Totals, t: Totals) { s.input <= t.input && s.output <= t.output && s.cacheRead <= t.cacheRead }

  function UsagePosts(posts: seq<Post>): seq<Totals> {
    if posts == [] then []
    else
      var last := posts[|posts| - 1];
      UsagePosts(posts[..|posts| - 1]) + if last.event.SessionUsage? then [last.event.totals] else []
  }

  /** The totals posted so far never decrease and none exceeds the running total. */
  predicate TotalsGrow(c: Committed) {
    var us := UsagePosts(c.posts);
    && (forall i :: 0 < i < |us| ==> AtMost(us[i - 1], us[i]))
    && (us != [] ==> AtMost(us[|us| - 1], c.totals))
  }

  lemma {:induction false} UsagePostsAppend(posts: seq<Post>, more: seq<Post>)
    requires forall p :: p in more ==> !p.event.SessionUsage?
    ensures UsagePosts(posts + more) == UsagePosts(posts)
  {
    if more == [] {
      assert posts + more == posts;
    } else {
      UsagePostsAppend(posts, more[..|more| - 1]);
      assert (posts + more)[..|posts + more| - 1] == posts + more[..|more| - 1];
    }
  }

  lemma EmissionKeepsUsage(step: Step, c: Committed)
    ensures UsagePosts(EmitStep(step, c).posts) == UsagePosts(c.posts)
  {
    var more := Tagged(KeyOf(step), Emission(step, c));
    MappedAreItems(step, c.allocation);
    forall p | p in more
      ensures !p.event.SessionUsage?
    {
      assert p.event in Emission(step, c);
    }
    UsagePostsAppend(c.posts, more);
  }

  lemma UsageKeepsTotals(step: Step, c: Committed, catalog: Catalog)
    requires TotalsGrow(c)
    ensures var c' := EmitUsage(step, c, catalog);
            c'.totals == AddUsage(c.totals, step) && TotalsGrow(c') && AtMost(c.totals, c'.totals)
  {
    var c' := EmitUsage(step, c, catalog);
    if ReportedUsage(step).Some? {
      assert c'.posts[..|c'.posts| - 1] == c.posts;
    }
  }

  lemma StepKeepsTotals(step: Step, c: Committed, catalog: Catalog)
    requires TotalsGrow(c)
    ensures var c' := CommitStep(step, c, catalog);
            c'.totals == AddUsage(c.totals, step) && TotalsGrow(c') && AtMost(c.totals, c'.totals)
  {
    hide Emission, EmitUsage, AddUsage, AtMost, MapStep, KeyOf;
    EmissionKeepsUsage(step, c);
    var c1 := EmitStep(step, c);
    var c2 := EmitModelChange(step, c1, catalog);
    if c2 != c1 {
      UsagePostsAppend(c1.posts, [c2.posts[|c1.posts|]]);
    }
    UsageKeepsTotals(step, c2, catalog);
  }

  /** Over any list of new steps the running totals are the sums over the completed planner steps in
      it, and the totals posted are non-decreasing. */
  lemma {:induction false} TotalsAreSums(steps: seq<Step>, c: Committed, catalog: Catalog)
    requires TotalsGrow(c)
    ensures var last := Fold(steps, c, catalog);
            && last.totals.input == c.totals.input + Tokens(steps, Input)
            && last.totals.output == c.totals.output + Tokens(steps, Output)
            && last.totals.cacheRead == c.totals.cacheRead + Tokens(steps, CacheRead)
            && TotalsGrow(last)
  {
    hide CommitStep, TotalsGrow;
    if steps != [] {
      StepKeepsTotals(steps[0], c, catalog);
      TotalsAreSums(steps[1..], CommitStep(steps[0], c, catalog), catalog);
    }
  }

  // ----- model changes -----

  function ModelPosts(posts: seq<Post>): seq<string> {
    if posts == [] then []
    else
      var last := posts[|posts| - 1].event;
      ModelPosts(posts[..|posts| - 1]) + if last.ModelChange? then [last.model] else []
  }

  function AskedModel(step: Step): Option<string> {
    if IsUserTurnStep(step) && step.requestedModel != "" then Some(step.requestedModel) else None
  }

  /** The models the user turns ask for, in order; a turn may ask for none. */
  function ModelsAskedFor(steps: seq<Step>): seq<string> {
    if steps == [] then []
    else
      var more := ModelsAskedFor(steps[1..]);
      match AskedModel(steps[0])
      case None => more
      case Some(m) => [m] + more
  }

  /** The display names of the models that differ from the one before them; `before` is before the first. */
  function Changes(before: Option<string>, models: seq<string>, catalog: Catalog): seq<string>
    decreases |models|
  {
    if models == [] then []
    else
      (if before == Some(models[0]) then [] else [DisplayName(models[0], catalog)])
      + Changes(Some(models[0]), models[1..], catalog)
  }

  lemma {:induction false} NoModelPosts(posts: seq<Post>, more: seq<Post>)
    requires forall p :: p in more ==> !p.event.ModelChange?
    ensures ModelPosts(posts + more) == ModelPosts(posts)
  {
    if more == [] {
      assert posts + more == posts;
    } else {
      NoModelPosts(posts, more[..|more| - 1]);
      assert (posts + more)[..|posts + more| - 1] == posts + more[..|more| - 1];
    }
  }

  lemma EmissionKeepsModel(step: Step, c: Committed)
    ensures var c' := EmitStep(step, c);
            ModelPosts(c'.posts) == ModelPosts(c.posts) && c'.postedModel == c.postedModel
  {
    hide MapStep, KeyOf;
    MappedAreItems(step, c.allocation);
    var events := Emission(step, c);
    assert forall e :: e in events ==> !e.ModelChange?;
    forall p | p in Tagged(KeyOf(step), events)
      ensures !p.event.ModelChange?
    {
      assert p.event in events;
    }
    NoModelPosts(c.posts, Tagged(KeyOf(step), events));
  }

  lemma UsageKeepsModel(step: Step, c: Committed, catalog: Catalog)
    ensures var c' := EmitUsage(step, c, catalog);
            ModelPosts(c'.posts) == ModelPosts(c.posts) && c'.postedModel == c.postedModel
  {
    hide AddUsage;
    var c' := EmitUsage(step, c, catalog);
    if c' != c {
      NoModelPosts(c.posts, [c'.posts[|c.posts|]]);
    }
  }

  lemma StepPostsModelChange(step: Step, c: Committed, catalog: Catalog)
    ensures var c' := CommitStep(step, c, catalog);
            match AskedModel(step)
            case None => ModelPosts(c'.posts) == ModelPosts(c.posts) && c'.postedModel == c.postedModel
            case Some(m) =>
              && ModelPosts(c'.posts) ==
                 ModelPosts(c.posts) + (if c.postedModel == Some(m) then [] else [DisplayName(m, catalog)])
              && c'.postedModel == Some(m)
  {
    hide EmitStep, EmitUsage, KeyOf, DisplayName;
    EmissionKeepsModel(step, c);
    var c1 := EmitStep(step, c);
    var c2 := EmitModelChange(step, c1, catalog);
    UsageKeepsModel(step, c2, catalog);
    if c2 != c1 {
      assert c2.posts[..|c2.posts| - 1] == c1.posts;
    }
  }

  /** Over any list of new steps a model change is posted exactly where the user turns' models change. */
  lemma {:induction false} ModelChangesPostedOnce(steps: seq<Step>, c: Committed, catalog: Catalog)
    ensures ModelPosts(Fold(steps, c, catalog).posts) ==
            ModelPosts(c.posts) + Changes(c.postedModel, ModelsAskedFor(steps), catalog)
  {
    hide CommitStep, ModelPosts, DisplayName, AskedModel;
    if steps != [] {
      StepPostsModelChange(steps[0], c, catalog);
      ModelChangesPostedOnce(steps[1..], CommitStep(steps[0], c, catalog), catalog);
      if AskedModel(steps[0]).Some? {
        assert ModelsAskedFor(steps)[1..] == ModelsAskedFor(steps[1..]);
      }
    }
  }

  /** What a whole reader run counts and announces, whatever it sights: each step with its own key once,
      at its first settled sighting. */
  lemma RunTotalsAndModels(os: seq<Sighting>, conversation: string, catalog: Catalog)
    ensures var c := ObserveAll(os, {}, Start(conversation), catalog).1;
            var steps := FirstSettled(os, {});
            && DistinctKeys(steps)
            && c.totals == Totals(Tokens(steps, Input), Tokens(steps, Output), Tokens(steps, CacheRead))
            && TotalsGrow(c)
            && ModelPosts(c.posts) == Changes(None, ModelsAskedFor(steps), catalog)
  {
    hide Fold, ObserveAll;
    var start, steps := Start(conversation), FirstSettled(os, {});
    OneFoldOverFirstSettled(os, {}, start, catalog);
    FirstSettledIsNew(os, {});
    TotalsAreSums(steps, start, catalog);
    ModelChangesPostedOnce(steps, start, catalog);
    assert [] + Changes(None, ModelsAskedFor(steps), catalog) == Changes(None, ModelsAskedFor(steps), catalog);
  }

  // ----- each step's items -----

  /** The conversation items posted for `key`, in order. */
  function ItemsFor(key: StepKey, posts: seq<Post>): seq<Event> {
    if posts == [] then []
    else ItemsFor(key, posts[..|posts| - 1]) + ItemOf(key, posts[|posts| - 1])
  }

  function ItemOf(key: StepKey, p: Post): seq<Event> {
    if p.key == key && IsConversationItem(p.event) then [p.event] else []
  }

  lemma {:induction false} ItemsForAppend(key: StepKey, posts: seq<Post>, more: seq<Post>)
    ensures ItemsFor(key, posts + more) == ItemsFor(key, posts) + ItemsFor(key, more)
  {
    hide ItemOf;
    if more == [] {
      assert posts + more == posts;
      assert ItemsFor(key, posts) + [] == ItemsFor(key, posts);
    } else {
      ItemsForAppend(key, posts, more[..|more| - 1]);
      assert (posts + more)[..|posts + more| - 1] == posts + more[..|more| - 1];
    }
  }

  lemma {:induction false} ItemsForTagged(key: StepKey, tag: StepKey, events: seq<Event>)
    ensures (forall e :: e in events ==> IsConversationItem(e)) ==>
              ItemsFor(key, Tagged(tag, events)) == if key == tag then events else []
    ensures (forall e :: e in events ==> !IsConversationItem(e)) ==> ItemsFor(key, Tagged(tag, events)) == []
  {
    if events != [] {
      var n := |events| - 1;
      ItemsForTagged(key, tag, events[..n]);
      assert Tagged(tag, events)[..n] == Tagged(tag, events[..n]);
      assert events == events[..n] + [events[n]];
    }
  }

  lemma TaggedItems(key: StepKey, tag: StepKey, posts: seq<Post>, before: seq<Event>, items: seq<Event>, after: seq<Event>)
    requires forall e :: e in before || e in after ==> !IsConversationItem(e)
    requires forall e :: e in items ==> IsConversationItem(e)
    ensures ItemsFor(key, posts + Tagged(tag, before + items + after)) ==
            ItemsFor(key, posts) + if key == tag then items else []
  {
    hide ItemsFor, IsConversationItem;
    var a, m, z := Tagged(tag, before), Tagged(tag, items), Tagged(tag, after);
    assert Tagged(tag, before + items + after) == a + m + z;
    ItemsForAppend(key, posts, a + m + z);
    ItemsForAppend(key, a + m, z);
    ItemsForAppend(key, a, m);
    ItemsForTagged(key, tag, before);
    ItemsForTagged(key, tag, items);
    ItemsForTagged(key, tag, after);
  }

  lemma EmittedItems(step: Step, c: Committed, key: StepKey)
    ensures ItemsFor(key, EmitStep(step, c).posts) ==
            ItemsFor(key, c.posts) + if key == KeyOf(step) then MapStep(step, c.allocation).0 else []
  {
    hide MapStep, KeyOf, ItemsFor;
    MappedAreItems(step, c.allocation);
    TaggedItems(key, KeyOf(step), c.posts, Opening(step, c.turnActive), MapStep(step, c.allocation).0,
                Closing(step, c.turnActive));
  }

  lemma {:induction false} NoItems(key: StepKey, posts: seq<Post>)
    requires forall p :: p in posts ==> !IsConversationItem(p.event)
    ensures ItemsFor(key, posts) == []
  {
    if posts != [] {
      NoItems(key, posts[..|posts| - 1]);
    }
  }

  lemma CommittedItems(step: Step, c: Committed, catalog: Catalog, key: StepKey)
    ensures ItemsFor(key, CommitStep(step, c, catalog).posts) ==
            ItemsFor(key, c.posts) + if key == KeyOf(step) then MapStep(step, c.allocation).0 else []
  {
    hide EmitStep, EmitModelChange, EmitUsage, MapStep, KeyOf, ItemsFor;
    EmittedItems(step, c, key);
    var more := TelemetryOnlyAdds(step, EmitStep(step, c), catalog);
    NoItems(key, more);
    ItemsForAppend(key, EmitStep(step, c).posts, more);
  }

  lemma {:induction false} NoItemsOfOthers(steps: seq<Step>, c: Committed, catalog: Catalog, key: StepKey)
    requires forall s :: s in steps ==> KeyOf(s) != key
    ensures ItemsFor(key, Fold(steps, c, catalog).posts) == ItemsFor(key, c.posts)
  {
    hide CommitStep, MapStep, KeyOf, ItemsFor;
    if steps != [] {
      CommittedItems(steps[0], c, catalog, key);
      NoItemsOfOthers(steps[1..], CommitStep(steps[0], c, catalog), catalog, key);
      assert ItemsFor(key, c.posts) + [] == ItemsFor(key, c.posts);
    }
  }

  /** A settled step's items are posted once, as the mapper gives them for its first settled sighting;
      a step that never settles has none posted. */
  lemma {:induction false} ItemsPostedOncePerStep(steps: seq<Step>, c: Committed, catalog: Catalog, key: StepKey)
    requires DistinctKeys(steps)
    ensures key !in Keys(steps) ==> ItemsFor(key, Fold(steps, c, catalog).posts) == ItemsFor(key, c.posts)
    ensures forall i :: 0 <= i < |steps| && KeyOf(steps[i]) == key ==>
              ItemsFor(key, Fold(steps, c, catalog).posts) ==
              ItemsFor(key, c.posts) + MapStep(steps[i], Fold(steps[..i], c, catalog).allocation).0
  {
    hide CommitStep, MapStep, KeyOf, ItemsFor;
    if key !in Keys(steps) {
      NoItemsOfOthers(steps, c, catalog, key);
    }
    forall i | 0 <= i < |steps| && KeyOf(steps[i]) == key
      ensures ItemsFor(key, Fold(steps, c, catalog).posts) ==
              ItemsFor(key, c.posts) + MapStep(steps[i], Fold(steps[..i], c, catalog).allocation).0
    {
      var before := Fold(steps[..i], c, catalog);
      var after := CommitStep(steps[i], before, catalog);
      FoldSplits(steps, i, c, catalog);
      NoItemsOfOthers(steps[..i], c, catalog, key);
      CommittedItems(steps[i], before, catalog, key);
      NoItemsOfOthers(steps[i + 1..], after, catalog, key);
    }
  }

  lemma {:induction false} FoldSplits(steps: seq<Step>, i: nat, c: Committed, catalog: Catalog)
    requires i < |steps|
    ensures Fold(steps, c, catalog) ==
            Fold(steps[i + 1..], CommitStep(steps[i], Fold(steps[..i], c, catalog), catalog), catalog)
  {
    hide CommitStep;
    if i > 0 {
      assert steps[..i][1..] == steps[1..][..i - 1] && steps[1..][i..] == steps[i + 1..];
      FoldSplits(steps[1..], i - 1, CommitStep(steps[0], c, catalog), catalog);
    }
  }
}
