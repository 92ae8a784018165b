/** The running/idle/failed edges of a session: posted by the steps that open and close a turn, and by
    the backstop that closes a turn the agent reports finished. */
module TurnEdges {
  import opened Common
  import opened TrajectorySteps
  import opened CommittedChannel

  /** The status edges among the posts, in order. */
  function Edges(posts: seq<Post>): seq<SessionStatus> {
    if posts == [] then []
    else
      var last := posts[|posts| - 1].event;
      Edges(posts[..|posts| - 1]) + if last.SessionStatusEdge? then [last.status] else []
  }

  /** Edges alternate, starting with running, and a turn is active exactly after a running edge. */
  ghost predicate Alternates(c: Committed) {
    var edges := Edges(c.posts);
    && (forall i :: 0 <= i < |edges| ==> (edges[i] == Running <==> i % 2 == 0))
    && (c.turnActive <==> |edges| % 2 == 1)
  }

  const BACKSTOP_POST := Post(StepKey(None, None, None), SessionStatusEdge(Idle))

  /** The backstop: closes the turn if it is still open. */
  function CloseIfStranded(c: Committed): Committed {
    if !c.turnActive then c else c.(turnActive := false, posts := c.posts + [BACKSTOP_POST])
  }

  lemma {:induction false} EdgesAppend(posts: seq<Post>, more: seq<Post>)
    ensures Edges(posts + more) == Edges(posts) + Edges(more)
  {
    if more == [] {
      assert posts + more == posts;
    } else {
      EdgesAppend(posts, more[..|more| - 1]);
      assert (posts + more)[..|posts + more| - 1] == posts + more[..|more| - 1];
    }
  }

  lemma {:induction false} NoEdges(posts: seq<Post>)
    requires forall p :: p in posts ==> !p.event.SessionStatusEdge?
    ensures Edges(posts) == []
  {
    if posts != [] {
      NoEdges(posts[..|posts| - 1]);
    }
  }

  lemma EdgeOfOne(p: Post)
    requires p.event.SessionStatusEdge?
    ensures Edges([p]) == [p.event.status]
  {
    assert [p][..0] == [];
  }

  /** An emission's edges are its opening and its closing one; its items are none. */
  lemma EmissionEdges(step: Step, c: Committed, key: StepKey)
    ensures Edges(Tagged(key, Emission(step, c))) ==
            (if IsUserTurnStep(step) && !c.turnActive then [Running] else []) +
            (if IsTurnCloseStep(step) && (c.turnActive || IsUserTurnStep(step))
             then [if IsErrorPlanner(step) then Failed else Idle] else [])
  {
    hide MapStep;
    var a, m, z := Opening(step, c.turnActive), MapStep(step, c.allocation).0, Closing(step, c.turnActive);
    assert Tagged(key, Emission(step, c)) == Tagged(key, a) + Tagged(key, m) + Tagged(key, z);
    EdgesAppend(Tagged(key, a) + Tagged(key, m), Tagged(key, z));
    EdgesAppend(Tagged(key, a), Tagged(key, m));
    MappedAreItems(step, c.allocation);
    forall p | p in Tagged(key, m)
      ensures !p.event.SessionStatusEdge?
    {
      assert p.event in m;
    }
    NoEdges(Tagged(key, m));
    if a != [] { EdgeOfOne(Tagged(key, a)[0]); }
    if z != [] { EdgeOfOne(Tagged(key, z)[0]); }
  }

  lemma TelemetryKeepsEdges(step: Step, c: Committed, catalog: Catalog)
    requires Alternates(c)
    ensures Alternates(EmitUsage(step, EmitModelChange(step, c, catalog), catalog))
  {
    hide EmitModelChange, EmitUsage;
    var more := TelemetryOnlyAdds(step, c, catalog);
    EdgesAppend(c.posts, more);
    NoEdges(more);
  }

  lemma EmitKeepsEdges(step: Step, c: Committed)
    requires Alternates(c)
    ensures Alternates(EmitStep(step, c))
  {
    hide Emission, MapStep, KeyOf, Edges;
    EmissionEdges(step, c, KeyOf(step));
    EdgesAppend(c.posts, Tagged(KeyOf(step), Emission(step, c)));
  }

  lemma CommitKeepsEdges(step: Step, c: Committed, catalog: Catalog)
    requires Alternates(c)
    ensures Alternates(CommitStep(step, c, catalog))
  {
    hide EmitStep, EmitModelChange, EmitUsage, Alternates;
    EmitKeepsEdges(step, c);
    TelemetryKeepsEdges(step, EmitStep(step, c), catalog);
  }

  lemma BackstopKeepsEdges(c: Committed)
    requires Alternates(c)
    ensures Alternates(CloseIfStranded(c)) && !CloseIfStranded(c).turnActive
  {
    if c.turnActive {
      EdgesAppend(c.posts, [BACKSTOP_POST]);
      EdgeOfOne(BACKSTOP_POST);
    }
  }

  // ----- runs with the backstop between steps -----

  datatype Action = Look(sighting: Sighting) | Quiescent

  function Run(actions: seq<Action>, seen: set<StepKey>, c: Committed, catalog: Catalog): Committed {
    if actions == [] then c
    else
      match actions[0]
      case Look(o) =>
        var (seen', c') := Observe(o, seen, c, catalog);
        Run(actions[1..], seen', c', catalog)
      case Quiescent => Run(actions[1..], seen, CloseIfStranded(c), catalog)
  }

  /** However sightings and backstop closes follow one another, the posted edges strictly alternate,
      starting with running, and a turn is active exactly when the last edge was running. */
  lemma {:induction false} EdgesAlternate(actions: seq<Action>, seen: set<StepKey>, c: Committed, catalog: Catalog)
    requires Alternates(c)
    ensures Alternates(Run(actions, seen, c, catalog))
  {
    hide CommitStep, Alternates, CloseIfStranded;
    if actions != [] {
      match actions[0]
      case Look(o) =>
        CommitKeepsEdges(o.step, c, catalog);
        var (seen', c') := Observe(o, seen, c, catalog);
        EdgesAlternate(actions[1..], seen', c', catalog);
      case Quiescent =>
        BackstopKeepsEdges(c);
        EdgesAlternate(actions[1..], seen, CloseIfStranded(c), catalog);
    }
  }

  lemma EveryRunAlternates(actions: seq<Action>, conversation: string, catalog: Catalog)
    ensures Alternates(Run(actions, {}, Start(conversation), catalog))
  {
    EdgesAlternate(actions, {}, Start(conversation), catalog);
  }

  // ----- the backstop inside a step's emission -----

  /** A step's emission reads the turn flag once and writes it back at the end. The backstop lands
      after its first `at` posts, and sees the flag as it was before the step. It can land only inside
      an emission that posts something, since the emission waits for nothing else. */
  function InterruptedEmission(step: Step, c: Committed, at: nat): Committed
    requires Emission(step, c) != [] && at <= |Emission(step, c)|
  {
    var posts := Tagged(KeyOf(step), Emission(step, c));
    var stranded := if c.turnActive then [BACKSTOP_POST] else [];
    EmitStep(step, c).(posts := c.posts + posts[..at] + stranded + posts[at..])
  }

  /** With a turn active, the backstop's idle edge lands before or after the step's closing edge. */
  lemma InterruptedEdges(step: Step, c: Committed, at: nat) returns (before: seq<SessionStatus>, after: seq<SessionStatus>)
    requires c.turnActive && Emission(step, c) != [] && at <= |Emission(step, c)|
    ensures Edges(InterruptedEmission(step, c, at).posts) == Edges(c.posts) + before + [Idle] + after
    ensures before + after == if IsTurnCloseStep(step) then [if IsErrorPlanner(step) then Failed else Idle] else []
  {
    hide Emission, MapStep, Edges;
    var posts := Tagged(KeyOf(step), Emission(step, c));
    before, after := Edges(posts[..at]), Edges(posts[at..]);
    assert posts[..at] + posts[at..] == posts;
    EmissionEdges(step, c, KeyOf(step));
    EdgesAppend(posts[..at], posts[at..]);
    EdgesAppend(c.posts + posts[..at] + [BACKSTOP_POST], posts[at..]);
    EdgesAppend(c.posts + posts[..at], [BACKSTOP_POST]);
    EdgesAppend(c.posts, posts[..at]);
    EdgeOfOne(BACKSTOP_POST);
  }

  /** Landing inside an emission the backstop is harmless exactly when no turn was active before the
      step: otherwise the step closes a turn already closed, or leaves it marked open. */
  lemma BackstopInsideEmission(step: Step, c: Committed, at: nat)
    requires Alternates(c) && Emission(step, c) != [] && at <= |Emission(step, c)|
    ensures Alternates(InterruptedEmission(step, c, at)) <==> !c.turnActive
  {
    hide Emission, MapStep, Edges;
    if c.turnActive {
      var before, after := InterruptedEdges(step, c, at);
      assert |before + after| == |before| + |after|;
    } else {
      EmitKeepsEdges(step, c);
      var posts := Tagged(KeyOf(step), Emission(step, c));
      assert c.posts + posts[..at] + [] + posts[at..] == c.posts + posts;
    }
  }

  /** With a turn active before the step, the edges end in two closings, or in one with the turn still
      marked active, so that the next turn is never announced. */
  lemma BackstopInsideActiveTurn(step: Step, c: Committed, at: nat)
    requires c.turnActive && Emission(step, c) != [] && at <= |Emission(step, c)|
    ensures var c' := InterruptedEmission(step, c, at);
            var edges := Edges(c'.posts);
            && edges != [] && edges[|edges| - 1] != Running
            && (if IsTurnCloseStep(step) then |edges| >= 2 && edges[|edges| - 2] != Running
                else c'.turnActive && forall next :: IsUserTurnStep(next) ==> Opening(next, c'.turnActive) == [])
  {
    hide Emission, MapStep, Edges, IsTurnCloseStep;
    var before, after := InterruptedEdges(step, c, at);
    if IsTurnCloseStep(step) {
      assert |before| + |after| == |before + after| == 1;
      var closing := (before + after)[0];
      assert if after == [] then before == [closing] else after == [closing] by {
        assert before + [] == before && [] + after == after;
      }
    }
  }

  // ----- a step's emission inside the backstop -----

  /** The backstop clears the turn flag before it posts. Its post arrives after the first `at` posts of
      a step emitted meanwhile. */
  function DelayedBackstop(step: Step, c: Committed, at: nat): Committed
    requires c.turnActive && at <= |Emission(step, c.(turnActive := false))|
  {
    var cleared := c.(turnActive := false);
    var posts := Tagged(KeyOf(step), Emission(step, cleared));
    EmitStep(step, cleared).(posts := c.posts + posts[..at] + [BACKSTOP_POST] + posts[at..])
  }

  lemma DelayedEdges(step: Step, c: Committed, at: nat) returns (before: seq<SessionStatus>, after: seq<SessionStatus>)
    requires c.turnActive && at <= |Emission(step, c.(turnActive := false))|
    ensures Edges(DelayedBackstop(step, c, at).posts) == Edges(c.posts) + before + [Idle] + after
    ensures before + after == if IsUserTurnStep(step) then [Running] else []
    ensures IsUserTurnStep(step) ==> (before != [] <==> at > 0)
  {
    var cleared := c.(turnActive := false);
    var posts := Tagged(KeyOf(step), Emission(step, cleared));
    assert IsUserTurnStep(step) ==> posts != [] && posts[0].event == SessionStatusEdge(Running);
    hide MapStep, Edges, Emission;
    before, after := Edges(posts[..at]), Edges(posts[at..]);
    EmissionEdges(step, cleared, KeyOf(step));
    assert posts[..at] + posts[at..] == posts;
    EdgesAppend(posts[..at], posts[at..]);
    EdgesAppend(c.posts + posts[..at] + [BACKSTOP_POST], posts[at..]);
    EdgesAppend(c.posts + posts[..at], [BACKSTOP_POST]);
    EdgesAppend(c.posts, posts[..at]);
    EdgeOfOne(BACKSTOP_POST);
    NoEdges([]);
    if IsUserTurnStep(step) && at > 0 {
      assert posts[..at] == [posts[0]] + posts[1..at];
      EdgeOfOne(posts[0]);
      EdgesAppend([posts[0]], posts[1..at]);
    }
  }

  /** A step emitted while the backstop's post is on its way spoils the edges exactly when it opens a
      turn and its running edge arrives first: the new turn is then shown idle. */
  lemma BackstopPostDelayed(step: Step, c: Committed, at: nat)
    requires Alternates(c) && c.turnActive && at <= |Emission(step, c.(turnActive := false))|
    ensures Alternates(DelayedBackstop(step, c, at)) <==> !(IsUserTurnStep(step) && at > 0)
  {
    hide Emission, MapStep, Edges;
    var before, after := DelayedEdges(step, c, at);
    var earlier, edges := Edges(c.posts), Edges(DelayedBackstop(step, c, at).posts);
    if IsUserTurnStep(step) {
      assert |before| + |after| == |before + after| == 1;
      assert before != [] ==> before[0] == (before + after)[0] && edges[|earlier|] == Running;
      assert after != [] ==> after[0] == (before + after)[0];
    } else {
      assert |before| + |after| == |before + after| == 0;
    }
  }
}
