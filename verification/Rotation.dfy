/** Detecting that the user's conversation has moved to another root cascade, and rebinding to it. */
module Rotation {
  import opened Common

  type CascadeId = string

  /** One cascade's summary; `activity` is None for a cascade that was never used. */
  datatype Summary = Summary(isRoot: bool, activity: Option<int>, isIdle: bool)

  /** The summaries in the order they are listed; no id is listed twice. */
  type Summaries = seq<(CascadeId, Summary)>

  ghost predicate DistinctIds(ss: Summaries) {
    forall i, j :: 0 <= i < j < |ss| ==> ss[i].0 != ss[j].0
  }

  /** A root cascade other than the bound one that has been used. */
  predicate Candidate(entry: (CascadeId, Summary), bound: CascadeId) {
    entry.1.isRoot && entry.0 != bound && entry.1.activity.Some?
  }

  /** Strictly more recently used; a cascade never used counts as oldest. */
  predicate NewerThan(activity: int, other: Option<int>) { other.None? || activity > other.value }

  /** The first listed of the most recently used candidates. */
  function Best(ss: Summaries, bound: CascadeId): Option<(CascadeId, int)> {
    if ss == [] then None
    else
      var best, entry := Best(ss[..|ss| - 1], bound), ss[|ss| - 1];
      if Candidate(entry, bound) && (best.None? || entry.1.activity.value > best.value.1)
      then Some((entry.0, entry.1.activity.value))
      else best
  }

  function SummaryOf(ss: Summaries, id: CascadeId): Option<Summary> {
    if ss == [] then None
    else if ss[|ss| - 1].0 == id then Some(ss[|ss| - 1].1)
    else SummaryOf(ss[..|ss| - 1], id)
  }

  function Detect(ss: Summaries, bound: CascadeId): Option<CascadeId> {
    match (SummaryOf(ss, bound), Best(ss, bound))
    case (Some(s), Some((id, activity))) => if NewerThan(activity, s.activity) then Some(id) else None
    case _ => None
  }

  lemma {:induction false} SummaryOfListed(ss: Summaries, id: CascadeId)
    requires DistinctIds(ss)
    ensures SummaryOf(ss, id).Some? ==> (id, SummaryOf(ss, id).value) in ss
    ensures forall e :: e in ss && e.0 == id ==> SummaryOf(ss, id) == Some(e.1)
  {
    if ss != [] {
      SummaryOfListed(ss[..|ss| - 1], id);
      assert ss == ss[..|ss| - 1] + [ss[|ss| - 1]];
    }
  }

  /** `best` is a candidate that no candidate was used more recently than. */
  ghost predicate MostRecent(best: Option<(CascadeId, int)>, ss: Summaries, bound: CascadeId) {
    && (best.None? ==> forall e :: e in ss ==> !Candidate(e, bound))
    && (best.Some? ==>
          && (exists e :: e in ss && Candidate(e, bound) && e.0 == best.value.0 && e.1.activity.value == best.value.1)
          && forall e :: e in ss && Candidate(e, bound) ==> e.1.activity.value <= best.value.1)
  }

  lemma {:induction false} BestIsMostRecent(ss: Summaries, bound: CascadeId)
    ensures MostRecent(Best(ss, bound), ss, bound)
  {
    if ss != [] {
      var init, last := ss[..|ss| - 1], ss[|ss| - 1];
      BestIsMostRecent(init, bound);
      assert ss == init + [last];
      assert last in ss;
    }
  }

  /** The detected cascade, if any, is a root sibling, no sibling root was used more recently, and it
      was used strictly more recently than the bound one; none is detected exactly when the bound
      cascade is not listed or no used root sibling is newer than it. */
  method DetectRotatedCascade(ss: Summaries, bound: CascadeId) returns (detected: Option<CascadeId>)
    requires DistinctIds(ss)
    ensures detected == Detect(ss, bound)
    ensures detected.Some? ==>
              exists e, b :: && e in ss && e.1.isRoot && e.0 != bound && e.1.activity.Some? && e.0 == detected.value
                             && (bound, b) in ss && (b.activity.Some? ==> e.1.activity.value > b.activity.value)
                             && forall f :: f in ss && f.1.isRoot && f.0 != bound && f.1.activity.Some? ==>
                                              f.1.activity.value <= e.1.activity.value
    ensures detected.None? ==>
              forall e, b :: e in ss && e.1.isRoot && e.0 != bound && e.1.activity.Some? && (bound, b) in ss ==>
                               b.activity.Some? && e.1.activity.value <= b.activity.value
  {
    var boundSummary := SummaryOf(ss, bound);
    SummaryOfListed(ss, bound);
    if boundSummary.None? {
      assert forall b :: (bound, b) in ss ==> (bound, b).0 == bound;
      return None;
    }
    var bestId: Option<CascadeId>, bestActivity := None, 0;
    for i := 0 to |ss|
      invariant Best(ss[..i], bound) == (if bestId.Some? then Some((bestId.value, bestActivity)) else None)
    {
      assert ss[..i + 1][..i] == ss[..i];
      var (id, summary) := ss[i];
      if !summary.isRoot {
        continue;
      }
      if id == bound {
        continue;
      }
      if summary.activity.None? {
        continue;
      }
      if bestId.None? || summary.activity.value > bestActivity {
        bestId, bestActivity := Some(id), summary.activity.value;
      }
    }
    assert ss[..|ss|] == ss;
    BestIsMostRecent(ss, bound);
    if bestId.None? {
      return None;
    }
    if NewerThan(bestActivity, boundSummary.value.activity) {
      return bestId;
    }
    return None;
  }

  /** A detected cascade stays put: rebinding to it on an unchanged map detects nothing more. */
  lemma RebindingDetectsNothing(ss: Summaries, bound: CascadeId, detected: CascadeId)
    requires DistinctIds(ss) && Detect(ss, bound) == Some(detected)
    ensures Detect(ss, detected) == None
  {
    BestIsMostRecent(ss, bound);
    BestIsMostRecent(ss, detected);
    SummaryOfListed(ss, bound);
    SummaryOfListed(ss, detected);
    var best := Best(ss, bound).value;
    var chosen :| chosen in ss && Candidate(chosen, bound) && chosen.0 == best.0 && chosen.1.activity.value == best.1;
    assert SummaryOf(ss, detected) == Some(chosen.1);
    if Best(ss, detected).Some? {
      var other :| other in ss && Candidate(other, detected) && other.0 == Best(ss, detected).value.0
                   && other.1.activity.value == Best(ss, detected).value.1;
      if other.0 == bound {
        assert SummaryOf(ss, bound) == Some(other.1);
      } else {
        assert Candidate(other, bound);
      }
    }
  }

  // ----- the detector -----

  const QUIESCENT_TICKS_TO_CLOSE: nat := 2

  /** What one check of the summaries returns: nothing usable, or the summaries. */
  datatype Tick = Unreadable | Readable(summaries: Summaries)

  predicate CascadeIsIdle(ss: Summaries, bound: CascadeId) {
    match SummaryOf(ss, bound)
    case Some(s) => s.isIdle
    case None => false
  }

  /** How many of the latest readable ticks in a row found the cascade idle. */
  function IdleTicks(ticks: seq<Tick>, bound: CascadeId): nat {
    if ticks == [] then 0
    else
      var before := IdleTicks(ticks[..|ticks| - 1], bound);
      match ticks[|ticks| - 1]
      case Unreadable => before
      case Readable(ss) => if CascadeIsIdle(ss, bound) then before + 1 else 0
  }

  /** Tick `i` completes a stretch of idle readings just long enough. */
  predicate ClosesAt(ticks: seq<Tick>, i: nat, bound: CascadeId)
    requires i < |ticks|
  {
    ticks[i].Readable? && CascadeIsIdle(ticks[i].summaries, bound)
    && IdleTicks(ticks[..i + 1], bound) == QUIESCENT_TICKS_TO_CLOSE
  }

  predicate Signals(tick: Tick, bound: CascadeId, skip: set<CascadeId>) {
    tick.Readable? && Detect(tick.summaries, bound).Some? && Detect(tick.summaries, bound).value !in skip
  }

  ghost predicate DistinctTicks(ticks: seq<Tick>) {
    forall i :: 0 <= i < |ticks| && ticks[i].Readable? ==> DistinctIds(ticks[i].summaries)
  }

  /** The detector signals at the first tick that shows a rotation to a cascade not to be skipped, and
      until then runs the backstop once for each stretch of idle readings, at its second reading. */
  method WatchForRotation(ticks: seq<Tick>, bound: CascadeId, skip: set<CascadeId>)
    returns (signalled: Option<CascadeId>, last: nat, closes: seq<nat>)
    requires DistinctTicks(ticks)
    ensures last <= |ticks|
    ensures signalled.None? <==> forall i :: 0 <= i < |ticks| ==> !Signals(ticks[i], bound, skip)
    ensures signalled.Some? ==>
              && last < |ticks| && Signals(ticks[last], bound, skip)
              && Detect(ticks[last].summaries, bound) == signalled
              && forall i :: 0 <= i < last ==> !Signals(ticks[i], bound, skip)
    ensures forall i :: 0 <= i < |ticks| && (signalled.Some? ==> i <= last) ==>
                          (i in closes <==> ClosesAt(ticks, i, bound))
  {
    hide Detect, CascadeIsIdle, DistinctIds, Candidate, NewerThan;
    signalled, last, closes := None, |ticks|, [];
    var idleTicks: nat := 0;
    for i := 0 to |ticks|
      invariant signalled.None? && last == |ticks|
      invariant idleTicks == IdleTicks(ticks[..i], bound)
      invariant forall j :: 0 <= j < i ==> !Signals(ticks[j], bound, skip)
      invariant forall j :: j in closes ==> j < i
      invariant forall j :: 0 <= j < i ==> (j in closes <==> ClosesAt(ticks, j, bound))
    {
      assert ticks[..i + 1][..i] == ticks[..i];
      if ticks[i].Unreadable? {
        continue;
      }
      var summaries := ticks[i].summaries;
      if CascadeIsIdle(summaries, bound) {
        idleTicks := idleTicks + 1;
        if idleTicks == QUIESCENT_TICKS_TO_CLOSE {
          closes := closes + [i];
        }
      } else {
        idleTicks := 0;
      }
      var detected := DetectRotatedCascade(summaries, bound);
      if detected.None? || detected.value in skip {
        continue;
      }
      signalled, last := detected, i;
      return;
    }
  }

  // ----- when the backstop runs -----

  /** The tick was readable and lists the cascade as idle. */
  predicate FoundIdle(tick: Tick, bound: CascadeId) {
    tick.Readable? && exists e :: e in tick.summaries && e.0 == bound && e.1.isIdle
  }

  /** Tick `j` is the last readable one. */
  predicate LastReadable(ticks: seq<Tick>, j: nat) {
    j < |ticks| && ticks[j].Readable? && forall k :: j < k < |ticks| ==> ticks[k].Unreadable?
  }

  predicate EndsIdle(ticks: seq<Tick>, bound: CascadeId) {
    exists j :: 0 <= j < |ticks| && LastReadable(ticks, j) && FoundIdle(ticks[j], bound)
  }

  lemma IdleIsListed(tick: Tick, bound: CascadeId)
    requires tick.Readable? && DistinctIds(tick.summaries)
    ensures CascadeIsIdle(tick.summaries, bound) <==> FoundIdle(tick, bound)
  {
    SummaryOfListed(tick.summaries, bound);
  }

  lemma LastReadableCons(ticks: seq<Tick>, tick: Tick, j: nat)
    requires j <= |ticks|
    ensures LastReadable(ticks + [tick], j) <==>
            if tick.Readable? then j == |ticks| else j < |ticks| && LastReadable(ticks, j)
  {
    var all := ticks + [tick];
    assert all[|ticks|] == tick && forall k :: 0 <= k < |ticks| ==> all[k] == ticks[k];
  }

  /** How many of the last readable ticks in a row were idle: none, exactly one, or more. */
  lemma {:induction false} IdleStretch(ticks: seq<Tick>, bound: CascadeId)
    requires DistinctTicks(ticks)
    ensures IdleTicks(ticks, bound) > 0 <==> EndsIdle(ticks, bound)
    ensures IdleTicks(ticks, bound) == 1 <==>
            exists j :: 0 <= j < |ticks| && LastReadable(ticks, j) && FoundIdle(ticks[j], bound) && !EndsIdle(ticks[..j], bound)
  {
    hide CascadeIsIdle, FoundIdle, LastReadable, DistinctIds;
    if ticks != [] {
      var n := |ticks| - 1;
      var init, last := ticks[..n], ticks[n];
      IdleStretch(init, bound);
      assert ticks == init + [last];
      forall j | 0 <= j < |ticks|
        ensures LastReadable(ticks, j) <==> if last.Readable? then j == n else j < n && LastReadable(init, j)
      {
        LastReadableCons(init, last, j);
      }
      assert forall j :: 0 <= j < n ==> init[j] == ticks[j] && init[..j] == ticks[..j];
      if last.Readable? {
        IdleIsListed(last, bound);
      }
    }
  }

  /** The backstop runs at a tick exactly if it found the cascade idle, so did the readable one before it,
      and the readable one before that did not, if there is one. */
  lemma ClosesExactly(ticks: seq<Tick>, i: nat, bound: CascadeId)
    requires i < |ticks| && DistinctTicks(ticks)
    ensures ClosesAt(ticks, i, bound) <==>
            && FoundIdle(ticks[i], bound)
            && exists j :: 0 <= j < i && LastReadable(ticks[..i], j) && FoundIdle(ticks[j], bound) && !EndsIdle(ticks[..j], bound)
  {
    hide CascadeIsIdle, FoundIdle, LastReadable, EndsIdle, DistinctIds;
    var before := ticks[..i];
    assert ticks[..i + 1][..i] == before;
    IdleStretch(before, bound);
    assert forall j :: 0 <= j < i ==> before[j] == ticks[j] && before[..j] == ticks[..j];
    if ticks[i].Readable? {
      IdleIsListed(ticks[i], bound);
    } else {
      assert !FoundIdle(ticks[i], bound) by { UnreadableIsNotIdle(ticks[i], bound); }
    }
  }

  lemma UnreadableIsNotIdle(tick: Tick, bound: CascadeId)
    requires tick.Unreadable?
    ensures !FoundIdle(tick, bound)
  {
  }

  // ----- rebinding, over and over -----

  /** One run of the reader: what its detector saw, whether the bound cascade had any committed turn,
      and whether moving the session, where that is called for, works. */
  datatype ReaderRun = ReaderRun(ticks: seq<Tick>, hadTurns: bool, rotates: bool)

  datatype Rebinding = Rebinding(cascade: CascadeId, succeeded: bool)

  function FirstSignal(ticks: seq<Tick>, bound: CascadeId, skip: set<CascadeId>): Option<CascadeId> {
    if ticks == [] then None
    else if Signals(ticks[0], bound, skip) then Detect(ticks[0].summaries, bound)
    else FirstSignal(ticks[1..], bound, skip)
  }

  /** A first cascade is adopted in place and cannot fail; a later one is a session rotation. */
  function Outcome(run: ReaderRun, cascade: CascadeId): Rebinding {
    Rebinding(cascade, !run.hadTurns || run.rotates)
  }

  /** The rebindings a sequence of reader runs makes; a run without a signal is the last. */
  function Rebindings(runs: seq<ReaderRun>, bound: CascadeId, failed: set<CascadeId>): seq<Rebinding> {
    if runs == [] then []
    else
      match FirstSignal(runs[0].ticks, bound, failed)
      case None => []
      case Some(cascade) =>
        var r := Outcome(runs[0], cascade);
        [r] + Rebindings(runs[1..], if r.succeeded then cascade else bound,
                         if r.succeeded then failed else failed + {cascade})
  }

  lemma {:induction false} FirstSignalIsFirst(ticks: seq<Tick>, bound: CascadeId, skip: set<CascadeId>)
    ensures var signalled := FirstSignal(ticks, bound, skip);
            && (signalled.Some? ==> signalled.value !in skip)
            && (signalled.Some? <==> exists i :: 0 <= i < |ticks| && Signals(ticks[i], bound, skip))
            && (signalled.Some? ==>
                  exists i :: 0 <= i < |ticks| && ticks[i].Readable? && Detect(ticks[i].summaries, bound) == signalled)
            && (forall i :: && 0 <= i < |ticks| && Signals(ticks[i], bound, skip)
                            && (forall j :: 0 <= j < i ==> !Signals(ticks[j], bound, skip)) ==>
                              signalled == Detect(ticks[i].summaries, bound))
  {
    hide Detect;
    if ticks != [] {
      FirstSignalIsFirst(ticks[1..], bound, skip);
      if !Signals(ticks[0], bound, skip) {
        forall i | && 0 <= i < |ticks| && Signals(ticks[i], bound, skip)
                   && (forall j :: 0 <= j < i ==> !Signals(ticks[j], bound, skip))
          ensures FirstSignal(ticks, bound, skip) == Detect(ticks[i].summaries, bound)
        {
          assert ticks[1..][i - 1] == ticks[i];
          assert forall j :: 0 <= j < i - 1 ==> ticks[1..][j] == ticks[j + 1];
        }
      }
    }
  }

  function BoundAfter(made: seq<Rebinding>, start: CascadeId): CascadeId {
    if made == [] then start
    else if made[|made| - 1].succeeded then made[|made| - 1].cascade
    else BoundAfter(made[..|made| - 1], start)
  }

  function FailedIn(made: seq<Rebinding>): set<CascadeId> { set r | r in made && !r.succeeded :: r.cascade }

  /** The run's detector signals `cascade`, at the first tick that signals anything. */
  ghost predicate SignalsFirst(ticks: seq<Tick>, cascade: CascadeId, bound: CascadeId, skip: set<CascadeId>) {
    exists j :: 0 <= j < |ticks| && Signals(ticks[j], bound, skip) && Detect(ticks[j].summaries, bound) == Some(cascade)
                && forall k :: 0 <= k < j ==> !Signals(ticks[k], bound, skip)
  }

  /** Each rebinding is what its run signalled, given the binding and the failures so far; it fails exactly
      if the bound cascade had turns and its session could not be moved; and the first run without a
      signal is the last. */
  ghost predicate Traced(made: seq<Rebinding>, start: CascadeId, runs: seq<ReaderRun>) {
    && TracedSoFar(made, start, runs)
    && (|made| < |runs| ==>
          forall j :: 0 <= j < |runs[|made|].ticks| ==> !Signals(runs[|made|].ticks[j], BoundAfter(made, start), FailedIn(made)))
  }

  ghost predicate TracedSoFar(made: seq<Rebinding>, start: CascadeId, runs: seq<ReaderRun>) {
    |made| <= |runs| && forall i :: 0 <= i < |made| ==> TracedAt(made, i, start, runs[i])
  }

  ghost predicate TracedAt(made: seq<Rebinding>, i: nat, start: CascadeId, run: ReaderRun)
    requires i < |made|
  {
    && SignalsFirst(run.ticks, made[i].cascade, BoundAfter(made[..i], start), FailedIn(made[..i]))
    && (made[i].succeeded <==> (run.hadTurns ==> run.rotates))
  }

  /** The reader loop: re-enters the reader on the new binding, or on the old one with the cascade that
      failed to be skipped from then on. */
  method RunReaderWithBridge(start: CascadeId, runs: seq<ReaderRun>) returns (made: seq<Rebinding>)
    requires forall i :: 0 <= i < |runs| ==> DistinctTicks(runs[i].ticks)
    ensures made == Rebindings(runs, start, {})
    ensures Traced(made, start, runs)
  {
    made := [];
    var bound, failedRotations := start, {};
    assert OnTrack(made, bound, failedRotations, start, runs) by {
      assert runs[0..] == runs && [] + Rebindings(runs, start, {}) == Rebindings(runs, start, {});
    }
    hide Signals, Detect, OnTrack, Rebindings, Traced, DistinctTicks, ClosesAt;
    for i := 0 to |runs|
      invariant |made| == i && OnTrack(made, bound, failedRotations, start, runs)
    {
      var cascade, last, closes := WatchForRotation(runs[i].ticks, bound, failedRotations);
      if cascade.None? {
        NothingSignalled(made, bound, failedRotations, start, runs);
        return;
      }
      OneMoreRebinding(made, bound, failedRotations, start, runs, cascade.value, last);
      made := made + [Outcome(runs[i], cascade.value)];
      if !runs[i].hadTurns || runs[i].rotates {
        bound := cascade.value;
      } else {
        failedRotations := failedRotations + {cascade.value};
      }
    }
    AllRunsMade(made, bound, failedRotations, start, runs);
  }

  /** The loop's state after the rebindings `made`. */
  ghost predicate OnTrack(made: seq<Rebinding>, bound: CascadeId, failed: set<CascadeId>, start: CascadeId, runs: seq<ReaderRun>) {
    && TracedSoFar(made, start, runs)
    && bound == BoundAfter(made, start) && failed == FailedIn(made)
    && made + Rebindings(runs[|made|..], bound, failed) == Rebindings(runs, start, {})
  }

  lemma NothingSignalled(made: seq<Rebinding>, bound: CascadeId, failed: set<CascadeId>, start: CascadeId, runs: seq<ReaderRun>)
    requires OnTrack(made, bound, failed, start, runs) && |made| < |runs|
    requires forall j :: 0 <= j < |runs[|made|].ticks| ==> !Signals(runs[|made|].ticks[j], bound, failed)
    ensures made == Rebindings(runs, start, {}) && Traced(made, start, runs)
  {
    hide Signals, TracedSoFar, BoundAfter, FailedIn;
    FirstSignalIsFirst(runs[|made|].ticks, bound, failed);
    NextRebinding(made, runs, |made|, bound, failed);
  }

  lemma AllRunsMade(made: seq<Rebinding>, bound: CascadeId, failed: set<CascadeId>, start: CascadeId, runs: seq<ReaderRun>)
    requires OnTrack(made, bound, failed, start, runs) && |made| == |runs|
    ensures made == Rebindings(runs, start, {}) && Traced(made, start, runs)
  {
    hide TracedSoFar, BoundAfter, FailedIn;
    assert runs[|runs|..] == [] && made + [] == made;
  }

  lemma OneMoreRebinding(made: seq<Rebinding>, bound: CascadeId, failed: set<CascadeId>, start: CascadeId, runs: seq<ReaderRun>,
                         cascade: CascadeId, at: nat)
    requires OnTrack(made, bound, failed, start, runs) && |made| < |runs|
    requires var ticks := runs[|made|].ticks;
             && at < |ticks| && Signals(ticks[at], bound, failed) && Detect(ticks[at].summaries, bound) == Some(cascade)
             && forall i :: 0 <= i < at ==> !Signals(ticks[i], bound, failed)
    ensures var r := Outcome(runs[|made|], cascade);
            OnTrack(made + [r], if r.succeeded then cascade else bound, if r.succeeded then failed else failed + {cascade},
                    start, runs)
  {
    hide Detect, Signals, FirstSignal, SignalsFirst, TracedSoFar, BoundAfter, FailedIn, Rebindings;
    SignalledIsFirst(runs[|made|].ticks, bound, failed, Some(cascade), at);
    NextRebinding(made, runs, |made|, bound, failed);
    TracedOneMore(made, Outcome(runs[|made|], cascade), start, runs);
  }

  lemma NextRebinding(made: seq<Rebinding>, runs: seq<ReaderRun>, i: nat, bound: CascadeId, failed: set<CascadeId>)
    requires i < |runs|
    ensures var signalled := FirstSignal(runs[i].ticks, bound, failed);
            made + Rebindings(runs[i..], bound, failed) ==
            match signalled
            case None => made
            case Some(cascade) =>
              var r := Outcome(runs[i], cascade);
              (made + [r]) + Rebindings(runs[i + 1..], if r.succeeded then cascade else bound,
                                        if r.succeeded then failed else failed + {cascade})
  {
    hide FirstSignal;
    assert runs[i..][1..] == runs[i + 1..];
    assert made + [] == made;
  }

  lemma SignalledIsFirst(ticks: seq<Tick>, bound: CascadeId, skip: set<CascadeId>, signalled: Option<CascadeId>, last: nat)
    requires signalled.None? <==> forall i :: 0 <= i < |ticks| ==> !Signals(ticks[i], bound, skip)
    requires signalled.Some? ==>
               && last < |ticks| && Signals(ticks[last], bound, skip) && Detect(ticks[last].summaries, bound) == signalled
               && forall i :: 0 <= i < last ==> !Signals(ticks[i], bound, skip)
    ensures signalled == FirstSignal(ticks, bound, skip)
    ensures signalled.Some? ==> SignalsFirst(ticks, signalled.value, bound, skip)
  {
    FirstSignalIsFirst(ticks, bound, skip);
    hide Detect, FirstSignal;
  }

  lemma TracedOneMore(made: seq<Rebinding>, r: Rebinding, start: CascadeId, runs: seq<ReaderRun>)
    requires TracedSoFar(made, start, runs) && |made| < |runs|
    requires SignalsFirst(runs[|made|].ticks, r.cascade, BoundAfter(made, start), FailedIn(made))
    requires r.succeeded <==> (runs[|made|].hadTurns ==> runs[|made|].rotates)
    ensures TracedSoFar(made + [r], start, runs)
    ensures BoundAfter(made + [r], start) == if r.succeeded then r.cascade else BoundAfter(made, start)
    ensures FailedIn(made + [r]) == FailedIn(made) + if r.succeeded then {} else {r.cascade}
  {
    RebindingTraced(made, r, start, runs[|made|]);
    EarlierStayTraced(made, r, start, runs);
    hide TracedAt, BoundAfter, FailedIn, SignalsFirst;
  }

  lemma RebindingTraced(made: seq<Rebinding>, r: Rebinding, start: CascadeId, run: ReaderRun)
    requires SignalsFirst(run.ticks, r.cascade, BoundAfter(made, start), FailedIn(made))
    requires r.succeeded <==> (run.hadTurns ==> run.rotates)
    ensures TracedAt(made + [r], |made|, start, run)
    ensures BoundAfter(made + [r], start) == if r.succeeded then r.cascade else BoundAfter(made, start)
    ensures FailedIn(made + [r]) == FailedIn(made) + if r.succeeded then {} else {r.cascade}
  {
    hide SignalsFirst;
    assert (made + [r])[..|made|] == made;
  }

  lemma EarlierStayTraced(made: seq<Rebinding>, r: Rebinding, start: CascadeId, runs: seq<ReaderRun>)
    requires |made| <= |runs| && forall k :: 0 <= k < |made| ==> TracedAt(made, k, start, runs[k])
    ensures forall k :: 0 <= k < |made| ==> TracedAt(made + [r], k, start, runs[k])
  {
    hide SignalsFirst, BoundAfter, FailedIn;
    assert forall k :: 0 <= k < |made| ==> (made + [r])[..k] == made[..k] && (made + [r])[k] == made[k];
  }

  lemma {:induction false} SkippedForGood(runs: seq<ReaderRun>, bound: CascadeId, failed: set<CascadeId>)
    ensures forall r :: r in Rebindings(runs, bound, failed) ==> r.cascade !in failed
  {
    if runs != [] {
      FirstSignalIsFirst(runs[0].ticks, bound, failed);
      var signalled := FirstSignal(runs[0].ticks, bound, failed);
      if signalled.Some? {
        var r := Outcome(runs[0], signalled.value);
        SkippedForGood(runs[1..], if r.succeeded then r.cascade else bound,
                       if r.succeeded then failed else failed + {r.cascade});
      }
    }
  }

  ghost predicate NoFailureRepeated(made: seq<Rebinding>) {
    forall i, j :: 0 <= i < j < |made| && !made[i].succeeded ==> made[j].cascade != made[i].cascade
  }

  /** A cascade whose rotation failed is never signalled again, whatever the maps show later. */
  lemma {:induction false} FailedNeverSignalledAgain(runs: seq<ReaderRun>, bound: CascadeId, failed: set<CascadeId>)
    ensures NoFailureRepeated(Rebindings(runs, bound, failed))
  {
    if runs != [] {
      var signalled := FirstSignal(runs[0].ticks, bound, failed);
      if signalled.Some? {
        var r := Outcome(runs[0], signalled.value);
        var bound', failed' := if r.succeeded then r.cascade else bound, if r.succeeded then failed else failed + {r.cascade};
        FailedNeverSignalledAgain(runs[1..], bound', failed');
        SkippedForGood(runs[1..], bound', failed');
        var rest := Rebindings(runs[1..], bound', failed');
        NoFailureRepeatedBefore(r, rest);
      }
    }
  }

  lemma NoFailureRepeatedBefore(r: Rebinding, rest: seq<Rebinding>)
    requires NoFailureRepeated(rest)
    requires forall s :: s in rest ==> r.succeeded || s.cascade != r.cascade
    ensures NoFailureRepeated([r] + rest)
  {
    assert forall j :: 0 < j < |[r] + rest| ==> ([r] + rest)[j] == rest[j - 1] && rest[j - 1] in rest;
  }

  /** Every readable tick of every run shows the same map. */
  ghost predicate Unchanged(runs: seq<ReaderRun>, ss: Summaries) {
    forall i, j :: 0 <= i < |runs| && 0 <= j < |runs[i].ticks| && runs[i].ticks[j].Readable? ==>
                     runs[i].ticks[j].summaries == ss
  }

  lemma UnchangedSignal(runs: seq<ReaderRun>, bound: CascadeId, failed: set<CascadeId>, ss: Summaries)
    requires Unchanged(runs, ss) && runs != []
    ensures var signalled := FirstSignal(runs[0].ticks, bound, failed);
            signalled.Some? ==> signalled == Detect(ss, bound) && signalled.value !in failed
    ensures Unchanged(runs[1..], ss)
  {
    hide Detect, FirstSignal;
    FirstSignalIsFirst(runs[0].ticks, bound, failed);
  }

  lemma NothingToSignal(runs: seq<ReaderRun>, bound: CascadeId, failed: set<CascadeId>, ss: Summaries)
    requires Unchanged(runs, ss)
    requires Detect(ss, bound).Some? ==> Detect(ss, bound).value in failed
    ensures Rebindings(runs, bound, failed) == []
  {
    hide Detect, FirstSignal;
    if runs != [] {
      UnchangedSignal(runs, bound, failed, ss);
    }
  }

  /** One unchanged map makes the reader re-enter at most once. */
  lemma UnchangedMapRebindsOnce(runs: seq<ReaderRun>, bound: CascadeId, failed: set<CascadeId>, ss: Summaries)
    requires Unchanged(runs, ss) && DistinctIds(ss)
    ensures |Rebindings(runs, bound, failed)| <= 1
  {
    hide Detect, FirstSignal, Unchanged;
    if runs != [] {
      UnchangedSignal(runs, bound, failed, ss);
      var signalled := FirstSignal(runs[0].ticks, bound, failed);
      if signalled.Some? {
        var r := Outcome(runs[0], signalled.value);
        if r.succeeded {
          RebindingDetectsNothing(ss, bound, r.cascade);
          NothingToSignal(runs[1..], r.cascade, failed, ss);
        } else {
          NothingToSignal(runs[1..], bound, failed + {r.cascade}, ss);
        }
      }
    }
  }
}
