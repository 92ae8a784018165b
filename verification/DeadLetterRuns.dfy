/** What any sequence of appends and startups makes of the dead-letter entries: every one is accounted
    for. */
module DeadLetterRuns {
  import opened DeadLetters

  /** What happens to the files: an entry is appended, with a rotation or without, or they are replayed. */
  datatype Event = Appended(e: Entry, rotates: bool) | Started(s: Startup)

  function Next(f: Files, v: Event): Files {
    match v
    case Appended(e, rotates) => Append(f, e, rotates)
    case Started(s) => ReplayFiles(f, s).0
  }

  function FilesAfter(f: Files, events: seq<Event>): Files {
    if events == [] then f else Next(FilesAfter(f, events[..|events| - 1]), events[|events| - 1])
  }

  /** Every entry there ever was, in the order in which they came. */
  function AllEntries(f: Files, events: seq<Event>): seq<Entry> {
    if events == [] then Content(f)
    else
      var last := events[|events| - 1];
      AllEntries(f, events[..|events| - 1]) + if last.Appended? then [last.e] else []
  }

  // ----- one slot for each entry -----

  /** An entry as it is now, with how often it was delivered, and so removed, how often the server
      committed it, and whether a rotation has dropped it. */
  datatype Slot = Slot(entry: Entry, deliveries: nat, commits: nat, rotatedOut: bool)

  predicate IsPresent(x: Slot) { x.deliveries == 0 && !x.rotatedOut }

  /** All slots so far; the first `boundary` of them are those of the backup. */
  datatype Ledger = Ledger(slots: seq<Slot>, boundary: nat)

  function Tracked(es: seq<Entry>): (slots: seq<Slot>)
    ensures |slots| == |es| && forall i :: 0 <= i < |es| ==> slots[i] == Slot(es[i], 0, 0, false)
  {
    seq(|es|, i requires 0 <= i < |es| => Slot(es[i], 0, 0, false))
  }

  function Start(f: Files): Ledger { Ledger(Tracked(Content(f)), |f.backup.GetOr([])|) }

  /** The entries still in the files, in their original order. */
  function Present(slots: seq<Slot>): seq<Entry> {
    if slots == [] then []
    else
      var last := slots[|slots| - 1];
      Present(slots[..|slots| - 1]) + if IsPresent(last) then [last.entry] else []
  }

  function ReplaySlot(x: Slot, p: Pass, s: Startup): Slot {
    var q := ReplayEntry(x.entry, p, s);
    if !IsPresent(x) || q.attempted == p.attempted then x
    else
      var commits := x.commits + if s.committed(p.attempted) then 1 else 0;
      if s.repost(p.attempted).delivered then x.(deliveries := x.deliveries + 1, commits := commits)
      else x.(entry := Refreshed(x.entry, s.repost(p.attempted)), commits := commits)
  }

  /** One startup, slot by slot; only the counters of the pass matter to the next slot. */
  function ReplaySlots(slots: seq<Slot>, s: Startup): (after: seq<Slot>)
    ensures |after| == |slots|
  {
    if slots == [] then []
    else
      var init, last := slots[..|slots| - 1], slots[|slots| - 1];
      ReplaySlots(init, s) + [ReplaySlot(last, ReplayEntries(Present(init), FRESH, s), s)]
  }

  /** A rotation drops what was still in the backup. */
  function RotateOut(slots: seq<Slot>, boundary: nat): (after: seq<Slot>)
    ensures |after| == |slots|
    ensures forall i :: 0 <= i < |slots| ==>
                          after[i] == if i < boundary && slots[i].deliveries == 0 then slots[i].(rotatedOut := true) else slots[i]
  {
    seq(|slots|, i requires 0 <= i < |slots| =>
      if i < boundary && slots[i].deliveries == 0 then slots[i].(rotatedOut := true) else slots[i])
  }

  function NextLedger(l: Ledger, v: Event): Ledger {
    match v
    case Appended(e, rotates) =>
      if rotates then Ledger(RotateOut(l.slots, l.boundary) + [Slot(e, 0, 0, false)], |l.slots|)
      else l.(slots := l.slots + [Slot(e, 0, 0, false)])
    case Started(s) => l.(slots := ReplaySlots(l.slots, s))
  }

  function LedgerAfter(l: Ledger, events: seq<Event>): Ledger {
    if events == [] then l else NextLedger(LedgerAfter(l, events[..|events| - 1]), events[|events| - 1])
  }

  // ----- the files hold what is present -----

  ghost predicate Follows(f: Files, l: Ledger) {
    && l.boundary <= |l.slots|
    && f.backup.GetOr([]) == Present(l.slots[..l.boundary])
    && f.current.GetOr([]) == Present(l.slots[l.boundary..])
  }

  lemma {:induction false} PresentAppend(slots: seq<Slot>, more: seq<Slot>)
    ensures Present(slots + more) == Present(slots) + Present(more)
  {
    if more == [] {
      assert slots + more == slots;
    } else {
      assert (slots + more)[..|slots + more| - 1] == slots + more[..|more| - 1];
      PresentAppend(slots, more[..|more| - 1]);
    }
  }

  lemma PresentOfOne(x: Slot)
    ensures Present([x]) == if IsPresent(x) then [x.entry] else []
  {
    assert [x][..0] == [];
  }

  lemma {:induction false} NonePresent(slots: seq<Slot>)
    requires forall x :: x in slots ==> !IsPresent(x)
    ensures Present(slots) == []
  {
    if slots != [] {
      NonePresent(slots[..|slots| - 1]);
    }
  }

  lemma {:induction false} AllPresent(es: seq<Entry>)
    ensures Present(Tracked(es)) == es
  {
    if es != [] {
      var n := |es| - 1;
      AllPresent(es[..n]);
      assert Tracked(es)[..n] == Tracked(es[..n]);
      assert es == es[..n] + [es[n]];
    }
  }

  lemma StartFollows(f: Files)
    ensures Follows(f, Start(f))
  {
    var backup, current := f.backup.GetOr([]), f.current.GetOr([]);
    assert Tracked(Content(f))[..|backup|] == Tracked(backup);
    assert Tracked(Content(f))[|backup|..] == Tracked(current);
    AllPresent(backup);
    AllPresent(current);
  }

  lemma {:induction false} SlotsFollowEntries(slots: seq<Slot>, s: Startup)
    ensures Present(ReplaySlots(slots, s)) == ReplayEntries(Present(slots), FRESH, s).retained
  {
    if slots != [] {
      var init, last := slots[..|slots| - 1], slots[|slots| - 1];
      SlotsFollowEntries(init, s);
      var slots' := ReplaySlots(slots, s);
      assert slots'[..|slots'| - 1] == ReplaySlots(init, s);
      if IsPresent(last) {
        assert Present(slots)[..|Present(slots)| - 1] == Present(init);
      } else {
        assert Present(slots) == Present(init);
      }
    }
  }

  lemma {:induction false} ReplayOfPrefix(slots: seq<Slot>, n: nat, s: Startup)
    requires n <= |slots|
    ensures ReplaySlots(slots, s)[..n] == ReplaySlots(slots[..n], s)
  {
    hide ReplaySlot, ReplayEntries, Present;
    if n == |slots| {
      assert slots[..n] == slots;
    } else {
      ReplayOfPrefix(slots[..|slots| - 1], n, s);
      assert slots[..|slots| - 1][..n] == slots[..n];
    }
  }

  lemma StartupFollows(f: Files, l: Ledger, s: Startup)
    requires Follows(f, l)
    ensures Follows(ReplayFiles(f, s).0, NextLedger(l, Started(s)))
  {
    hide ReplayEntries, Present, ReplaySlots;
    var backup, current, f' := l.slots[..l.boundary], l.slots[l.boundary..], ReplayFiles(f, s).0;
    var slots' := ReplaySlots(l.slots, s);
    assert l.slots == backup + current && slots' == slots'[..l.boundary] + slots'[l.boundary..];
    PresentAppend(backup, current);
    PresentAppend(slots'[..l.boundary], slots'[l.boundary..]);
    SlotsFollowEntries(l.slots, s);
    SlotsFollowEntries(backup, s);
    ReplayOfPrefix(l.slots, l.boundary, s);
    FilesAreOneContent(f, s);
    BackupAfterReplay(f, s);
    assert f'.backup.GetOr([]) == Present(slots'[..l.boundary]);
    assert Content(f') == f'.backup.GetOr([]) + f'.current.GetOr([]);
    assert f'.current.GetOr([]) == Content(f')[|f'.backup.GetOr([])|..];
  }

  lemma BackupAfterReplay(f: Files, s: Startup)
    ensures ReplayFiles(f, s).0.backup.GetOr([]) == ReplayEntries(f.backup.GetOr([]), FRESH, s).retained
  {
    assert ReplayEntries([], FRESH, s) == FRESH;
  }

  lemma AppendFollows(f: Files, l: Ledger, e: Entry, rotates: bool)
    requires Follows(f, l)
    ensures Follows(Append(f, e, rotates), NextLedger(l, Appended(e, rotates)))
  {
    hide Present;
    var x, l' := Slot(e, 0, 0, false), NextLedger(l, Appended(e, rotates));
    PresentOfOne(x);
    if rotates {
      var slots := RotateOut(l.slots, l.boundary);
      assert slots == slots[..l.boundary] + l.slots[l.boundary..];
      PresentAppend(slots[..l.boundary], l.slots[l.boundary..]);
      NonePresent(slots[..l.boundary]);
      assert l'.slots[..l'.boundary] == slots && l'.slots[l'.boundary..] == [x];
    } else {
      PresentAppend(l.slots[l.boundary..], [x]);
      assert l'.slots[..l.boundary] == l.slots[..l.boundary];
      assert l'.slots[l.boundary..] == l.slots[l.boundary..] + [x];
    }
  }

  lemma {:induction false} FilesFollowLedger(f: Files, l: Ledger, events: seq<Event>)
    requires Follows(f, l)
    ensures Follows(FilesAfter(f, events), LedgerAfter(l, events))
  {
    hide Follows, ReplayFiles, Append, NextLedger;
    if events != [] {
      var init, last := events[..|events| - 1], events[|events| - 1];
      FilesFollowLedger(f, l, init);
      match last
      case Appended(e, rotates) => AppendFollows(FilesAfter(f, init), LedgerAfter(l, init), e, rotates);
      case Started(s) => StartupFollows(FilesAfter(f, init), LedgerAfter(l, init), s);
    }
  }

  // ----- the account of one entry -----

  /** The same dropped event, whatever its classification says now. */
  predicate SameEvent(e: Entry, f: Entry) {
    match (e, f)
    case (Dropped(a), Dropped(b)) => b == a.(ambiguous := b.ambiguous, httpStatus := b.httpStatus)
    case _ => e == f
  }

  /** A re-POST that failed without being ambiguous was not committed. */
  ghost predicate Honest(s: Startup) {
    forall n :: s.committed(n) ==> s.repost(n).delivered || s.repost(n).ambiguous
  }

  ghost predicate HonestEvents(events: seq<Event>, retryable: set<int>) {
    forall v :: v in events && v.Started? ==> Honest(v.s) && v.s.retryable == retryable
  }

  /** What became of an entry that came as `e`: delivered at most once and then gone, unchanged if it was
      not replayable, and committed at most once, by nobody as long as it is still to be replayed. */
  ghost predicate AccountedFor(e: Entry, now: Slot, retryable: set<int>) {
    && SameEvent(e, now.entry)
    && (!Replayable(e, retryable) ==> now.entry == e && now.deliveries == now.commits == 0)
    && now.deliveries <= 1
    && now.commits <= 1
    && (now.deliveries > 0 ==> !now.rotatedOut)
    && (now.deliveries == 0 && Replayable(now.entry, retryable) ==> now.commits == 0)
  }

  ghost predicate AllAccountedFor(es: seq<Entry>, slots: seq<Slot>, retryable: set<int>) {
    |es| == |slots| && forall i :: 0 <= i < |es| ==> AccountedFor(es[i], slots[i], retryable)
  }

  /** Rotations drop the oldest first: nothing older than a dropped entry is still present. */
  ghost predicate OldestFirst(slots: seq<Slot>) {
    forall i, j :: 0 <= i < j < |slots| && slots[j].rotatedOut ==> !IsPresent(slots[i])
  }

  lemma ReplayKeepsAccount(e: Entry, now: Slot, p: Pass, s: Startup)
    requires AccountedFor(e, now, s.retryable) && Honest(s)
    ensures AccountedFor(e, ReplaySlot(now, p, s), s.retryable)
  {
  }

  lemma {:induction false} StartupKeepsAccount(es: seq<Entry>, now: seq<Slot>, s: Startup)
    requires AllAccountedFor(es, now, s.retryable) && Honest(s)
    ensures AllAccountedFor(es, ReplaySlots(now, s), s.retryable)
    ensures forall i :: 0 <= i < |now| && !IsPresent(now[i]) ==> ReplaySlots(now, s)[i] == now[i]
    ensures forall i :: 0 <= i < |now| ==> ReplaySlots(now, s)[i].rotatedOut == now[i].rotatedOut
  {
    hide AccountedFor, Honest;
    if now != [] {
      var n := |now| - 1;
      StartupKeepsAccount(es[..n], now[..n], s);
      ReplayKeepsAccount(es[n], now[n], ReplayEntries(Present(now[..n]), FRESH, s), s);
    }
  }

  lemma EventKeepsAccount(es: seq<Entry>, l: Ledger, v: Event, retryable: set<int>)
    requires AllAccountedFor(es, l.slots, retryable) && OldestFirst(l.slots)
    requires v.Started? ==> Honest(v.s) && v.s.retryable == retryable
    ensures var l' := NextLedger(l, v);
            && AllAccountedFor(es + (if v.Appended? then [v.e] else []), l'.slots, retryable)
            && OldestFirst(l'.slots)
  {
    hide ReplaySlots;
    if v.Started? {
      StartupKeepsAccount(es, l.slots, v.s);
      assert es + [] == es;
    }
  }

  lemma {:induction false} RunsKeepAccount(f: Files, events: seq<Event>, retryable: set<int>)
    requires HonestEvents(events, retryable)
    ensures var slots := LedgerAfter(Start(f), events).slots;
            AllAccountedFor(AllEntries(f, events), slots, retryable) && OldestFirst(slots)
  {
    hide AllAccountedFor, OldestFirst, NextLedger, Honest;
    if events == [] {
      NothingYet(Content(f), retryable);
    } else {
      var init, last := events[..|events| - 1], events[|events| - 1];
      RunsKeepAccount(f, init, retryable);
      assert last in events;
      EventKeepsAccount(AllEntries(f, init), LedgerAfter(Start(f), init), last, retryable);
      assert AllEntries(f, init) + [] == AllEntries(f, init);
    }
  }

  lemma NothingYet(es: seq<Entry>, retryable: set<int>)
    ensures AllAccountedFor(es, Tracked(es), retryable) && OldestFirst(Tracked(es))
  {
  }

  lemma {:induction false} RotatedOutByRotation(l: Ledger, events: seq<Event>)
    requires forall x :: x in l.slots ==> !x.rotatedOut
    ensures (exists x :: x in LedgerAfter(l, events).slots && x.rotatedOut) ==>
              exists v :: v in events && v.Appended? && v.rotates
  {
    hide ReplaySlot, ReplayEntries;
    if events != [] {
      var init, last := events[..|events| - 1], events[|events| - 1];
      RotatedOutByRotation(l, init);
      if last.Started? {
        ReplayRotatesNothing(LedgerAfter(l, init).slots, last.s);
      }
    }
  }

  lemma {:induction false} ReplayRotatesNothing(slots: seq<Slot>, s: Startup)
    ensures forall i :: 0 <= i < |slots| ==> ReplaySlots(slots, s)[i].rotatedOut == slots[i].rotatedOut
  {
    if slots != [] {
      ReplayRotatesNothing(slots[..|slots| - 1], s);
    }
  }

  /** Over any sequence of appends and startups: what is in the files is what ever came, in the order in
      which it came, less what was delivered and what was rotated out. Each record was delivered and
      removed at most once, entries that are not replayable are unchanged, the server committed no
      record twice, and only rotations drop anything, the oldest first. */
  lemma EveryRecordAccountedFor(f: Files, events: seq<Event>, retryable: set<int>)
    requires HonestEvents(events, retryable)
    ensures var slots := LedgerAfter(Start(f), events).slots;
            && Content(FilesAfter(f, events)) == Present(slots)
            && AllAccountedFor(AllEntries(f, events), slots, retryable)
            && OldestFirst(slots)
            && ((exists x :: x in slots && x.rotatedOut) ==> exists v :: v in events && v.Appended? && v.rotates)
  {
    hide AllAccountedFor, OldestFirst, HonestEvents, Present, NextLedger, Next, Tracked;
    var l := LedgerAfter(Start(f), events);
    StartFollows(f);
    FilesFollowLedger(f, Start(f), events);
    assert l.slots[..l.boundary] + l.slots[l.boundary..] == l.slots;
    PresentAppend(l.slots[..l.boundary], l.slots[l.boundary..]);
    RunsKeepAccount(f, events, retryable);
    RotatedOutByRotation(Start(f), events);
  }

  /** Each startup posts no more than its budget, and every replayable record is posted or deferred. */
  lemma StartupWithinBudget(f: Files, s: Startup)
    ensures var (f', p) := ReplayFiles(f, s);
            && p.attempted + p.deferred == CountReplayable(Content(f), s.retryable)
            && (s.maxRecords.Some? ==> p.attempted <= s.maxRecords.value)
            && p.replayed <= p.attempted
            && |Content(f')| + p.replayed == |Content(f)|
  {
    FilesAreOneContent(f, s);
    PassCounts(Content(f), FRESH, s);
  }
}
