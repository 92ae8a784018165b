/** The dead-letter entries of a session: undeliverable events appended with rotation to one backup, and
    their replay at startup, within a budget, over the backup and the current entries. */
module DeadLetters {
  import opened Common

  /** A dropped event. `ambiguous` is None for a record written before classification existed;
      `httpStatus` is None where no response was seen. `other` is the rest of the record. */
  datatype Record = Record(
    sessionId: string, eventType: string, payload: Option<string>, ambiguous: Option<bool>, httpStatus: Option<int>,
    other: string)

  /** What a line of a file is read as: a JSON object, a text, or a JSON value of any other kind. */
  datatype Entry = Dropped(record: Record) | Raw(text: string) | Other(json: string)

  type File = Option<seq<Entry>>

  datatype Files = Files(backup: File, current: File)

  /** The entries in the order they were dropped. */
  function Content(f: Files): seq<Entry> { f.backup.GetOr([]) + f.current.GetOr([]) }

  // ----- replaying -----

  predicate Replayable(e: Entry, retryable: set<int>) {
    match e
    case Dropped(r) =>
      && r.sessionId != "" && r.eventType != "" && r.payload.Some?
      && r.ambiguous == Some(false)
      && (r.httpStatus.None? || r.httpStatus.value in retryable)
    case _ => false
  }

  datatype RepostResult = RepostResult(delivered: bool, ambiguous: bool, httpStatus: Option<int>)

  /** What one startup meets: the result of its n-th POST, whether its time is up before the n-th, and
      whether the server commits the n-th, which nobody sees. */
  datatype Startup = Startup(
    repost: nat -> RepostResult, expired: nat -> bool, committed: nat -> bool,
    maxRecords: Option<nat>, retryable: set<int>)

  predicate OverBudget(s: Startup, attempted: nat) {
    (s.maxRecords.Some? && attempted >= s.maxRecords.value) || s.expired(attempted)
  }

  /** A record whose re-POST failed, with its classification refreshed from the result. */
  function Refreshed(e: Entry, result: RepostResult): Entry {
    match e
    case Dropped(r) => Dropped(r.(ambiguous := Some(result.ambiguous), httpStatus := result.httpStatus))
    case _ => e
  }

  datatype Pass = Pass(retained: seq<Entry>, attempted: nat, replayed: nat, deferred: nat, stop: bool)

  const FRESH := Pass([], 0, 0, 0, false)

  function ReplayEntry(e: Entry, p: Pass, s: Startup): Pass {
    if !Replayable(e, s.retryable) then p.(retained := p.retained + [e])
    else if p.stop || OverBudget(s, p.attempted) then
      p.(retained := p.retained + [e], deferred := p.deferred + 1, stop := true)
    else if s.repost(p.attempted).delivered then
      p.(attempted := p.attempted + 1, replayed := p.replayed + 1)
    else
      p.(attempted := p.attempted + 1, retained := p.retained + [Refreshed(e, s.repost(p.attempted))])
  }

  function ReplayEntries(es: seq<Entry>, p: Pass, s: Startup): Pass {
    if es == [] then p else ReplayEntry(es[|es| - 1], ReplayEntries(es[..|es| - 1], p, s), s)
  }

  function Saved(entries: seq<Entry>): File { if entries == [] then None else Some(entries) }

  /** A file after a pass over it: rewritten if anything in it changed. */
  function Rewritten(file: File, retained: seq<Entry>): File {
    if file.None? || retained == file.value then file else Saved(retained)
  }

  /** Both files after one startup, the backup replayed first, and the counters. */
  function ReplayFiles(f: Files, s: Startup): (Files, Pass) {
    var first := ReplayEntries(f.backup.GetOr([]), FRESH, s);
    var second := ReplayEntries(f.current.GetOr([]), first.(retained := []), s);
    (Files(Rewritten(f.backup, first.retained), Rewritten(f.current, second.retained)), second)
  }

  function CountReplayable(es: seq<Entry>, retryable: set<int>): nat {
    if es == [] then 0
    else CountReplayable(es[..|es| - 1], retryable) + if Replayable(es[|es| - 1], retryable) then 1 else 0
  }

  lemma {:induction false} PassCounts(es: seq<Entry>, p: Pass, s: Startup)
    requires s.maxRecords.Some? ==> p.attempted <= s.maxRecords.value
    ensures var q := ReplayEntries(es, p, s);
            && q.attempted + q.deferred == p.attempted + p.deferred + CountReplayable(es, s.retryable)
            && (s.maxRecords.Some? ==> q.attempted <= s.maxRecords.value)
            && q.replayed - p.replayed <= q.attempted - p.attempted
            && |q.retained| + q.replayed == |p.retained| + p.replayed + |es|
  {
    if es != [] {
      PassCounts(es[..|es| - 1], p, s);
    }
  }

  lemma {:induction false} PassAppend(es: seq<Entry>, more: seq<Entry>, p: Pass, s: Startup)
    ensures ReplayEntries(es + more, p, s) == ReplayEntries(more, ReplayEntries(es, p, s), s)
  {
    hide ReplayEntry;
    if more == [] {
      assert es + more == es;
    } else {
      assert (es + more)[..|es + more| - 1] == es + more[..|more| - 1];
      PassAppend(es, more[..|more| - 1], p, s);
    }
  }

  lemma PassOneMore(es: seq<Entry>, i: nat, p: Pass, s: Startup)
    requires i < |es|
    ensures ReplayEntries(es[..i + 1], p, s) == ReplayEntry(es[i], ReplayEntries(es[..i], p, s), s)
  {
    hide ReplayEntry;
    assert es[..i + 1][..i] == es[..i];
  }

  /** Whether a list built along `es` still equals it is settled entry by entry. */
  lemma OneMoreKept(es: seq<Entry>, i: nat, kept: seq<Entry>, e: Entry)
    requires i < |es| && |kept| <= i
    ensures kept + [e] == es[..i + 1] <==> kept == es[..i] && e == es[i]
    ensures kept != es[..i + 1]
  {
    assert es[..i + 1] == es[..i] + [es[i]];
    if kept + [e] == es[..i + 1] {
      assert kept == (kept + [e])[..|kept|];
    }
  }

  /** What was retained before a pass stays in front of it and does not influence it. */
  lemma {:induction false} PassPrefix(es: seq<Entry>, p: Pass, s: Startup)
    ensures var q := ReplayEntries(es, p.(retained := []), s);
            ReplayEntries(es, p, s) == q.(retained := p.retained + q.retained)
  {
    if es != [] {
      PassPrefix(es[..|es| - 1], p, s);
    }
  }

  /** The boundary between the files does not matter: a startup replays their joint content in order. */
  lemma FilesAreOneContent(f: Files, s: Startup)
    ensures var (f', p) := ReplayFiles(f, s);
            var q := ReplayEntries(Content(f), FRESH, s);
            Content(f') == q.retained && (p.attempted, p.replayed, p.deferred) == (q.attempted, q.replayed, q.deferred)
  {
    var first := ReplayEntries(f.backup.GetOr([]), FRESH, s);
    PassAppend(f.backup.GetOr([]), f.current.GetOr([]), FRESH, s);
    PassPrefix(f.current.GetOr([]), first, s);
  }

  // ----- appending -----

  function Bytes(es: seq<Entry>, size: Entry -> nat): nat {
    if es == [] then 0 else Bytes(es[..|es| - 1], size) + size(es[|es| - 1])
  }

  /** One more entry, after the current ones have taken the place of the backup where `rotates` says so. */
  function Append(f: Files, e: Entry, rotates: bool): Files {
    if rotates then Files(f.current, Some([e])) else f.(current := Some(f.current.GetOr([]) + [e]))
  }

  function AppendEntry(f: Files, e: Entry, cap: nat, size: Entry -> nat): Files {
    Append(f, e, f.current.Some? && Bytes(f.current.value, size) >= cap)
  }

  function AppendAll(history: seq<Entry>, cap: nat, size: Entry -> nat): Files {
    if history == [] then Files(None, None)
    else AppendEntry(AppendAll(history[..|history| - 1], cap, size), history[|history| - 1], cap, size)
  }

  lemma BytesOfOne(e: Entry, size: Entry -> nat)
    ensures Bytes([e], size) == size(e)
  {
    assert [e][..0] == [];
  }

  lemma {:induction false} BytesAppend(es: seq<Entry>, more: seq<Entry>, size: Entry -> nat)
    ensures Bytes(es + more, size) == Bytes(es, size) + Bytes(more, size)
  {
    if more == [] {
      assert es + more == es;
    } else {
      assert (es + more)[..|es + more| - 1] == es + more[..|more| - 1];
      BytesAppend(es, more[..|more| - 1], size);
    }
  }

  /** The files hold the history from `dropped` on, each is below the cap plus one line, and the backup
      holds at least the cap's worth. */
  ghost predicate Keeps(f: Files, history: seq<Entry>, dropped: nat, cap: nat, size: Entry -> nat, longest: nat) {
    && dropped <= |history| && Content(f) == history[dropped..]
    && (f.backup.Some? ==> cap <= Bytes(f.backup.value, size) < cap + longest)
    && (f.current.Some? ==> Bytes(f.current.value, size) < cap + longest)
    && (f.current.None? ==> f.backup.None?)
    && (dropped > 0 ==> f.backup.Some?)
  }

  lemma AppendKeeps(f: Files, history: seq<Entry>, dropped: nat, e: Entry, cap: nat, size: Entry -> nat, longest: nat)
    returns (dropped': nat)
    requires Keeps(f, history, dropped, cap, size, longest) && cap > 0 && size(e) <= longest
    ensures Keeps(AppendEntry(f, e, cap, size), history + [e], dropped', cap, size, longest)
  {
    BytesOfOne(e, size);
    var f' := AppendEntry(f, e, cap, size);
    if f.current.Some? && Bytes(f.current.value, size) >= cap {
      dropped' := |history| - |f.current.value|;
      assert Content(f)[|Content(f)| - |f.current.value|..] == f.current.value;
      assert (history + [e])[dropped'..] == f.current.value + [e];
    } else {
      dropped' := dropped;
      BytesAppend(f.current.GetOr([]), [e], size);
      assert (history + [e])[dropped..] == history[dropped..] + [e];
      assert Content(f') == Content(f) + [e];
    }
  }

  /** The newest drops are kept: the files hold a suffix of the history, each stays below the cap plus
      one line, and once anything has been dropped at least the cap's worth is held. */
  lemma {:induction false} NewestAreKept(history: seq<Entry>, cap: nat, size: Entry -> nat, longest: nat) returns (dropped: nat)
    requires cap > 0 && forall e :: e in history ==> size(e) <= longest
    ensures Keeps(AppendAll(history, cap, size), history, dropped, cap, size, longest)
    ensures dropped > 0 ==> Bytes(Content(AppendAll(history, cap, size)), size) >= cap
  {
    var f := AppendAll(history, cap, size);
    dropped := 0;
    if history != [] {
      var n := |history| - 1;
      assert history == history[..n] + [history[n]];
      dropped := NewestAreKept(history[..n], cap, size, longest);
      dropped := AppendKeeps(AppendAll(history[..n], cap, size), history[..n], dropped, history[n], cap, size, longest);
      BytesAppend(f.backup.GetOr([]), f.current.GetOr([]), size);
    }
  }

  lemma NothingToReplay(f: Files, s: Startup)
    requires forall e :: e in Content(f) ==> !Replayable(e, s.retryable)
    ensures ReplayFiles(f, s).0 == f && ReplayFiles(f, s).1.replayed == 0
  {
    hide Replayable, ReplayEntries;
    var entries, more := f.backup.GetOr([]), f.current.GetOr([]);
    assert forall e :: e in entries || e in more ==> e in Content(f);
    assert [] + entries == entries && [] + more == more;
    NothingReplayable(entries, FRESH, s);
    NothingReplayable(more, ReplayEntries(entries, FRESH, s).(retained := []), s);
  }

  lemma {:induction false} NothingReplayable(es: seq<Entry>, p: Pass, s: Startup)
    requires forall e :: e in es ==> !Replayable(e, s.retryable)
    ensures ReplayEntries(es, p, s) == p.(retained := p.retained + es)
  {
    if es != [] {
      NothingReplayable(es[..|es| - 1], p, s);
      assert es == es[..|es| - 1] + [es[|es| - 1]];
    } else {
      assert p.retained + es == p.retained;
    }
  }
}
