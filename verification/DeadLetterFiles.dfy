/** The dead-letter files as text: appended to line by line, read at startup, and rewritten where a replay
    changed them. */
module DeadLetterFiles {
  import opened Common
  import TrajectorySteps
  import opened DeadLetters
  import opened DeadLetterLines
  import opened DeadLetterRuns

  /** How entries are read and printed, and when the current file is full. */
  datatype Format = Format(parse: Parser, dump: Printer, cap: nat, size: string -> nat)

  datatype Disk = Disk(backup: Option<string>, current: Option<string>)

  const EMPTY_DISK := Disk(None, None)

  datatype Happening = Drop(record: Record) | Restart(s: Startup)

  function LoadFile(text: Option<string>, fm: Format): File {
    match text
    case None => None
    case Some(t) => Some(ReadText(t, fm.parse))
  }

  function Load(d: Disk, fm: Format): Files { Files(LoadFile(d.backup, fm), LoadFile(d.current, fm)) }

  /** The text of a file once its entries are to be `file`: as it was if they are what it is read as. */
  function Stored(text: Option<string>, file: File, fm: Format): Option<string> {
    if file == LoadFile(text, fm) then text
    else
      match file
      case None => None
      case Some(es) => Some(WriteText(es, fm.dump))
  }

  predicate IsFull(d: Disk, fm: Format) { d.current.Some? && fm.size(d.current.value) >= fm.cap }

  function LineOf(e: Entry, fm: Format): string { Written(e, fm.dump) + "\n" }

  function NextDisk(d: Disk, h: Happening, fm: Format): Disk {
    match h
    case Drop(record) =>
      var line := LineOf(Dropped(record), fm);
      if IsFull(d, fm) then Disk(d.current, Some(line)) else d.(current := Some(d.current.GetOr("") + line))
    case Restart(s) =>
      var after := ReplayFiles(Load(d, fm), s).0;
      Disk(Stored(d.backup, after.backup, fm), Stored(d.current, after.current, fm))
  }

  function DiskAfter(d: Disk, hs: seq<Happening>, fm: Format): Disk {
    if hs == [] then d else NextDisk(DiskAfter(d, hs[..|hs| - 1], fm), hs[|hs| - 1], fm)
  }

  class DeadLetterStore {
    const fm: Format
    var backup: Option<string>
    var current: Option<string>

    function View(): Disk
      reads this
    {
      Disk(backup, current)
    }

    constructor (fm: Format)
      ensures View() == EMPTY_DISK && this.fm == fm
    {
      this.fm := fm;
      backup, current := None, None;
    }

    method AppendDeadLetter(record: Record)
      modifies this
      ensures View() == NextDisk(old(View()), Drop(record), fm)
    {
      if current.Some? && fm.size(current.value) >= fm.cap {
        backup := current;
        current := None;
      }
      var line := fm.dump(Dropped(record)) + "\n";
      assert "" + line == line;
      current := Some(current.GetOr("") + line);
    }

    method ReadDeadLetterEntries(text: Option<string>) returns (entries: File)
      ensures entries == LoadFile(text, fm)
    {
      hide TrajectorySteps.Blank, ReadLines;
      if text.None? {
        return None;
      }
      var lines, es := Lines(text.value), [];
      assert lines[0..] == lines;
      for i := 0 to |lines|
        invariant es + ReadLines(lines[i..], fm.parse) == ReadText(text.value, fm.parse)
      {
        ReadLinesFrom(lines, i, fm.parse);
        ghost var before, more := es, ReadLines(lines[i + 1..], fm.parse);
        assert before + (ReadLine(lines[i], fm.parse) + more) == (before + ReadLine(lines[i], fm.parse)) + more;
        if TrajectorySteps.Blank(lines[i]) {
          assert before + [] == before;
          continue;
        }
        match fm.parse(lines[i]) {
          case NotJson => es := es + [Raw(lines[i])];
          case Text(s) => es := es + [Raw(s)];
          case Object(record) => es := es + [Dropped(record)];
          case OtherJson(json) => es := es + [Other(json)];
        }
      }
      NoLines(fm.parse);
      assert lines[|lines|..] == [];
      assert es + [] == es;
      return Some(es);
    }

    /** One file's entries, from the counters `p` on. */
    method ReplayFile(entries: seq<Entry>, p: Pass, s: Startup) returns (q: Pass, changed: bool)
      requires p.retained == []
      ensures q == ReplayEntries(entries, p, s)
      ensures changed <==> q.retained != entries
    {
      assert ReplayEntries(entries[..0], p, s) == p;
      hide ReplayEntries;
      var retained: seq<Entry> := [];
      var attempted: nat, replayed: nat, deferred: nat := p.attempted, p.replayed, p.deferred;
      var stop := p.stop;
      changed := false;
      for i := 0 to |entries|
        invariant Pass(retained, attempted, replayed, deferred, stop) == ReplayEntries(entries[..i], p, s)
        invariant |retained| <= i && (changed <==> retained != entries[..i])
      {
        PassOneMore(entries, i, p, s);
        OneMoreKept(entries, i, retained, entries[i]);
        var entry := entries[i];
        if !Replayable(entry, s.retryable) {
          retained := retained + [entry];
          continue;
        }
        if stop {
          deferred := deferred + 1;
          retained := retained + [entry];
          continue;
        }
        var overRecords := s.maxRecords.Some? && attempted >= s.maxRecords.value;
        if overRecords || s.expired(attempted) {
          stop := true;
          deferred := deferred + 1;
          retained := retained + [entry];
          continue;
        }
        var result := s.repost(attempted);
        attempted := attempted + 1;
        if result.delivered {
          replayed := replayed + 1;
          changed := true;
          continue;
        }
        if entry.record.ambiguous != Some(result.ambiguous) || entry.record.httpStatus != result.httpStatus {
          entry := Dropped(entry.record.(ambiguous := Some(result.ambiguous), httpStatus := result.httpStatus));
          changed := true;
        }
        OneMoreKept(entries, i, retained, entry);
        retained := retained + [entry];
      }
      assert entries[..|entries|] == entries;
      q := Pass(retained, attempted, replayed, deferred, stop);
    }

    method ReplayDeadLetters(s: Startup) returns (replayed: nat)
      modifies this
      ensures View() == NextDisk(old(View()), Restart(s), fm)
      ensures replayed == ReplayFiles(Load(old(View()), fm), s).1.replayed
    {
      assert forall q :: ReplayEntries([], q, s) == q;
      hide ReplayEntries, Replayable, WriteText, LoadFile, Stored, Rewritten;
      ghost var before := View();
      var older := ReadDeadLetterEntries(backup);
      var newer := ReadDeadLetterEntries(current);
      var entries, more := older.GetOr([]), newer.GetOr([]);
      if !(exists e :: e in entries && Replayable(e, s.retryable)) && !(exists e :: e in more && Replayable(e, s.retryable)) {
        NothingToReplay(Load(View(), fm), s);
        return 0;
      }
      var p, changed := ReplayFile(entries, FRESH, s);
      StoredAfterChange(before.backup, p.retained, fm);
      if changed {
        backup := if p.retained == [] then None else Some(WriteText(p.retained, fm.dump));
      }
      p, changed := ReplayFile(more, p.(retained := []), s);
      StoredAfterChange(before.current, p.retained, fm);
      if changed {
        current := if p.retained == [] then None else Some(WriteText(p.retained, fm.dump));
      }
      replayed := p.replayed;
    }
  }

  lemma NoLines(parse: Parser)
    ensures ReadLines([], parse) == []
  {
  }

  lemma ReadLinesFrom(lines: seq<string>, i: nat, parse: Parser)
    requires i < |lines|
    ensures ReadLines(lines[i..], parse) == ReadLine(lines[i], parse) + ReadLines(lines[i + 1..], parse)
  {
    assert lines[i..][1..] == lines[i + 1..];
  }

  lemma StoredAfterChange(text: Option<string>, retained: seq<Entry>, fm: Format)
    requires text.None? ==> retained == []
    ensures Stored(text, Rewritten(LoadFile(text, fm), retained), fm) ==
            if retained == LoadFile(text, fm).GetOr([]) then text
            else if retained == [] then None else Some(WriteText(retained, fm.dump))
  {
    hide ReadText, WriteText;
  }

  // ----- the text says what the entries say -----

  predicate Terminated(text: string) { text != "" ==> text[|text| - 1] == '\n' }

  predicate SoundFile(text: Option<string>, fm: Format) {
    text.Some? ==> Terminated(text.value) && AllPreserved(ReadText(text.value, fm.parse), fm.parse)
  }

  /** Both files end with a line break and have only entries that a rewrite preserves. */
  predicate Sound(d: Disk, fm: Format) { SoundFile(d.backup, fm) && SoundFile(d.current, fm) }

  function AsEvent(d: Disk, h: Happening, fm: Format): Event {
    match h
    case Drop(record) => Appended(Dropped(record), IsFull(d, fm))
    case Restart(s) => Started(s)
  }

  function AsEvents(d: Disk, hs: seq<Happening>, fm: Format): (events: seq<Event>)
    ensures |events| == |hs| && forall i :: 0 <= i < |hs| ==> events[i] == AsEvent(DiskAfter(d, hs[..i], fm), hs[i], fm)
  {
    seq(|hs|, i requires 0 <= i < |hs| => AsEvent(DiskAfter(d, hs[..i], fm), hs[i], fm))
  }

  lemma EventsOneMore(d: Disk, hs: seq<Happening>, fm: Format)
    requires hs != []
    ensures var n := |hs| - 1;
            && AsEvents(d, hs, fm)[..n] == AsEvents(d, hs[..n], fm)
            && AsEvents(d, hs, fm)[n] == AsEvent(DiskAfter(d, hs[..n], fm), hs[n], fm)
  {
    hide DiskAfter, AsEvent;
    var n := |hs| - 1;
    assert forall i :: 0 <= i < n ==> hs[..n][..i] == hs[..i];
  }

  lemma ReadOwnLine(e: Entry, fm: Format)
    requires ActsLikeJson(fm.parse, fm.dump) && !e.Raw?
    ensures ReadText(LineOf(e, fm), fm.parse) == [e]
  {
    var line := Written(e, fm.dump);
    ReadOneLine(line, fm.parse);
    assert ReadLine(line, fm.parse) == [e];
    hide ReadText, ReadLine, OneLine;
    ReadInTurn(line, "", fm.parse);
    EmptyText(fm.parse);
    assert line + "\n" + "" == LineOf(e, fm) && [e] + [] == [e];
  }

  lemma ReadBelow(text: string, more: string, parse: Parser)
    requires Terminated(text)
    ensures ReadText(text + more, parse) == ReadText(text, parse) + ReadText(more, parse)
  {
    hide ReadText;
    EmptyText(parse);
    if text == "" {
      assert text + more == more && [] + ReadText(more, parse) == ReadText(more, parse);
    } else {
      var before := text[..|text| - 1];
      assert text == before + "\n" + "" && text + more == before + "\n" + more;
      ReadInTurn(before, "", parse);
      ReadInTurn(before, more, parse);
      assert ReadText(before, parse) + [] == ReadText(before, parse);
    }
  }

  lemma ReadAppended(text: string, e: Entry, fm: Format)
    requires Terminated(text) && ActsLikeJson(fm.parse, fm.dump) && !e.Raw?
    ensures ReadText(text + LineOf(e, fm), fm.parse) == ReadText(text, fm.parse) + [e]
  {
    hide ReadText, ActsLikeJson, Terminated, LineOf;
    ReadOwnLine(e, fm);
    ReadBelow(text, LineOf(e, fm), fm.parse);
  }

  lemma {:induction false} WrittenIsTerminated(es: seq<Entry>, fm: Format)
    ensures Terminated(WriteText(es, fm.dump))
  {
    if es != [] {
      WrittenIsTerminated(es[1..], fm);
    }
  }

  lemma {:induction false} RetainedPreserved(es: seq<Entry>, p: Pass, s: Startup, parse: Parser)
    requires AllPreserved(es, parse) && AllPreserved(p.retained, parse)
    ensures AllPreserved(ReplayEntries(es, p, s).retained, parse)
  {
    hide OneLine, TrajectorySteps.Blank, Replayable;
    if es != [] {
      RetainedPreserved(es[..|es| - 1], p, s, parse);
      assert es[|es| - 1] in es;
    }
  }

  lemma StoredFileReadsBack(text: Option<string>, retained: seq<Entry>, fm: Format)
    requires ActsLikeJson(fm.parse, fm.dump)
    ensures var file := Rewritten(LoadFile(text, fm), retained);
            LoadFile(Stored(text, file, fm), fm) == file <==>
            file == LoadFile(text, fm) || retained == [] || AllPreserved(retained, fm.parse)
    ensures SoundFile(text, fm) && AllPreserved(retained, fm.parse) ==>
              SoundFile(Stored(text, Rewritten(LoadFile(text, fm), retained), fm), fm)
  {
    hide ReadText, WriteText, AllPreserved, ActsLikeJson;
    FileRewritePreserves(retained, fm.parse, fm.dump);
    WrittenIsTerminated(retained, fm);
  }

  lemma RestartFollows(d: Disk, s: Startup, fm: Format)
    requires ActsLikeJson(fm.parse, fm.dump) && Sound(d, fm)
    ensures var d' := NextDisk(d, Restart(s), fm);
            Load(d', fm) == ReplayFiles(Load(d, fm), s).0 && Sound(d', fm)
  {
    hide ReadText, WriteText, ReplayEntries, Preserved, ActsLikeJson, Stored;
    var f := Load(d, fm);
    var first := ReplayEntries(f.backup.GetOr([]), FRESH, s);
    var second := ReplayEntries(f.current.GetOr([]), first.(retained := []), s);
    RetainedPreserved(f.backup.GetOr([]), FRESH, s, fm.parse);
    RetainedPreserved(f.current.GetOr([]), first.(retained := []), s, fm.parse);
    StoredFileReadsBack(d.backup, first.retained, fm);
    StoredFileReadsBack(d.current, second.retained, fm);
  }

  lemma DropFollows(d: Disk, record: Record, fm: Format)
    requires ActsLikeJson(fm.parse, fm.dump) && Sound(d, fm)
    ensures var d' := NextDisk(d, Drop(record), fm);
            Load(d', fm) == Next(Load(d, fm), AsEvent(d, Drop(record), fm)) && Sound(d', fm)
  {
    var e := Dropped(record);
    hide ReadText, ActsLikeJson;
    ReadAppended("", e, fm);
    EmptyText(fm.parse);
    assert "" + LineOf(e, fm) == LineOf(e, fm) && [] + [e] == [e];
    if d.current.Some? {
      ReadAppended(d.current.value, e, fm);
    }
  }

  lemma {:induction false} DiskFollowsEntries(d: Disk, hs: seq<Happening>, fm: Format)
    requires ActsLikeJson(fm.parse, fm.dump) && Sound(d, fm)
    ensures Load(DiskAfter(d, hs, fm), fm) == FilesAfter(Load(d, fm), AsEvents(d, hs, fm)) && Sound(DiskAfter(d, hs, fm), fm)
  {
    hide ActsLikeJson, Sound, Load, NextDisk, AsEvents;
    if hs != [] {
      var init, last := hs[..|hs| - 1], hs[|hs| - 1];
      DiskFollowsEntries(d, init, fm);
      EventsOneMore(d, hs, fm);
      match last
      case Drop(record) => DropFollows(DiskAfter(d, init, fm), record, fm);
      case Restart(s) => RestartFollows(DiskAfter(d, init, fm), s, fm);
    }
  }

  /** Over any sequence of drops and restarts, from files that a rewrite preserves: the files are read as
      what ever came, in the order in which it came, less what was delivered and what a rotation of a full
      file dropped, the oldest first; and every record is accounted for. The empty disk has such files,
      so this holds of everything the program itself ever writes. */
  lemma EveryRecordOnDiskAccountedFor(d: Disk, hs: seq<Happening>, retryable: set<int>, fm: Format)
    requires ActsLikeJson(fm.parse, fm.dump) && Sound(d, fm)
    requires forall h :: h in hs && h.Restart? ==> Honest(h.s) && h.s.retryable == retryable
    ensures var events := AsEvents(d, hs, fm);
            var slots := LedgerAfter(Start(Load(d, fm)), events).slots;
            && Content(Load(DiskAfter(d, hs, fm), fm)) == Present(slots)
            && AllAccountedFor(AllEntries(Load(d, fm), events), slots, retryable)
            && OldestFirst(slots)
            && ((exists x :: x in slots && x.rotatedOut) ==>
                  exists i :: 0 <= i < |hs| && hs[i].Drop? && IsFull(DiskAfter(d, hs[..i], fm), fm))
    ensures Sound(EMPTY_DISK, fm)
  {
    hide ActsLikeJson, Load, LedgerAfter, AllAccountedFor, OldestFirst, Present, Honest, DiskAfter, FilesAfter;
    var events := AsEvents(d, hs, fm);
    DiskFollowsEntries(d, hs, fm);
    assert HonestEvents(events, retryable) by {
      forall v | v in events && v.Started?
        ensures Honest(v.s) && v.s.retryable == retryable
      {
        var i :| 0 <= i < |hs| && events[i] == v;
        assert hs[i] in hs;
      }
    }
    EveryRecordAccountedFor(Load(d, fm), events, retryable);
    if v :| v in events && v.Appended? && v.rotates {
      var i :| 0 <= i < |hs| && events[i] == v;
      assert hs[i].Drop? && IsFull(DiskAfter(d, hs[..i], fm), fm);
    }
  }

  // ----- the newest drops are kept -----

  function Drops(history: seq<Record>): (hs: seq<Happening>)
    ensures |hs| == |history| && forall i :: 0 <= i < |hs| ==> hs[i] == Drop(history[i])
  {
    seq(|history|, i requires 0 <= i < |history| => Drop(history[i]))
  }

  function Entries(history: seq<Record>): (es: seq<Entry>)
    ensures |es| == |history| && forall i :: 0 <= i < |es| ==> es[i] == Dropped(history[i])
  {
    seq(|history|, i requires 0 <= i < |history| => Dropped(history[i]))
  }

  ghost predicate Additive(size: string -> nat) { forall s, t :: size(s + t) == size(s) + size(t) }

  function LineSize(fm: Format): Entry -> nat { (e: Entry) => fm.size(LineOf(e, fm)) }

  function TextOf(file: File, fm: Format): Option<string> {
    match file
    case None => None
    case Some(es) => Some(WriteText(es, fm.dump))
  }

  lemma {:induction false} WriteAppend(es: seq<Entry>, more: seq<Entry>, dump: Printer)
    ensures WriteText(es + more, dump) == WriteText(es, dump) + WriteText(more, dump)
  {
    if es == [] {
      assert es + more == more;
    } else {
      assert (es + more)[1..] == es[1..] + more;
      WriteAppend(es[1..], more, dump);
    }
  }

  lemma WriteOne(e: Entry, fm: Format)
    ensures WriteText([e], fm.dump) == LineOf(e, fm)
  {
    assert [e][1..] == [] && LineOf(e, fm) + "" == LineOf(e, fm);
  }

  lemma {:induction false} SizeOfText(es: seq<Entry>, fm: Format)
    requires Additive(fm.size)
    ensures fm.size(WriteText(es, fm.dump)) == Bytes(es, LineSize(fm))
  {
    if es == [] {
      assert "" + "" == "";
      assert fm.size("") == fm.size("") + fm.size("");
    } else {
      var init, last := es[..|es| - 1], es[|es| - 1];
      assert es == init + [last];
      hide WriteText, LineOf;
      SizeOfText(init, fm);
      WriteAppend(init, [last], fm.dump);
      WriteOne(last, fm);
    }
  }

  lemma {:induction false} DropsWriteEntries(history: seq<Record>, fm: Format)
    requires Additive(fm.size)
    ensures var f := AppendAll(Entries(history), fm.cap, LineSize(fm));
            DiskAfter(EMPTY_DISK, Drops(history), fm) == Disk(TextOf(f.backup, fm), TextOf(f.current, fm))
  {
    if history != [] {
      var n := |history| - 1;
      var init, e := history[..n], Dropped(history[n]);
      DropsWriteEntries(init, fm);
      assert Drops(history)[..n] == Drops(init) && Entries(history)[..n] == Entries(init);
      var f := AppendAll(Entries(init), fm.cap, LineSize(fm));
      hide AppendAll, WriteText, Drops, Entries, LineOf, LineSize, Additive;
      WriteOne(e, fm);
      assert "" + LineOf(e, fm) == LineOf(e, fm) && [] + [e] == [e];
      if f.current.Some? {
        SizeOfText(f.current.value, fm);
        WriteAppend(f.current.value, [e], fm.dump);
      }
    }
  }

  /** The newest drops are kept: with drops alone, the text of the files is that of a suffix of the drops,
      each file stays below the cap plus one line, and once anything has been lost at least the cap's
      worth is held. */
  lemma NewestTextIsKept(history: seq<Record>, longest: nat, fm: Format) returns (lost: nat)
    requires Additive(fm.size) && fm.cap > 0
    requires forall r :: r in history ==> fm.size(LineOf(Dropped(r), fm)) <= longest
    ensures var d := DiskAfter(EMPTY_DISK, Drops(history), fm);
            && lost <= |history|
            && d.backup.GetOr("") + d.current.GetOr("") == WriteText(Entries(history)[lost..], fm.dump)
            && (d.backup.Some? ==> fm.cap <= fm.size(d.backup.value) < fm.cap + longest)
            && (d.current.Some? ==> fm.size(d.current.value) < fm.cap + longest)
            && (lost > 0 ==> d.backup.Some?)
  {
    var es := Entries(history);
    var f := AppendAll(es, fm.cap, LineSize(fm));
    assert forall e :: e in es ==> e.record in history && LineSize(fm)(e) <= longest;
    lost := NewestAreKept(es, fm.cap, LineSize(fm), longest);
    DropsWriteEntries(history, fm);
    hide AppendAll, Entries, LineSize, LineOf, DiskAfter, Additive;
    WriteAppend(f.backup.GetOr([]), f.current.GetOr([]), fm.dump);
    assert WriteText([], fm.dump) == "";
    if f.backup.Some? { SizeOfText(f.backup.value, fm); }
    if f.current.Some? { SizeOfText(f.current.value, fm); }
  }

  // ----- exactly when restarts keep the account -----

  /** Nothing in the file can be replayed, so that it is never rewritten, or a rewrite preserves all of it. */
  predicate SafeFile(file: File, retryable: set<int>, parse: Parser) {
    (forall e :: e in file.GetOr([]) ==> !Replayable(e, retryable)) || AllPreserved(file.GetOr([]), parse)
  }

  predicate Safe(d: Disk, retryable: set<int>, fm: Format) {
    SafeFile(LoadFile(d.backup, fm), retryable, fm.parse) && SafeFile(LoadFile(d.current, fm), retryable, fm.parse)
  }

  function Restarts(runs: seq<Startup>): (hs: seq<Happening>)
    ensures |hs| == |runs| && forall i :: 0 <= i < |hs| ==> hs[i] == Restart(runs[i])
  {
    seq(|runs|, i requires 0 <= i < |runs| => Restart(runs[i]))
  }

  ghost predicate HonestRuns(runs: seq<Startup>, retryable: set<int>) {
    forall s :: s in runs ==> Honest(s) && s.retryable == retryable
  }

  /** After these startups the files are read as what the entries say they hold. */
  ghost predicate ReadAsAccounted(d: Disk, runs: seq<Startup>, fm: Format) {
    var hs := Restarts(runs);
    Content(Load(DiskAfter(d, hs, fm), fm)) == Content(FilesAfter(Load(d, fm), AsEvents(d, hs, fm)))
  }

  lemma SafeFileStaysSafe(text: Option<string>, p: Pass, s: Startup, fm: Format)
    requires ActsLikeJson(fm.parse, fm.dump) && p.retained == []
    requires SafeFile(LoadFile(text, fm), s.retryable, fm.parse)
    ensures var file := Rewritten(LoadFile(text, fm), ReplayEntries(LoadFile(text, fm).GetOr([]), p, s).retained);
            LoadFile(Stored(text, file, fm), fm) == file && SafeFile(file, s.retryable, fm.parse)
  {
    hide ReadText, WriteText, ReplayEntries, Preserved, ActsLikeJson, Replayable, Stored;
    var es := LoadFile(text, fm).GetOr([]);
    var retained := ReplayEntries(es, p, s).retained;
    StoredFileReadsBack(text, retained, fm);
    if AllPreserved(es, fm.parse) {
      RetainedPreserved(es, p, s, fm.parse);
    } else {
      NothingReplayable(es, p, s);
      assert [] + es == es;
    }
  }

  lemma SafeRestartFollows(d: Disk, s: Startup, fm: Format)
    requires ActsLikeJson(fm.parse, fm.dump) && Safe(d, s.retryable, fm)
    ensures var d' := NextDisk(d, Restart(s), fm);
            Load(d', fm) == ReplayFiles(Load(d, fm), s).0 && Safe(d', s.retryable, fm)
  {
    hide LoadFile, SafeFile, ReplayEntries, ActsLikeJson, Stored;
    SafeFileStaysSafe(d.backup, FRESH, s, fm);
    SafeFileStaysSafe(d.current, ReplayEntries(LoadFile(d.backup, fm).GetOr([]), FRESH, s).(retained := []), s, fm);
  }

  lemma {:induction false} SafeRunsFollow(d: Disk, runs: seq<Startup>, retryable: set<int>, fm: Format)
    requires ActsLikeJson(fm.parse, fm.dump) && Safe(d, retryable, fm) && HonestRuns(runs, retryable)
    ensures var hs := Restarts(runs);
            && Load(DiskAfter(d, hs, fm), fm) == FilesAfter(Load(d, fm), AsEvents(d, hs, fm))
            && Safe(DiskAfter(d, hs, fm), retryable, fm)
  {
    hide ActsLikeJson, Safe, Load, NextDisk, AsEvents, Honest;
    if runs != [] {
      var init, s := runs[..|runs| - 1], runs[|runs| - 1];
      var hs := Restarts(runs);
      assert hs[..|hs| - 1] == Restarts(init) && s in runs;
      SafeRunsFollow(d, init, retryable, fm);
      EventsOneMore(d, hs, fm);
      SafeRestartFollows(DiskAfter(d, Restarts(init), fm), s, fm);
    }
  }

  /** A startup in which the server takes everything. */
  function DeliverAll(retryable: set<int>): Startup {
    Startup(_ => RepostResult(true, false, None), _ => false, _ => true, None, retryable)
  }

  lemma {:induction false} RestIsRetained(es: seq<Entry>, p: Pass, retryable: set<int>)
    requires !p.stop
    ensures var q := ReplayEntries(es, p, DeliverAll(retryable));
            && !q.stop
            && forall e :: e in q.retained <==> e in p.retained || (e in es && !Replayable(e, retryable))
  {
    hide Replayable;
    if es != [] {
      RestIsRetained(es[..|es| - 1], p, retryable);
      assert es == es[..|es| - 1] + [es[|es| - 1]];
    }
  }

  lemma StoredWeight(text: Option<string>, retained: seq<Entry>, fm: Format)
    requires ActsLikeJson(fm.parse, fm.dump)
    ensures var file := Rewritten(LoadFile(text, fm), retained);
            var read := LoadFile(Stored(text, file, fm), fm);
            && Weight(read.GetOr([])) <= Weight(file.GetOr([]))
            && (text.Some? && retained != ReadText(text.value, fm.parse) && !AllPreserved(retained, fm.parse) ==>
                  Weight(read.GetOr([])) < Weight(file.GetOr([])))
  {
    hide ReadText, WriteText, Preserved, ActsLikeJson, Weight;
    RewriteWeight(retained, fm.parse, fm.dump);
  }

  /** After the server has taken everything, an unsafe file is read as less text than it should be. */
  lemma UnsafeFileLosesText(text: Option<string>, p: Pass, retryable: set<int>, fm: Format)
    requires ActsLikeJson(fm.parse, fm.dump) && p.retained == [] && !p.stop
    ensures var es := LoadFile(text, fm).GetOr([]);
            var file := Rewritten(LoadFile(text, fm), ReplayEntries(es, p, DeliverAll(retryable)).retained);
            var read := LoadFile(Stored(text, file, fm), fm);
            && Weight(read.GetOr([])) <= Weight(file.GetOr([]))
            && (!SafeFile(LoadFile(text, fm), retryable, fm.parse) ==> Weight(read.GetOr([])) < Weight(file.GetOr([])))
  {
    hide ReadText, WriteText, ReplayEntries, ActsLikeJson, Weight, Stored, OneLine;
    var es := LoadFile(text, fm).GetOr([]);
    var retained := ReplayEntries(es, p, DeliverAll(retryable)).retained;
    RestIsRetained(es, p, retryable);
    StoredWeight(text, retained, fm);
    if !SafeFile(LoadFile(text, fm), retryable, fm.parse) {
      var replayable :| replayable in es && Replayable(replayable, retryable);
      assert replayable !in retained;
      var lost :| lost in es && !Preserved(lost, fm.parse);
      assert lost in retained;
    }
  }

  lemma UnsafeContentDiffers(d: Disk, retryable: set<int>, fm: Format)
    requires ActsLikeJson(fm.parse, fm.dump)
    ensures var s := DeliverAll(retryable);
            !Safe(d, retryable, fm) ==>
              Content(Load(NextDisk(d, Restart(s), fm), fm)) != Content(ReplayFiles(Load(d, fm), s).0)
  {
    hide ReplayEntries, ActsLikeJson, Weight, SafeFile, LoadFile, Stored, Rewritten;
    var s, f := DeliverAll(retryable), Load(d, fm);
    var first := ReplayEntries(f.backup.GetOr([]), FRESH, s);
    RestIsRetained(f.backup.GetOr([]), FRESH, retryable);
    UnsafeFileLosesText(d.backup, FRESH, retryable, fm);
    UnsafeFileLosesText(d.current, first.(retained := []), retryable, fm);
    var read, should := Load(NextDisk(d, Restart(s), fm), fm), ReplayFiles(f, s).0;
    WeightAppend(read.backup.GetOr([]), read.current.GetOr([]));
    WeightAppend(should.backup.GetOr([]), should.current.GetOr([]));
  }

  /** Whatever the startups, the files are read as the account says exactly if each of them has nothing to
      replay at the start, or only entries that a rewrite preserves. */
  lemma ReadAsAccountedExactlyWhenSafe(d: Disk, retryable: set<int>, fm: Format)
    requires ActsLikeJson(fm.parse, fm.dump)
    ensures (forall runs :: HonestRuns(runs, retryable) ==> ReadAsAccounted(d, runs, fm)) <==> Safe(d, retryable, fm)
  {
    hide ActsLikeJson, Safe, Load, NextDisk, ReplayFiles, DiskAfter, FilesAfter, AsEvents, Content;
    if Safe(d, retryable, fm) {
      forall runs | HonestRuns(runs, retryable)
        ensures ReadAsAccounted(d, runs, fm)
      {
        SafeRunsFollow(d, runs, retryable, fm);
      }
    } else {
      var s := DeliverAll(retryable);
      UnsafeContentDiffers(d, retryable, fm);
      OneRestart(d, s, fm);
      assert HonestRuns([s], retryable) && !ReadAsAccounted(d, [s], fm);
    }
  }

  lemma OneRestart(d: Disk, s: Startup, fm: Format)
    ensures DiskAfter(d, Restarts([s]), fm) == NextDisk(d, Restart(s), fm)
    ensures FilesAfter(Load(d, fm), AsEvents(d, Restarts([s]), fm)) == ReplayFiles(Load(d, fm), s).0
  {
    hide NextDisk, ReplayFiles, Load;
    var hs := Restarts([s]);
    assert hs[..|hs| - 1] == [] && hs[..0] == [];
    var events := AsEvents(d, hs, fm);
    assert events[..|events| - 1] == [] && events[0] == Started(s);
  }

  /** A single record behind texts is delivered. */
  lemma OneDelivered(texts: seq<Entry>, e: Entry, retryable: set<int>)
    requires (forall t :: t in texts ==> t.Raw?) && Replayable(e, retryable)
    ensures ReplayFiles(Files(None, Some(texts + [e])), DeliverAll(retryable)) ==
            (Files(None, Saved(texts)), Pass(texts, 1, 1, 0, false))
  {
    var s, es := DeliverAll(retryable), texts + [e];
    assert forall t :: t in texts ==> !Replayable(t, retryable);
    NothingReplayable(texts, FRESH, s);
    assert es[..|texts|] == texts && [] + texts == texts && |es| == |texts| + 1;
    assert ReplayEntries([], FRESH, s) == FRESH;
    assert ReplayEntries(es, FRESH, s) == ReplayEntry(e, FRESH.(retained := texts), s);
    hide Replayable, ReplayEntries;
    assert FRESH.(retained := []) == FRESH;
  }

  /** A current file that holds nothing else but texts is rewritten as these texts. */
  lemma TextsAreLeft(file: string, texts: seq<Entry>, e: Entry, retryable: set<int>, fm: Format)
    requires ReadText(file, fm.parse) == texts + [e]
    requires (forall t :: t in texts ==> t.Raw?) && Replayable(e, retryable)
    ensures NextDisk(Disk(None, Some(file)), Restart(DeliverAll(retryable)), fm) ==
            Disk(None, if texts == [] then None else Some(WriteText(texts, fm.dump)))
  {
    hide ReadText, WriteText, Replayable, ReplayFiles;
    OneDelivered(texts, e, retryable);
    assert |texts + [e]| != |texts|;
  }

  lemma QuotingFile(line: string, text: string, e: Entry, fm: Format)
    requires ActsLikeJson(fm.parse, fm.dump) && !e.Raw?
    requires OneLine(line) && !TrajectorySteps.Blank(line) && fm.parse(line) == Text(text)
    ensures ReadText(line + "\n" + LineOf(e, fm), fm.parse) == [Raw(text)] + [e]
  {
    ReadOneLine(line, fm.parse);
    hide ReadText, OneLine, ActsLikeJson, TrajectorySteps.Blank;
    ReadOwnLine(e, fm);
    ReadInTurn(line, LineOf(e, fm), fm.parse);
  }

  lemma OneLineWritten(text: string, fm: Format)
    ensures WriteText([Raw(text)], fm.dump) == text + "\n"
  {
    assert [Raw(text)][1..] == [] && text + "\n" + "" == text + "\n";
  }

  function QuotingDisk(line: string, other: Record, fm: Format): Disk {
    Disk(None, Some(line + "\n" + LineOf(Dropped(other), fm)))
  }

  lemma QuotesAreLost(line: string, quoted: Record, other: Record, retryable: set<int>, fm: Format)
    requires ActsLikeJson(fm.parse, fm.dump)
    requires OneLine(line) && !TrajectorySteps.Blank(line) && fm.parse(line) == Text(fm.dump(Dropped(quoted)))
    requires Replayable(Dropped(other), retryable)
    ensures var d := QuotingDisk(line, other, fm);
            && Load(d, fm) == Files(None, Some([Raw(fm.dump(Dropped(quoted))), Dropped(other)]))
            && NextDisk(d, Restart(DeliverAll(retryable)), fm) == Disk(None, Some(LineOf(Dropped(quoted), fm)))
  {
    var text := fm.dump(Dropped(quoted));
    QuotingFile(line, text, Dropped(other), fm);
    OneLineWritten(text, fm);
    hide ReadText, WriteText, ActsLikeJson, TrajectorySteps.Blank, OneLine, Replayable, NextDisk, DeliverAll;
    assert [Raw(text)] + [Dropped(other)] == [Raw(text), Dropped(other)];
    TextsAreLeft(line + "\n" + LineOf(Dropped(other), fm), [Raw(text)], Dropped(other), retryable, fm);
  }

  lemma LoneRecordIsPosted(e: Entry, retryable: set<int>, fm: Format)
    requires ActsLikeJson(fm.parse, fm.dump) && Replayable(e, retryable)
    ensures var d := Disk(None, Some(LineOf(e, fm)));
            && Load(d, fm) == Files(None, Some([e]))
            && ReplayFiles(Load(d, fm), DeliverAll(retryable)).1.attempted == 1
            && NextDisk(d, Restart(DeliverAll(retryable)), fm) == EMPTY_DISK
  {
    ReadOwnLine(e, fm);
    hide ReadText, WriteText, ActsLikeJson, Replayable, NextDisk, ReplayFiles, LineOf, DeliverAll;
    assert [] + [e] == [e];
    TextsAreLeft(LineOf(e, fm), [], e, retryable, fm);
    OneDelivered([], e, retryable);
  }

  /** A line that quotes a record: it is kept as a text, written back without its quotes once another
      record of the file is delivered, and posted as that record at the startup after. */
  lemma QuotedRecordIsPosted(line: string, quoted: Record, other: Record, retryable: set<int>, fm: Format)
    requires ActsLikeJson(fm.parse, fm.dump)
    requires OneLine(line) && !TrajectorySteps.Blank(line) && fm.parse(line) == Text(fm.dump(Dropped(quoted)))
    requires Replayable(Dropped(quoted), retryable) && Replayable(Dropped(other), retryable)
    ensures var s := DeliverAll(retryable);
            var d := QuotingDisk(line, other, fm);
            var d' := NextDisk(d, Restart(s), fm);
            && Content(Load(d, fm)) == [Raw(fm.dump(Dropped(quoted))), Dropped(other)]
            && Content(Load(d', fm)) == [Dropped(quoted)]
            && ReplayFiles(Load(d', fm), s).1.attempted == 1
            && NextDisk(d', Restart(s), fm) == EMPTY_DISK
  {
    hide ActsLikeJson, TrajectorySteps.Blank, OneLine, Replayable, NextDisk, ReplayFiles, LineOf, DeliverAll, Load, QuotingDisk;
    QuotesAreLost(line, quoted, other, retryable, fm);
    LoneRecordIsPosted(Dropped(quoted), retryable, fm);
    assert [] + [Dropped(quoted)] == [Dropped(quoted)];
  }
}
