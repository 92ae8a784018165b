/** The live side of the reader: cumulative partial text and reasoning of generating planner steps,
    diffed into deltas, for many steps interleaved on one stream. */
module LiveDeltas {
  import opened Common
  import opened TrajectorySteps

  datatype Delta =
    | TextDelta(stepIndex: int, suffix: string)
    | ReasoningDelta(stepIndex: int, suffix: string, started: bool)

  /** What has been forwarded for each step index, and the deltas posted so far. */
  datatype Trackers = Trackers(prefixes: map<int, string>, reasoningPrefixes: map<int, string>, deltas: seq<Delta>)

  function PartialText(step: Step): Option<string> {
    if step.planner.Some? then step.planner.value.modified else None
  }

  function PartialThinking(step: Step): Option<string> {
    if step.planner.Some? then step.planner.value.thinking else None
  }

  function Forwarded(prefixes: map<int, string>, idx: int): string {
    if idx in prefixes then prefixes[idx] else ""
  }

  predicate Grows(from: string, to: string) { |from| < |to| && from <= to }

  function Suffix(from: string, to: string): string
    requires from <= to
  {
    to[|from|..]
  }

  /** The delta a generating step's partial text calls for, if it has grown. */
  function NewText(step: Step, t: Trackers): seq<Delta> {
    match (step.stepIndex, PartialText(step))
    case (Some(idx), Some(text)) =>
      var before := Forwarded(t.prefixes, idx);
      if Grows(before, text) then [TextDelta(idx, Suffix(before, text))] else []
    case _ => []
  }

  function NewReasoning(step: Step, t: Trackers): seq<Delta> {
    match (step.stepIndex, PartialThinking(step))
    case (Some(idx), Some(text)) =>
      var before := Forwarded(t.reasoningPrefixes, idx);
      if Grows(before, text) then [ReasoningDelta(idx, Suffix(before, text), idx !in t.reasoningPrefixes)] else []
    case _ => []
  }

  function Anchor(prefixes: map<int, string>, idx: Option<int>, text: Option<string>): map<int, string> {
    if idx.Some? && text.Some? then prefixes[idx.value := text.value] else prefixes
  }

  function EmitPartialDelta(step: Step, t: Trackers): Trackers {
    t.(prefixes := Anchor(t.prefixes, step.stepIndex, PartialText(step)), deltas := t.deltas + NewText(step, t))
  }

  function EmitPartialReasoningDelta(step: Step, t: Trackers): Trackers {
    t.(reasoningPrefixes := Anchor(t.reasoningPrefixes, step.stepIndex, PartialThinking(step)),
       deltas := t.deltas + NewReasoning(step, t))
  }

  function Forget(step: Step, t: Trackers): Trackers {
    match step.stepIndex
    case None => t
    case Some(idx) => t.(prefixes := t.prefixes - {idx}, reasoningPrefixes := t.reasoningPrefixes - {idx})
  }

  /** One step of a stream frame: partial reasoning before partial text, and any other status of the
      step drops what was tracked for its index. */
  function StreamStep(step: Step, t: Trackers): Trackers {
    if IsGeneratingPlanner(step) then EmitPartialDelta(step, EmitPartialReasoningDelta(step, t))
    else Forget(step, t)
  }

  function Stream(steps: seq<Step>): Trackers {
    if steps == [] then Trackers(map[], map[], [])
    else StreamStep(steps[|steps| - 1], Stream(steps[..|steps| - 1]))
  }

  // ----- one step's text by itself -----

  datatype Piece = Piece(suffix: string, started: bool)

  /** The pieces a list of cumulative texts is cut into. */
  function Pieces(texts: seq<string>): seq<Piece> {
    if texts == [] then []
    else
      var n := |texts| - 1;
      var before := LastText(texts[..n]);
      Pieces(texts[..n]) + if Grows(before, texts[n]) then [Piece(Suffix(before, texts[n]), n == 0)] else []
  }

  function LastText(texts: seq<string>): string { if texts == [] then "" else texts[|texts| - 1] }

  function Joined(pieces: seq<Piece>): string {
    if pieces == [] then "" else Joined(pieces[..|pieces| - 1]) + pieces[|pieces| - 1].suffix
  }

  /** Each text extends the one before it. */
  ghost predicate Growing(texts: seq<string>) {
    forall i :: 0 < i < |texts| ==> texts[i - 1] <= texts[i]
  }

  /** At every moment the pieces posted so far join up to the text so far. */
  ghost predicate AlwaysInSync(texts: seq<string>) {
    forall k :: 0 <= k <= |texts| ==> Joined(Pieces(texts[..k])) == LastText(texts[..k])
  }

  lemma JoinedOneMore(pieces: seq<Piece>, p: Piece)
    ensures Joined(pieces + [p]) == Joined(pieces) + p.suffix
  {
    assert (pieces + [p])[..|pieces|] == pieces;
  }

  lemma OneMoreText(texts: seq<string>)
    requires texts != []
    ensures var n := |texts| - 1;
            var before := LastText(texts[..n]);
            Joined(Pieces(texts)) ==
            Joined(Pieces(texts[..n])) + if Grows(before, texts[n]) then Suffix(before, texts[n]) else ""
  {
    hide Joined, LastText;
    var n := |texts| - 1;
    var before := LastText(texts[..n]);
    if Grows(before, texts[n]) {
      JoinedOneMore(Pieces(texts[..n]), Piece(Suffix(before, texts[n]), n == 0));
    } else {
      assert Pieces(texts) == Pieces(texts[..n]);
    }
  }

  lemma GrowsOrStays(from: string, to: string)
    requires from <= to
    ensures from + (if Grows(from, to) then Suffix(from, to) else "") == to
  {
    assert |from| == |to| ==> from == to;
  }

  lemma {:induction false} GrowingStaysInSync(texts: seq<string>)
    requires Growing(texts)
    ensures Joined(Pieces(texts)) == LastText(texts)
  {
    if texts != [] {
      var n := |texts| - 1;
      GrowingStaysInSync(texts[..n]);
      OneMoreText(texts);
      GrowsOrStays(LastText(texts[..n]), texts[n]);
    }
  }

  /** The pieces always join up to the text exactly when no text is a rewrite of the one before it:
      after a rewrite that does not extend what was forwarded they no longer do. */
  lemma InSyncExactlyWhenGrowing(texts: seq<string>)
    ensures AlwaysInSync(texts) <==> Growing(texts)
  {
    if Growing(texts) {
      forall k | 0 <= k <= |texts|
        ensures Joined(Pieces(texts[..k])) == LastText(texts[..k])
      {
        GrowingStaysInSync(texts[..k]);
      }
    }
    if AlwaysInSync(texts) {
      forall i | 0 < i < |texts|
        ensures texts[i - 1] <= texts[i]
      {
        assert texts[..i + 1][..i] == texts[..i];
        OneMoreText(texts[..i + 1]);
        assert Joined(Pieces(texts[..i])) == texts[i - 1];
        assert Joined(Pieces(texts[..i + 1])) == texts[i];
      }
    }
  }

  /** A rewrite that shrinks the text and grows it back posts the regrown part twice. */
  lemma ShrinkingRewriteRepeats()
    ensures Joined(Pieces(["abc", "ab", "abc"])) == "abcc"
  {
    var first, second := ["abc"], ["abc", "ab"];
    var texts := second + ["abc"];
    assert Joined(Pieces([])) == "";
    assert first[..0] == [];
    OneMoreText(first);
    assert second[..1] == first;
    OneMoreText(second);
    assert texts[..2] == second;
    OneMoreText(texts);
    assert texts == ["abc", "ab", "abc"];
  }

  /** At most one piece is marked as the start, it is the first one posted, and it is marked exactly
      when the first text is not empty. */
  lemma {:induction false} StartMarkedOnce(texts: seq<string>)
    ensures var ps := Pieces(texts);
            && (forall k :: 0 < k < |ps| ==> !ps[k].started)
            && (ps != [] ==> (ps[0].started <==> texts[0] != ""))
            && (texts != [] && texts[0] != "" ==> ps != [])
  {
    if texts != [] {
      StartMarkedOnce(texts[..|texts| - 1]);
    }
  }

  /** An empty first text uses the mark up: the first piece posted then carries none. */
  lemma EmptyFirstTextLosesTheMark(text: string)
    requires text != ""
    ensures Pieces(["", text]) == [Piece(text, false)]
  {
    var texts := ["", text];
    assert texts[..1] == [""] && [""][..0] == [];
    assert Pieces([""]) == [] && Suffix("", text) == text;
  }

  // ----- interleaved streams -----

  /** The step is a planner's, still generating. */
  predicate StillGrowing(step: Step) { step.kind == PlannerResponse && step.status == Generating }

  predicate Restarts(step: Step, idx: int) { !StillGrowing(step) && step.stepIndex == Some(idx) }

  /** The cumulative texts sighted for `idx` since its step was last sighted in another status. */
  function TextsOf(idx: int, steps: seq<Step>, reasoning: bool): seq<string> {
    if steps == [] then []
    else
      var last, before := steps[|steps| - 1], TextsOf(idx, steps[..|steps| - 1], reasoning);
      if Restarts(last, idx) then []
      else if !StillGrowing(last) || last.stepIndex != Some(idx) || last.planner.None? then before
      else
        match (if reasoning then last.planner.value.thinking else last.planner.value.modified)
        case Some(text) => before + [text]
        case None => before
  }

  /** How many deltas were posted when `idx`'s step was last sighted in another status. */
  function Mark(idx: int, steps: seq<Step>): (m: nat)
    ensures m <= |Stream(steps).deltas|
  {
    if steps == [] then 0
    else if Restarts(steps[|steps| - 1], idx) then |Stream(steps).deltas|
    else Mark(idx, steps[..|steps| - 1])
  }

  /** The pieces of one kind posted for `idx` among `deltas`. Text pieces carry no start mark. */
  function PiecesFor(idx: int, deltas: seq<Delta>, reasoning: bool): seq<Piece> {
    if deltas == [] then []
    else PiecesFor(idx, deltas[..|deltas| - 1], reasoning) + PieceOf(idx, deltas[|deltas| - 1], reasoning)
  }

  function PieceOf(idx: int, d: Delta, reasoning: bool): seq<Piece> {
    match d
    case TextDelta(i, s) => if i == idx && !reasoning then [Piece(s, false)] else []
    case ReasoningDelta(i, s, started) => if i == idx && reasoning then [Piece(s, started)] else []
  }

  function Unmarked(pieces: seq<Piece>): seq<Piece> {
    if pieces == [] then []
    else Unmarked(pieces[..|pieces| - 1]) + [Piece(pieces[|pieces| - 1].suffix, false)]
  }

  lemma {:induction false} PiecesForAppend(idx: int, deltas: seq<Delta>, more: seq<Delta>, reasoning: bool)
    ensures PiecesFor(idx, deltas + more, reasoning) == PiecesFor(idx, deltas, reasoning) + PiecesFor(idx, more, reasoning)
  {
    hide PieceOf;
    if more == [] {
      assert deltas + more == deltas;
    } else {
      PiecesForAppend(idx, deltas, more[..|more| - 1], reasoning);
      assert (deltas + more)[..|deltas + more| - 1] == deltas + more[..|more| - 1];
    }
  }

  lemma PiecesForOne(idx: int, d: Delta, reasoning: bool)
    ensures PiecesFor(idx, [d], reasoning) == PieceOf(idx, d, reasoning)
  {
    assert [d][..0] == [];
  }

  /** The tracker of each index holds the latest text sighted for it since it last restarted. */
  lemma {:induction false} TrackersHoldLatest(idx: int, steps: seq<Step>)
    ensures var t := Stream(steps);
            && Forwarded(t.prefixes, idx) == LastText(TextsOf(idx, steps, false))
            && Forwarded(t.reasoningPrefixes, idx) == LastText(TextsOf(idx, steps, true))
            && (idx in t.reasoningPrefixes <==> TextsOf(idx, steps, true) != [])
  {
    if steps != [] {
      TrackersHoldLatest(idx, steps[..|steps| - 1]);
    }
  }

  lemma PiecesOneMore(texts: seq<string>, text: string)
    ensures var before := LastText(texts);
            Pieces(texts + [text]) ==
            Pieces(texts) + if Grows(before, text) then [Piece(Suffix(before, text), texts == [])] else []
  {
    assert (texts + [text])[..|texts|] == texts;
  }

  lemma DeltasOfFrame(step: Step, t: Trackers)
    ensures StreamStep(step, t).deltas ==
            if IsGeneratingPlanner(step) then t.deltas + NewReasoning(step, t) + NewText(step, t) else t.deltas
  {
  }

  lemma NewReasoningPieces(idx: int, steps: seq<Step>)
    requires steps != [] && !Restarts(steps[|steps| - 1], idx)
    ensures var last, init := steps[|steps| - 1], steps[..|steps| - 1];
            Pieces(TextsOf(idx, steps, true)) ==
            Pieces(TextsOf(idx, init, true)) +
            if IsGeneratingPlanner(last) then PiecesFor(idx, NewReasoning(last, Stream(init)), true) else []
  {
    hide Pieces;
    var last, init := steps[|steps| - 1], steps[..|steps| - 1];
    if IsGeneratingPlanner(last) {
      TrackersHoldLatest(idx, init);
      var added := NewReasoning(last, Stream(init));
      if added != [] {
        PiecesForOne(idx, added[0], true);
      }
      if last.stepIndex == Some(idx) && PartialThinking(last).Some? {
        PiecesOneMore(TextsOf(idx, init, true), PartialThinking(last).value);
      }
    }
  }

  lemma NewTextPieces(idx: int, steps: seq<Step>)
    requires steps != [] && !Restarts(steps[|steps| - 1], idx)
    ensures var last, init := steps[|steps| - 1], steps[..|steps| - 1];
            Unmarked(Pieces(TextsOf(idx, steps, false))) ==
            Unmarked(Pieces(TextsOf(idx, init, false))) +
            if IsGeneratingPlanner(last) then PiecesFor(idx, NewText(last, Stream(init)), false) else []
  {
    hide Pieces, Unmarked;
    var last, init := steps[|steps| - 1], steps[..|steps| - 1];
    var before := TextsOf(idx, init, false);
    if IsGeneratingPlanner(last) {
      TrackersHoldLatest(idx, init);
      var added := NewText(last, Stream(init));
      if added != [] {
        PiecesForOne(idx, added[0], false);
      }
      if last.stepIndex == Some(idx) && PartialText(last).Some? {
        PiecesOneMore(before, PartialText(last).value);
        if added != [] {
          UnmarkedOneMore(Pieces(before), Piece(added[0].suffix, before == []));
        } else {
          assert Pieces(before) + [] == Pieces(before);
        }
      }
    }
  }

  lemma UnmarkedOneMore(pieces: seq<Piece>, p: Piece)
    ensures Unmarked(pieces + [p]) == Unmarked(pieces) + [Piece(p.suffix, false)]
  {
    assert (pieces + [p])[..|pieces|] == pieces;
  }

  /** The pieces of one kind posted for `idx` since its step was last sighted in another status. */
  function Posted(idx: int, steps: seq<Step>, reasoning: bool): seq<Piece> {
    PiecesFor(idx, Stream(steps).deltas[Mark(idx, steps)..], reasoning)
  }

  lemma PostedOneMore(idx: int, steps: seq<Step>, reasoning: bool)
    requires steps != [] && !Restarts(steps[|steps| - 1], idx)
    ensures var last, init := steps[|steps| - 1], steps[..|steps| - 1];
            Posted(idx, steps, reasoning) ==
            Posted(idx, init, reasoning) +
            if !IsGeneratingPlanner(last) then []
            else if reasoning then PiecesFor(idx, NewReasoning(last, Stream(init)), true)
            else PiecesFor(idx, NewText(last, Stream(init)), false)
  {
    hide NewText, NewReasoning, StreamStep, PiecesFor;
    var init, last := steps[..|steps| - 1], steps[|steps| - 1];
    var t, m := Stream(init), Mark(idx, init);
    DeltasOfFrame(last, t);
    if IsGeneratingPlanner(last) {
      var r, x := NewReasoning(last, t), NewText(last, t);
      assert Stream(steps).deltas[m..] == t.deltas[m..] + r + x;
      PiecesForAppend(idx, t.deltas[m..] + r, x, reasoning);
      PiecesForAppend(idx, t.deltas[m..], r, reasoning);
      OnlyOneKind(idx, last, t);
    }
  }

  /** However the frames of many steps interleave, what is posted for one of them since it last
      restarted is what its own texts call for. */
  lemma {:induction false} PostedIsOwnPieces(idx: int, steps: seq<Step>, reasoning: bool)
    ensures var own := Pieces(TextsOf(idx, steps, reasoning));
            Posted(idx, steps, reasoning) == if reasoning then own else Unmarked(own)
  {
    if steps != [] && !Restarts(steps[|steps| - 1], idx) {
      hide Posted, Pieces, Unmarked, NewText, NewReasoning, TextsOf;
      PostedIsOwnPieces(idx, steps[..|steps| - 1], reasoning);
      PostedOneMore(idx, steps, reasoning);
      if reasoning { NewReasoningPieces(idx, steps); } else { NewTextPieces(idx, steps); }
    }
  }

  lemma OnlyOneKind(idx: int, step: Step, t: Trackers)
    ensures PiecesFor(idx, NewReasoning(step, t), false) == [] && PiecesFor(idx, NewText(step, t), true) == []
  {
    var r, x := NewReasoning(step, t), NewText(step, t);
    if r != [] { PiecesForOne(idx, r[0], false); }
    if x != [] { PiecesForOne(idx, x[0], true); }
  }

  /** The text and the reasoning of a step whose frames only grow are posted whole, however the
      frames of other steps come in between; and every delta posted is new text. */
  lemma GrowingStepIsPostedWhole(idx: int, steps: seq<Step>, reasoning: bool)
    requires Growing(TextsOf(idx, steps, reasoning))
    ensures Joined(Posted(idx, steps, reasoning)) == LastText(TextsOf(idx, steps, reasoning))
  {
    PostedIsOwnPieces(idx, steps, reasoning);
    GrowingStaysInSync(TextsOf(idx, steps, reasoning));
    JoinedUnmarked(Pieces(TextsOf(idx, steps, reasoning)));
  }

  /** However the frames interleave, at most one reasoning delta of a step is marked as its start, it is
      the first one posted, and it is marked exactly when the step's first reasoning was not empty. */
  lemma ReasoningStartMarkedOnce(idx: int, steps: seq<Step>)
    ensures var posted, texts := Posted(idx, steps, true), TextsOf(idx, steps, true);
            && (forall k :: 0 < k < |posted| ==> !posted[k].started)
            && (posted != [] ==> texts != [] && (posted[0].started <==> texts[0] != ""))
  {
    PostedIsOwnPieces(idx, steps, true);
    StartMarkedOnce(TextsOf(idx, steps, true));
  }

  lemma {:induction false} JoinedUnmarked(pieces: seq<Piece>)
    ensures Joined(Unmarked(pieces)) == Joined(pieces)
  {
    if pieces != [] {
      var n := |pieces| - 1;
      JoinedUnmarked(pieces[..n]);
      assert Unmarked(pieces)[..|Unmarked(pieces)| - 1] == Unmarked(pieces[..n]);
    }
  }

  /** For any frames whatever, each delta posted is not empty and takes the text forwarded for its
      step to the step's current text. */
  lemma DeltasExtend(step: Step, t: Trackers)
    requires IsGeneratingPlanner(step)
    ensures var t' := StreamStep(step, t);
            forall i :: |t.deltas| <= i < |t'.deltas| ==>
                          var d := t'.deltas[i];
                          && d.suffix != "" && Some(d.stepIndex) == step.stepIndex
                          && (d.TextDelta? ==>
                                Forwarded(t.prefixes, d.stepIndex) + d.suffix == Forwarded(t'.prefixes, d.stepIndex))
                          && (d.ReasoningDelta? ==>
                                Forwarded(t.reasoningPrefixes, d.stepIndex) + d.suffix ==
                                Forwarded(t'.reasoningPrefixes, d.stepIndex))
  {
    var t1 := EmitPartialReasoningDelta(step, t);
    assert NewText(step, t1) == NewText(step, t);
  }
}
