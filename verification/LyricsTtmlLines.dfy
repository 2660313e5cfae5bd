/** From collapsed runs to a line value with cues: trimming each line, joining lines, shifting offsets. */
module LyricsTtmlLines {
  import opened LyricsModel
  import opened LyricsText
  import opened LyricsTtml

  datatype FinalLine = FinalLine(text: Bytes, cues: seq<Cue>)

  // ---- One line ----

  /** The text of the runs, each collapsed once more. */
  function Recollapsed(runs: Runs): string {
    if runs == [] then "" else
      Recollapsed(runs[..|runs| - 1]) + if runs[|runs| - 1].Run? then Collapsed(runs[|runs| - 1].raw) else ""
  }

  function SpanOf(p: Piece): Span {
    if p.Run? then Span(p.raw, p.cue) else Span("", None)
  }

  function SpansOf(runs: Runs): (spans: seq<Span>)
    ensures |spans| == |runs|
  {
    seq(|runs|, i requires 0 <= i < |runs| => SpanOf(runs[i]))
  }

  /** Timed runs with where they lie in the line, counted in bytes of the runs as they are. */
  function RunSegments(runs: Runs): seq<Segment> {
    Segments(SpansOf(runs))
  }

  lemma {:induction false} TextIsSpans(runs: Runs)
    ensures SpansText(SpansOf(runs)) == TextOf(runs)
  {
    if runs != [] {
      var init, last := runs[..|runs| - 1], runs[|runs| - 1];
      TextIsSpans(init);
      assert SpansOf(runs) == SpansOf(init) + [SpanOf(last)];
      SpansNext(SpansOf(init), SpanOf(last));
    }
  }

  function Finalized(runs: Runs): FinalLine {
    var raw := Recollapsed(runs);
    TrimIsSlice(raw);
    FinalLine(Encode(Trim(raw)), CutCues(Encode(raw), LeftTrim(raw), TrimmedEnd(raw), RunSegments(runs)))
  }

  lemma RunNext(runs: Runs, k: nat)
    requires k < |runs| && runs[k].Run?
    ensures Recollapsed(runs[..k + 1]) == Recollapsed(runs[..k]) + Collapsed(runs[k].raw)
    ensures |Encode(TextOf(runs[..k + 1]))| == |Encode(TextOf(runs[..k]))| + |Encode(runs[k].raw)|
    ensures var from := |Encode(TextOf(runs[..k]))|;
      RunSegments(runs[..k + 1]) == RunSegments(runs[..k]) +
        if runs[k].cue.Some? then [Segment(from, from + |Encode(runs[k].raw)|, runs[k].cue.value)] else []
  {
    assert runs[..k + 1][..k] == runs[..k];
    hide Encode, Collapsed;
    EncodeAppend(TextOf(runs[..k]), runs[k].raw);
    TextIsSpans(runs[..k]);
    assert SpansOf(runs[..k + 1]) == SpansOf(runs[..k]) + [SpanOf(runs[k])];
    SpansNext(SpansOf(runs[..k]), SpanOf(runs[k]));
  }

  method ConcatRuns(runs: Runs) returns (raw: string)
    requires forall r | r in runs :: r.Run?
    ensures raw == Recollapsed(runs)
  {
    raw := "";
    for k := 0 to |runs|
      invariant raw == Recollapsed(runs[..k])
    {
      assert runs[k] in runs;
      RunNext(runs, k);
      var collapsed := CollapseWhitespace(runs[k].raw);
      raw := raw + collapsed;
    }
    assert runs[..|runs|] == runs;
  }

  /** Trims a line and cuts the cues of its timed runs. */
  method FinalizeLogicalLine(runs: Runs) returns (text: Bytes, cues: seq<Cue>)
    requires forall r | r in runs :: r.Run?
    ensures FinalLine(text, cues) == Finalized(runs)
  {
    var rawLine := ConcatRuns(runs);
    TrimIsSlice(rawLine);
    if rawLine == "" {
      NothingToCut(Encode(rawLine), LeftTrim(rawLine), TrimmedEnd(rawLine), RunSegments(runs));
      return [], [];
    }
    hide Encode, LeftTrim, TrimmedEnd, Trim, RunSegments;
    text := Encode(Trim(rawLine));
    cues := CutRuns(runs, Encode(rawLine), LeftTrim(rawLine), TrimmedEnd(rawLine));
  }

  /** Moves a cursor over the runs and cuts each timed one. */
  method CutRuns(runs: Runs, raw: Bytes, left: nat, end: nat) returns (cues: seq<Cue>)
    requires left <= end <= |raw| && forall r | r in runs :: r.Run?
    ensures cues == CutCues(raw, left, end, RunSegments(runs))
  {
    cues := [];
    var cursor := 0;
    hide Encode, TextOf, RunSegments, CutCues;
    NoRuns(raw, left, end);
    assert runs[..0] == [];
    for k := 0 to |runs|
      invariant cursor == |Encode(TextOf(runs[..k]))|
      invariant cues == CutCues(raw, left, end, RunSegments(runs[..k]))
    {
      assert runs[k] in runs;
      RunCut(runs, k, raw, left, end);
      var runEnd := cursor + |Encode(runs[k].raw)|;
      if runs[k].cue.Some? {
        var byteStart := if cursor < left then left else cursor;
        var byteEnd := if runEnd < end then runEnd else end;
        if byteStart < byteEnd {
          cues := cues + [runs[k].cue.value.(value := raw[byteStart..byteEnd], byteStart := byteStart - left,
            byteEnd := byteEnd - left - 1)];
        }
      }
      cursor := runEnd;
    }
    assert runs[..|runs|] == runs;
  }

  lemma NoRuns(raw: Bytes, left: nat, end: nat)
    requires left <= end <= |raw|
    ensures Encode(TextOf([])) == [] && CutCues(raw, left, end, RunSegments([])) == []
  {
  }

  lemma RunCut(runs: Runs, k: nat, raw: Bytes, left: nat, end: nat)
    requires k < |runs| && runs[k].Run? && left <= end <= |raw|
    ensures |Encode(TextOf(runs[..k + 1]))| == |Encode(TextOf(runs[..k]))| + |Encode(runs[k].raw)|
    ensures var from := |Encode(TextOf(runs[..k]))|;
      CutCues(raw, left, end, RunSegments(runs[..k + 1])) == CutCues(raw, left, end, RunSegments(runs[..k])) +
        if runs[k].cue.None? then [] else
          CutCue(raw, left, end, Segment(from, from + |Encode(runs[k].raw)|, runs[k].cue.value))
  {
    hide Encode, TextOf, RunSegments, CutCues, CutCue;
    RunNext(runs, k);
    var from := |Encode(TextOf(runs[..k]))|;
    if runs[k].cue.Some? {
      CutCuesAdd(raw, left, end, RunSegments(runs[..k]),
        Segment(from, from + |Encode(runs[k].raw)|, runs[k].cue.value));
    } else {
      assert RunSegments(runs[..k]) + [] == RunSegments(runs[..k]);
      assert CutCues(raw, left, end, RunSegments(runs[..k])) + [] == CutCues(raw, left, end, RunSegments(runs[..k]));
    }
  }

  /** Runs that are collapsed already stay as they are, so the cursor agrees with the text. */
  lemma {:induction false} CollapsedRunsStay(runs: Runs)
    requires forall r | r in runs :: r.Run? && IsCollapsed(r.raw)
    ensures Recollapsed(runs) == TextOf(runs)
  {
    if runs != [] {
      var init, last := runs[..|runs| - 1], runs[|runs| - 1];
      assert runs == init + [last];
      CollapsedRunsStay(init);
      assert last in runs;
      CollapsedStays(last.raw);
    }
  }

  /** On collapsed runs, the cursor agrees with the text: the cues are the runs' own. */
  lemma FinalizedIsOwn(runs: Runs)
    requires forall r | r in runs :: r.Run? && IsCollapsed(r.raw)
    ensures Finalized(runs).cues == OwnCues(SpansOf(runs), "")
    ensures Finalized(runs).text == Encode(Trim(TextOf(runs)))
    ensures CuesFit(Finalized(runs).cues, Finalized(runs).text)
  {
    hide Encode, LeftTrim, TrimmedEnd, Trim, TextOf, Segments;
    hide Recollapsed, CuesFit, CutCues, OwnCues, IsCollapsed, SpansText;
    CollapsedRunsStay(runs);
    TextIsSpans(runs);
    SpansAreOwn(SpansOf(runs));
    CutSpansFit(SpansOf(runs));
  }

  /** What is left of a run's text once the line is trimmed. */
  function KeptOf(runs: Runs, i: nat): string
    requires i < |runs|
  {
    Kept(TextOf(runs[..i]), SpanOf(runs[i]).text, TextOf(runs[i + 1..]))
  }

  function Placed(cue: Cue, value: Bytes, from: int): Cue {
    cue.(value := value, byteStart := from, byteEnd := from + |value| - 1)
  }

  predicate IsTimed(runs: Runs, i: nat) {
    i < |runs| && runs[i].Run? && runs[i].cue.Some?
  }

  /** A timed run's times and agent, on the run's own text where that stands in the trimmed line. */
  function RunCue(runs: Runs, i: nat): Cue
    requires IsTimed(runs, i)
  {
    Placed(runs[i].cue.value, Encode(KeptOf(runs, i)), |Encode(TrimLeft(TextOf(runs[..i])))|)
  }

  lemma RunCueIsOwn(runs: Runs, i: nat, cue: Cue)
    requires i < |runs|
    ensures IsOwnCue(SpansOf(runs), "", i, cue) <==> IsTimed(runs, i) && KeptOf(runs, i) != "" && cue == RunCue(runs, i)
  {
    hide Encode, Kept, TextOf, SpansText, TrimLeft;
    assert SpansOf(runs)[..i] == SpansOf(runs[..i]) && SpansOf(runs)[i + 1..] == SpansOf(runs[i + 1..]);
    TextIsSpans(runs[..i]);
    TextIsSpans(runs[i + 1..]);
    assert TextOf(runs[i + 1..]) + "" == TextOf(runs[i + 1..]);
  }

  /** The cues of a line are exactly those of its timed runs, less runs that trimming leaves nothing of. */
  lemma LineCueIff(runs: Runs, cue: Cue)
    requires forall r | r in runs :: r.Run? && IsCollapsed(r.raw)
    ensures cue in Finalized(runs).cues <==> exists i: nat ::
      IsTimed(runs, i) && KeptOf(runs, i) != "" && cue == RunCue(runs, i)
  {
    hide Finalized, OwnCues, IsOwnCue, IsCollapsed, KeptOf, RunCue;
    FinalizedIsOwn(runs);
    OwnCueIff(SpansOf(runs), "", cue);
    OwnCueInRange(SpansOf(runs), "", cue);
    if i: nat :| IsOwnCue(SpansOf(runs), "", i, cue) {
      RunCueIsOwn(runs, i, cue);
    }
    if i: nat :| IsTimed(runs, i) && KeptOf(runs, i) != "" && cue == RunCue(runs, i) {
      RunCueIsOwn(runs, i, cue);
    }
  }

  /** A timed run that is not all white space has its cue, with all of its text if text stands on either side. */
  lemma TimedRunHasCue(runs: Runs, i: nat)
    requires forall r | r in runs :: r.Run? && IsCollapsed(r.raw)
    requires IsTimed(runs, i) && !IsBlank(runs[i].raw)
    ensures KeptOf(runs, i) != "" && RunCue(runs, i) in Finalized(runs).cues
    ensures !IsBlank(TextOf(runs[..i])) && !IsBlank(TextOf(runs[i + 1..])) ==>
      RunCue(runs, i).value == Encode(runs[i].raw)
  {
    hide Finalized, IsCollapsed, Encode, Kept, TextOf, IsBlank;
    NonBlankIsKept(TextOf(runs[..i]), runs[i].raw, TextOf(runs[i + 1..]));
    LineCueIff(runs, RunCue(runs, i));
  }

  predicate SameSpan(a: Cue, b: Cue) {
    a.start == b.start && a.end == b.end && a.agent == b.agent
  }

  /** No cue is invented, collapsed or not: each has the times and agent of a timed run. */
  lemma CueHasTimedRun(runs: Runs, cue: Cue)
    requires cue in Finalized(runs).cues
    ensures exists r | r in runs :: r.Run? && r.cue.Some? && SameSpan(cue, r.cue.value)
  {
    var raw, segs := Recollapsed(runs), RunSegments(runs);
    TrimIsSlice(raw);
    CuesComeFromSegments(Encode(raw), LeftTrim(raw), TrimmedEnd(raw), segs);
    SegmentsAreSpans(SpansOf(runs));
    hide CutCues, Segments, Encode, LeftTrim, TrimmedEnd, Recollapsed;
    var seg :| seg in segs && CutFrom(cue, seg, LeftTrim(raw));
    var i :| 0 <= i < |runs| && SpansOf(runs)[i].cue == Some(seg.cue);
    assert runs[i] in runs && SameSpan(cue, runs[i].cue.value);
  }

  // ---- All lines ----

  function FinalizedAll(lines: seq<Runs>): (finals: seq<FinalLine>)
    ensures |finals| == |lines|
    ensures forall k | 0 <= k < |lines| :: finals[k] == Finalized(lines[k])
  {
    seq(|lines|, k requires 0 <= k < |lines| => Finalized(lines[k]))
  }

  predicate IsEmptyLine(line: FinalLine) {
    line.text == [] && line.cues == []
  }

  function DropFront(lines: seq<FinalLine>): seq<FinalLine> {
    if lines != [] && IsEmptyLine(lines[0]) then DropFront(lines[1..]) else lines
  }

  function DropBack(lines: seq<FinalLine>): seq<FinalLine> {
    if lines != [] && IsEmptyLine(lines[|lines| - 1]) then DropBack(lines[..|lines| - 1]) else lines
  }

  /** Where the last line's text begins. */
  function LastOffset(lines: seq<FinalLine>): nat
    requires lines != []
  {
    if |lines| == 1 then 0 else |JoinedText(lines[..|lines| - 1])| + 1
  }

  /** Lines joined with a line feed. */
  function JoinedText(lines: seq<FinalLine>): Bytes {
    if lines == [] then [] else
      JoinedText(lines[..|lines| - 1]) + (if |lines| == 1 then [] else [0x0A]) + lines[|lines| - 1].text
  }

  function MovedCue(cue: Cue, offset: int): Cue {
    cue.(byteStart := cue.byteStart + offset, byteEnd := cue.byteEnd + offset)
  }

  function Moved(cues: seq<Cue>, offset: int): (moved: seq<Cue>)
    ensures |moved| == |cues|
  {
    seq(|cues|, i requires 0 <= i < |cues| => MovedCue(cues[i], offset))
  }

  function JoinedCues(lines: seq<FinalLine>): seq<Cue> {
    if lines == [] then [] else JoinedCues(lines[..|lines| - 1]) + Moved(lines[|lines| - 1].cues, LastOffset(lines))
  }

  function FinalLines(pieces: seq<Piece>): seq<FinalLine> {
    DropBack(DropFront(FinalizedAll(SplitTo(pieces).lines)))
  }

  method FinalizeLines(lines: seq<Runs>) returns (finals: seq<FinalLine>)
    requires forall k | 0 <= k < |lines| :: forall r | r in lines[k] :: r.Run?
    ensures finals == FinalizedAll(lines)
  {
    hide Finalized;
    finals := [];
    for k := 0 to |lines|
      invariant |finals| == k && forall j | 0 <= j < k :: finals[j] == Finalized(lines[j])
    {
      var text, cues := FinalizeLogicalLine(lines[k]);
      finals := finals + [FinalLine(text, cues)];
    }
  }

  method DropEmptyEnds(lines: seq<FinalLine>) returns (finals: seq<FinalLine>)
    ensures finals == DropBack(DropFront(lines))
  {
    finals := lines;
    while |finals| > 0 && finals[0].text == [] && |finals[0].cues| == 0
      invariant DropFront(finals) == DropFront(lines)
      decreases |finals|
    {
      finals := finals[1..];
    }
    while |finals| > 0
      invariant DropBack(finals) == DropBack(DropFront(lines))
      decreases |finals|
    {
      var last := finals[|finals| - 1];
      if last.text != [] || |last.cues| > 0 {
        break;
      }
      finals := finals[..|finals| - 1];
    }
  }

  method BuildLineFromPieces(pieces: seq<Piece>) returns (value: Bytes, cues: seq<Cue>)
    ensures value == JoinedText(FinalLines(pieces)) && cues == JoinedCues(FinalLines(pieces))
    ensures exists first, past :: IsValueOf(value, LineTexts(pieces), first, past)
    ensures value != [] ==> value[0] != 0x0A && value[|value| - 1] != 0x0A
    ensures CuesFit(cues, value)
  {
    var lines := SplitPiecesByBreak(pieces);
    SplitIsRuns(pieces);
    var finals := FinalizeLines(lines);
    finals := DropEmptyEnds(finals);
    hide SplitTo, FinalizedAll, DropFront, DropBack, JoinedText, JoinedCues, IsValueOf, CuesFit;
    value, cues := JoinLines(finals);
    var first, past := BuiltValue(pieces);
    ValueHasNoOuterLineFeed(pieces, value, first, past);
    BuiltCuesFit(pieces);
  }

  /** Joins the lines, keeping count of the bytes written. */
  method JoinLines(lines: seq<FinalLine>) returns (value: Bytes, cues: seq<Cue>)
    ensures value == JoinedText(lines) && cues == JoinedCues(lines)
  {
    value, cues := [], [];
    var byteOffset := 0;
    assert lines[..0] == [];
    hide Moved;
    for i := 0 to |lines|
      invariant value == JoinedText(lines[..i]) && cues == JoinedCues(lines[..i]) && byteOffset == |value|
    {
      hide JoinedText, JoinedCues;
      JoinNext(lines, i);
      if i > 0 {
        value := value + [0x0A];
        byteOffset := byteOffset + 1;
      } else {
        assert value + [] == value;
      }
      var moved := MoveCues(lines[i].cues, byteOffset);
      value := value + lines[i].text;
      cues := cues + moved;
      byteOffset := byteOffset + |lines[i].text|;
    }
    assert lines[..|lines|] == lines;
  }

  lemma JoinNext(lines: seq<FinalLine>, i: nat)
    requires i < |lines|
    ensures var before := JoinedText(lines[..i]) + if i == 0 then [] else [0x0A];
      && JoinedText(lines[..i + 1]) == before + lines[i].text
      && JoinedCues(lines[..i + 1]) == JoinedCues(lines[..i]) + Moved(lines[i].cues, |before|)
    ensures i == 0 ==> JoinedText(lines[..i]) == []
  {
    assert lines[..i + 1][..i] == lines[..i];
  }

  method MoveCues(cues: seq<Cue>, offset: int) returns (moved: seq<Cue>)
    ensures moved == Moved(cues, offset)
  {
    moved := [];
    for i := 0 to |cues|
      invariant |moved| == i && forall j | 0 <= j < i :: moved[j] == Moved(cues, offset)[j]
    {
      moved := moved + [cues[i].(byteStart := cues[i].byteStart + offset, byteEnd := cues[i].byteEnd + offset)];
    }
  }

  lemma SplitIsRuns(pieces: seq<Piece>)
    ensures forall k | 0 <= k < |SplitTo(pieces).lines| ::
      forall r | r in SplitTo(pieces).lines[k] :: r.Run? && IsCollapsed(r.raw)
  {
    SplitCollapsesWholeLines(pieces);
    var lines: seq<Runs>, raw: seq<string> := SplitTo(pieces).lines, RawLines(pieces);
    forall k | 0 <= k < |lines|
      ensures forall r: Piece | r in lines[k] :: r.Run? && IsCollapsed(r.raw)
    {
      assert LineMatches(lines[k], raw[k]);
    }
  }

  // ---- The offsets ----

  lemma MovedFits(cues: seq<Cue>, text: Bytes, before: Bytes)
    requires CuesFit(cues, text)
    ensures CuesFit(Moved(cues, |before|), before + text)
    ensures forall i | 0 <= i < |cues| :: |before| <= Moved(cues, |before|)[i].byteStart
  {
    var moved := Moved(cues, |before|);
    forall i | 0 <= i < |cues|
      ensures CueFits(moved[i], before + text)
    {
      assert CueFits(cues[i], text);
      SliceAfter(before, text, cues[i].byteStart, cues[i].byteEnd + 1);
    }
  }

  lemma SliceAfter(before: Bytes, text: Bytes, from: nat, to: nat)
    requires from <= to <= |text|
    ensures (before + text)[|before| + from..|before| + to] == text[from..to]
  {
  }

  lemma LongerFits(cues: seq<Cue>, text: Bytes, more: Bytes)
    requires CuesFit(cues, text)
    ensures CuesFit(cues, text + more)
    ensures forall i | 0 <= i < |cues| :: cues[i].byteEnd < |text|
  {
    forall i | 0 <= i < |cues|
      ensures CueFits(cues[i], text + more)
    {
      assert CueFits(cues[i], text);
      assert (text + more)[cues[i].byteStart..cues[i].byteEnd + 1] == text[cues[i].byteStart..cues[i].byteEnd + 1];
    }
  }

  lemma FitsTogether(a: seq<Cue>, b: seq<Cue>, value: Bytes, bound: int)
    requires CuesFit(a, value) && CuesFit(b, value)
    requires (forall i | 0 <= i < |a| :: a[i].byteEnd < bound) && forall j | 0 <= j < |b| :: bound <= b[j].byteStart
    ensures CuesFit(a + b, value)
  {
    hide CueFits;
  }

  /** Joining lines keeps every cue on its text. */
  lemma {:induction false} JoinedFits(lines: seq<FinalLine>)
    requires forall k | 0 <= k < |lines| :: CuesFit(lines[k].cues, lines[k].text)
    ensures CuesFit(JoinedCues(lines), JoinedText(lines))
  {
    if lines != [] {
      var init, last := lines[..|lines| - 1], lines[|lines| - 1];
      JoinedFits(init);
      var before := JoinedText(init) + if |lines| == 1 then [] else [0x0A];
      assert |before| == LastOffset(lines);
      hide CuesFit;
      LongerFits(JoinedCues(init), JoinedText(init), (if |lines| == 1 then [] else [0x0A]) + last.text);
      MovedFits(last.cues, last.text, before);
      assert JoinedText(init) + ((if |lines| == 1 then [] else [0x0A]) + last.text) == before + last.text;
      FitsTogether(JoinedCues(init), Moved(last.cues, |before|), JoinedText(lines), |before|);
    }
  }

  lemma {:induction false} DropsKeepLines(lines: seq<FinalLine>)
    ensures forall l | l in DropFront(lines) :: l in lines
    decreases |lines|
  {
    if lines != [] && IsEmptyLine(lines[0]) {
      DropsKeepLines(lines[1..]);
    }
  }

  lemma {:induction false} DropBackKeepsLines(lines: seq<FinalLine>)
    ensures forall l | l in DropBack(lines) :: l in lines
    decreases |lines|
  {
    if lines != [] && IsEmptyLine(lines[|lines| - 1]) {
      DropBackKeepsLines(lines[..|lines| - 1]);
    }
  }

  /** For every list of pieces: each cue's value is the slice of the line at its offsets, in order and apart. */
  lemma BuiltCuesFit(pieces: seq<Piece>)
    ensures CuesFit(JoinedCues(FinalLines(pieces)), JoinedText(FinalLines(pieces)))
  {
    var lines := SplitTo(pieces).lines;
    var all := FinalizedAll(lines);
    SplitIsRuns(pieces);
    hide Finalized, IsCollapsed, CuesFit, SplitTo;
    forall l | l in all
      ensures CuesFit(l.cues, l.text)
    {
      var k :| 0 <= k < |all| && all[k] == l;
      FinalizedIsOwn(lines[k]);
    }
    DropsKeepLines(all);
    DropBackKeepsLines(DropFront(all));
    var finals := FinalLines(pieces);
    assert forall k | 0 <= k < |finals| :: finals[k] in finals;
    JoinedFits(finals);
  }

  // ---- Every timed piece has its cue ----

  /** How many empty lines are dropped from the front. */
  function Dropped(lines: seq<FinalLine>): nat {
    if lines != [] && IsEmptyLine(lines[0]) then 1 + Dropped(lines[1..]) else 0
  }

  lemma {:induction false} FrontDropped(lines: seq<FinalLine>)
    ensures Dropped(lines) <= |lines| && DropFront(lines) == lines[Dropped(lines)..]
    ensures forall k | 0 <= k < Dropped(lines) :: IsEmptyLine(lines[k])
    decreases |lines|
  {
    if lines != [] && IsEmptyLine(lines[0]) {
      FrontDropped(lines[1..]);
      assert forall k | 0 < k < Dropped(lines) :: lines[k] == lines[1..][k - 1];
    }
  }

  lemma {:induction false} BackDropped(lines: seq<FinalLine>) returns (n: nat)
    ensures n <= |lines| && DropBack(lines) == lines[..n]
    ensures forall k | n <= k < |lines| :: IsEmptyLine(lines[k])
    decreases |lines|
  {
    n := |lines|;
    if lines != [] && IsEmptyLine(lines[|lines| - 1]) {
      n := BackDropped(lines[..|lines| - 1]);
    }
  }

  /** A line with a cue is not dropped. */
  lemma LineIsKept(lines: seq<FinalLine>, k: nat)
    requires k < |lines| && lines[k].cues != []
    ensures var finals := DropBack(DropFront(lines));
      Dropped(lines) <= k < Dropped(lines) + |finals| && finals[k - Dropped(lines)] == lines[k]
  {
    FrontDropped(lines);
    var n := BackDropped(DropFront(lines));
    assert k >= Dropped(lines);
    assert DropFront(lines)[k - Dropped(lines)] == lines[k];
  }

  lemma KeptLineIsLine(lines: seq<FinalLine>, j: nat)
    requires j < |DropBack(DropFront(lines))|
    ensures j + Dropped(lines) < |lines| && DropBack(DropFront(lines))[j] == lines[j + Dropped(lines)]
  {
    FrontDropped(lines);
    var n := BackDropped(DropFront(lines));
  }

  /** Where the text of line j begins. */
  function OffsetOf(lines: seq<FinalLine>, j: nat): nat
    requires j < |lines|
  {
    if j == 0 then 0 else |JoinedText(lines[..j])| + 1
  }

  /** A cue of line j, moved to where the line's text begins. */
  predicate IsMovedCue(lines: seq<FinalLine>, j: nat, cue: Cue) {
    j < |lines| && cue in Moved(lines[j].cues, OffsetOf(lines, j))
  }

  lemma MovedCueOfInit(lines: seq<FinalLine>, j: nat, cue: Cue)
    requires j < |lines| - 1
    ensures IsMovedCue(lines[..|lines| - 1], j, cue) <==> IsMovedCue(lines, j, cue)
  {
    assert lines[..|lines| - 1][..j] == lines[..j];
  }

  lemma LastLineCues(lines: seq<FinalLine>, cue: Cue)
    requires lines != []
    ensures var n := |lines| - 1;
      cue in JoinedCues(lines) <==> cue in JoinedCues(lines[..n]) || IsMovedCue(lines, n, cue)
  {
  }

  /** The cues of the built line are just those of its lines, moved. */
  lemma {:induction false} JoinedCueIff(lines: seq<FinalLine>, cue: Cue)
    ensures cue in JoinedCues(lines) <==> exists j: nat :: IsMovedCue(lines, j, cue)
  {
    if lines != [] {
      hide JoinedCues;
      var n := |lines| - 1;
      JoinedCueIff(lines[..n], cue);
      LastLineCues(lines, cue);
      if j: nat :| IsMovedCue(lines[..n], j, cue) {
        assert j < n;
        MovedCueOfInit(lines, j, cue);
      }
      if j: nat :| IsMovedCue(lines, j, cue) {
        if j < n {
          MovedCueOfInit(lines, j, cue);
        }
      }
    }
  }

  lemma MovedCueIff(lines: seq<FinalLine>, j: nat, own: Cue)
    requires j < |lines|
    ensures own in lines[j].cues ==> IsMovedCue(lines, j, MovedCue(own, OffsetOf(lines, j)))
  {
    if own in lines[j].cues {
      var i :| 0 <= i < |lines[j].cues| && lines[j].cues[i] == own;
      assert Moved(lines[j].cues, OffsetOf(lines, j))[i] == MovedCue(own, OffsetOf(lines, j));
    }
  }

  /** The runs of line k, and where the line ended up once empty lines were dropped. */
  function LineRuns(pieces: seq<Piece>, k: nat): Runs {
    if k < |SplitTo(pieces).lines| then SplitTo(pieces).lines[k] else []
  }

  function FinalIndex(pieces: seq<Piece>, k: nat): int {
    k - Dropped(FinalizedAll(SplitTo(pieces).lines))
  }

  /** The cue of run i of line k, in the built line. */
  ghost predicate IsBuiltCue(pieces: seq<Piece>, k: nat, i: nat, cue: Cue) {
    var j, finals := FinalIndex(pieces, k), FinalLines(pieces);
    && IsTimed(LineRuns(pieces, k), i) && KeptOf(LineRuns(pieces, k), i) != ""
    && 0 <= j < |finals| && cue == MovedCue(RunCue(LineRuns(pieces, k), i), OffsetOf(finals, j))
  }

  /** Every timed run that is not all white space has its cue in the built line, on its own text. */
  lemma TimedRunIsBuilt(pieces: seq<Piece>, k: nat, i: nat) returns (cue: Cue)
    requires IsTimed(LineRuns(pieces, k), i) && !IsBlank(LineRuns(pieces, k)[i].raw)
    ensures IsBuiltCue(pieces, k, i, cue) && cue in JoinedCues(FinalLines(pieces))
  {
    hide JoinedCues, Finalized, KeptOf, RunCue, IsBlank, IsCollapsed, Dropped, DropFront, DropBack, SplitTo, JoinedText;
    var lines, runs := SplitTo(pieces).lines, LineRuns(pieces, k);
    var all, finals := FinalizedAll(lines), FinalLines(pieces);
    SplitIsRuns(pieces);
    TimedRunHasCue(runs, i);
    LineIsKept(all, k);
    var j := FinalIndex(pieces, k);
    MovedCueIff(finals, j, RunCue(runs, i));
    cue := MovedCue(RunCue(runs, i), OffsetOf(finals, j));
    JoinedCueIff(finals, cue);
  }

  /** Every timed piece with some text has its cue: its times and agent, on its own text collapsed, in its own line. */
  lemma TimedPieceIsBuilt(pieces: seq<Piece>, m: nat) returns (i: nat, cue: Cue)
    requires m < |pieces| && pieces[m].Run? && pieces[m].cue.Some? && !IsBlank(pieces[m].raw)
    ensures HasRun(SplitTo(pieces).lines, LineOf(pieces, m), i, pieces[m])
    ensures IsBuiltCue(pieces, LineOf(pieces, m), i, cue) && SameSpan(cue, pieces[m].cue.value)
    ensures cue in JoinedCues(FinalLines(pieces))
  {
    hide IsBlank, KeptOf, SplitTo, LineOf, FinalLines, JoinedCues, Encode, TextOf;
    i := PieceHasRun(pieces, m);
    var k := LineOf(pieces, m);
    MadeRunHasText(LineRuns(pieces, k)[i], pieces[m]);
    cue := TimedRunIsBuilt(pieces, k, i);
  }

  /** No cue of the built line is anything else. */
  lemma BuiltCueHasRun(pieces: seq<Piece>, cue: Cue)
    requires cue in JoinedCues(FinalLines(pieces))
    ensures exists k: nat, i: nat :: IsBuiltCue(pieces, k, i, cue)
  {
    hide JoinedCues, Finalized, KeptOf, RunCue, IsBlank, IsCollapsed, Dropped, DropFront, DropBack, SplitTo, JoinedText;
    var lines := SplitTo(pieces).lines;
    var all, finals := FinalizedAll(lines), FinalLines(pieces);
    JoinedCueIff(finals, cue);
    var j: nat :| IsMovedCue(finals, j, cue);
    KeptLineIsLine(all, j);
    var k := j + Dropped(all);
    var n :| 0 <= n < |finals[j].cues| && Moved(finals[j].cues, OffsetOf(finals, j))[n] == cue;
    SplitIsRuns(pieces);
    LineCueIff(lines[k], finals[j].cues[n]);
    var i: nat :| IsTimed(lines[k], i) && KeptOf(lines[k], i) != "" && finals[j].cues[n] == RunCue(lines[k], i);
    assert IsBuiltCue(pieces, k, i, cue);
  }

  /** The text of each line: what stands between two breaks, collapsed as a whole and trimmed. */
  lemma LineTextIsTrimmedCollapse(pieces: seq<Piece>, k: nat)
    requires k < |RawLines(pieces)|
    ensures |SplitTo(pieces).lines| == |RawLines(pieces)|
    ensures Finalized(SplitTo(pieces).lines[k]).text == Encode(Trim(Collapsed(RawLines(pieces)[k])))
  {
    SplitCollapsesWholeLines(pieces);
    SplitIsRuns(pieces);
    var runs, raw := SplitTo(pieces).lines[k], RawLines(pieces)[k];
    assert LineMatches(runs, raw);
    FinalizedIsOwn(runs);
    TrimDropsBlank(Collapsed(raw));
  }

  lemma TrimDropsBlank(s: string)
    ensures Trim(DropBlank(s)) == Trim(s)
  {
  }

  // ---- The value ----

  /** The text of every line as written between breaks: collapsed and trimmed. */
  function LineTexts(pieces: seq<Piece>): (texts: seq<Bytes>)
    ensures |texts| == |RawLines(pieces)|
  {
    seq(|RawLines(pieces)|, k requires 0 <= k < |RawLines(pieces)| => Encode(Trim(Collapsed(RawLines(pieces)[k]))))
  }

  /** Texts with a line feed between every two. */
  function WithLineFeeds(texts: seq<Bytes>): Bytes {
    if texts == [] then []
    else if |texts| == 1 then texts[0]
    else texts[0] + [0x0A] + WithLineFeeds(texts[1..])
  }

  /** The texts from the first that is not empty to the last, with line feeds between them. */
  predicate IsValueOf(value: Bytes, texts: seq<Bytes>, first: nat, past: nat) {
    && first <= past <= |texts|
    && (forall k | 0 <= k < |texts| && (k < first || past <= k) :: texts[k] == [])
    && (first < past ==> texts[first] != [] && texts[past - 1] != [])
    && value == WithLineFeeds(texts[first..past])
  }

  lemma {:induction false} LineFeedsAppend(texts: seq<Bytes>, text: Bytes)
    ensures WithLineFeeds(texts + [text]) == if texts == [] then text else WithLineFeeds(texts) + [0x0A] + text
  {
    if |texts| > 1 {
      LineFeedsAppend(texts[1..], text);
      assert (texts + [text])[1..] == texts[1..] + [text];
      var rest := WithLineFeeds(texts[1..]);
      assert texts[0] + [0x0A] + (rest + [0x0A] + text) == (texts[0] + [0x0A] + rest) + [0x0A] + text;
    } else if |texts| == 1 {
      assert (texts + [text])[1..] == [text];
    } else {
      assert texts + [text] == [text];
    }
  }

  function TextsIn(lines: seq<FinalLine>): (texts: seq<Bytes>)
    ensures |texts| == |lines|
  {
    seq(|lines|, k requires 0 <= k < |lines| => lines[k].text)
  }

  lemma {:induction false} JoinedIsLineFeeds(lines: seq<FinalLine>)
    ensures JoinedText(lines) == WithLineFeeds(TextsIn(lines))
  {
    if lines != [] {
      var init, last := lines[..|lines| - 1], lines[|lines| - 1];
      JoinedIsLineFeeds(init);
      LineFeedsAppend(TextsIn(init), last.text);
      assert TextsIn(lines) == TextsIn(init) + [last.text];
      assert JoinedText(init) + [] + last.text == JoinedText(init) + last.text;
    }
  }

  /** All that is dropped is empty, and what is left starts and ends with a line that is not. */
  lemma {:induction false} FrontKeepsText(lines: seq<FinalLine>)
    ensures DropFront(lines) != [] ==> !IsEmptyLine(DropFront(lines)[0])
    decreases |lines|
  {
    if lines != [] && IsEmptyLine(lines[0]) {
      FrontKeepsText(lines[1..]);
    }
  }

  lemma {:induction false} BackKeepsText(lines: seq<FinalLine>)
    ensures DropBack(lines) != [] ==> !IsEmptyLine(DropBack(lines)[|DropBack(lines)| - 1])
    ensures DropBack(lines) != [] ==> DropBack(lines)[0] == lines[0]
    decreases |lines|
  {
    if lines != [] && IsEmptyLine(lines[|lines| - 1]) {
      BackKeepsText(lines[..|lines| - 1]);
    }
  }

  /** A line without text has no cues. */
  lemma EmptyTextHasNoCues(cues: seq<Cue>)
    requires CuesFit(cues, [])
    ensures cues == []
  {
    assert cues != [] ==> CueFits(cues[0], []);
  }

  lemma FinalTexts(pieces: seq<Piece>, k: nat)
    requires k < |RawLines(pieces)|
    ensures |SplitTo(pieces).lines| == |RawLines(pieces)|
    ensures Finalized(SplitTo(pieces).lines[k]).text == LineTexts(pieces)[k]
    ensures IsEmptyLine(Finalized(SplitTo(pieces).lines[k])) <==> LineTexts(pieces)[k] == []
  {
    LineTextIsTrimmedCollapse(pieces, k);
    SplitIsRuns(pieces);
    var line := Finalized(SplitTo(pieces).lines[k]);
    FinalizedIsOwn(SplitTo(pieces).lines[k]);
    hide Finalized, CuesFit, Encode, Trim, Collapsed;
    if line.text == [] {
      EmptyTextHasNoCues(line.cues);
    }
  }

  /** The value, without looking at how lines are split, finished, dropped and joined. */
  lemma BuiltValue(pieces: seq<Piece>) returns (first: nat, past: nat)
    ensures IsValueOf(JoinedText(FinalLines(pieces)), LineTexts(pieces), first, past)
  {
    hide Finalized, LineTexts, SplitTo, DropBack, DropFront, JoinedText, WithLineFeeds, IsEmptyLine;
    var all, texts := FinalizedAll(SplitTo(pieces).lines), LineTexts(pieces);
    FinalTexts(pieces, 0);
    forall k | 0 <= k < |texts|
      ensures k < |all| && all[k].text == texts[k] && (IsEmptyLine(all[k]) <==> texts[k] == [])
    {
      FinalTexts(pieces, k);
    }
    first, past := EndsDropped(all);
    var finals := FinalLines(pieces);
    JoinedIsLineFeeds(finals);
    assert TextsIn(finals) == texts[first..past];
  }

  /** Dropping leaves the lines from the first that is not empty to the last. */
  lemma EndsDropped(lines: seq<FinalLine>) returns (first: nat, past: nat)
    ensures first <= past <= |lines| && DropBack(DropFront(lines)) == lines[first..past]
    ensures forall k | 0 <= k < |lines| && (k < first || past <= k) :: IsEmptyLine(lines[k])
    ensures first < past ==> !IsEmptyLine(lines[first]) && !IsEmptyLine(lines[past - 1])
  {
    hide DropBack, DropFront, IsEmptyLine;
    FrontDropped(lines);
    FrontKeepsText(lines);
    BackKeepsText(DropFront(lines));
    first := Dropped(lines);
    var n := BackDropped(DropFront(lines));
    past := first + n;
    forall k | past <= k < |lines|
      ensures IsEmptyLine(lines[k])
    {
      assert IsEmptyLine(DropFront(lines)[k - first]);
    }
  }

  /** No line has a line feed of its own, so the value does not begin or end with one. */
  lemma LineHasNoLineFeed(pieces: seq<Piece>, k: nat)
    requires k < |LineTexts(pieces)|
    ensures 0x0A !in LineTexts(pieces)[k]
  {
    var s := Collapsed(RawLines(pieces)[k]);
    CollapsedIsPlain(RawLines(pieces)[k]);
    var before, after := TrimIs(s);
    assert '\n' !in Trim(s);
    EncodeLineFeed(Trim(s));
  }

  lemma EndsOfLineFeeds(texts: seq<Bytes>)
    requires texts != [] && texts[0] != [] && texts[|texts| - 1] != []
    ensures var value := WithLineFeeds(texts);
      value != [] && value[0] == texts[0][0] && value[|value| - 1] == texts[|texts| - 1][|texts[|texts| - 1]| - 1]
  {
    var init, last := texts[..|texts| - 1], texts[|texts| - 1];
    LineFeedsAppend(init, last);
    assert texts == init + [last];
  }

  lemma ValueHasNoOuterLineFeed(pieces: seq<Piece>, value: Bytes, first: nat, past: nat)
    requires IsValueOf(value, LineTexts(pieces), first, past)
    ensures value != [] ==> value[0] != 0x0A && value[|value| - 1] != 0x0A
  {
    hide LineTexts;
    var texts := LineTexts(pieces);
    if first < past {
      LineHasNoLineFeed(pieces, first);
      LineHasNoLineFeed(pieces, past - 1);
      EndsOfLineFeeds(texts[first..past]);
    }
  }
}
