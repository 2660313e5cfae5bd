/** Enhanced LRC lines: word cues from inline time markers, and their shift for repeated lines. */
module LyricsLrc {
  import opened LyricsModel
  import opened LyricsText

  /** A time marker (None if its time cannot be parsed) and the text up to the next marker. */
  datatype Mark = Mark(time: Option<int>, text: string)

  // ---- What a line yields ----

  predicate IsSpoken(m: Mark) {
    m.time.Some? && m.text != ""
  }

  function WordSpan(m: Mark): Span {
    if IsSpoken(m) then Span(m.text, Some(Cue(m.time, None, [], 0, 0, NoAgent))) else Span("", None)
  }

  function WordSpans(marks: seq<Mark>): (spans: seq<Span>)
    ensures |spans| == |marks|
  {
    seq(|marks|, i requires 0 <= i < |marks| => WordSpan(marks[i]))
  }

  /** The text after readable markers; anything else drops out of the line. */
  function RawText(marks: seq<Mark>): string {
    SpansText(WordSpans(marks))
  }

  function WordSegments(marks: seq<Mark>): seq<Segment> {
    Segments(WordSpans(marks))
  }

  /** A marker at the very end of the line, with no text after it. */
  function TrailingEnd(marks: seq<Mark>): Option<int> {
    if marks != [] && marks[|marks| - 1].text == "" then marks[|marks| - 1].time else None
  }

  function Stripped(prefix: string, marks: seq<Mark>): string {
    if marks == [] then prefix else Stripped(prefix, marks[..|marks| - 1]) + marks[|marks| - 1].text
  }

  function WithLastEnd(cues: seq<Cue>, end: Option<int>): seq<Cue> {
    if end.Some? && cues != [] then cues[|cues| - 1 := cues[|cues| - 1].(end := end)] else cues
  }

  function LineValue(prefix: string, marks: seq<Mark>): Bytes {
    if WordSegments(marks) == [] then Encode(Trim(Stripped(prefix, marks))) else Encode(Trim(RawText(marks)))
  }

  function LineCues(marks: seq<Mark>): seq<Cue> {
    WithLastEnd(CutSpans(WordSpans(marks)), TrailingEnd(marks))
  }

  /** What the first i markers yield. */
  ghost predicate CollectedTo(prefix: string, marks: seq<Mark>, i: nat,
      segments: seq<Segment>, raw: string, stripped: string) {
    && i <= |marks| && segments == WordSegments(marks[..i])
    && raw == RawText(marks[..i]) && stripped == Stripped(prefix, marks[..i])
  }

  lemma NothingCollected(prefix: string, marks: seq<Mark>)
    ensures CollectedTo(prefix, marks, 0, [], "", prefix)
  {
    assert marks[..0] == [];
  }

  lemma AllCollected(prefix: string, marks: seq<Mark>, segments: seq<Segment>, raw: string, stripped: string)
    requires CollectedTo(prefix, marks, |marks|, segments, raw, stripped)
    ensures segments == WordSegments(marks) && raw == RawText(marks) && stripped == Stripped(prefix, marks)
  {
    assert marks[..|marks|] == marks;
  }

  /** One more marker: its text is a word of the line if its time can be read. */
  lemma OneMoreMark(prefix: string, marks: seq<Mark>, i: nat, segments: seq<Segment>, raw: string, stripped: string)
    requires i < |marks| && CollectedTo(prefix, marks, i, segments, raw, stripped)
    ensures var m, from := marks[i], |Encode(raw)|;
      if IsSpoken(m) then
        var word := Segment(from, from + |Encode(m.text)|, Cue(m.time, None, [], 0, 0, NoAgent));
        CollectedTo(prefix, marks, i + 1, segments + [word], raw + m.text, stripped + m.text)
      else CollectedTo(prefix, marks, i + 1, segments, raw, stripped + m.text)
  {
    hide Encode, SpansText, Segments;
    assert marks[..i + 1][..i] == marks[..i];
    assert WordSpans(marks[..i + 1]) == WordSpans(marks[..i]) + [WordSpan(marks[i])];
    SpansNext(WordSpans(marks[..i]), WordSpan(marks[i]));
  }

  /** The texts of all markers, in order. */
  function AllTexts(marks: seq<Mark>): string {
    if marks == [] then "" else marks[0].text + AllTexts(marks[1..])
  }

  /** The texts of the markers whose time can be read. */
  function SpokenTexts(marks: seq<Mark>): string {
    if marks == [] then "" else (if marks[0].time.Some? then marks[0].text else "") + SpokenTexts(marks[1..])
  }

  predicate SomeWord(marks: seq<Mark>) {
    exists i | 0 <= i < |marks| :: marks[i].time.Some? && marks[i].text != ""
  }

  lemma {:induction false} TextsAppend(marks: seq<Mark>, m: Mark)
    ensures AllTexts(marks + [m]) == AllTexts(marks) + m.text
    ensures SpokenTexts(marks + [m]) == SpokenTexts(marks) + if m.time.Some? then m.text else ""
  {
    if marks == [] {
      assert [] + [m] == [m] && [m][1..] == [];
      assert m.text + "" == m.text && "" + m.text == m.text;
    } else {
      assert (marks + [m])[1..] == marks[1..] + [m];
      TextsAppend(marks[1..], m);
      Regroup(marks[0].text, AllTexts(marks[1..]), m.text);
      var first, last := if marks[0].time.Some? then marks[0].text else "", if m.time.Some? then m.text else "";
      Regroup(first, SpokenTexts(marks[1..]), last);
    }
  }

  lemma LastMark(prefix: string, marks: seq<Mark>)
    requires marks != []
    ensures var init, last := marks[..|marks| - 1], marks[|marks| - 1];
      && Stripped(prefix, marks) == Stripped(prefix, init) + last.text
      && RawText(marks) == RawText(init) + (if last.time.Some? then last.text else "")
      && (WordSegments(marks) == [] <==> WordSegments(init) == [] && !(last.time.Some? && last.text != ""))
      && (SomeWord(marks) <==> SomeWord(init) || (last.time.Some? && last.text != ""))
  {
    hide Encode;
    var init, last := marks[..|marks| - 1], marks[|marks| - 1];
    assert WordSpans(marks) == WordSpans(init) + [WordSpan(last)];
    SpansNext(WordSpans(init), WordSpan(last));
    hide SpansText, Segments;
    assert marks == init + [last];
  }

  lemma NoTexts(prefix: string)
    ensures Stripped(prefix, []) == prefix + AllTexts([]) && RawText([]) == SpokenTexts([])
    ensures WordSegments([]) == []
  {
    assert prefix + "" == prefix && WordSpans([]) == [];
  }

  lemma {:induction false} TextsCollected(prefix: string, marks: seq<Mark>)
    ensures Stripped(prefix, marks) == prefix + AllTexts(marks)
    ensures RawText(marks) == SpokenTexts(marks)
    ensures WordSegments(marks) == [] <==> !SomeWord(marks)
  {
    hide Stripped, RawText, AllTexts, SpokenTexts, WordSegments, SomeWord;
    if marks == [] {
      NoTexts(prefix);
      NoWordAtAll();
    } else {
      var init, last := marks[..|marks| - 1], marks[|marks| - 1];
      TextsCollected(prefix, init);
      LastMark(prefix, marks);
      assert marks == init + [last];
      TextsAppend(init, last);
      Regroup(prefix, AllTexts(init), last.text);
    }
  }

  lemma NoWordAtAll()
    ensures !SomeWord([])
  {
  }

  /** The end of a cue: none, except on the last one of a line that closes with a readable marker. */
  lemma CueEnds(marks: seq<Mark>)
    ensures var cues := LineCues(marks);
      var closes := marks != [] && marks[|marks| - 1].text == "" && marks[|marks| - 1].time.Some?;
      && (forall k | 0 <= k < |cues| - 1 :: cues[k].end == None)
      && (cues != [] ==> cues[|cues| - 1].end == if closes then marks[|marks| - 1].time else None)
  {
    hide LineCues, OwnCues, WordSpans;
    LineCuesAreOwn(marks);
    forall k | 0 <= k < |OwnCues(WordSpans(marks), "")|
      ensures OwnCues(WordSpans(marks), "")[k].end == None
    {
      OwnCueHasNoEnd(marks, OwnCues(WordSpans(marks), "")[k]);
    }
  }

  lemma OwnCueHasNoEnd(marks: seq<Mark>, cue: Cue)
    requires cue in OwnCues(WordSpans(marks), "")
    ensures cue.end == None
  {
    hide OwnCues, SpansText, Kept, Encode;
    OwnCueIff(WordSpans(marks), "", cue);
    var i: nat :| IsOwnCue(WordSpans(marks), "", i, cue);
  }

  /** Cues are cut from the text that the readable markers cover, offsets counted in the trimmed line. */
  method ParseEnhancedLine(prefix: string, marks: seq<Mark>) returns (value: Bytes, cues: seq<Cue>)
    ensures value == LineValue(prefix, marks) && cues == LineCues(marks)
    ensures marks == [] ==> value == Encode(Trim(prefix)) && cues == []
    ensures !SomeWord(marks) ==> value == Encode(Trim(prefix + AllTexts(marks))) && cues == []
    ensures SomeWord(marks) ==> value == Encode(Trim(SpokenTexts(marks))) && Values(cues) == value
  {
    TextsCollected(prefix, marks);
    if SomeWord(marks) {
      CuesSpellLine(prefix, marks);
    } else {
      NoWordsNoCues(marks);
    }
    assert prefix + "" == prefix;
    if marks == [] {
      return Encode(Trim(prefix)), [];
    }
    var segments, raw, stripped, trailing := CollectWords(prefix, marks);
    TrimIsSlice(raw);
    if segments == [] {
      return Encode(Trim(stripped)), [];
    }
    var bytes, left, end := Encode(raw), LeftTrim(raw), TrimmedEnd(raw);
    cues := CutWords(bytes, left, end, segments);
    if trailing.Some? && |cues| > 0 {
      cues := cues[|cues| - 1 := cues[|cues| - 1].(end := trailing)];
    }
    value := Encode(Trim(raw));
  }

  method CollectWords(prefix: string, marks: seq<Mark>)
    returns (segments: seq<Segment>, raw: string, stripped: string, trailing: Option<int>)
    requires marks != []
    ensures segments == WordSegments(marks) && raw == RawText(marks)
    ensures stripped == Stripped(prefix, marks) && trailing == TrailingEnd(marks)
  {
    segments, raw, stripped, trailing := [], "", prefix, None;
    NothingCollected(prefix, marks);
    hide CollectedTo, WordSegments, RawText, Stripped, Encode;
    for i := 0 to |marks|
      invariant CollectedTo(prefix, marks, i, segments, raw, stripped)
      invariant trailing == if i == |marks| then TrailingEnd(marks) else None
    {
      OneMoreMark(prefix, marks, i, segments, raw, stripped);
      var m := marks[i];
      stripped := stripped + m.text;
      if m.time.Some? {
        if m.text == "" {
          if i == |marks| - 1 {
            trailing := m.time;
          }
        } else {
          var rawStart := |Encode(raw)|;
          segments := segments + [Segment(rawStart, rawStart + |Encode(m.text)|, Cue(m.time, None, [], 0, 0, NoAgent))];
          raw := raw + m.text;
        }
      }
    }
    AllCollected(prefix, marks, segments, raw, stripped);
  }

  method CutWords(raw: Bytes, left: nat, end: nat, segments: seq<Segment>) returns (cues: seq<Cue>)
    requires left <= end <= |raw|
    ensures cues == CutCues(raw, left, end, segments)
  {
    cues := [];
    for k := 0 to |segments|
      invariant cues == CutCues(raw, left, end, segments[..k])
    {
      CutCuesNext(raw, left, end, segments, k);
      var seg := segments[k];
      var byteStart := if seg.from < left then left else seg.from;
      var byteEnd := if seg.to < end then seg.to else end;
      if byteStart < byteEnd {
        cues := cues + [seg.cue.(value := raw[byteStart..byteEnd], byteStart := byteStart - left,
          byteEnd := byteEnd - left - 1)];
      }
    }
    assert segments[..|segments|] == segments;
  }

  // ---- The offsets ----

  lemma LastEndKeepsFit(cues: seq<Cue>, end: Option<int>, value: Bytes)
    requires CuesFit(cues, value)
    ensures CuesFit(WithLastEnd(cues, end), value)
  {
  }

  /** Without a readable word there is nothing to cut. */
  lemma NoWordsNoCues(marks: seq<Mark>)
    requires WordSegments(marks) == []
    ensures LineCues(marks) == []
  {
  }

  /** Every cue is exactly its slice of the line, and cues come in order without overlap. */
  lemma LineCuesFit(prefix: string, marks: seq<Mark>)
    ensures CuesFit(LineCues(marks), LineValue(prefix, marks))
  {
    if WordSegments(marks) == [] {
      NoWordsNoCues(marks);
    } else {
      CutSpansFit(WordSpans(marks));
      LastEndKeepsFit(CutSpans(WordSpans(marks)), TrailingEnd(marks), LineValue(prefix, marks));
    }
  }

  /** Each cue carries just its own word, where that stands in the trimmed line. */
  lemma LineCuesAreOwn(marks: seq<Mark>)
    ensures LineCues(marks) == WithLastEnd(OwnCues(WordSpans(marks), ""), TrailingEnd(marks))
  {
    SpansAreOwn(WordSpans(marks));
  }

  lemma {:induction false} LastEndKeepsValues(cues: seq<Cue>, end: Option<int>)
    ensures Values(WithLastEnd(cues, end)) == Values(cues)
  {
    if end.Some? && cues != [] {
      var n := |cues| - 1;
      assert WithLastEnd(cues, end)[..n] == cues[..n];
    }
  }

  /** The values of the cues, joined, are the line. */
  lemma CuesSpellLine(prefix: string, marks: seq<Mark>)
    requires WordSegments(marks) != []
    ensures Values(LineCues(marks)) == LineValue(prefix, marks)
  {
    LineCuesAreOwn(marks);
    LastEndKeepsValues(OwnCues(WordSpans(marks), ""), TrailingEnd(marks));
    OwnCuesSpell(WordSpans(marks), "");
    KeptIsTrim(RawText(marks));
  }

  lemma KeptIsTrim(s: string)
    ensures Kept("", s, "") == Trim(s)
  {
  }

  /** A line of white space yields no cues. */
  lemma BlankLineHasNoCues(marks: seq<Mark>)
    requires IsBlank(RawText(marks))
    ensures LineCues(marks) == []
  {
    var raw := RawText(marks);
    TrimIsSlice(raw);
    BlankIsEmpty(raw);
    NothingToCut(Encode(raw), LeftTrim(raw), TrimmedEnd(raw), WordSegments(marks));
  }

  /** What is left of a marker's word once the line is trimmed. */
  function KeptWord(marks: seq<Mark>, i: nat): string
    requires i < |marks|
  {
    Kept(RawText(marks[..i]), WordSpan(marks[i]).text, RawText(marks[i + 1..]))
  }

  /** A cue at a marker's time, on the marker's own word where that stands in the trimmed line. */
  predicate IsWordCue(marks: seq<Mark>, i: nat, cue: Cue) {
    && i < |marks| && IsSpoken(marks[i]) && KeptWord(marks, i) != ""
    && cue.start == marks[i].time && cue.value == Encode(KeptWord(marks, i))
    && cue.byteStart == |Encode(TrimLeft(RawText(marks[..i])))| && cue.byteEnd == cue.byteStart + |cue.value| - 1
    && cue.agent == NoAgent
  }

  lemma WordCueIsOwn(marks: seq<Mark>, i: nat, cue: Cue)
    requires i < |marks|
    ensures IsOwnCue(WordSpans(marks), "", i, cue) <==> IsWordCue(marks, i, cue) && cue.end == None
  {
    hide Encode, Kept, SpansText, TrimLeft;
    assert WordSpans(marks)[..i] == WordSpans(marks[..i]) && WordSpans(marks)[i + 1..] == WordSpans(marks[i + 1..]);
    assert RawText(marks[i + 1..]) + "" == RawText(marks[i + 1..]);
  }

  /** Giving the last cue an end changes no other part of any cue. */
  lemma LastEndKeepsRest(cues: seq<Cue>, end: Option<int>)
    ensures |WithLastEnd(cues, end)| == |cues|
    ensures forall i | 0 <= i < |cues| :: WithLastEnd(cues, end)[i].(end := cues[i].end) == cues[i]
  {
  }

  /** Every cue is some marker's, and every marker with a word of its own has its cue, on that very word. */
  lemma MarkedWordsHaveCues(marks: seq<Mark>)
    ensures forall cue | cue in LineCues(marks) :: exists i: nat :: IsWordCue(marks, i, cue)
    ensures forall i: nat | i < |marks| && IsSpoken(marks[i]) && !IsBlank(marks[i].text) ::
      exists cue :: cue in LineCues(marks) && IsWordCue(marks, i, cue)
  {
    forall cue | cue in LineCues(marks)
      ensures exists i: nat :: IsWordCue(marks, i, cue)
    {
      CueHasMark(marks, cue);
    }
    forall i: nat | i < |marks| && IsSpoken(marks[i]) && !IsBlank(marks[i].text)
      ensures exists cue :: cue in LineCues(marks) && IsWordCue(marks, i, cue)
    {
      MarkHasCue(marks, i);
    }
  }

  lemma CueHasMark(marks: seq<Mark>, cue: Cue)
    requires cue in LineCues(marks)
    ensures exists i: nat :: IsWordCue(marks, i, cue)
  {
    hide IsOwnCue, OwnCues, WithLastEnd, KeptWord, Encode, RawText;
    LineCuesAreOwn(marks);
    var spans, own := WordSpans(marks), OwnCues(WordSpans(marks), "");
    LastEndKeepsRest(own, TrailingEnd(marks));
    var n :| 0 <= n < |LineCues(marks)| && LineCues(marks)[n] == cue;
    OwnCueIff(spans, "", own[n]);
    OwnCueInRange(spans, "", own[n]);
    var i: nat :| IsOwnCue(spans, "", i, own[n]);
    WordCueIsOwn(marks, i, own[n]);
    assert IsWordCue(marks, i, cue);
  }

  lemma MarkHasCue(marks: seq<Mark>, i: nat)
    requires i < |marks| && IsSpoken(marks[i]) && !IsBlank(marks[i].text)
    ensures exists cue :: cue in LineCues(marks) && IsWordCue(marks, i, cue)
  {
    hide IsOwnCue, OwnCues, WithLastEnd, Encode, RawText, IsBlank, Kept;
    LineCuesAreOwn(marks);
    var spans, own := WordSpans(marks), OwnCues(WordSpans(marks), "");
    LastEndKeepsRest(own, TrailingEnd(marks));
    NonBlankIsKept(RawText(marks[..i]), marks[i].text, RawText(marks[i + 1..]));
    var value, from := Encode(KeptWord(marks, i)), |Encode(TrimLeft(RawText(marks[..i])))|;
    var word := Cue(marks[i].time, None, value, from, from + |value| - 1, NoAgent);
    WordCueIsOwn(marks, i, word);
    OwnCueIff(spans, "", word);
    var n :| 0 <= n < |own| && own[n] == word;
    assert LineCues(marks)[n] in LineCues(marks) && IsWordCue(marks, i, LineCues(marks)[n]);
  }

  // ---- Repeated lines ----

  /** int64 addition. */
  function Add64(a: int, b: int): (sum: int)
    ensures -0x8000_0000_0000_0000 <= sum < 0x8000_0000_0000_0000
    ensures -0x8000_0000_0000_0000 <= a + b < 0x8000_0000_0000_0000 ==> sum == a + b
  {
    (a + b + 0x8000_0000_0000_0000) % 0x1_0000_0000_0000_0000 - 0x8000_0000_0000_0000
  }

  predicate IsInt64(n: int) {
    -0x8000_0000_0000_0000 <= n < 0x8000_0000_0000_0000
  }

  function ShiftedTime(t: Option<int>, d: int): Option<int> {
    if t.Some? then Some(Add64(t.value, d)) else None
  }

  function ShiftedCue(c: Cue, d: int): Cue {
    c.(start := ShiftedTime(c.start, d), end := ShiftedTime(c.end, d))
  }

  function Shifted(cues: seq<Cue>, d: int): (out: seq<Cue>)
    ensures |out| == |cues|
  {
    seq(|cues|, i requires 0 <= i < |cues| => ShiftedCue(cues[i], d))
  }

  /** A time is later by the offset, where int64 allows; a missing one stays missing. */
  predicate IsShift(before: Option<int>, after: Option<int>, offset: int) {
    && (before.None? <==> after.None?)
    && (before.Some? && IsInt64(before.value + offset) ==> after.value == before.value + offset)
    && (before.Some? ==> (after.value - before.value - offset) % 0x1_0000_0000_0000_0000 == 0 && IsInt64(after.value))
  }

  method ShiftELRCCues(cues: seq<Cue>, offset: int) returns (out: seq<Cue>)
    ensures out == Shifted(cues, offset)
    ensures |out| == |cues|
    ensures forall i | 0 <= i < |cues| ::
      && out[i] == cues[i].(start := out[i].start, end := out[i].end)
      && IsShift(cues[i].start, out[i].start, offset) && IsShift(cues[i].end, out[i].end, offset)
  {
    out := [];
    for i := 0 to |cues|
      invariant |out| == i && forall j | 0 <= j < i :: out[j] == ShiftedCue(cues[j], offset)
    {
      var c := cues[i];
      if c.start.Some? {
        c := c.(start := Some(Add64(c.start.value, offset)));
      }
      if c.end.Some? {
        c := c.(end := Some(Add64(c.end.value, offset)));
      }
      out := out + [c];
    }
  }

  /** Shifting moves times only: cues fit the line as before. */
  lemma ShiftKeepsFit(cues: seq<Cue>, d: int, value: Bytes)
    ensures CuesFit(Shifted(cues, d), value) <==> CuesFit(cues, value)
  {
    assert forall i | 0 <= i < |cues| :: CueFits(Shifted(cues, d)[i], value) <==> CueFits(cues[i], value);
    hide CueFits;
    if CuesFit(Shifted(cues, d), value) {
      assert forall i | 0 <= i < |cues| ::
        Shifted(cues, d)[i].byteStart == cues[i].byteStart && Shifted(cues, d)[i].byteEnd == cues[i].byteEnd;
    }
  }

  lemma AddTwice(t: int, a: int, b: int)
    ensures Add64(Add64(t, a), b) == Add64(t, Add64(a, b))
  {
  }

  /** Two shifts are one, even where times wrap around. */
  lemma ShiftTwice(cues: seq<Cue>, a: int, b: int)
    ensures Shifted(Shifted(cues, a), b) == Shifted(cues, Add64(a, b))
  {
    forall i | 0 <= i < |cues|
      ensures ShiftedCue(ShiftedCue(cues[i], a), b) == ShiftedCue(cues[i], Add64(a, b))
    {
      if cues[i].start.Some? {
        AddTwice(cues[i].start.value, a, b);
      }
      if cues[i].end.Some? {
        AddTwice(cues[i].end.value, a, b);
      }
    }
  }

  /** A shift is undone by its opposite. */
  lemma ShiftBack(cues: seq<Cue>, d: int)
    requires forall cue | cue in cues ::
      (cue.start.Some? ==> IsInt64(cue.start.value)) && (cue.end.Some? ==> IsInt64(cue.end.value))
    ensures Shifted(Shifted(cues, d), -d) == cues
  {
    ShiftTwice(cues, d, -d);
    forall i | 0 <= i < |cues|
      ensures ShiftedCue(cues[i], 0) == cues[i]
    {
      assert cues[i] in cues;
    }
  }
}
