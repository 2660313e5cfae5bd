/** Lyricsfile entries as lines: word cues with byte offsets, and voices for overlapping lines. */
module LyricsfileLines {
  import opened LyricsModel
  import opened LyricsVoices

  // ---- Words ----

  function Joined(words: seq<Word>): Bytes {
    if words == [] then [] else Joined(words[..|words| - 1]) + words[|words| - 1].text
  }

  lemma {:induction false} JoinedTo(words: seq<Word>, i: nat)
    requires i <= |words|
    ensures |Joined(words[..i])| <= |Joined(words)|
    ensures Joined(words)[..|Joined(words[..i])|] == Joined(words[..i])
  {
    if i == |words| {
      assert words[..i] == words;
    } else {
      JoinedTo(words[..|words| - 1], i);
      assert words[..|words| - 1][..i] == words[..i];
    }
  }

  lemma JoinedNext(words: seq<Word>, i: nat)
    requires i < |words|
    ensures Joined(words[..i + 1]) == Joined(words[..i]) + words[i].text
  {
    assert words[..i + 1][..i] == words[..i];
  }

  /** The cue of word i: its text, where it begins in the line, and until when it sounds. */
  function WordCue(words: seq<Word>, i: nat, agent: AgentId): Cue
    requires i < |words|
  {
    var w, bs := words[i], |Joined(words[..i])|;
    Cue(Some(w.start), WordEnd(words, i), w.text, bs, if w.text == [] then bs else bs + |w.text| - 1, agent)
  }

  function WordEnd(words: seq<Word>, i: nat): Option<int>
    requires i < |words|
  {
    if words[i].end.Some? then words[i].end else if i + 1 < |words| then Some(words[i + 1].start) else None
  }

  function WordCues(words: seq<Word>, agent: AgentId): (cues: seq<Cue>)
    ensures |cues| == |words|
  {
    seq(|words|, i requires 0 <= i < |words| => WordCue(words, i, agent))
  }

  /** Before ends are filled in from the next word. */
  function RawCue(words: seq<Word>, i: nat, agent: AgentId): Cue
    requires i < |words|
  {
    WordCue(words, i, agent).(end := words[i].end)
  }

  lemma RawCueAt(words: seq<Word>, i: nat, agent: AgentId)
    requires i < |words|
    ensures var w, bs := words[i], |Joined(words[..i])|;
      RawCue(words, i, agent) ==
        Cue(Some(w.start), w.end, w.text, bs, if w.text == [] then bs else bs + |w.text| - 1, agent)
  {
  }

  lemma RawCueTimes(words: seq<Word>, i: nat, agent: AgentId)
    requires i < |words|
    ensures RawCue(words, i, agent).start == Some(words[i].start) && RawCue(words, i, agent).end == words[i].end
    ensures WordCue(words, i, agent) == RawCue(words, i, agent).(end := WordEnd(words, i))
  {
  }

  /** The line text comes from the words when there are any; offsets are taken along the way. */
  method WordsToLineCues(entry: Entry, agent: AgentId) returns (cues: seq<Cue>, value: Bytes)
    ensures cues == WordCues(entry.words, agent)
    ensures value == LineText(entry)
  {
    if entry.words == [] {
      return [], entry.text;
    }
    cues, value := RawCues(entry.words, agent);
    cues := FillEnds(entry.words, cues, agent);
  }

  method RawCues(words: seq<Word>, agent: AgentId) returns (cues: seq<Cue>, value: Bytes)
    ensures value == Joined(words) && |cues| == |words|
    ensures forall j | 0 <= j < |words| :: cues[j] == RawCue(words, j, agent)
  {
    value, cues := [], [];
    var cursor := 0;
    hide RawCue;
    for i := 0 to |words|
      invariant value == Joined(words[..i]) && cursor == |value| && |cues| == i
      invariant forall j | 0 <= j < i :: cues[j] == RawCue(words, j, agent)
    {
      hide Joined;
      JoinedNext(words, i);
      RawCueAt(words, i, agent);
      var bs, be := cursor, cursor;
      if words[i].text != [] {
        be := bs + |words[i].text| - 1;
        cursor := be + 1;
      }
      value := value + words[i].text;
      cues := cues + [Cue(Some(words[i].start), words[i].end, words[i].text, bs, be, agent)];
    }
    assert words[..|words|] == words;
  }

  /** A missing end is the start of the next word. */
  method FillEnds(words: seq<Word>, raw: seq<Cue>, agent: AgentId) returns (cues: seq<Cue>)
    requires |raw| == |words| && forall j | 0 <= j < |words| :: raw[j] == RawCue(words, j, agent)
    ensures cues == WordCues(words, agent)
  {
    hide RawCue, WordCue;
    cues := raw;
    var i := 0;
    while i < |cues| - 1
      invariant 0 <= i <= |words| == |cues| && (words != [] ==> i < |words|)
      invariant forall j | 0 <= j < i :: cues[j] == WordCue(words, j, agent)
      invariant forall j | i <= j < |cues| :: cues[j] == RawCue(words, j, agent)
    {
      RawCueTimes(words, i, agent);
      RawCueTimes(words, i + 1, agent);
      if cues[i].end.None? && cues[i + 1].start.Some? {
        cues := cues[i := cues[i].(end := cues[i + 1].start)];
      }
      i := i + 1;
    }
    if words != [] {
      RawCueTimes(words, i, agent);
    }
  }

  /** A cue fits its line exactly when its word is not empty. */
  lemma WordCueFitsIff(words: seq<Word>, i: nat, agent: AgentId)
    requires i < |words|
    ensures CueFits(WordCue(words, i, agent), Joined(words)) <==> words[i].text != []
  {
    JoinedNext(words, i);
    JoinedTo(words, i + 1);
    var cue, before := WordCue(words, i, agent), Joined(words[..i]);
    assert cue.value == words[i].text && cue.byteStart == |before|;
    hide Joined, WordCue, CueFits;
    CueAfterFitsIff(cue, Joined(words), before, words[i].text);
  }

  lemma CueAfterFitsIff(cue: Cue, all: Bytes, before: Bytes, text: Bytes)
    requires |before| + |text| <= |all| && all[..|before| + |text|] == before + text
    requires cue.value == text && cue.byteStart == |before|
    requires cue.byteEnd == if text == [] then |before| else |before| + |text| - 1
    ensures CueFits(cue, all) <==> text != []
  {
    SliceAfter(all, before, text);
    if text == [] && cue.byteEnd < |all| {
      assert |all[|before|..|before| + 1]| == 1;
    }
  }

  lemma SliceAfter(all: Bytes, before: Bytes, text: Bytes)
    requires |before| + |text| <= |all| && all[..|before| + |text|] == before + text
    ensures all[|before|..|before| + |text|] == text
  {
    assert all[|before|..|before| + |text|] == all[..|before| + |text|][|before|..];
  }

  /** Offsets of a cue lie inside the line exactly when its word or a later one is not empty. */
  lemma WordOffsetInsideIff(words: seq<Word>, i: nat, agent: AgentId)
    requires i < |words|
    ensures WordCue(words, i, agent).byteEnd < |Joined(words)| <==> exists k | i <= k < |words| :: words[k].text != []
  {
    JoinedNext(words, i);
    JoinedTo(words, i + 1);
    if exists k | i <= k < |words| :: words[k].text != [] {
      var k :| i <= k < |words| && words[k].text != [];
      LaterWordExtends(words, i, k);
    } else {
      EmptyTail(words, i);
    }
  }

  lemma LaterWordExtends(words: seq<Word>, i: nat, k: nat)
    requires i <= k < |words| && words[k].text != []
    ensures |Joined(words[..i])| < |Joined(words)|
  {
    JoinedTo(words, k + 1);
    JoinedNext(words, k);
    JoinedTo(words[..k], i);
    assert words[..k][..i] == words[..i];
  }

  lemma {:induction false} EmptyTail(words: seq<Word>, i: nat)
    requires i <= |words| && forall k | i <= k < |words| :: words[k].text == []
    ensures Joined(words) == Joined(words[..i])
    decreases |words|
  {
    if i == |words| {
      assert words[..i] == words;
    } else {
      EmptyTail(words[..|words| - 1], i);
      assert words[..|words| - 1][..i] == words[..i];
    }
  }

  /** A trailing empty word gets offsets past the end of the line. */
  lemma TrailingEmptyWordFallsOutside(text: byte)
    ensures var words := [Word([text], 0, None), Word([], 1, None)];
      WordCue(words, 1, NoAgent).byteStart == |Joined(words)| == 1
  {
    var words := [Word([text], 0, None), Word([], 1, None)];
    assert words[..1] == [words[0]] && words[..1][..0] == [] && words[..2] == words;
    assert Joined([words[0]]) == Joined([]) + words[0].text;
  }

  /** Cues of non-empty words follow each other without overlap. */
  lemma WordCuesAreDisjoint(words: seq<Word>, i: nat, j: nat, agent: AgentId)
    requires i < j < |words| && words[i].text != []
    ensures WordCue(words, i, agent).byteEnd < WordCue(words, j, agent).byteStart
  {
    JoinedNext(words, i);
    JoinedTo(words[..j], i + 1);
    assert words[..j][..i + 1] == words[..i + 1];
  }

  /** With no empty word all cues fit the line in order, and together they spell it. */
  lemma WordCuesFit(words: seq<Word>, agent: AgentId)
    requires forall w | w in words :: w.text != []
    ensures CuesFit(WordCues(words, agent), Joined(words))
  {
    forall i | 0 <= i < |words|
      ensures CueFits(WordCues(words, agent)[i], Joined(words))
    {
      assert words[i] in words;
      WordCueFitsIff(words, i, agent);
    }
    forall i, j | 0 <= i < j < |words|
      ensures WordCues(words, agent)[i].byteEnd < WordCues(words, agent)[j].byteStart
    {
      assert words[i] in words;
      WordCuesAreDisjoint(words, i, j, agent);
    }
  }

  // ---- Lines ----

  function LineText(entry: Entry): Bytes {
    if entry.words == [] then entry.text else Joined(entry.words)
  }

  function LineOf(entries: seq<Entry>, i: nat, agent: AgentId): Line
    requires i < |entries|
  {
    Line(Some(entries[i].start), EndOf(entries, i), LineText(entries[i]), WordCues(entries[i].words, agent))
  }

  predicate HasCues(entries: seq<Entry>) {
    exists e | e in entries :: e.words != []
  }

  /** Agents are given out only for several voices, and only when some cue can carry one. */
  predicate Polyphonic(entries: seq<Entry>) {
    MaxVoice(Voices(entries)) > 0 && HasCues(entries)
  }

  lemma AssignedNext(entries: seq<Entry>, i: nat)
    requires i < |entries|
    ensures var held, voice := Held(entries, i), Voices(entries)[i];
      voice == LowestFrom(held.Keys, 0) && Assigned(entries, i + 1).active == held[voice := BusyUntil(entries, i)]
  {
    VoiceOf(entries, i);
  }

  /** The lowest voice nobody holds; the voices still to try become fewer. */
  method FreeVoice(active: map<nat, int>) returns (voice: nat)
    ensures voice == LowestFrom(active.Keys, 0)
  {
    voice := 0;
    while voice in active
      invariant LowestFrom(active.Keys, voice) == LowestFrom(active.Keys, 0)
      decreases |set w | w in active.Keys && w >= voice|
    {
      assert (set w | w in active.Keys && w >= voice) == (set w | w in active.Keys && w >= voice + 1) + {voice};
      voice := voice + 1;
    }
  }

  /** Drops the voices whose line has ended, in any order. */
  method Expire(active: map<nat, int>, now: int) returns (left: map<nat, int>)
    ensures left == Expired(active, now)
  {
    left := active;
    var todo := active.Keys;
    while todo != {}
      invariant todo <= active.Keys
      invariant forall v :: v in left <==> v in active && (v in todo || active[v] > now)
      invariant forall v | v in left :: left[v] == active[v]
      decreases |todo|
    {
      var v :| v in todo;
      todo := todo - {v};
      if active[v] <= now {
        left := left - {v};
      }
    }
  }

  method LineEnds(entries: seq<Entry>) returns (ends: seq<Option<int>>)
    ensures |ends| == |entries| && forall i | 0 <= i < |entries| :: ends[i] == EndOf(entries, i)
  {
    ends := [];
    for i := 0 to |entries|
      invariant |ends| == i && forall j | 0 <= j < i :: ends[j] == EndOf(entries, j)
    {
      ends := ends + [LineEnd(entries[i], NextStart(entries, i))];
    }
  }

  lemma MaxVoiceNext(voices: seq<nat>, i: nat)
    requires i < |voices|
    ensures MaxVoice(voices[..i + 1]) == if voices[i] > MaxVoice(voices[..i]) then voices[i] else MaxVoice(voices[..i])
  {
    assert voices[..i + 1][..i] == voices[..i];
  }

  lemma HasCuesNext(entries: seq<Entry>, i: nat)
    requires i < |entries|
    ensures HasCues(entries[..i + 1]) <==> HasCues(entries[..i]) || entries[i].words != []
  {
    assert entries[..i + 1] == entries[..i] + [entries[i]];
  }

  method VoicedLine(entries: seq<Entry>, i: nat, end: Option<int>, agent: AgentId) returns (line: Line)
    requires i < |entries| && end == EndOf(entries, i)
    ensures line == LineOf(entries, i, agent) && (line.cues != [] <==> entries[i].words != [])
  {
    hide LineText, EndOf, WordCue;
    var cues, value := WordsToLineCues(entries[i], agent);
    line := Line(Some(entries[i].start), end, value, cues);
  }

  /** The first i lines are built, and the running values are those of the assignment. */
  ghost predicate VoicedTo(entries: seq<Entry>, i: nat, lines: seq<Line>,
      active: map<nat, int>, maxVoice: int, anyCues: bool)
    requires i <= |entries|
  {
    && |lines| == i && active == Assigned(entries, i).active
    && maxVoice == MaxVoice(Voices(entries)[..i]) && (anyCues <==> HasCues(entries[..i]))
    && forall j | 0 <= j < i :: lines[j] == LineOf(entries, j, Voice(Voices(entries)[j]))
  }

  lemma VoicedNext(entries: seq<Entry>, i: nat, lines: seq<Line>, active: map<nat, int>,
      maxVoice: int, anyCues: bool, voice: nat, line: Line)
    requires i < |entries| && VoicedTo(entries, i, lines, active, maxVoice, anyCues)
    requires voice == LowestFrom(Expired(active, entries[i].start).Keys, 0)
    requires line == LineOf(entries, i, Voice(voice)) && (line.cues != [] <==> entries[i].words != [])
    ensures VoicedTo(entries, i + 1, lines + [line], Expired(active, entries[i].start)[voice := BusyUntil(entries, i)],
      if voice > maxVoice then voice else maxVoice, anyCues || line.cues != [])
  {
    hide Assigned, Voices, MaxVoice, HasCues, LineOf, LowestFrom, Expired, EndOf;
    AssignedNext(entries, i);
    MaxVoiceNext(Voices(entries), i);
    HasCuesNext(entries, i);
  }

  /** Each line with the lowest free voice. */
  method VoicedLines(entries: seq<Entry>, ends: seq<Option<int>>)
    returns (lines: seq<Line>, maxVoice: int, anyCues: bool)
    requires |ends| == |entries| && forall i | 0 <= i < |entries| :: ends[i] == EndOf(entries, i)
    ensures |lines| == |entries| && maxVoice == MaxVoice(Voices(entries)) && (anyCues <==> HasCues(entries))
    ensures forall i | 0 <= i < |entries| :: lines[i] == LineOf(entries, i, Voice(Voices(entries)[i]))
  {
    var active: map<nat, int> := map[];
    lines, maxVoice, anyCues := [], -1, false;
    assert Voices(entries)[..0] == [] && Assigned(entries, 0).active == map[];
    hide Assigned, Expired, LowestFrom, Voices, MaxVoice, HasCues, LineOf, EndOf;
    for i := 0 to |entries|
      invariant VoicedTo(entries, i, lines, active, maxVoice, anyCues)
    {
      hide VoicedTo;
      ghost var before := active;
      active := Expire(active, entries[i].start);
      var voice := FreeVoice(active);
      var line := VoicedLine(entries, i, ends[i], Voice(voice));
      VoicedNext(entries, i, lines, before, maxVoice, anyCues, voice, line);
      maxVoice := if voice > maxVoice then voice else maxVoice;
      anyCues := anyCues || |line.cues| > 0;
      lines := lines + [line];
      active := active[voice := if ends[i].Some? then ends[i].value else entries[i].start];
    }
    assert Voices(entries)[..|entries|] == Voices(entries) && entries[..|entries|] == entries;
  }

  // ---- What the lines show ----

  /** The line's own end; else the last word's; else where the next line starts; none on the last line. */
  predicate EndsAsPromised(entries: seq<Entry>, i: nat, end: Option<int>)
    requires i < |entries|
  {
    var words := entries[i].words;
    var spoken := words != [] && words[|words| - 1].end.Some?;
    && (entries[i].end.Some? ==> end == entries[i].end)
    && (entries[i].end.None? && spoken ==> end == words[|words| - 1].end)
    && (entries[i].end.None? && !spoken && i + 1 < |entries| ==> end == Some(entries[i + 1].start))
    && (entries[i].end.None? && !spoken && i + 1 == |entries| ==> end == None)
  }

  /** One cue a word, one after the other from the first byte of the value to its last. */
  predicate SpellsWords(words: seq<Word>, cues: seq<Cue>, value: Bytes) {
    && |cues| == |words| > 0 && cues[0].byteStart == 0
    && (forall k | 0 <= k < |words| :: IsWordOf(words, k, cues[k], value))
    && (forall k | 0 < k < |words| :: cues[k].byteStart == cues[k - 1].byteStart + |words[k - 1].text|)
    && |value| == cues[|words| - 1].byteStart + |words[|words| - 1].text|
  }

  /** The word's text where it stands, from its start to its own end, else the next word's start. */
  predicate IsWordOf(words: seq<Word>, k: nat, cue: Cue, value: Bytes) {
    && k < |words| && cue.value == words[k].text && cue.start == Some(words[k].start)
    && 0 <= cue.byteStart <= cue.byteStart + |cue.value| <= |value|
    && value[cue.byteStart..cue.byteStart + |cue.value|] == cue.value
    && cue.byteEnd == cue.byteStart + (if cue.value == [] then 0 else |cue.value| - 1)
    && (words[k].end.Some? ==> cue.end == words[k].end)
    && (words[k].end.None? && k + 1 < |words| ==> cue.end == Some(words[k + 1].start))
    && (words[k].end.None? && k + 1 == |words| ==> cue.end == None)
  }

  /** What one entry becomes, but for the agents. */
  predicate ShowsEntry(entries: seq<Entry>, i: nat, line: Line)
    requires i < |entries|
  {
    && line.start == Some(entries[i].start) && EndsAsPromised(entries, i, line.end)
    && (entries[i].words == [] ==> line.cues == [] && line.value == entries[i].text)
    && (entries[i].words != [] ==> SpellsWords(entries[i].words, line.cues, line.value))
  }

  /** Line j, listed before line i, goes on after line i has started. */
  predicate SoundsInto(lines: seq<Line>, j: nat, i: nat) {
    && j < i < |lines| && lines[j].start.Some? && lines[i].start.Some?
    && (if lines[j].end.Some? then lines[j].end.value else lines[j].start.value) > lines[i].start.value
  }

  ghost predicate SoundTogether(lines: seq<Line>) {
    exists j: nat, i: nat :: SoundsInto(lines, j, i)
  }

  /** No agent has two lines at once. */
  ghost predicate AgentsTellApart(lines: seq<Line>) {
    forall j: nat, i: nat | SoundsInto(lines, j, i) ::
      forall a, b | a in lines[j].cues && b in lines[i].cues :: a.agent != b.agent
  }

  predicate IsListed(agents: seq<Agent>, id: AgentId) {
    exists v | 0 <= v < |agents| :: agents[v].id == id
  }

  /** All cues of a line carry one agent, which is listed; or none, when none is. */
  predicate AgentsFit(line: Line, agents: seq<Agent>) {
    && (forall a, b | a in line.cues && b in line.cues :: a.agent == b.agent)
    && forall cue | cue in line.cues :: if agents == [] then cue.agent == NoAgent else IsListed(agents, cue.agent)
  }

  lemma WordIsShown(words: seq<Word>, k: nat, agent: AgentId)
    requires k < |words|
    ensures IsWordOf(words, k, WordCue(words, k, agent), Joined(words))
    ensures k > 0 ==> WordCue(words, k, agent).byteStart == WordCue(words, k - 1, agent).byteStart + |words[k - 1].text|
  {
    JoinedNext(words, k);
    JoinedTo(words, k + 1);
    SliceAfter(Joined(words), Joined(words[..k]), words[k].text);
    if k > 0 {
      JoinedNext(words, k - 1);
    }
  }

  lemma WordsAreShown(words: seq<Word>, agent: AgentId)
    requires words != []
    ensures SpellsWords(words, WordCues(words, agent), Joined(words))
  {
    hide Joined, WordCue, IsWordOf;
    var cues := WordCues(words, agent);
    LastWordEnds(words, agent);
    forall k | 0 <= k < |words|
      ensures IsWordOf(words, k, cues[k], Joined(words))
      ensures k > 0 ==> cues[k].byteStart == cues[k - 1].byteStart + |words[k - 1].text|
    {
      WordIsShown(words, k, agent);
    }
  }

  lemma LastWordEnds(words: seq<Word>, agent: AgentId)
    requires words != []
    ensures WordCue(words, 0, agent).byteStart == 0
    ensures var n := |words| - 1; |Joined(words)| == WordCue(words, n, agent).byteStart + |words[n].text|
  {
    var n := |words| - 1;
    JoinedNext(words, n);
    assert words[..n + 1] == words && words[..0] == [];
  }

  lemma WordCuesCarry(words: seq<Word>, agent: AgentId)
    ensures forall cue | cue in WordCues(words, agent) :: cue.agent == agent
  {
  }

  lemma EndIsPromised(entries: seq<Entry>, i: nat)
    requires i < |entries|
    ensures EndsAsPromised(entries, i, EndOf(entries, i))
  {
  }

  lemma LineIsShown(entries: seq<Entry>, i: nat, agent: AgentId)
    requires i < |entries|
    ensures ShowsEntry(entries, i, LineOf(entries, i, agent))
    ensures forall cue | cue in LineOf(entries, i, agent).cues :: cue.agent == agent
    ensures LineOf(entries, i, agent).cues != [] <==> entries[i].words != []
  {
    hide SpellsWords, Joined, WordCue, EndOf, EndsAsPromised;
    EndIsPromised(entries, i);
    WordCuesCarry(entries[i].words, agent);
    if entries[i].words != [] {
      WordsAreShown(entries[i].words, agent);
    }
  }

  lemma ShownOverlaps(entries: seq<Entry>, lines: seq<Line>, j: nat, i: nat)
    requires |lines| == |entries| && forall k | 0 <= k < |entries| ::
      lines[k].start == Some(entries[k].start) && lines[k].end == EndOf(entries, k)
    ensures SoundsInto(lines, j, i) <==> Overlaps(entries, j, i)
  {
  }

  /** A last word that sounds past the start of the next line makes the two lines sound together. */
  lemma LastWordSoundsOn(entries: seq<Entry>, lines: seq<Line>, i: nat)
    requires |lines| == |entries| && forall k | 0 <= k < |entries| :: ShowsEntry(entries, k, lines[k])
    requires i + 1 < |entries| && entries[i].end.None? && entries[i].words != []
    requires var last := entries[i].words[|entries[i].words| - 1];
      last.end.Some? && last.end.value > entries[i + 1].start
    ensures SoundsInto(lines, i, i + 1)
  {
    assert ShowsEntry(entries, i, lines[i]) && ShowsEntry(entries, i + 1, lines[i + 1]);
  }

  lemma ShownAgentsDiffer(entries: seq<Entry>, lines: seq<Line>, j: nat, i: nat)
    requires SortedByStart(entries) && Polyphonic(entries) && |lines| == |entries|
    requires forall k | 0 <= k < |entries| :: lines[k] == LineOf(entries, k, Voice(Voices(entries)[k]))
    requires SoundsInto(lines, j, i)
    ensures forall a, b | a in lines[j].cues && b in lines[i].cues :: a.agent != b.agent
  {
    hide WordCue, LineText, EndOf, Voices;
    ShownOverlaps(entries, lines, j, i);
    OverlappingLinesDiffer(entries, j, i);
    LineIsShown(entries, j, Voice(Voices(entries)[j]));
    LineIsShown(entries, i, Voice(Voices(entries)[i]));
  }

  method BuildLyricsfileLines(entries: seq<Entry>) returns (lines: seq<Line>, agents: seq<Agent>)
    ensures |lines| == |entries|
    ensures forall i | 0 <= i < |entries| ::
      lines[i] == LineOf(entries, i, if Polyphonic(entries) then Voice(Voices(entries)[i]) else NoAgent)
    ensures |agents| == if Polyphonic(entries) then MaxVoice(Voices(entries)) + 1 else 0
    ensures forall v | 0 <= v < |agents| :: agents[v] == Agent(Voice(v), if v == 0 then "main" else "voice")
    ensures forall i | 0 <= i < |entries| :: ShowsEntry(entries, i, lines[i])
    ensures forall i | 0 <= i < |entries| :: AgentsFit(lines[i], agents)
    ensures SortedByStart(entries) ==>
      (agents != [] <==> (exists i | 0 <= i < |entries| :: entries[i].words != []) && SoundTogether(lines))
    ensures SortedByStart(entries) && agents != [] ==> AgentsTellApart(lines)
  {
    hide LineOf, Voices, MaxVoice, HasCues;
    var ends := LineEnds(entries);
    var maxVoice, anyCues;
    lines, maxVoice, anyCues := VoicedLines(entries, ends);
    agents := [];
    if maxVoice <= 0 || !anyCues {
      lines := WithoutAgents(lines, entries, Voices(entries));
      LinesAreShown(entries, lines, agents);
      return;
    }
    for v := 0 to maxVoice + 1
      invariant |agents| == v
      invariant forall w | 0 <= w < v :: agents[w] == Agent(Voice(w), if w == 0 then "main" else "voice")
    {
      agents := agents + [Agent(Voice(v), if v == 0 then "main" else "voice")];
    }
    LinesAreShown(entries, lines, agents);
  }

  lemma LinesAreBuilt(entries: seq<Entry>, lines: seq<Line>, agents: seq<Agent>, i: nat)
    requires |lines| == |entries| && i < |entries|
    requires lines[i] == LineOf(entries, i, if Polyphonic(entries) then Voice(Voices(entries)[i]) else NoAgent)
    requires |agents| == if Polyphonic(entries) then MaxVoice(Voices(entries)) + 1 else 0
    requires forall v | 0 <= v < |agents| :: agents[v].id == Voice(v)
    ensures ShowsEntry(entries, i, lines[i]) && AgentsFit(lines[i], agents)
  {
    hide LineOf, ShowsEntry, Polyphonic, MaxVoice, Voices;
    var agent := if Polyphonic(entries) then Voice(Voices(entries)[i]) else NoAgent;
    MaxVoiceIsMax(Voices(entries));
    LineIsShown(entries, i, agent);
    assert Polyphonic(entries) ==> agents[Voices(entries)[i]].id == agent;
  }

  lemma SoundingIsOverlapping(entries: seq<Entry>, lines: seq<Line>)
    requires |lines| == |entries| && forall k | 0 <= k < |entries| ::
      lines[k].start == Some(entries[k].start) && lines[k].end == EndOf(entries, k)
    ensures SoundTogether(lines) <==> exists i, j :: Overlaps(entries, j, i)
  {
    hide EndOf, Overlaps, SoundsInto;
    if j: nat, i: nat :| SoundsInto(lines, j, i) {
      ShownOverlaps(entries, lines, j, i);
    }
    if i: nat, j: nat :| Overlaps(entries, j, i) {
      ShownOverlaps(entries, lines, j, i);
    }
  }

  lemma LineTimes(entries: seq<Entry>, i: nat, agent: AgentId)
    requires i < |entries|
    ensures LineOf(entries, i, agent).start == Some(entries[i].start)
    ensures LineOf(entries, i, agent).end == EndOf(entries, i)
  {
  }

  /** What the result shows without looking at how voices were assigned. */
  lemma LinesAreShown(entries: seq<Entry>, lines: seq<Line>, agents: seq<Agent>)
    requires |lines| == |entries|
    requires forall i | 0 <= i < |entries| ::
      lines[i] == LineOf(entries, i, if Polyphonic(entries) then Voice(Voices(entries)[i]) else NoAgent)
    requires |agents| == if Polyphonic(entries) then MaxVoice(Voices(entries)) + 1 else 0
    requires forall v | 0 <= v < |agents| :: agents[v].id == Voice(v)
    ensures forall i | 0 <= i < |entries| :: ShowsEntry(entries, i, lines[i])
    ensures forall i | 0 <= i < |entries| :: AgentsFit(lines[i], agents)
    ensures SortedByStart(entries) ==>
      (agents != [] <==> (exists i | 0 <= i < |entries| :: entries[i].words != []) && SoundTogether(lines))
    ensures SortedByStart(entries) && agents != [] ==> AgentsTellApart(lines)
  {
    AgentsNumber(entries);
    hide LineOf, ShowsEntry, AgentsFit, Polyphonic, MaxVoice, Voices, SoundTogether, Overlaps, EndOf, SortedByStart;
    forall i | 0 <= i < |entries|
      ensures ShowsEntry(entries, i, lines[i]) && AgentsFit(lines[i], agents)
      ensures lines[i].start == Some(entries[i].start) && lines[i].end == EndOf(entries, i)
    {
      LinesAreBuilt(entries, lines, agents, i);
      LineTimes(entries, i, if Polyphonic(entries) then Voice(Voices(entries)[i]) else NoAgent);
    }
    SoundingIsOverlapping(entries, lines);
    if SortedByStart(entries) {
      MonophonicHasNoAgents(entries);
      if agents != [] {
        forall j: nat, i: nat | SoundsInto(lines, j, i)
          ensures forall a, b | a in lines[j].cues && b in lines[i].cues :: a.agent != b.agent
        {
          ShownAgentsDiffer(entries, lines, j, i);
        }
      }
    }
  }

  lemma AgentsNumber(entries: seq<Entry>)
    ensures Polyphonic(entries) ==> MaxVoice(Voices(entries)) > 0
    ensures HasCues(entries) <==> exists i | 0 <= i < |entries| :: entries[i].words != []
  {
  }

  /** Strips the agents of all cues. */
  method WithoutAgents(lines: seq<Line>, ghost entries: seq<Entry>, ghost voices: seq<nat>)
    returns (stripped: seq<Line>)
    requires |lines| == |entries| == |voices|
    requires forall i | 0 <= i < |lines| :: lines[i] == LineOf(entries, i, Voice(voices[i]))
    ensures |stripped| == |lines|
    ensures forall i | 0 <= i < |lines| :: stripped[i] == LineOf(entries, i, NoAgent)
  {
    stripped := lines;
    for i := 0 to |lines|
      invariant |stripped| == |lines|
      invariant forall j | 0 <= j < i :: stripped[j] == LineOf(entries, j, NoAgent)
      invariant forall j | i <= j < |lines| :: stripped[j] == lines[j]
    {
      var cues := stripped[i].cues;
      for j := 0 to |cues|
        invariant |cues| == |stripped[i].cues|
        invariant forall l | 0 <= l < |cues| ::
          cues[l] == if l < j then stripped[i].cues[l].(agent := NoAgent) else stripped[i].cues[l]
      {
        cues := cues[j := cues[j].(agent := NoAgent)];
      }
      assert cues == WordCues(entries[i].words, NoAgent);
      stripped := stripped[i := stripped[i].(cues := cues)];
    }
  }

  /** No agents for a monophonic file: with no two lines sounding together there is one voice. */
  lemma MonophonicHasNoAgents(entries: seq<Entry>)
    requires SortedByStart(entries)
    ensures Polyphonic(entries) <==> HasCues(entries) && exists i, j :: Overlaps(entries, j, i)
  {
    if entries != [] {
      VoicesMatchDepth(entries);
      if exists i, j :: Overlaps(entries, j, i) {
        var i, j :| Overlaps(entries, j, i);
        assert j in Sounding(entries, i) && Depth(entries, i) >= 2;
      }
      var top :| 0 <= top < |entries| && Depth(entries, top) == MaxVoice(Voices(entries)) + 1;
      if MaxVoice(Voices(entries)) > 0 {
        assert Sounding(entries, top) != {};
        var j :| j in Sounding(entries, top);
        assert Overlaps(entries, j, top);
      }
    }
  }
}
