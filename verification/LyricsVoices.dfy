/** Voices for overlapping lines of a Lyricsfile: greedy colouring of intervals with the lowest free voice. */
module LyricsVoices {
  import opened LyricsModel

  datatype Word = Word(text: Bytes, start: int, end: Option<int>)

  datatype Entry = Entry(text: Bytes, start: int, end: Option<int>, words: seq<Word>)

  // ---- When a line ends ----

  /** The explicit end, else the last word's, else the start of the next line. */
  function LineEnd(entry: Entry, nextStart: Option<int>): Option<int> {
    if entry.end.Some? then entry.end
    else if entry.words != [] && entry.words[|entry.words| - 1].end.Some? then entry.words[|entry.words| - 1].end
    else nextStart
  }

  function NextStart(entries: seq<Entry>, i: nat): Option<int>
    requires i < |entries|
  {
    if i + 1 < |entries| then Some(entries[i + 1].start) else None
  }

  function EndOf(entries: seq<Entry>, i: nat): Option<int>
    requires i < |entries|
  {
    LineEnd(entries[i], NextStart(entries, i))
  }

  /** Until when a line keeps its voice. */
  function BusyUntil(entries: seq<Entry>, i: nat): int
    requires i < |entries|
  {
    if EndOf(entries, i).Some? then EndOf(entries, i).value else entries[i].start
  }

  // ---- The assignment ----

  function Expired(active: map<nat, int>, now: int): map<nat, int> {
    active - set v | v in active && active[v] <= now
  }

  /** The lowest voice from `v` on that is not busy; the busy voices from `v` on become fewer. */
  function LowestFrom(busy: set<nat>, v: nat): (free: nat)
    ensures v <= free && free !in busy
    ensures forall w | v <= w < free :: w in busy
    decreases |set w | w in busy && w >= v|
  {
    if v !in busy then v else
      assert (set w | w in busy && w >= v) == (set w | w in busy && w >= v + 1) + {v};
      LowestFrom(busy, v + 1)
  }

  datatype State = State(active: map<nat, int>, voices: seq<nat>)

  /** The active voices and the assignment after the first k lines. */
  function Assigned(entries: seq<Entry>, k: nat): (s: State)
    requires k <= |entries|
    ensures |s.voices| == k
  {
    if k == 0 then State(map[], []) else
      var before := Assigned(entries, k - 1);
      var active := Expired(before.active, entries[k - 1].start);
      var voice := LowestFrom(active.Keys, 0);
      State(active[voice := BusyUntil(entries, k - 1)], before.voices + [voice])
  }

  function Voices(entries: seq<Entry>): (voices: seq<nat>)
    ensures |voices| == |entries|
  {
    Assigned(entries, |entries|).voices
  }

  lemma {:induction false} EarlierVoicesStay(entries: seq<Entry>, k: nat, m: nat)
    requires k <= m <= |entries|
    ensures Assigned(entries, k).voices == Assigned(entries, m).voices[..k]
  {
    hide LowestFrom, Expired;
    if k < m {
      EarlierVoicesStay(entries, k, m - 1);
    }
  }

  /** The voice of a line is decided when it is reached. */
  lemma VoiceOf(entries: seq<Entry>, i: nat)
    requires i < |entries|
    ensures Voices(entries)[i] == LowestFrom(Held(entries, i).Keys, 0)
  {
    EarlierVoicesStay(entries, i + 1, |entries|);
    assert Assigned(entries, i + 1).voices[i] == Voices(entries)[i];
  }

  /** The voices still held when line i starts. */
  function Held(entries: seq<Entry>, i: nat): map<nat, int>
    requires i < |entries|
  {
    Expired(Assigned(entries, i).active, entries[i].start)
  }

  // ---- Entries in any order ----

  /** No line after j, up to line i, starts at or after the end of line j. */
  predicate Unfreed(entries: seq<Entry>, j: nat, i: nat) {
    j < i < |entries| && forall k | j < k <= i :: entries[k].start < BusyUntil(entries, j)
  }

  /** Line j's own hold on its voice lasts until line i starts: the voice is held, and was not given out again. */
  ghost predicate KeepsVoice(entries: seq<Entry>, j: nat, i: nat)
    requires j < i < |entries|
  {
    Voices(entries)[j] in Held(entries, i) && forall k | j < k < i :: Voices(entries)[k] != Voices(entries)[j]
  }

  /** One line: its voice was not held, and is from then on. */
  lemma LineTakesVoice(entries: seq<Entry>, i: nat)
    requires i < |entries|
    ensures Voices(entries)[i] !in Held(entries, i)
    ensures Assigned(entries, i + 1).active == Held(entries, i)[Voices(entries)[i] := BusyUntil(entries, i)]
  {
    VoiceOf(entries, i);
  }

  /** The voices held when a line starts: those held before and the last line's, less those that have ended. */
  lemma HeldNext(entries: seq<Entry>, i: nat)
    requires 0 < i < |entries|
    ensures var active := Held(entries, i - 1)[Voices(entries)[i - 1] := BusyUntil(entries, i - 1)];
      forall v :: (v in Held(entries, i) <==> v in active && active[v] > entries[i].start) &&
        (v in Held(entries, i) ==> Held(entries, i)[v] == active[v])
  {
    LineTakesVoice(entries, i - 1);
  }

  lemma {:induction false} UnfreedVoiceIsHeld(entries: seq<Entry>, j: nat, i: nat)
    requires Unfreed(entries, j, i)
    ensures Voices(entries)[j] in Held(entries, i) && Held(entries, i)[Voices(entries)[j]] == BusyUntil(entries, j)
    ensures forall k | j < k < i :: Voices(entries)[k] != Voices(entries)[j]
  {
    hide Held, Voices, BusyUntil;
    HeldNext(entries, i);
    LineTakesVoice(entries, i - 1);
    if j < i - 1 {
      UnfreedVoiceIsHeld(entries, j, i - 1);
    }
  }

  /** The first line to start at or after the end of line j takes its voice from it. */
  lemma {:induction false} FreedVoice(entries: seq<Entry>, j: nat, i: nat)
    requires j < i < |entries| && !Unfreed(entries, j, i)
    ensures !KeepsVoice(entries, j, i)
  {
    hide Held, Voices, BusyUntil;
    HeldNext(entries, i);
    if i == j + 1 {
      assert entries[i].start >= BusyUntil(entries, j);
    } else if Unfreed(entries, j, i - 1) {
      UnfreedVoiceIsHeld(entries, j, i - 1);
      assert entries[i].start >= BusyUntil(entries, j);
    } else {
      FreedVoice(entries, j, i - 1);
    }
  }

  /** Exactly when a line's voice is still its own, whatever the order of the entries. */
  lemma KeepsVoiceIff(entries: seq<Entry>, j: nat, i: nat)
    requires j < i < |entries|
    ensures KeepsVoice(entries, j, i) <==> Unfreed(entries, j, i)
  {
    if Unfreed(entries, j, i) {
      UnfreedVoiceIsHeld(entries, j, i);
    } else {
      FreedVoice(entries, j, i);
    }
  }

  /** Two lines with no such line between them never share a voice. */
  lemma UnfreedLinesDiffer(entries: seq<Entry>, j: nat, i: nat)
    requires Unfreed(entries, j, i)
    ensures Voices(entries)[j] != Voices(entries)[i]
  {
    UnfreedVoiceIsHeld(entries, j, i);
    LineTakesVoice(entries, i);
  }

  // ---- Sorted entries ----

  predicate SortedByStart(entries: seq<Entry>) {
    forall i, j | 0 <= i < j < |entries| :: entries[i].start <= entries[j].start
  }

  /** Line j, starting no later, is still sounding when line i starts. */
  predicate Overlaps(entries: seq<Entry>, j: nat, i: nat) {
    j < i < |entries| && BusyUntil(entries, j) > entries[i].start
  }

  /** The lines sounding when line i starts. */
  function Sounding(entries: seq<Entry>, i: nat): set<nat> {
    set j: nat | j < i && Overlaps(entries, j, i)
  }

  /** Every sounding line holds its voice. */
  ghost predicate SoundingHold(entries: seq<Entry>, i: nat)
    requires i < |entries|
  {
    forall j | j in Sounding(entries, i) ::
      Assigned(entries, i).voices[j] in Held(entries, i) &&
      Held(entries, i)[Assigned(entries, i).voices[j]] == BusyUntil(entries, j)
  }

  /** Every voice held is a sounding line's. */
  ghost predicate HeldSound(entries: seq<Entry>, i: nat)
    requires i < |entries|
  {
    forall v | v in Held(entries, i) :: exists j :: j in Sounding(entries, i) && Assigned(entries, i).voices[j] == v
  }

  ghost predicate SoundingDiffer(entries: seq<Entry>, i: nat)
    requires i < |entries|
  {
    forall j, l | j in Sounding(entries, i) && l in Sounding(entries, i) && j != l ::
      Assigned(entries, i).voices[j] != Assigned(entries, i).voices[l]
  }

  ghost predicate Holds(entries: seq<Entry>, i: nat)
    requires i < |entries|
  {
    SoundingHold(entries, i) && HeldSound(entries, i) && SoundingDiffer(entries, i)
  }

  lemma {:induction false} SoundingLinesHoldVoices(entries: seq<Entry>, i: nat)
    requires i < |entries| && SortedByStart(entries)
    ensures Holds(entries, i)
  {
    if i > 0 {
      SoundingLinesHoldVoices(entries, i - 1);
      HoldsNext(entries, i);
    }
  }

  lemma StillSounding(entries: seq<Entry>, i: nat)
    requires 0 < i < |entries| && SortedByStart(entries)
    ensures Sounding(entries, i) <= Sounding(entries, i - 1) + {i - 1}
  {
  }

  lemma AssignedStep(entries: seq<Entry>, i: nat) returns (voice: nat)
    requires 0 < i < |entries|
    ensures voice !in Held(entries, i - 1)
    ensures Assigned(entries, i).active == Held(entries, i - 1)[voice := BusyUntil(entries, i - 1)]
    ensures Assigned(entries, i).voices == Assigned(entries, i - 1).voices + [voice]
  {
    voice := LowestFrom(Held(entries, i - 1).Keys, 0);
  }

  lemma HoldsNext(entries: seq<Entry>, i: nat)
    requires 0 < i < |entries| && SortedByStart(entries) && Holds(entries, i - 1)
    ensures Holds(entries, i)
  {
    StillSounding(entries, i);
    var voice := AssignedStep(entries, i);
    hide SoundingHold, HeldSound, SoundingDiffer, Held, Assigned, Sounding, SortedByStart;
    SoundingHoldNext(entries, i, voice);
    HeldSoundNext(entries, i, voice);
    SoundingDifferNext(entries, i, voice);
  }

  lemma SoundingDifferNext(entries: seq<Entry>, i: nat, voice: nat)
    requires 0 < i < |entries| && SoundingHold(entries, i - 1) && SoundingDiffer(entries, i - 1)
    requires Sounding(entries, i) <= Sounding(entries, i - 1) + {i - 1} && voice !in Held(entries, i - 1)
    requires Assigned(entries, i).voices == Assigned(entries, i - 1).voices + [voice]
    ensures SoundingDiffer(entries, i)
  {
    hide Assigned, Held;
    forall j, l | j in Sounding(entries, i) && l in Sounding(entries, i) && j != l
      ensures Assigned(entries, i).voices[j] != Assigned(entries, i).voices[l]
    {
      if j < i - 1 && l < i - 1 {
        assert Assigned(entries, i - 1).voices[j] != Assigned(entries, i - 1).voices[l];
      } else {
        var other := if j == i - 1 then l else j;
        assert other in Sounding(entries, i - 1);
        assert Assigned(entries, i - 1).voices[other] in Held(entries, i - 1);
      }
    }
  }

  lemma SoundingHoldNext(entries: seq<Entry>, i: nat, voice: nat)
    requires 0 < i < |entries| && SoundingHold(entries, i - 1)
    requires Sounding(entries, i) <= Sounding(entries, i - 1) + {i - 1}
    requires voice !in Held(entries, i - 1)
    requires Assigned(entries, i).active == Held(entries, i - 1)[voice := BusyUntil(entries, i - 1)]
    requires Assigned(entries, i).voices == Assigned(entries, i - 1).voices + [voice]
    ensures SoundingHold(entries, i)
  {
    hide Assigned, LowestFrom;
    forall j | j in Sounding(entries, i)
      ensures Assigned(entries, i).voices[j] in Held(entries, i)
      ensures Held(entries, i)[Assigned(entries, i).voices[j]] == BusyUntil(entries, j)
    {
      assert BusyUntil(entries, j) > entries[i].start;
      if j < i - 1 {
        assert Assigned(entries, i - 1).voices[j] in Held(entries, i - 1);
      }
    }
  }

  lemma HeldSoundNext(entries: seq<Entry>, i: nat, voice: nat)
    requires 0 < i < |entries| && SoundingHold(entries, i - 1)
    requires HeldSound(entries, i - 1) && voice !in Held(entries, i - 1)
    requires Assigned(entries, i).active == Held(entries, i - 1)[voice := BusyUntil(entries, i - 1)]
    requires Assigned(entries, i).voices == Assigned(entries, i - 1).voices + [voice]
    ensures HeldSound(entries, i)
  {
    hide Assigned, LowestFrom;
    forall v | v in Held(entries, i)
      ensures exists j :: j in Sounding(entries, i) && Assigned(entries, i).voices[j] == v
    {
      if v == voice {
        assert i - 1 in Sounding(entries, i);
      } else {
        assert v in Held(entries, i - 1);
        var j :| j in Sounding(entries, i - 1) && Assigned(entries, i - 1).voices[j] == v;
        assert j in Sounding(entries, i) && Assigned(entries, i).voices[j] == v;
      }
    }
  }

  /** Among sorted entries overlapping lines never share a voice. */
  lemma OverlappingLinesDiffer(entries: seq<Entry>, j: nat, i: nat)
    requires SortedByStart(entries) && Overlaps(entries, j, i)
    ensures Voices(entries)[j] != Voices(entries)[i]
  {
    assert Unfreed(entries, j, i);
    UnfreedLinesDiffer(entries, j, i);
  }

  // ---- The number of voices ----

  /** How many lines sound at once when line i starts, line i included. */
  function Depth(entries: seq<Entry>, i: nat): nat {
    |Sounding(entries, i)| + 1
  }

  function MaxVoice(voices: seq<nat>): int {
    if voices == [] then -1 else
      var rest := MaxVoice(voices[..|voices| - 1]);
      if voices[|voices| - 1] > rest then voices[|voices| - 1] else rest
  }

  lemma {:induction false} MaxVoiceIsMax(voices: seq<nat>)
    ensures forall i | 0 <= i < |voices| :: voices[i] <= MaxVoice(voices)
    ensures voices != [] ==> exists i | 0 <= i < |voices| :: voices[i] == MaxVoice(voices)
  {
    if voices != [] {
      var init := voices[..|voices| - 1];
      MaxVoiceIsMax(init);
      if MaxVoice(voices) == MaxVoice(init) && init != [] {
        var i :| 0 <= i < |init| && init[i] == MaxVoice(init);
        assert voices[i] == MaxVoice(voices);
      } else {
        assert voices[|voices| - 1] == MaxVoice(voices);
      }
    }
  }

  /** Distinctly coloured items are no more than the colours. */
  lemma {:induction false} Pigeonhole(items: set<nat>, colour: seq<nat>, colours: set<nat>)
    requires forall j | j in items :: j < |colour| && colour[j] in colours
    requires forall j, l | j in items && l in items && j != l :: colour[j] != colour[l]
    ensures |items| <= |colours|
    decreases |items|
  {
    if items != {} {
      var j :| j in items;
      Pigeonhole(items - {j}, colour, colours - {colour[j]});
    }
  }

  predicate Taken(items: set<nat>, colour: seq<nat>, v: nat) {
    exists j | j in items :: j < |colour| && colour[j] == v
  }

  /** Items of every colour below m are at least m. */
  lemma {:induction false} EveryColourTaken(items: set<nat>, colour: seq<nat>, m: nat)
    requires forall v: nat | v < m :: Taken(items, colour, v)
    ensures m <= |items|
  {
    if m > 0 {
      assert Taken(items, colour, m - 1);
      var j :| j in items && j < |colour| && colour[j] == m - 1;
      forall v: nat {:trigger Taken(items - {j}, colour, v)} | v < m - 1
        ensures Taken(items - {j}, colour, v)
      {
        assert Taken(items, colour, v);
        var l :| l in items && l < |colour| && colour[l] == v;
        assert l in items - {j};
      }
      EveryColourTaken(items - {j}, colour, m - 1);
    }
  }

  /** A colouring that keeps overlapping lines apart. */
  predicate ProperColouring(entries: seq<Entry>, colour: seq<nat>) {
    && |colour| == |entries|
    && forall i, j | 0 <= j < i < |entries| && Overlaps(entries, j, i) :: colour[j] != colour[i]
  }

  function Below(m: nat): (s: set<nat>)
    ensures |s| == m
    ensures forall v: nat :: v in s <==> v < m
  {
    if m == 0 then {} else Below(m - 1) + {m - 1}
  }

  /** Whatever the colouring, the lines sounding together need as many colours. */
  lemma DepthNeedsColours(entries: seq<Entry>, colour: seq<nat>, m: nat, i: nat)
    requires SortedByStart(entries) && ProperColouring(entries, colour) && i < |entries|
    requires forall l | 0 <= l < |entries| :: colour[l] < m
    ensures Depth(entries, i) <= m
  {
    var together := Sounding(entries, i) + {i};
    forall j, l | j in together && l in together && j < l
      ensures colour[j] != colour[l]
    {
      assert Overlaps(entries, j, l);
    }
    Pigeonhole(together, colour, Below(m));
  }

  /** A line takes voice v only while v other lines are sounding. */
  lemma VoiceWithinDepth(entries: seq<Entry>, i: nat)
    requires SortedByStart(entries) && i < |entries|
    ensures Voices(entries)[i] < Depth(entries, i)
  {
    SoundingLinesHoldVoices(entries, i);
    VoiceOf(entries, i);
    var voices := Assigned(entries, i).voices;
    forall v: nat {:trigger Taken(Sounding(entries, i), voices, v)} | v < Voices(entries)[i]
      ensures Taken(Sounding(entries, i), voices, v)
    {
      assert v in Held(entries, i);
    }
    EveryColourTaken(Sounding(entries, i), voices, Voices(entries)[i]);
  }

  lemma GreedyIsProper(entries: seq<Entry>)
    requires SortedByStart(entries)
    ensures ProperColouring(entries, Voices(entries))
  {
    forall i, j | 0 <= j < i < |entries| && Overlaps(entries, j, i)
      ensures Voices(entries)[j] != Voices(entries)[i]
    {
      OverlappingLinesDiffer(entries, j, i);
    }
  }

  /** The voices used number exactly the greatest overlap depth. */
  lemma VoicesMatchDepth(entries: seq<Entry>)
    requires SortedByStart(entries) && entries != []
    ensures forall i | 0 <= i < |entries| :: Depth(entries, i) <= MaxVoice(Voices(entries)) + 1
    ensures exists i | 0 <= i < |entries| :: Depth(entries, i) == MaxVoice(Voices(entries)) + 1
  {
    var voices := Voices(entries);
    MaxVoiceIsMax(voices);
    GreedyIsProper(entries);
    forall i | 0 <= i < |entries|
      ensures Depth(entries, i) <= MaxVoice(voices) + 1
    {
      DepthNeedsColours(entries, voices, MaxVoice(voices) + 1, i);
    }
    var top :| 0 <= top < |voices| && voices[top] == MaxVoice(voices);
    VoiceWithinDepth(entries, top);
  }

  /** No proper colouring uses fewer colours than the greedy one uses voices. */
  lemma GreedyIsOptimal(entries: seq<Entry>, colour: seq<nat>, m: nat)
    requires SortedByStart(entries) && ProperColouring(entries, colour)
    requires forall i | 0 <= i < |entries| :: colour[i] < m
    ensures MaxVoice(Voices(entries)) + 1 <= m
  {
    if entries != [] {
      MaxVoiceIsMax(Voices(entries));
      var top :| 0 <= top < |entries| && Voices(entries)[top] == MaxVoice(Voices(entries));
      VoiceWithinDepth(entries, top);
      DepthNeedsColours(entries, colour, m, top);
    }
  }

  /**
   * Sorting is needed. The second line frees the first one's voice although the third, listed last
   * but starting earlier, overlaps the first.
   */
  lemma UnsortedLinesMayShare()
    ensures var entries := [Entry([], 10, Some(20), []), Entry([], 30, None, []), Entry([], 12, Some(15), [])];
      Overlaps(entries, 0, 2) && Voices(entries)[0] == Voices(entries)[2]
  {
    var entries := [Entry([], 10, Some(20), []), Entry([], 30, None, []), Entry([], 12, Some(15), [])];
    assert Assigned(entries, 0) == State(map[], []);
    assert Expired(map[], 10) == map[];
    assert Assigned(entries, 1) == State(map[0 := 20], [0]);
    assert Expired(map[0 := 20], 30) == map[];
    assert Assigned(entries, 2) == State(map[0 := 12], [0, 0]);
    assert Expired(map[0 := 12], 12) == map[];
    assert Assigned(entries, 3).voices == [0, 0, 0];
  }
}
