/** Texts as UTF-8 bytes, trimming, and cutting cues out of a trimmed text. */
module LyricsText {
  import opened LyricsModel

  // ---- UTF-8 ----

  function EncodeChar(c: char): (bytes: Bytes)
    ensures bytes != []
  {
    var n := c as int;
    if n < 0x80 then [n as byte]
    else if n < 0x800 then [(0xC0 + n / 0x40) as byte, (0x80 + n % 0x40) as byte]
    else if n < 0x1_0000 then [(0xE0 + n / 0x1000) as byte, (0x80 + n / 0x40 % 0x40) as byte, (0x80 + n % 0x40) as byte]
    else
      [(0xF0 + n / 0x4_0000) as byte, (0x80 + n / 0x1000 % 0x40) as byte,
       (0x80 + n / 0x40 % 0x40) as byte, (0x80 + n % 0x40) as byte]
  }

  function Encode(s: string): Bytes {
    if s == "" then [] else Encode(s[..|s| - 1]) + EncodeChar(s[|s| - 1])
  }

  lemma EncodeNext(s: string, c: char)
    ensures Encode(s + [c]) == Encode(s) + EncodeChar(c)
  {
    hide EncodeChar;
    assert (s + [c])[..|s|] == s;
  }

  lemma {:induction false} EncodeAppend(a: string, b: string)
    ensures Encode(a + b) == Encode(a) + Encode(b)
  {
    hide Encode, EncodeChar;
    if b == "" {
      NothingEncodes();
      assert a + b == a && Encode(a) + [] == Encode(a);
    } else {
      var init, last := b[..|b| - 1], b[|b| - 1];
      assert b == init + [last] && a + b == (a + init) + [last];
      EncodeAppend(a, init);
      EncodeNext(a + init, last);
      EncodeNext(init, last);
    }
  }

  lemma NothingEncodes()
    ensures Encode("") == []
  {
  }

  /** Reading an encoded character back, as section 3 of RFC 3629 lays its bits out. */
  function DecodeChar(bytes: Bytes): int {
    if |bytes| == 1 then bytes[0] as int
    else if |bytes| == 2 then bytes[0] as int % 0x20 * 0x40 + bytes[1] as int % 0x40
    else if |bytes| == 3 then (bytes[0] as int % 0x10 * 0x40 + bytes[1] as int % 0x40) * 0x40 + bytes[2] as int % 0x40
    else if |bytes| == 4 then
      ((bytes[0] as int % 0x08 * 0x40 + bytes[1] as int % 0x40) * 0x40 + bytes[2] as int % 0x40) * 0x40
      + bytes[3] as int % 0x40
    else -1
  }

  /** The first byte tells the length; the others are continuation bytes. */
  predicate WellFormed(bytes: Bytes) {
    && 1 <= |bytes| <= 4
    && (|bytes| == 1 <==> bytes[0] < 0x80) && (|bytes| == 2 <==> 0xC2 <= bytes[0] < 0xE0)
    && (|bytes| == 3 <==> 0xE0 <= bytes[0] < 0xF0) && (|bytes| == 4 <==> 0xF0 <= bytes[0] < 0xF5)
    && forall i | 1 <= i < |bytes| :: 0x80 <= bytes[i] < 0xC0
  }

  lemma LeadBits(x: int)
    ensures 0 <= x < 0x40 ==> (0x80 + x) % 0x40 == x
    ensures 0 <= x < 0x20 ==> (0xC0 + x) % 0x20 == x
    ensures 0 <= x < 0x10 ==> (0xE0 + x) % 0x10 == x
    ensures 0 <= x < 0x08 ==> (0xF0 + x) % 0x08 == x
  {
  }

  lemma SixBits(n: int)
    ensures n == n / 0x40 * 0x40 + n % 0x40
    ensures n / 0x1000 == n / 0x40 / 0x40 && n / 0x4_0000 == n / 0x1000 / 0x40
  {
  }

  lemma EncodeCharIsWellFormed(c: char)
    ensures WellFormed(EncodeChar(c))
  {
  }

  lemma LongCharDecodes(c: char)
    requires c as int >= 0x1_0000
    ensures DecodeChar(EncodeChar(c)) == c as int
  {
    var n := c as int;
    var q, r, h := n / 0x40, n / 0x1000, n / 0x4_0000;
    SixBits(n);
    SixBits(q);
    SixBits(r);
    var bytes := EncodeChar(c);
    assert bytes ==
      [(0xF0 + h) as byte, (0x80 + r % 0x40) as byte, (0x80 + q % 0x40) as byte, (0x80 + n % 0x40) as byte];
    hide EncodeChar;
    LeadBits(n % 0x40);
    LeadBits(q % 0x40);
    LeadBits(r % 0x40);
    LeadBits(h);
  }

  lemma EncodeCharDecodes(c: char)
    ensures WellFormed(EncodeChar(c)) && DecodeChar(EncodeChar(c)) == c as int
  {
    hide WellFormed;
    EncodeCharIsWellFormed(c);
    var n := c as int;
    if n >= 0x1_0000 {
      LongCharDecodes(c);
    } else {
      SixBits(n);
      SixBits(n / 0x40);
      LeadBits(n % 0x40);
      LeadBits(n / 0x40 % 0x40);
      LeadBits(n / 0x40);
      LeadBits(n / 0x1000);
    }
  }

  /** Only a line feed has the byte of a line feed. */
  lemma {:induction false} EncodeLineFeed(s: string)
    ensures 0x0A in Encode(s) <==> '\n' in s
  {
    if s != "" {
      var init, last := s[..|s| - 1], s[|s| - 1];
      EncodeLineFeed(init);
      EncodeCharDecodes(last);
      assert s == init + [last];
      assert 0x0A in EncodeChar(last) <==> last == '\n';
    }
  }

  // ---- Trimming ----

  /** Unicode White_Space. */
  predicate IsSpace(c: char) {
    var n := c as int;
    0x09 <= n <= 0x0D || n == 0x20 || n == 0x85 || n == 0xA0 || n == 0x1680 || 0x2000 <= n <= 0x200A
    || n == 0x2028 || n == 0x2029 || n == 0x202F || n == 0x205F || n == 0x3000
  }

  function TrimLeft(s: string): string {
    if s != "" && IsSpace(s[0]) then TrimLeft(s[1..]) else s
  }

  function TrimRight(s: string): string {
    if s != "" && IsSpace(s[|s| - 1]) then TrimRight(s[..|s| - 1]) else s
  }

  function Trim(s: string): string {
    TrimRight(TrimLeft(s))
  }

  predicate IsBlank(s: string) {
    forall c | c in s :: IsSpace(c)
  }

  lemma {:induction false} TrimLeftSplits(s: string) returns (blank: string)
    ensures s == blank + TrimLeft(s) && IsBlank(blank)
    ensures TrimLeft(s) != "" ==> !IsSpace(TrimLeft(s)[0])
  {
    hide IsSpace;
    if s != "" && IsSpace(s[0]) {
      var rest := TrimLeftSplits(s[1..]);
      blank := [s[0]] + rest;
      assert s == [s[0]] + s[1..];
      assert [s[0]] + (rest + TrimLeft(s)) == blank + TrimLeft(s);
    } else {
      blank := "";
    }
  }

  lemma {:induction false} TrimLeftOfBlank(s: string)
    requires IsBlank(s)
    ensures TrimLeft(s) == ""
  {
    if s != "" {
      TrimLeftOfBlank(s[1..]);
    }
  }

  lemma {:induction false} TrimRightOfBlank(s: string)
    requires IsBlank(s)
    ensures TrimRight(s) == ""
  {
    if s != "" {
      TrimRightOfBlank(s[..|s| - 1]);
    }
  }

  lemma {:induction false} TrimRightAfter(before: string, s: string)
    requires s != "" && !IsSpace(s[0])
    ensures TrimRight(before + s) == before + TrimRight(s)
  {
    if IsSpace(s[|s| - 1]) {
      var init := s[..|s| - 1];
      assert (before + s)[..|before + s| - 1] == before + init;
      TrimRightAfter(before, init);
    }
  }

  lemma {:induction false} TrimRightSplits(s: string) returns (blank: string)
    ensures s == TrimRight(s) + blank && IsBlank(blank)
  {
    if s != "" && IsSpace(s[|s| - 1]) {
      var rest := TrimRightSplits(s[..|s| - 1]);
      blank := rest + [s[|s| - 1]];
    } else {
      blank := "";
    }
  }

  /** Trimming takes all white space off both ends and nothing else. */
  lemma TrimIs(s: string) returns (before: string, after: string)
    ensures s == before + Trim(s) + after && IsBlank(before) && IsBlank(after)
    ensures Trim(s) != "" ==> !IsSpace(Trim(s)[0]) && !IsSpace(Trim(s)[|Trim(s)| - 1])
  {
    before := TrimLeftSplits(s);
    after := TrimRightSplits(TrimLeft(s));
    TrimRightStops(TrimLeft(s));
  }

  lemma {:induction false} TrimRightStops(s: string)
    ensures TrimRight(s) != "" ==> !IsSpace(TrimRight(s)[|TrimRight(s)| - 1])
  {
    if s != "" && IsSpace(s[|s| - 1]) {
      TrimRightStops(s[..|s| - 1]);
    }
  }

  /** The code points with the Unicode property White_Space. */
  lemma SpacesAre(c: char)
    ensures IsSpace(c) <==> c as int in {
      0x09, 0x0A, 0x0B, 0x0C, 0x0D, 0x20, 0x85, 0xA0, 0x1680, 0x2000, 0x2001, 0x2002, 0x2003, 0x2004, 0x2005, 0x2006,
      0x2007, 0x2008, 0x2009, 0x200A, 0x2028, 0x2029, 0x202F, 0x205F, 0x3000}
  {
  }

  /** How many bytes trimming takes off the left. */
  function LeftTrim(s: string): int {
    |Encode(s)| - |Encode(TrimLeft(s))|
  }

  /** Where the text ends once trimmed on the right, but never before it starts. */
  function TrimmedEnd(s: string): int {
    var end := |Encode(s)| - (|Encode(s)| - |Encode(TrimRight(s))|);
    if end < LeftTrim(s) then LeftTrim(s) else end
  }

  /** Trimming the text is cutting its bytes. */
  lemma TrimIsSlice(s: string)
    ensures 0 <= LeftTrim(s) <= TrimmedEnd(s) <= |Encode(s)|
    ensures Encode(Trim(s)) == Encode(s)[LeftTrim(s)..TrimmedEnd(s)]
  {
    var left := TrimLeftSplits(s);
    var middle := TrimLeft(s);
    if middle == "" {
      assert s == left;
      TrimRightOfBlank(s);
    } else {
      TrimRightAfter(left, middle);
      var right := TrimRightSplits(middle);
      hide Encode, TrimRight, TrimLeft, IsBlank, IsSpace;
      MiddleIsSlice(s, left, TrimRight(middle), right);
    }
  }

  lemma MiddleIsSlice(s: string, left: string, middle: string, right: string)
    requires s == left + (middle + right) && TrimLeft(s) == middle + right && TrimRight(s) == left + middle
    ensures 0 <= LeftTrim(s) <= TrimmedEnd(s) <= |Encode(s)|
    ensures Encode(middle) == Encode(s)[LeftTrim(s)..TrimmedEnd(s)]
  {
    hide Encode, TrimRight, TrimLeft;
    EncodeAppend(left, middle + right);
    EncodeAppend(middle, right);
    EncodeAppend(left, middle);
    SliceOfThree(Encode(left), Encode(middle), Encode(right));
  }

  lemma SliceOfThree(a: Bytes, b: Bytes, c: Bytes)
    ensures (a + (b + c))[|a|..|a| + |b|] == b
  {
  }

  lemma BlankIsEmpty(s: string)
    requires IsBlank(s)
    ensures LeftTrim(s) == TrimmedEnd(s) == |Encode(s)|
  {
    TrimLeftOfBlank(s);
    TrimRightOfBlank(s);
  }

  // ---- Cutting ----

  /** A stretch of the raw text with the cue it carries. */
  datatype Segment = Segment(from: nat, to: nat, cue: Cue)

  /** The part of a segment between left and end, with offsets counted from left; nothing if that is empty. */
  function CutCue(raw: Bytes, left: nat, end: nat, seg: Segment): seq<Cue>
    requires left <= end <= |raw|
  {
    var from, to := if seg.from < left then left else seg.from, if seg.to < end then seg.to else end;
    if from < to then [seg.cue.(value := raw[from..to], byteStart := from - left, byteEnd := to - left - 1)] else []
  }

  function CutCues(raw: Bytes, left: nat, end: nat, segs: seq<Segment>): seq<Cue>
    requires left <= end <= |raw|
  {
    if segs == [] then [] else CutCues(raw, left, end, segs[..|segs| - 1]) + CutCue(raw, left, end, segs[|segs| - 1])
  }

  lemma CutCuesNext(raw: Bytes, left: nat, end: nat, segs: seq<Segment>, k: nat)
    requires left <= end <= |raw| && k < |segs|
    ensures CutCues(raw, left, end, segs[..k + 1]) ==
      CutCues(raw, left, end, segs[..k]) + CutCue(raw, left, end, segs[k])
  {
    assert segs[..k + 1][..k] == segs[..k];
  }

  predicate InOrder(segs: seq<Segment>) {
    && (forall i | 0 <= i < |segs| :: segs[i].from <= segs[i].to)
    && forall i, j | 0 <= i < j < |segs| :: segs[i].to <= segs[j].from
  }

  lemma CutCueFits(raw: Bytes, left: nat, end: nat, seg: Segment)
    requires left <= end <= |raw|
    ensures forall cue | cue in CutCue(raw, left, end, seg) :: CueFits(cue, raw[left..end])
  {
    var from, to := if seg.from < left then left else seg.from, if seg.to < end then seg.to else end;
    if from < to {
      SliceOfSlice(raw, left, end, from, to);
    }
  }

  lemma SliceOfSlice(raw: Bytes, left: nat, end: nat, from: nat, to: nat)
    requires left <= from <= to <= end <= |raw|
    ensures raw[left..end][from - left..to - left] == raw[from..to]
  {
    var middle := raw[left..end];
    forall k | 0 <= k < to - from
      ensures middle[from - left..to - left][k] == raw[from..to][k]
    {
      assert middle[from - left + k] == raw[from + k];
    }
  }

  /** Cues cut from segments in order fit the trimmed text, in order and apart, and end before the last segment does. */
  lemma {:induction false} CutCuesFit(raw: Bytes, left: nat, end: nat, segs: seq<Segment>)
    requires left <= end <= |raw| && InOrder(segs)
    ensures CuesFit(CutCues(raw, left, end, segs), raw[left..end])
    ensures segs != [] ==> forall cue | cue in CutCues(raw, left, end, segs) :: cue.byteEnd < segs[|segs| - 1].to - left
  {
    if segs != [] {
      var init, last := segs[..|segs| - 1], segs[|segs| - 1];
      CutCuesFit(raw, left, end, init);
      CutCueFits(raw, left, end, last);
      var before, added := CutCues(raw, left, end, init), CutCue(raw, left, end, last);
      forall i | 0 <= i < |before|
        ensures before[i].byteEnd < last.from - left
      {
        assert before[i] in before;
      }
      assert forall i | 0 <= i < |added| :: added[i] in added && added[i].byteStart >= last.from - left;
      hide CueFits, CutCue;
      AppendedFit(before, added, raw[left..end]);
    }
  }

  lemma AppendedFit(a: seq<Cue>, b: seq<Cue>, value: Bytes)
    requires CuesFit(a, value) && |b| <= 1 && forall cue | cue in b :: CueFits(cue, value)
    requires forall i, j | 0 <= i < |a| && 0 <= j < |b| :: a[i].byteEnd < b[j].byteStart
    ensures CuesFit(a + b, value)
  {
    hide CueFits;
    assert forall j | 0 <= j < |b| :: b[j] in b;
  }

  lemma {:induction false} NothingToCut(raw: Bytes, left: nat, end: nat, segs: seq<Segment>)
    requires left == end <= |raw|
    ensures CutCues(raw, left, end, segs) == []
  {
    if segs != [] {
      NothingToCut(raw, left, end, segs[..|segs| - 1]);
    }
  }

  // ---- What survives the cut ----

  lemma {:induction false} TrimLeftKeeps(x: string, y: string)
    requires !IsBlank(x)
    ensures TrimLeft(x) != "" && TrimLeft(x + y) == TrimLeft(x) + y
  {
    if IsSpace(x[0]) {
      assert (x + y)[1..] == x[1..] + y && x == [x[0]] + x[1..];
      TrimLeftKeeps(x[1..], y);
    }
  }

  lemma {:induction false} TrimRightKeeps(x: string, y: string)
    requires !IsBlank(y)
    ensures TrimRight(y) != "" && TrimRight(x + y) == x + TrimRight(y)
  {
    if IsSpace(y[|y| - 1]) {
      var init := y[..|y| - 1];
      assert (x + y)[..|x + y| - 1] == x + init && y == init + [y[|y| - 1]];
      TrimRightKeeps(x, init);
    }
  }

  lemma Regroup(a: string, b: string, c: string)
    ensures (a + b) + c == a + (b + c)
  {
  }

  /** A cue keeps the times and the agent of its segment, and lies within it. */
  predicate CutFrom(cue: Cue, seg: Segment, left: nat) {
    && cue.start == seg.cue.start && cue.end == seg.cue.end && cue.agent == seg.cue.agent
    && seg.from <= cue.byteStart + left && cue.byteEnd + left < seg.to
  }

  lemma {:induction false} CuesComeFromSegments(raw: Bytes, left: nat, end: nat, segs: seq<Segment>)
    requires left <= end <= |raw|
    ensures forall cue | cue in CutCues(raw, left, end, segs) :: exists seg | seg in segs :: CutFrom(cue, seg, left)
  {
    if segs != [] {
      var init, last := segs[..|segs| - 1], segs[|segs| - 1];
      CuesComeFromSegments(raw, left, end, init);
      assert segs == init + [last];
      assert forall cue | cue in CutCue(raw, left, end, last) :: CutFrom(cue, last, left);
      hide CutFrom, CutCue;
    }
  }

  // ---- Spans of a text ----

  /** A part of the raw text, with the cue it carries if it is timed. */
  datatype Span = Span(text: string, cue: Option<Cue>)

  function SpansText(spans: seq<Span>): string {
    if spans == [] then "" else SpansText(spans[..|spans| - 1]) + spans[|spans| - 1].text
  }

  /** The timed spans with where they lie, counted in bytes. */
  function Segments(spans: seq<Span>): seq<Segment> {
    if spans == [] then [] else
      var init, last := spans[..|spans| - 1], spans[|spans| - 1];
      var from := |Encode(SpansText(init))|;
      Segments(init) + if last.cue.Some? then [Segment(from, from + |Encode(last.text)|, last.cue.value)] else []
  }

  lemma SpansNext(spans: seq<Span>, span: Span)
    ensures SpansText(spans + [span]) == SpansText(spans) + span.text
    ensures var from := |Encode(SpansText(spans))|;
      Segments(spans + [span]) == Segments(spans) +
        if span.cue.Some? then [Segment(from, from + |Encode(span.text)|, span.cue.value)] else []
  {
    assert (spans + [span])[..|spans|] == spans;
  }

  lemma OrderNext(segs: seq<Segment>, seg: Segment)
    requires InOrder(segs) && seg.from <= seg.to && forall s | s in segs :: s.to <= seg.from
    ensures InOrder(segs + [seg])
  {
    assert forall i | 0 <= i < |segs| :: segs[i] in segs;
  }

  lemma {:induction false} SegmentsInOrder(spans: seq<Span>)
    ensures InOrder(Segments(spans))
    ensures forall seg | seg in Segments(spans) :: seg.to <= |Encode(SpansText(spans))|
  {
    hide Encode, InOrder;
    if spans == [] {
      NoSegmentsInOrder();
    } else {
      var init, last := spans[..|spans| - 1], spans[|spans| - 1];
      SegmentsInOrder(init);
      EncodeAppend(SpansText(init), last.text);
      if last.cue.Some? {
        var from := |Encode(SpansText(init))|;
        OrderNext(Segments(init), Segment(from, from + |Encode(last.text)|, last.cue.value));
      } else {
        assert Segments(spans) == Segments(init);
      }
    }
  }

  lemma NoSegmentsInOrder()
    ensures InOrder([])
  {
  }

  lemma {:induction false} SegmentsAreSpans(spans: seq<Span>)
    ensures forall seg | seg in Segments(spans) :: exists i | 0 <= i < |spans| :: spans[i].cue == Some(seg.cue)
  {
    if spans != [] {
      var n := |spans| - 1;
      SegmentsAreSpans(spans[..n]);
      forall seg | seg in Segments(spans)
        ensures exists i | 0 <= i < |spans| :: spans[i].cue == Some(seg.cue)
      {
        if seg in Segments(spans[..n]) {
          var i :| 0 <= i < n && spans[..n][i].cue == Some(seg.cue);
          assert spans[i].cue == Some(seg.cue);
        } else {
          assert spans[n].cue == Some(seg.cue);
        }
      }
    }
  }

  /** The cues the program cuts for the spans. */
  function CutSpans(spans: seq<Span>): seq<Cue> {
    var raw := SpansText(spans);
    TrimIsSlice(raw);
    CutCues(Encode(raw), LeftTrim(raw), TrimmedEnd(raw), Segments(spans))
  }

  // ---- What a span should get ----

  /** What trimming the whole text leaves of one part of it. */
  function Kept(before: string, text: string, after: string): string {
    var t := if IsBlank(before) then TrimLeft(text) else text;
    if IsBlank(after) then TrimRight(t) else t
  }

  /** A timed span's cue: just what is left of its own text, where that stands in the trimmed line. */
  function OwnCue(before: string, span: Span, after: string): seq<Cue> {
    var text := Kept(before, span.text, after);
    if span.cue.None? || text == "" then [] else
      var from := |Encode(TrimLeft(before))|;
      [span.cue.value.(value := Encode(text), byteStart := from, byteEnd := from + |Encode(text)| - 1)]
  }

  /** The own cues of the spans of a line that goes on with `after`. */
  function OwnCues(spans: seq<Span>, after: string): seq<Cue> {
    if spans == [] then [] else
      var init, last := spans[..|spans| - 1], spans[|spans| - 1];
      OwnCues(init, last.text + after) + OwnCue(SpansText(init), last, after)
  }

  lemma {:induction false} TrimLeftSkips(blank: string, s: string)
    requires IsBlank(blank)
    ensures TrimLeft(blank + s) == TrimLeft(s)
  {
    if blank == "" {
      assert blank + s == s;
    } else {
      assert (blank + s)[1..] == blank[1..] + s;
      TrimLeftSkips(blank[1..], s);
    }
  }

  lemma {:induction false} TrimRightSkips(s: string, blank: string)
    requires IsBlank(blank)
    ensures TrimRight(s + blank) == TrimRight(s)
  {
    if blank == "" {
      assert s + blank == s;
    } else {
      var init := blank[..|blank| - 1];
      assert (s + blank)[..|s + blank| - 1] == s + init;
      TrimRightSkips(s, init);
    }
  }

  /** Where the trimmed text starts, seen from any place in it. */
  lemma LeftTrimAt(a: string, b: string)
    ensures LeftTrim(a + b) == |Encode(a)| - |Encode(TrimLeft(a))| + if IsBlank(a) then LeftTrim(b) else 0
  {
    assert Encode("") == [];
    hide Encode, TrimLeft, IsBlank;
    EncodeAppend(a, b);
    if IsBlank(a) {
      TrimLeftSkips(a, b);
      TrimLeftOfBlank(a);
    } else {
      TrimLeftKeeps(a, b);
      EncodeAppend(TrimLeft(a), b);
    }
  }

  /** Where it ends. */
  lemma TrimmedEndAt(a: string, b: string)
    ensures IsBlank(b) ==> TrimRight(a + b) == TrimRight(a)
    ensures !IsBlank(b) ==> |Encode(a)| <= TrimmedEnd(a + b)
  {
    if IsBlank(b) {
      TrimRightSkips(a, b);
    } else {
      TrimRightKeeps(a, b);
      hide Encode, TrimRight, LeftTrim;
      EncodeAppend(a, TrimRight(b));
    }
  }

  lemma TrimIsShorter(s: string)
    ensures |Encode(TrimLeft(s))| <= |Encode(s)| && |Encode(TrimRight(s))| <= |Encode(s)|
    ensures IsBlank(s) ==> TrimLeft(s) == "" && TrimRight(s) == ""
  {
    var left := TrimLeftSplits(s);
    var right := TrimRightSplits(s);
    if IsBlank(s) {
      TrimLeftOfBlank(s);
      TrimRightOfBlank(s);
    }
    hide Encode, TrimLeft, TrimRight;
    EncodeAppend(left, TrimLeft(s));
    EncodeAppend(TrimRight(s), right);
  }

  function Max(a: int, b: int): int {
    if a < b then b else a
  }

  function Min(a: int, b: int): int {
    if a < b then a else b
  }

  /** The left end of what is kept: the later of the span's start and the trimmed line's. */
  lemma KeptFrom(raw: string, a: string, t: string, b: string) returns (blank: string, rest: string)
    requires raw == a + t + b && (!IsBlank(t) || !IsBlank(a))
    ensures t == blank + rest && rest == (if IsBlank(a) then TrimLeft(t) else t) && (!IsBlank(t) ==> !IsBlank(rest))
    ensures Max(|Encode(a)|, LeftTrim(raw)) == |Encode(a + blank)| == LeftTrim(raw) + |Encode(TrimLeft(a))|
  {
    Regroup(a, t, b);
    LeftTrimAt(a, t + b);
    TrimIsShorter(a);
    assert Encode("") == [];
    if IsBlank(a) {
      blank := TrimLeftSplits(t);
      rest := TrimLeft(t);
      TrimLeftKeeps(t, "");
      assert IsBlank(rest) ==> IsBlank(t);
      LeftTrimAt(t, b);
      hide Encode, TrimLeft, IsBlank;
      EncodeAppend(a, blank);
      EncodeAppend(blank, rest);
    } else {
      blank, rest := "", t;
      assert a + "" == a;
    }
  }

  /** The right end: the earlier of the span's end and the trimmed line's. */
  lemma KeptTo(raw: string, a: string, t: string, b: string, lead: string, rest: string) returns (blank: string)
    requires raw == a + t + b && t == lead + rest && LeftTrim(raw) <= |Encode(a + lead)| &&
      (IsBlank(rest) ==> !IsBlank(b))
    ensures rest == (if IsBlank(b) then TrimRight(rest) else rest) + blank
    ensures Min(|Encode(a + t)|, TrimmedEnd(raw)) ==
      |Encode(a + lead)| + |Encode(if IsBlank(b) then TrimRight(rest) else rest)|
  {
    Regroup(a, lead, rest);
    TrimmedEndAt(a + t, b);
    TrimIsShorter(rest);
    if IsBlank(b) {
      blank := TrimRightSplits(rest);
      TrimRightKeeps(a + lead, rest);
      hide Encode, TrimRight, TrimLeft, IsBlank;
      EncodeAppend(a + lead, TrimRight(rest));
      EncodeAppend(a + lead, rest);
    } else {
      blank := "";
      hide Encode, TrimRight, TrimLeft, IsBlank;
      EncodeAppend(a + lead, rest);
    }
  }

  lemma NothingKept(a: string, t: string, b: string)
    requires IsBlank(t) && (IsBlank(a) || IsBlank(b))
    ensures Kept(a, t, b) == ""
    ensures LeftTrim(a + t + b) >= |Encode(a + t)| || TrimmedEnd(a + t + b) <= |Encode(a)|
  {
    TrimIsShorter(t);
    TrimIsShorter(a);
    if IsBlank(a) {
      assert IsBlank(a + t);
      LeftTrimAt(a + t, b);
      TrimIsShorter(a + t);
      TrimIsShorter(b);
    } else {
      TrimmedEndAt(a + t, b);
      TrimRightSkips(a, t);
      Regroup(a, t, b);
      LeftTrimAt(a, t + b);
    }
  }

  lemma MiddleSlice(raw: string, a: string, b: string, c: string)
    requires raw == a + (b + c)
    ensures |Encode(a)| + |Encode(b)| <= |Encode(raw)|
    ensures Encode(raw)[|Encode(a)|..|Encode(a)| + |Encode(b)|] == Encode(b)
  {
    hide Encode;
    EncodeAppend(a, b + c);
    EncodeAppend(b, c);
    SliceOfThree(Encode(a), Encode(b), Encode(c));
  }

  lemma FourParts(raw: string, a: string, t: string, b: string, lead: string, kept: string, blank: string)
    requires raw == a + t + b && t == lead + (kept + blank)
    ensures raw == (a + lead) + (kept + (blank + b))
  {
  }

  lemma CutCueAt(raw: Bytes, left: nat, end: nat, seg: Segment, from: nat, to: nat)
    requires left <= end <= |raw| && from <= to <= |raw|
    requires from == Max(seg.from, left) && to == Min(seg.to, end)
    ensures CutCue(raw, left, end, seg) ==
      if from == to then [] else [seg.cue.(value := raw[from..to], byteStart := from - left, byteEnd := to - left - 1)]
  {
  }

  lemma NonEmptyEncodes(s: string)
    ensures |Encode(s)| == 0 <==> s == ""
  {
  }

  lemma KeptCueIsOwn(raw: string, left: nat, end: nat, a: string, span: Span, b: string)
    requires raw == a + span.text + b && left == LeftTrim(raw) <= end == TrimmedEnd(raw) <= |Encode(raw)|
    requires span.cue.Some? && |Encode(a + span.text)| == |Encode(a)| + |Encode(span.text)|
    requires !(IsBlank(span.text) && (IsBlank(a) || IsBlank(b)))
    ensures CutCue(Encode(raw), left, end, Segment(|Encode(a)|, |Encode(a + span.text)|, span.cue.value)) ==
      OwnCue(a, span, b)
  {
    hide Encode, LeftTrim, TrimmedEnd, IsBlank, TrimLeft, TrimRight, Kept, CutCue, Max, Min;
    var kept, from := KeptBounds(raw, a, span.text, b);
    NonEmptyEncodes(kept);
    CutCueAt(Encode(raw), left, end, Segment(|Encode(a)|, |Encode(a + span.text)|, span.cue.value), from,
      from + |Encode(kept)|);
  }

  /** Cutting a span at the trimmed line's bounds gives its own cue. */
  lemma CutCueIsOwn(raw: string, left: nat, end: nat, a: string, span: Span, b: string)
    requires raw == a + span.text + b
    requires left == LeftTrim(raw) <= end == TrimmedEnd(raw) <= |Encode(raw)| && span.cue.Some?
    ensures CutCue(Encode(raw), left, end, Segment(|Encode(a)|, |Encode(a)| + |Encode(span.text)|, span.cue.value)) ==
      OwnCue(a, span, b)
  {
    EncodeAppend(a, span.text);
    hide Encode, LeftTrim, TrimmedEnd, IsBlank, TrimLeft, TrimRight, Kept;
    if IsBlank(span.text) && (IsBlank(a) || IsBlank(b)) {
      NothingKept(a, span.text, b);
    } else {
      KeptCueIsOwn(raw, left, end, a, span, b);
    }
  }

  lemma KeptBounds(raw: string, a: string, t: string, b: string) returns (kept: string, from: nat)
    requires raw == a + t + b && !(IsBlank(t) && (IsBlank(a) || IsBlank(b)))
    ensures kept == Kept(a, t, b)
    ensures Max(|Encode(a)|, LeftTrim(raw)) == from == LeftTrim(raw) + |Encode(TrimLeft(a))|
    ensures Min(|Encode(a + t)|, TrimmedEnd(raw)) == from + |Encode(kept)|
    ensures from + |Encode(kept)| <= |Encode(raw)| && Encode(raw)[from..from + |Encode(kept)|] == Encode(kept)
  {
    hide IsBlank, TrimLeft, TrimRight, LeftTrim, TrimmedEnd, Encode, Max, Min;
    var lead, rest := KeptFrom(raw, a, t, b);
    kept := Kept(a, t, b);
    assert kept == if IsBlank(b) then TrimRight(rest) else rest;
    hide Kept;
    var blank := KeptTo(raw, a, t, b, lead, rest);
    from := |Encode(a + lead)|;
    FourParts(raw, a, t, b, lead, kept, blank);
    MiddleSlice(raw, a + lead, kept, blank + b);
  }

  lemma CutCuesAdd(raw: Bytes, left: nat, end: nat, segs: seq<Segment>, seg: Segment)
    requires left <= end <= |raw|
    ensures CutCues(raw, left, end, segs + [seg]) == CutCues(raw, left, end, segs) + CutCue(raw, left, end, seg)
  {
    assert (segs + [seg])[..|segs|] == segs;
  }

  lemma LastSpan(spans: seq<Span>, raw: Bytes, left: nat, end: nat)
    requires spans != [] && left <= end <= |raw|
    ensures var init, last := spans[..|spans| - 1], spans[|spans| - 1];
      var from := |Encode(SpansText(init))|;
      CutCues(raw, left, end, Segments(spans)) == CutCues(raw, left, end, Segments(init)) +
        if last.cue.Some? then CutCue(raw, left, end, Segment(from, from + |Encode(last.text)|, last.cue.value)) else []
  {
    var init, last := spans[..|spans| - 1], spans[|spans| - 1];
    hide Encode, CutCue, CutCues, SpansText;
    var from := |Encode(SpansText(init))|;
    if last.cue.Some? {
      CutCuesAdd(raw, left, end, Segments(init), Segment(from, from + |Encode(last.text)|, last.cue.value));
    } else {
      assert Segments(init) + [] == Segments(init);
    }
  }

  lemma UntimedHasNoCue(a: string, span: Span, b: string)
    requires span.cue.None?
    ensures OwnCue(a, span, b) == []
  {
  }

  /** What the cursor cuts is what each span should get, whatever the trimming takes. */
  lemma {:induction false} CutCuesAreOwn(raw: string, left: nat, end: nat, spans: seq<Span>, after: string)
    requires raw == SpansText(spans) + after && left == LeftTrim(raw) <= end == TrimmedEnd(raw) <= |Encode(raw)|
    ensures CutCues(Encode(raw), left, end, Segments(spans)) == OwnCues(spans, after)
  {
    hide Encode, LeftTrim, TrimmedEnd, CutCue, OwnCue;
    if spans != [] {
      hide CutCues, Segments;
      var init, last := spans[..|spans| - 1], spans[|spans| - 1];
      Regroup(SpansText(init), last.text, after);
      CutCuesAreOwn(raw, left, end, init, last.text + after);
      LastSpan(spans, Encode(raw), left, end);
      if last.cue.Some? {
        CutCueIsOwn(raw, left, end, SpansText(init), last, after);
      } else {
        UntimedHasNoCue(SpansText(init), last, after);
      }
    }
  }

  lemma SpansAreOwn(spans: seq<Span>)
    ensures CutSpans(spans) == OwnCues(spans, "")
  {
    var raw := SpansText(spans);
    TrimIsSlice(raw);
    assert raw + "" == raw;
    hide Encode, LeftTrim, TrimmedEnd, CutCues, Segments, OwnCues, SpansText;
    CutCuesAreOwn(raw, LeftTrim(raw), TrimmedEnd(raw), spans, "");
  }

  /** The cue of the span at i, with the text before and after it. */
  predicate IsOwnCue(spans: seq<Span>, after: string, i: nat, cue: Cue) {
    i < |spans| && cue in OwnCue(SpansText(spans[..i]), spans[i], SpansText(spans[i + 1..]) + after)
  }

  lemma OwnCueOfInit(spans: seq<Span>, after: string, i: nat, cue: Cue)
    requires i < |spans| - 1
    ensures IsOwnCue(spans[..|spans| - 1], spans[|spans| - 1].text + after, i, cue) <==> IsOwnCue(spans, after, i, cue)
  {
    var init, last := spans[..|spans| - 1], spans[|spans| - 1];
    hide OwnCue, SpansText;
    assert init[..i] == spans[..i] && spans[i + 1..] == init[i + 1..] + [last];
    SpansNext(init[i + 1..], last);
    Regroup(SpansText(init[i + 1..]), last.text, after);
  }

  lemma OwnCueOfLast(spans: seq<Span>, after: string, cue: Cue)
    requires spans != []
    ensures var n := |spans| - 1;
      IsOwnCue(spans, after, n, cue) <==> cue in OwnCue(SpansText(spans[..n]), spans[n], after)
  {
    assert SpansText(spans[|spans|..]) + after == after;
  }

  lemma OwnCueInRange(spans: seq<Span>, after: string, cue: Cue)
    ensures forall i: nat | IsOwnCue(spans, after, i, cue) :: i < |spans|
  {
  }

  /** The cues of a line are just those of its spans. */
  lemma {:induction false} OwnCueIff(spans: seq<Span>, after: string, cue: Cue)
    ensures cue in OwnCues(spans, after) <==> exists i: nat :: IsOwnCue(spans, after, i, cue)
  {
    hide IsOwnCue, OwnCue;
    OwnCueInRange(spans, after, cue);
    if spans != [] {
      var n := |spans| - 1;
      var init, rest := spans[..n], spans[n].text + after;
      OwnCueInRange(init, rest, cue);
      OwnCueIff(init, rest, cue);
      OwnCueOfLast(spans, after, cue);
      if i: nat :| IsOwnCue(init, rest, i, cue) {
        OwnCueOfInit(spans, after, i, cue);
      }
      if i: nat :| IsOwnCue(spans, after, i, cue) {
        if i < n {
          OwnCueOfInit(spans, after, i, cue);
        }
      }
    }
  }

  lemma NonBlankIsKept(before: string, text: string, after: string)
    requires !IsBlank(text)
    ensures Kept(before, text, after) != ""
    ensures !IsBlank(before) && !IsBlank(after) ==> Kept(before, text, after) == text
  {
    var blank := TrimLeftSplits(text);
    TrimLeftKeeps(text, "");
    assert IsBlank(TrimLeft(text)) ==> IsBlank(text);
    TrimRightKeeps("", text);
    if !IsBlank(TrimLeft(text)) {
      TrimRightKeeps("", TrimLeft(text));
    }
  }

  // ---- The cues spell the line ----

  function Values(cues: seq<Cue>): Bytes {
    if cues == [] then [] else Values(cues[..|cues| - 1]) + cues[|cues| - 1].value
  }

  lemma ValuesNext(cues: seq<Cue>, more: seq<Cue>)
    requires |more| <= 1
    ensures Values(cues + more) == Values(cues) + if more == [] then [] else more[0].value
  {
    if more == [] {
      assert cues + more == cues;
    } else {
      assert (cues + more)[..|cues|] == cues;
    }
  }

  /** What is kept of two parts is what is kept of the whole. */
  lemma KeptOfTwo(a: string, t: string, b: string)
    ensures Kept("", a + t, b) == Kept("", a, t + b) + Kept(a, t, b)
  {
    if IsBlank(a) {
      TrimLeftSkips(a, t);
      TrimLeftOfBlank(a);
    } else {
      TrimLeftKeeps(a, t);
      if IsBlank(b) && IsBlank(t) {
        TrimRightSkips(TrimLeft(a), t);
        TrimRightOfBlank(t);
      } else if IsBlank(b) {
        TrimRightKeeps(TrimLeft(a), t);
      }
    }
    assert IsBlank(t + b) <==> IsBlank(t) && IsBlank(b) by {
      assert forall c :: c in t + b <==> c in t || c in b;
    }
  }

  /** When every part is timed the values of the cues, joined, are the trimmed text. */
  lemma {:induction false} OwnCuesSpell(spans: seq<Span>, after: string)
    requires forall span | span in spans :: span.text == "" || span.cue.Some?
    ensures Values(OwnCues(spans, after)) == Encode(Kept("", SpansText(spans), after))
  {
    hide Encode, Kept, OwnCue;
    if spans == [] {
      KeptOfNone(after);
    } else {
      var init, last := spans[..|spans| - 1], spans[|spans| - 1];
      assert last in spans;
      OwnCuesSpell(init, last.text + after);
      KeptOfTwo(SpansText(init), last.text, after);
      EncodeAppend(Kept("", SpansText(init), last.text + after), Kept(SpansText(init), last.text, after));
      OwnCueValue(SpansText(init), last, after);
      ValuesNext(OwnCues(init, last.text + after), OwnCue(SpansText(init), last, after));
    }
  }

  lemma KeptOfNone(after: string)
    ensures Encode(Kept("", "", after)) == []
  {
  }

  lemma OwnCueValue(before: string, span: Span, after: string)
    requires span.text == "" || span.cue.Some?
    ensures |OwnCue(before, span, after)| <= 1
    ensures Encode(Kept(before, span.text, after)) ==
      if OwnCue(before, span, after) == [] then [] else OwnCue(before, span, after)[0].value
  {
  }

  /** The cut cues fit the trimmed text. */
  lemma CutSpansFit(spans: seq<Span>)
    ensures CuesFit(CutSpans(spans), Encode(Trim(SpansText(spans))))
  {
    var raw := SpansText(spans);
    TrimIsSlice(raw);
    SegmentsInOrder(spans);
    hide Encode, LeftTrim, TrimmedEnd, Trim, SpansText, Segments, CuesFit, InOrder, CutCues;
    CutCuesFit(Encode(raw), LeftTrim(raw), TrimmedEnd(raw), Segments(spans));
  }
}
