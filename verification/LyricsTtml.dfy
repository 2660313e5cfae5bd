/**
 * TTML line text: white space collapsed across pieces as in the default mode (TTML2 sections 8.1.1
 * and 8.2.10), hard breaks, trimming, and the byte offsets of timed spans in the result.
 */
module LyricsTtml {
  import opened LyricsModel
  import opened LyricsText

  /** A run of text with the cue of its span, if timed; or a line break. */
  datatype Piece = Run(raw: string, cue: Option<Cue>) | Break

  type Runs = seq<Piece>

  // ---- Collapsing ----

  predicate IsXmlSpace(c: char) {
    c == ' ' || c == '\t' || c == '\n' || c == '\r'
  }

  predicate EndsInXmlSpace(s: string) {
    s != "" && IsXmlSpace(s[|s| - 1])
  }

  function Collapsed(s: string): string {
    if s == "" then "" else
      var init, last := s[..|s| - 1], s[|s| - 1];
      Collapsed(init) + if !IsXmlSpace(last) then [last] else if EndsInXmlSpace(init) then "" else " "
  }

  /** The characters of a text that are not TTML white space. */
  function Visible(s: string): string {
    if s == "" then "" else
      var last := s[|s| - 1];
      Visible(s[..|s| - 1]) + if last == ' ' || last == '\t' || last == '\n' || last == '\r' then "" else [last]
  }

  /** Blanks are the only white space left, never two in a row, and no other character is touched. */
  lemma {:induction false} CollapsedIsPlain(s: string)
    ensures '\t' !in Collapsed(s) && '\n' !in Collapsed(s) && '\r' !in Collapsed(s)
    ensures forall i | 0 < i < |Collapsed(s)| && Collapsed(s)[i] == ' ' :: Collapsed(s)[i - 1] != ' '
    ensures Visible(Collapsed(s)) == Visible(s)
  {
    hide Collapsed, Visible;
    if s == "" {
      CollapsedOne(' ');
    } else {
      var init, last := s[..|s| - 1], s[|s| - 1];
      CollapsedIsPlain(init);
      CollapsedIsCollapsed(init);
      assert s == init + [last];
      CollapseNext(init, last);
      VisibleNext(init, last);
      PlainNext(Collapsed(init), last, Collapsed(s));
    }
  }

  lemma PlainNext(c: string, last: char, s: string)
    requires s == c + if !IsXmlSpace(last) then [last] else if EndsInBlank(c) then "" else " "
    requires '\t' !in c && '\n' !in c && '\r' !in c
    requires forall i | 0 < i < |c| && c[i] == ' ' :: c[i - 1] != ' '
    ensures '\t' !in s && '\n' !in s && '\r' !in s
    ensures forall i | 0 < i < |s| && s[i] == ' ' :: s[i - 1] != ' '
    ensures Visible(s) ==
      Visible(c) + if last == ' ' || last == '\t' || last == '\n' || last == '\r' then "" else [last]
  {
    hide Visible;
    VisibleNext(c, last);
    VisibleNext(c, ' ');
    assert c + "" == c && Visible(c) + "" == Visible(c);
  }

  lemma VisibleNext(s: string, c: char)
    ensures Visible(s + [c]) == Visible(s) + if c == ' ' || c == '\t' || c == '\n' || c == '\r' then "" else [c]
  {
    assert (s + [c])[..|s|] == s;
  }

  /** One character: a blank for white space, else itself. */
  lemma CollapsedOne(c: char)
    ensures Collapsed([c]) == if c == ' ' || c == '\t' || c == '\n' || c == '\r' then " " else [c]
    ensures Collapsed("") == "" && Visible("") == ""
  {
    assert [c] == "" + [c];
    CollapseNext("", c);
  }

  method CollapseWhitespace(raw: string) returns (s: string)
    ensures s == Collapsed(raw)
    ensures '\t' !in s && '\n' !in s && '\r' !in s
    ensures forall i | 0 < i < |s| && s[i] == ' ' :: s[i - 1] != ' '
    ensures Visible(s) == Visible(raw)
  {
    s := "";
    var prevSpace := false;
    for i := 0 to |raw|
      invariant s == Collapsed(raw[..i]) && prevSpace == EndsInXmlSpace(raw[..i])
    {
      assert raw[..i + 1][..i] == raw[..i];
      if IsXmlSpace(raw[i]) {
        if !prevSpace {
          s := s + " ";
          prevSpace := true;
        }
      } else {
        s := s + [raw[i]];
        prevSpace := false;
      }
    }
    assert raw[..|raw|] == raw;
    CollapsedIsPlain(raw);
  }

  predicate EndsInBlank(s: string) {
    s != "" && s[|s| - 1] == ' '
  }

  /** No white space but single blanks. */
  predicate IsCollapsed(s: string) {
    forall i | 0 <= i < |s| && IsXmlSpace(s[i]) :: s[i] == ' ' && (i > 0 ==> !IsXmlSpace(s[i - 1]))
  }

  lemma {:induction false} CollapsedIsCollapsed(s: string)
    ensures IsCollapsed(Collapsed(s))
    ensures EndsInBlank(Collapsed(s)) <==> EndsInXmlSpace(s)
    ensures EndsInXmlSpace(Collapsed(s)) <==> EndsInXmlSpace(s)
  {
    if s != "" {
      CollapsedIsCollapsed(s[..|s| - 1]);
    }
  }

  lemma {:induction false} CollapsedStays(s: string)
    requires IsCollapsed(s)
    ensures Collapsed(s) == s
  {
    if s != "" {
      CollapsedStays(s[..|s| - 1]);
    }
  }

  lemma CollapseIsIdempotent(s: string)
    ensures Collapsed(Collapsed(s)) == Collapsed(s)
  {
    CollapsedIsCollapsed(s);
    CollapsedStays(Collapsed(s));
  }

  function DropBlank(s: string): string {
    if s != "" && s[0] == ' ' then s[1..] else s
  }

  /** Collapsing is stable when a leading blank is dropped, so the text need not be collapsed again. */
  lemma CollapseStableUnderDrop(s: string)
    ensures IsCollapsed(DropBlank(Collapsed(s)))
    ensures Collapsed(DropBlank(Collapsed(s))) == DropBlank(Collapsed(s))
  {
    CollapsedIsCollapsed(s);
    var t := Collapsed(s);
    if t != "" && t[0] == ' ' {
      forall i | 0 <= i < |t[1..]| && IsXmlSpace(t[1..][i])
        ensures t[1..][i] == ' ' && (i > 0 ==> !IsXmlSpace(t[1..][i - 1]))
      {
        assert t[1..][i] == t[i + 1];
        assert i > 0 ==> t[1..][i - 1] == t[i];
      }
    }
    CollapsedStays(DropBlank(t));
  }

  function Added(s: string, c: char): string {
    if !IsXmlSpace(c) then [c] else if EndsInXmlSpace(s) then "" else " "
  }

  lemma CollapseNext(s: string, c: char)
    ensures Collapsed(s + [c]) == Collapsed(s) + Added(s, c)
  {
    assert (s + [c])[..|s|] == s;
  }

  lemma DropBlankAppend(a: string, b: string)
    ensures DropBlank(a + b) == if a == "" then DropBlank(b) else DropBlank(a) + b
  {
    if a == "" {
      assert a + b == b;
    } else if a[0] == ' ' {
      assert (a + b)[1..] == a[1..] + b;
    }
  }

  lemma CollapseOne(a: string, c: char)
    ensures Added(a, c) == if EndsInXmlSpace(a) then DropBlank(Collapsed([c])) else Collapsed([c])
  {
    assert [c] == "" + [c];
    CollapseNext("", c);
  }

  /** Collapsing a concatenation: the second part loses its leading blank when the first ends in one. */
  lemma {:induction false} CollapseAppend(a: string, b: string)
    ensures Collapsed(a + b) == Collapsed(a) + if EndsInXmlSpace(a) then DropBlank(Collapsed(b)) else Collapsed(b)
  {
    if b == "" {
      assert a + b == a;
    } else {
      var init, last := b[..|b| - 1], b[|b| - 1];
      assert b == init + [last] && a + b == (a + init) + [last];
      CollapseNext(a + init, last);
      if init == "" {
        CollapseOne(a, last);
        assert a + init == a && b == [last];
      } else {
        assert Added(a + init, last) == Added(init, last);
        hide Collapsed, DropBlank, Added, EndsInXmlSpace;
        CollapseAppend(a, init);
        CollapseNext(init, last);
        CollapsedNonEmpty(init);
        DropBlankAppend(Collapsed(init), Added(init, last));
        var middle := if EndsInXmlSpace(a) then DropBlank(Collapsed(init)) else Collapsed(init);
        assert (Collapsed(a) + middle) + Added(init, last) == Collapsed(a) + (middle + Added(init, last));
      }
    }
  }

  lemma {:induction false} CollapsedNonEmpty(s: string)
    requires s != ""
    ensures Collapsed(s) != ""
  {
    if |s| > 1 {
      CollapsedNonEmpty(s[..|s| - 1]);
    }
  }

  // ---- Splitting into lines ----

  function TextOf(runs: Runs): string {
    if runs == [] then "" else TextOf(runs[..|runs| - 1]) + if runs[|runs| - 1].Run? then runs[|runs| - 1].raw else ""
  }

  /** The lines so far, and whether the current one is empty or ends in a blank. */
  datatype Split = Split(lines: seq<Runs>, afterSpace: bool)

  function AppendRun(lines: seq<Runs>, run: Piece): seq<Runs>
    requires lines != []
  {
    lines[|lines| - 1 := lines[|lines| - 1] + [run]]
  }

  function SplitNext(s: Split, p: Piece): Split
    requires s.lines != []
  {
    if p.Break? then Split(s.lines + [[]], true) else
      var raw := if s.afterSpace then DropBlank(Collapsed(p.raw)) else Collapsed(p.raw);
      if raw == "" then s else Split(AppendRun(s.lines, Run(raw, p.cue)), EndsInBlank(raw))
  }

  function SplitTo(pieces: seq<Piece>): (s: Split)
    ensures s.lines != []
  {
    if pieces == [] then Split([[]], true) else SplitNext(SplitTo(pieces[..|pieces| - 1]), pieces[|pieces| - 1])
  }

  method SplitPiecesByBreak(pieces: seq<Piece>) returns (lines: seq<Runs>)
    ensures lines == SplitTo(pieces).lines
  {
    lines := [[]];
    var prevEndedWithSpace := true;
    for i := 0 to |pieces|
      invariant Split(lines, prevEndedWithSpace) == SplitTo(pieces[..i])
    {
      assert pieces[..i + 1][..i] == pieces[..i];
      if pieces[i].Break? {
        lines := lines + [[]];
        prevEndedWithSpace := true;
      } else {
        var raw := CollapseWhitespace(pieces[i].raw);
        if prevEndedWithSpace && raw != "" && raw[0] == ' ' {
          raw := raw[1..];
        }
        if raw != "" {
          lines := lines[|lines| - 1 := lines[|lines| - 1] + [Run(raw, pieces[i].cue)]];
          prevEndedWithSpace := raw[|raw| - 1] == ' ';
        }
      }
    }
    assert pieces[..|pieces|] == pieces;
  }

  /** The raw text of each line, as written between breaks. */
  function RawLines(pieces: seq<Piece>): (lines: seq<string>)
    ensures lines != []
  {
    if pieces == [] then [""] else
      var init, last := RawLines(pieces[..|pieces| - 1]), pieces[|pieces| - 1];
      if last.Break? then init + [""] else init[|init| - 1 := init[|init| - 1] + last.raw]
  }

  /** The lines of two piece lists put together: the last of the one goes on in the first of the other. */
  lemma {:induction false} RawLinesAppend(a: seq<Piece>, b: seq<Piece>)
    ensures var x, y := RawLines(a), RawLines(b);
      RawLines(a + b) == x[..|x| - 1] + [x[|x| - 1] + y[0]] + y[1..]
  {
    hide RawLines;
    var x := RawLines(a);
    if b == [] {
      RawLinesOfOne("", None);
      assert a + b == a && x[|x| - 1] + "" == x[|x| - 1];
    } else {
      var init, last := b[..|b| - 1], b[|b| - 1];
      assert (a + b)[..|a + b| - 1] == a + init && (a + b)[|a + b| - 1] == last;
      RawLinesAppend(a, init);
      LastLineGrows(x, RawLines(init), last);
      RawLinesNext(b);
      RawLinesNext(a + b);
    }
  }

  lemma RawLinesNext(pieces: seq<Piece>)
    requires pieces != []
    ensures var init, last := RawLines(pieces[..|pieces| - 1]), pieces[|pieces| - 1];
      RawLines(pieces) == if last.Break? then init + [""] else init[|init| - 1 := init[|init| - 1] + last.raw]
  {
  }

  /** One piece: a run is its text, a break two empty lines. */
  lemma RawLinesOfOne(raw: string, cue: Option<Cue>)
    ensures RawLines([Run(raw, cue)]) == [raw]
    ensures RawLines([Break]) == ["", ""] && RawLines([]) == [""]
  {
    assert [Run(raw, cue)][..0] == [] && [Break][..0] == [] && "" + raw == raw;
  }

  lemma LastLineGrows(x: seq<string>, y: seq<string>, last: Piece)
    requires x != [] && y != []
    ensures var joined := x[..|x| - 1] + [x[|x| - 1] + y[0]] + y[1..];
      var grown := if last.Break? then y + [""] else y[|y| - 1 := y[|y| - 1] + last.raw];
      (if last.Break? then joined + [""] else joined[|joined| - 1 := joined[|joined| - 1] + last.raw])
      == x[..|x| - 1] + [x[|x| - 1] + grown[0]] + grown[1..]
  {
    if last.Run? && |y| == 1 {
      assert (x[|x| - 1] + y[0]) + last.raw == x[|x| - 1] + (y[0] + last.raw);
    }
  }

  /** A line with its runs collapsed and joined is the whole raw line collapsed, less a leading blank. */
  ghost predicate LineMatches(runs: Runs, raw: string) {
    && TextOf(runs) == DropBlank(Collapsed(raw))
    && forall r | r in runs :: r.Run? && r.raw != "" && IsCollapsed(r.raw)
  }

  lemma TextOfNext(runs: Runs, run: Piece)
    requires run.Run?
    ensures TextOf(runs + [run]) == TextOf(runs) + run.raw
  {
    assert (runs + [run])[..|runs|] == runs;
  }

  /** Appending raw text to a line: what is left of the new text once the line's end is taken into account. */
  lemma LineGrows(raw: string, more: string)
    ensures var text := DropBlank(Collapsed(raw));
      DropBlank(Collapsed(raw + more)) == text +
        if text == "" || EndsInBlank(text) then DropBlank(Collapsed(more)) else Collapsed(more)
  {
    CollapseAppend(raw, more);
    CollapsedIsCollapsed(raw);
    var c, text := Collapsed(raw), DropBlank(Collapsed(raw));
    if raw == "" {
      assert c == "" && text == "";
      assert "" + Collapsed(more) == Collapsed(more);
      assert raw + more == more;
    } else {
      CollapsedNonEmpty(raw);
      var rest := if EndsInXmlSpace(raw) then DropBlank(Collapsed(more)) else Collapsed(more);
      DropBlankAppend(c, rest);
      if text == "" {
        assert c == " ";
        assert EndsInBlank(c);
      } else {
        assert EndsInBlank(text) <==> EndsInBlank(c);
      }
    }
  }

  predicate AfterSpace(text: string) {
    text == "" || EndsInBlank(text)
  }

  ghost predicate SplitMatches(s: Split, raw: seq<string>) {
    && |s.lines| == |raw| > 0
    && (forall k | 0 <= k < |raw| :: LineMatches(s.lines[k], raw[k]))
    && s.afterSpace == AfterSpace(TextOf(s.lines[|raw| - 1]))
  }

  function NewText(runs: Runs, p: Piece): string
    requires p.Run?
  {
    if AfterSpace(TextOf(runs)) then DropBlank(Collapsed(p.raw)) else Collapsed(p.raw)
  }

  lemma LineMatchesNext(runs: Runs, raw: string, p: Piece)
    requires LineMatches(runs, raw) && p.Run?
    ensures var text := NewText(runs, p);
      if text == "" then LineMatches(runs, raw + p.raw) else
        var next := runs + [Run(text, p.cue)];
        LineMatches(next, raw + p.raw) && AfterSpace(TextOf(next)) == EndsInBlank(text)
  {
    hide Collapsed, IsCollapsed, DropBlank, TextOf, NewText;
    var text := NewText(runs, p);
    NewTextFits(runs, raw, p);
    TextOfNext(runs, Run(text, p.cue));
    assert TextOf(runs) + "" == TextOf(runs);
  }

  lemma NewTextFits(runs: Runs, raw: string, p: Piece)
    requires TextOf(runs) == DropBlank(Collapsed(raw)) && p.Run?
    ensures DropBlank(Collapsed(raw + p.raw)) == TextOf(runs) + NewText(runs, p)
    ensures IsCollapsed(NewText(runs, p))
  {
    LineGrows(raw, p.raw);
    CollapseStableUnderDrop(p.raw);
    CollapsedIsCollapsed(p.raw);
  }

  lemma LastLineReplaced(s: Split, raw: seq<string>, runs: Runs, line: string, afterSpace: bool)
    requires SplitMatches(s, raw) && LineMatches(runs, line) && afterSpace == AfterSpace(TextOf(runs))
    ensures SplitMatches(Split(s.lines[|raw| - 1 := runs], afterSpace), raw[|raw| - 1 := line])
  {
    hide LineMatches, AfterSpace, TextOf;
  }

  lemma LineAdded(s: Split, raw: seq<string>)
    requires SplitMatches(s, raw)
    ensures SplitMatches(Split(s.lines + [[]], true), raw + [""])
  {
    assert LineMatches([], "");
    hide LineMatches;
  }

  lemma SplitMatchesNext(s: Split, raw: seq<string>, p: Piece)
    requires SplitMatches(s, raw)
    ensures SplitMatches(SplitNext(s, p), if p.Break? then raw + [""] else raw[|raw| - 1 := raw[|raw| - 1] + p.raw])
  {
    hide LineMatches, NewText, TextOf, DropBlank, Collapsed, EndsInBlank;
    if p.Break? {
      LineAdded(s, raw);
    } else {
      hide SplitNext;
      var n := |raw| - 1;
      var runs := s.lines[n];
      var text := NewText(runs, p);
      LineMatchesNext(runs, raw[n], p);
      SplitNextRun(s, p);
      hide SplitMatches;
      if text == "" {
        LastLineReplaced(s, raw, runs, raw[n] + p.raw, s.afterSpace);
        assert s.lines[n := runs] == s.lines;
      } else {
        LastLineReplaced(s, raw, runs + [Run(text, p.cue)], raw[n] + p.raw, EndsInBlank(text));
      }
    }
  }

  lemma SplitNextRun(s: Split, p: Piece)
    requires s.lines != [] && p.Run? && s.afterSpace == AfterSpace(TextOf(s.lines[|s.lines| - 1]))
    ensures var text := NewText(s.lines[|s.lines| - 1], p);
      SplitNext(s, p) == if text == "" then s else Split(AppendRun(s.lines, Run(text, p.cue)), EndsInBlank(text))
  {
  }

  /** Every line of the split: its runs joined are the raw line collapsed as one text. */
  lemma {:induction false} SplitCollapsesWholeLines(pieces: seq<Piece>)
    ensures SplitMatches(SplitTo(pieces), RawLines(pieces))
  {
    if pieces == [] {
      assert LineMatches([], "");
    } else {
      SplitCollapsesWholeLines(pieces[..|pieces| - 1]);
      SplitMatchesNext(SplitTo(pieces[..|pieces| - 1]), RawLines(pieces[..|pieces| - 1]), pieces[|pieces| - 1]);
    }
  }

  // ---- Every piece with text has its run ----

  lemma {:induction false} CollapseKeepsText(s: string)
    requires !IsBlank(s)
    ensures !IsBlank(Collapsed(s)) && !IsBlank(DropBlank(Collapsed(s)))
  {
    var init, last := s[..|s| - 1], s[|s| - 1];
    assert s == init + [last];
    var t := Collapsed(s);
    if IsBlank(init) {
      assert last in s && !IsSpace(last) && t == Collapsed(init) + [last];
      assert last in t && last in DropBlank(t) by {
        assert t[|t| - 1] == last && DropBlank(t)[|DropBlank(t)| - 1] == last;
      }
    } else {
      CollapseKeepsText(init);
      var c :| c in DropBlank(Collapsed(init)) && !IsSpace(c);
      DropBlankAppend(Collapsed(init), t[|Collapsed(init)|..]);
      assert c in DropBlank(t) && c in t;
    }
  }

  /** How many breaks come before a piece: the line it is on. */
  function LineOf(pieces: seq<Piece>, m: nat): nat
    requires m <= |pieces|
  {
    if m == 0 then 0 else LineOf(pieces, m - 1) + if pieces[m - 1].Break? then 1 else 0
  }

  /** A run made from a piece: its text collapsed, perhaps less a leading blank, with its cue. */
  predicate MadeFrom(run: Piece, p: Piece) {
    && run.Run? && p.Run? && run.cue == p.cue
    && (run.raw == Collapsed(p.raw) || run.raw == DropBlank(Collapsed(p.raw)))
  }

  predicate HasRun(lines: seq<Runs>, k: nat, i: nat, p: Piece) {
    k < |lines| && i < |lines[k]| && MadeFrom(lines[k][i], p)
  }

  lemma SplitKeepsRun(s: Split, next: Piece, k: nat, i: nat, p: Piece)
    requires s.lines != [] && HasRun(s.lines, k, i, p)
    ensures HasRun(SplitNext(s, next).lines, k, i, p)
  {
  }

  lemma SplitAddsRun(s: Split, p: Piece)
    requires s.lines != [] && p.Run? && !IsBlank(p.raw)
    ensures var n := |s.lines| - 1; HasRun(SplitNext(s, p).lines, n, |s.lines[n]|, p)
  {
    CollapseKeepsText(p.raw);
  }

  lemma {:induction false} LinesCount(pieces: seq<Piece>)
    ensures |SplitTo(pieces).lines| == LineOf(pieces, |pieces|) + 1
  {
    if pieces != [] {
      var n := |pieces| - 1;
      LinesCount(pieces[..n]);
      LineOfPrefix(pieces, n);
    }
  }

  lemma {:induction false} LineOfPrefix(pieces: seq<Piece>, m: nat)
    requires m <= |pieces|
    ensures LineOf(pieces[..m], m) == LineOf(pieces, m)
    decreases m
  {
    if m > 0 {
      LineOfPrefix(pieces, m - 1);
      LineOfPrefix(pieces[..m], m - 1);
      assert pieces[..m][..m - 1] == pieces[..m - 1];
    }
  }

  lemma MadeRunHasText(run: Piece, p: Piece)
    requires MadeFrom(run, p) && !IsBlank(p.raw)
    ensures !IsBlank(run.raw)
  {
    CollapseKeepsText(p.raw);
  }

  /** Every piece with some text becomes a run of its line. */
  lemma {:induction false} PieceHasRun(pieces: seq<Piece>, m: nat) returns (i: nat)
    requires m < |pieces| && pieces[m].Run? && !IsBlank(pieces[m].raw)
    ensures HasRun(SplitTo(pieces).lines, LineOf(pieces, m), i, pieces[m])
    decreases |pieces|
  {
    hide HasRun, SplitNext, IsBlank;
    var n := |pieces| - 1;
    LineOfPrefix(pieces, m);
    if m == n {
      LinesCount(pieces[..n]);
      i := |SplitTo(pieces[..n]).lines[LineOf(pieces, m)]|;
      SplitAddsRun(SplitTo(pieces[..n]), pieces[n]);
    } else {
      i := PieceHasRun(pieces[..n], m);
      LineOfPrefix(pieces[..n], m);
      assert pieces[..n][..m] == pieces[..m];
      SplitKeepsRun(SplitTo(pieces[..n]), pieces[n], LineOf(pieces, m), i, pieces[m]);
    }
  }
}
