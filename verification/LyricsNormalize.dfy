/** End times of cues: filled from the next cue, clamped, all or none, and per agent. */
module LyricsNormalize {
  import opened LyricsModel

  // ---- One group ----

  function NextStart(cues: seq<Cue>, i: nat): Option<int>
    requires i < |cues|
  {
    if i + 1 < |cues| then cues[i + 1].start else None
  }

  /** Its own end, else the next start, else the fallback. */
  function FilledEnd(cues: seq<Cue>, i: nat, fallback: Option<int>): Option<int>
    requires i < |cues|
  {
    if cues[i].end.Some? then cues[i].end else if NextStart(cues, i).Some? then NextStart(cues, i) else fallback
  }

  function AtMost(end: Option<int>, bound: Option<int>): Option<int> {
    if end.Some? && bound.Some? && end.value > bound.value then bound else end
  }

  function AtLeast(end: Option<int>, bound: Option<int>): Option<int> {
    if end.Some? && bound.Some? && end.value < bound.value then bound else end
  }

  function ResolvedEnd(cues: seq<Cue>, i: nat, fallback: Option<int>): Option<int>
    requires i < |cues|
  {
    AtLeast(AtMost(FilledEnd(cues, i, fallback), NextStart(cues, i)), cues[i].start)
  }

  predicate AllResolved(cues: seq<Cue>, fallback: Option<int>) {
    forall i | 0 <= i < |cues| :: ResolvedEnd(cues, i, fallback).Some?
  }

  function Normalized(cues: seq<Cue>, fallback: Option<int>): (out: seq<Cue>)
    ensures |out| == |cues|
  {
    var all := AllResolved(cues, fallback);
    seq(|cues|, i requires 0 <= i < |cues| => cues[i].(end := if all then ResolvedEnd(cues, i, fallback) else None))
  }

  // ---- What the ends are ----

  /** A cue has an end of its own, a next cue with a start, or the fallback to end at. */
  predicate HasSomeEnd(cues: seq<Cue>, i: nat, fallback: Option<int>) {
    i < |cues| && (cues[i].end.Some? || (i + 1 < |cues| && cues[i + 1].start.Some?) || fallback.Some?)
  }

  /**
   * The end of a cue that is followed by one starting at `next`: its own, else the next start, else
   * the fallback; never after the next start, and above all never before its own.
   */
  predicate IsResolved(cue: Cue, next: Option<int>, fallback: Option<int>, end: Option<int>) {
    var wanted := if cue.end.Some? then cue.end else if next.Some? then next else fallback;
    && wanted.Some? && end.Some?
    && (cue.start.Some? ==> end.value >= cue.start.value)
    && (next.Some? && end.value > next.value ==> cue.start == end)
    && (end.value < wanted.value ==> next.Some? && next.value <= end.value)
    && (end.value > wanted.value ==> cue.start == end)
  }

  /** Only ends are touched. They are resolved if every cue can have one, and cleared otherwise. */
  ghost predicate EndsResolved(cues: seq<Cue>, fallback: Option<int>, out: seq<Cue>) {
    && |out| == |cues| && (forall i | 0 <= i < |cues| :: out[i] == cues[i].(end := out[i].end))
    && if exists i | 0 <= i < |cues| :: !HasSomeEnd(cues, i, fallback)
       then forall i | 0 <= i < |cues| :: out[i].end == None
       else forall i | 0 <= i < |cues| :: ResolvedAt(cues, fallback, i, out[i].end)
  }

  predicate ResolvedAt(cues: seq<Cue>, fallback: Option<int>, i: nat, end: Option<int>) {
    i < |cues| && IsResolved(cues[i], if i + 1 < |cues| then cues[i + 1].start else None, fallback, end)
  }

  lemma ResolvedEndIs(cues: seq<Cue>, i: nat, fallback: Option<int>)
    requires i < |cues|
    ensures ResolvedEnd(cues, i, fallback).Some? <==> HasSomeEnd(cues, i, fallback)
    ensures HasSomeEnd(cues, i, fallback) ==> ResolvedAt(cues, fallback, i, ResolvedEnd(cues, i, fallback))
  {
  }

  lemma NormalizedResolves(cues: seq<Cue>, fallback: Option<int>)
    ensures EndsResolved(cues, fallback, Normalized(cues, fallback))
  {
    hide ResolvedEnd, ResolvedAt, HasSomeEnd;
    forall i | 0 <= i < |cues|
      ensures ResolvedEnd(cues, i, fallback).Some? <==> HasSomeEnd(cues, i, fallback)
      ensures HasSomeEnd(cues, i, fallback) ==> ResolvedAt(cues, fallback, i, ResolvedEnd(cues, i, fallback))
    {
      ResolvedEndIs(cues, i, fallback);
    }
  }

  /** Fills and clamps the ends in place. */
  method ResolveEnds(cues: seq<Cue>, fallback: Option<int>) returns (out: seq<Cue>)
    ensures |out| == |cues|
    ensures forall j | 0 <= j < |cues| :: out[j] == cues[j].(end := ResolvedEnd(cues, j, fallback))
  {
    out := cues;
    for i := 0 to |out|
      invariant |out| == |cues|
      invariant forall j | 0 <= j < i :: out[j] == cues[j].(end := ResolvedEnd(cues, j, fallback))
      invariant forall j | i <= j < |cues| :: out[j] == cues[j]
    {
      var end := out[i].end;
      if end.None? {
        if i + 1 < |out| && out[i + 1].start.Some? {
          end := out[i + 1].start;
        } else {
          end := fallback;
        }
      }
      if end.Some? && i + 1 < |out| && out[i + 1].start.Some? && end.value > out[i + 1].start.value {
        end := out[i + 1].start;
      }
      if end.Some? && out[i].start.Some? && end.value < out[i].start.value {
        end := out[i].start;
      }
      assert end == ResolvedEnd(cues, i, fallback);
      hide ResolvedEnd;
      out := out[i := out[i].(end := end)];
    }
  }

  /** One missing end clears them all. */
  method NormalizeCueEnds(cues: seq<Cue>, fallback: Option<int>) returns (out: seq<Cue>)
    ensures out == Normalized(cues, fallback)
    ensures EndsResolved(cues, fallback, out)
  {
    NormalizedResolves(cues, fallback);
    hide EndsResolved, ResolvedEnd;
    if cues == [] {
      return cues;
    }
    out := ResolveEnds(cues, fallback);
    var i := 0;
    while i < |out|
      invariant i <= |out|
      invariant forall j | 0 <= j < i :: out[j].end.Some?
    {
      if out[i].end.None? {
        out := ClearEnds(out);
        assert !AllResolved(cues, fallback);
        return;
      }
      i := i + 1;
    }
  }

  method ClearEnds(cues: seq<Cue>) returns (out: seq<Cue>)
    ensures |out| == |cues| && forall i | 0 <= i < |cues| :: out[i] == cues[i].(end := None)
  {
    out := cues;
    for j := 0 to |cues|
      invariant |out| == |cues|
      invariant forall l | 0 <= l < |cues| :: out[l] == if l < j then cues[l].(end := None) else cues[l]
    {
      out := out[j := out[j].(end := None)];
    }
  }

  /** The cue has an end of its own, a next start to take, or the fallback. */
  predicate CanEnd(cues: seq<Cue>, i: nat, fallback: Option<int>)
    requires i < |cues|
  {
    cues[i].end.Some? || NextStart(cues, i).Some? || fallback.Some?
  }

  lemma ResolvedIffCanEnd(cues: seq<Cue>, i: nat, fallback: Option<int>)
    requires i < |cues|
    ensures ResolvedEnd(cues, i, fallback).Some? <==> CanEnd(cues, i, fallback)
  {
  }

  /** Ends are all set or none is; all exactly when every cue can have one. */
  lemma EndsAllOrNone(cues: seq<Cue>, fallback: Option<int>, i: nat)
    requires i < |cues|
    ensures Normalized(cues, fallback)[i].end.Some? <==> forall j | 0 <= j < |cues| :: CanEnd(cues, j, fallback)
  {
    forall j | 0 <= j < |cues|
      ensures ResolvedEnd(cues, j, fallback).Some? <==> CanEnd(cues, j, fallback)
    {
      ResolvedIffCanEnd(cues, j, fallback);
    }
    hide ResolvedEnd, CanEnd;
  }

  lemma ResolvedEndIsStable(cues: seq<Cue>, again: seq<Cue>, i: nat, fallback: Option<int>)
    requires i < |cues| == |again| && forall j | 0 <= j < |cues| :: again[j].start == cues[j].start
    requires again[i].end == ResolvedEnd(cues, i, fallback) && ResolvedEnd(cues, i, fallback).Some?
    ensures ResolvedEnd(again, i, fallback) == ResolvedEnd(cues, i, fallback)
  {
  }

  lemma StaysUnresolved(cues: seq<Cue>, again: seq<Cue>, i: nat, fallback: Option<int>)
    requires i < |cues| == |again| && forall j | 0 <= j < |cues| :: again[j].start == cues[j].start
    requires again[i].end.None? && ResolvedEnd(cues, i, fallback).None?
    ensures ResolvedEnd(again, i, fallback).None?
  {
  }

  /** Normalising twice with one fallback is normalising once, whatever the starts. */
  lemma NormalizeIsIdempotent(cues: seq<Cue>, fallback: Option<int>)
    ensures Normalized(Normalized(cues, fallback), fallback) == Normalized(cues, fallback)
  {
    var out := Normalized(cues, fallback);
    if AllResolved(cues, fallback) {
      forall i | 0 <= i < |cues|
        ensures ResolvedEnd(out, i, fallback) == ResolvedEnd(cues, i, fallback)
      {
        ResolvedEndIsStable(cues, out, i, fallback);
      }
    } else {
      var i :| 0 <= i < |cues| && ResolvedEnd(cues, i, fallback).None?;
      StaysUnresolved(cues, out, i, fallback);
    }
  }

  predicate StartsAscend(cues: seq<Cue>) {
    && (forall i | 0 <= i < |cues| :: cues[i].start.Some?)
    && forall i | 0 <= i < |cues| - 1 :: cues[i].start.value <= cues[i + 1].start.value
  }

  /** With ascending starts every end that is set lies between its start and the next one. */
  lemma EndsLieBetween(cues: seq<Cue>, fallback: Option<int>, i: nat)
    requires StartsAscend(cues) && i < |cues|
    ensures var end := Normalized(cues, fallback)[i].end;
      end.Some? ==> cues[i].start.value <= end.value && (i + 1 < |cues| ==> end.value <= cues[i + 1].start.value)
  {
  }

  function Max(a: int, b: int): int {
    if a < b then b else a
  }

  function Min(a: int, b: int): int {
    if a < b then a else b
  }

  /**
   * An end of its own is kept as far as it lies between the starts; a missing one reaches to the next
   * start or the fallback.
   */
  lemma EndsAreClamped(cues: seq<Cue>, fallback: Option<int>, i: nat)
    requires StartsAscend(cues) && i < |cues| && (forall j | 0 <= j < |cues| :: CanEnd(cues, j, fallback))
    ensures var start, own, end := cues[i].start.value, cues[i].end, Normalized(cues, fallback)[i].end;
      end == Some(
        if i + 1 < |cues| then
          var next := cues[i + 1].start.value;
          if own.Some? then Max(start, Min(own.value, next)) else next
        else
          Max(start, if own.Some? then own.value else if fallback.Some? then fallback.value else start))
  {
    forall j | 0 <= j < |cues|
      ensures ResolvedEnd(cues, j, fallback).Some?
    {
      assert CanEnd(cues, j, fallback);
      ResolvedIffCanEnd(cues, j, fallback);
    }
    assert CanEnd(cues, i, fallback);
  }

  // ---- Per agent ----

  /** The positions of an agent's cues. */
  function Positions(cues: seq<Cue>, a: AgentId): seq<nat> {
    if cues == [] then [] else
      Positions(cues[..|cues| - 1], a) + if cues[|cues| - 1].agent == a then [|cues| - 1] else []
  }

  lemma {:induction false} PositionsInRange(cues: seq<Cue>, a: AgentId)
    ensures forall k | 0 <= k < |Positions(cues, a)| ::
      Positions(cues, a)[k] < |cues| && cues[Positions(cues, a)[k]].agent == a
  {
    if cues != [] {
      PositionsInRange(cues[..|cues| - 1], a);
    }
  }

  lemma {:induction false} PositionsAscend(cues: seq<Cue>, a: AgentId, k: nat, l: nat)
    requires k < l < |Positions(cues, a)|
    ensures Positions(cues, a)[k] < Positions(cues, a)[l]
  {
    var init := cues[..|cues| - 1];
    PositionsInRange(init, a);
    if l < |Positions(init, a)| {
      PositionsAscend(init, a, k, l);
    }
  }

  lemma {:induction false} PositionsCover(cues: seq<Cue>, i: nat)
    requires i < |cues|
    ensures i in Positions(cues, cues[i].agent)
  {
    if i < |cues| - 1 {
      PositionsCover(cues[..|cues| - 1], i);
    }
  }

  lemma PositionsFacts(cues: seq<Cue>, a: AgentId)
    ensures forall k | 0 <= k < |Positions(cues, a)| ::
      Positions(cues, a)[k] < |cues| && cues[Positions(cues, a)[k]].agent == a
    ensures forall k, l | 0 <= k < l < |Positions(cues, a)| :: Positions(cues, a)[k] < Positions(cues, a)[l]
  {
    hide Positions;
    PositionsInRange(cues, a);
    forall k, l | 0 <= k < l < |Positions(cues, a)|
      ensures Positions(cues, a)[k] < Positions(cues, a)[l]
    {
      PositionsAscend(cues, a, k, l);
    }
  }

  /** An agent's cues, in order. */
  function Sub(cues: seq<Cue>, a: AgentId): (sub: seq<Cue>)
    ensures |sub| == |Positions(cues, a)|
  {
    PositionsFacts(cues, a);
    seq(|Positions(cues, a)|, k requires 0 <= k < |Positions(cues, a)| => cues[Positions(cues, a)[k]])
  }

  /** How many earlier cues share the agent of cue i. */
  function Rank(cues: seq<Cue>, i: nat): nat
    requires i < |cues|
  {
    |Positions(cues[..i], cues[i].agent)|
  }

  lemma {:induction false} RankIsIndex(cues: seq<Cue>, i: nat)
    requires i < |cues|
    ensures Rank(cues, i) < |Positions(cues, cues[i].agent)|
    ensures Positions(cues, cues[i].agent)[Rank(cues, i)] == i
    decreases |cues|
  {
    var init, a := cues[..|cues| - 1], cues[i].agent;
    if i < |cues| - 1 {
      RankIsIndex(init, i);
      assert init[..i] == cues[..i];
    }
  }

  lemma IndexHasRank(cues: seq<Cue>, a: AgentId, k: nat)
    requires k < |Positions(cues, a)|
    ensures Positions(cues, a)[k] < |cues| && cues[Positions(cues, a)[k]].agent == a
    ensures Rank(cues, Positions(cues, a)[k]) == k
  {
    PositionsFacts(cues, a);
    RankIsIndex(cues, Positions(cues, a)[k]);
  }

  /** Each cue takes the end it gets among its agent's cues; nothing else changes. */
  function ByAgent(cues: seq<Cue>, fallback: Option<int>): (out: seq<Cue>)
    ensures |out| == |cues|
  {
    seq(|cues|, i requires 0 <= i < |cues| =>
      RankIsIndex(cues, i);
      cues[i].(end := Normalized(Sub(cues, cues[i].agent), fallback)[Rank(cues, i)].end))
  }

  lemma {:induction false} SameAgentsSamePositions(a: seq<Cue>, b: seq<Cue>, id: AgentId)
    requires |a| == |b| && forall i | 0 <= i < |a| :: a[i].agent == b[i].agent
    ensures Positions(a, id) == Positions(b, id)
  {
    if a != [] {
      SameAgentsSamePositions(a[..|a| - 1], b[..|b| - 1], id);
    }
  }

  /** The specification: for every agent, its cues of the result are its cues normalised alone. */
  lemma ByAgentNormalizesEach(cues: seq<Cue>, fallback: Option<int>, a: AgentId)
    ensures Sub(ByAgent(cues, fallback), a) == Normalized(Sub(cues, a), fallback)
  {
    var out := ByAgent(cues, fallback);
    SameAgentsSamePositions(cues, out, a);
    forall k | 0 <= k < |Positions(cues, a)|
      ensures Sub(out, a)[k] == Normalized(Sub(cues, a), fallback)[k]
    {
      IndexHasRank(cues, a, k);
      assert Sub(cues, a)[k] == cues[Positions(cues, a)[k]];
    }
  }

  /** ... and it determines the result. */
  lemma EachDeterminesByAgent(cues: seq<Cue>, out: seq<Cue>, fallback: Option<int>)
    requires |out| == |cues| && forall i | 0 <= i < |cues| :: out[i].agent == cues[i].agent
    requires forall a :: Sub(out, a) == Normalized(Sub(cues, a), fallback)
    ensures out == ByAgent(cues, fallback)
  {
    forall i | 0 <= i < |cues|
      ensures out[i] == ByAgent(cues, fallback)[i]
    {
      var a := cues[i].agent;
      SameAgentsSamePositions(cues, out, a);
      RankIsIndex(cues, i);
      assert Sub(out, a)[Rank(cues, i)] == out[i] && Sub(cues, a)[Rank(cues, i)] == cues[i];
    }
  }

  predicate OneAgent(cues: seq<Cue>) {
    forall i, j | 0 <= i < |cues| && 0 <= j < |cues| :: cues[i].agent == cues[j].agent
  }

  lemma {:induction false} OneAgentPositions(cues: seq<Cue>, a: AgentId)
    requires forall i | 0 <= i < |cues| :: cues[i].agent == a
    ensures |Positions(cues, a)| == |cues| && forall k | 0 <= k < |cues| :: Positions(cues, a)[k] == k
  {
    if cues != [] {
      OneAgentPositions(cues[..|cues| - 1], a);
    }
  }

  /** With a single agent the grouped form is the plain one. */
  lemma OneAgentNeedsNoGroups(cues: seq<Cue>, fallback: Option<int>)
    requires OneAgent(cues)
    ensures ByAgent(cues, fallback) == Normalized(cues, fallback)
  {
    if cues != [] {
      var a := cues[0].agent;
      OneAgentPositions(cues, a);
      assert Sub(cues, a) == cues;
      forall i | 0 <= i < |cues|
        ensures Rank(cues, i) == i
      {
        OneAgentPositions(cues[..i], a);
      }
    }
  }

  // ---- The grouping as the program does it ----

  /** The groups hold the positions of a prefix, and the order lists the agents once each. */
  ghost predicate Grouped(cues: seq<Cue>, groups: map<AgentId, seq<nat>>, order: seq<AgentId>) {
    && (forall a :: a in groups <==> Positions(cues, a) != [])
    && (forall a | a in groups :: groups[a] == Positions(cues, a))
    && (forall a :: a in order <==> a in groups)
    && (forall k, l | 0 <= k < l < |order| :: order[k] != order[l])
  }

  lemma GroupedNext(cues: seq<Cue>, i: nat, groups: map<AgentId, seq<nat>>, order: seq<AgentId>)
    requires i < |cues| && Grouped(cues[..i], groups, order)
    ensures var a := cues[i].agent;
      Grouped(cues[..i + 1], groups[a := (if a in groups then groups[a] else []) + [i]],
        if a in groups then order else order + [a])
  {
    var a := cues[i].agent;
    forall b
      ensures Positions(cues[..i + 1], b) == Positions(cues[..i], b) + if b == a then [i] else []
    {
      assert cues[..i + 1][..i] == cues[..i];
    }
    hide Positions;
  }

  method GroupByAgent(cues: seq<Cue>) returns (groups: map<AgentId, seq<nat>>, order: seq<AgentId>)
    ensures Grouped(cues, groups, order)
  {
    groups, order := map[], [];
    assert Grouped(cues[..0], groups, order);
    for i := 0 to |cues|
      invariant Grouped(cues[..i], groups, order)
    {
      hide Grouped;
      GroupedNext(cues, i, groups, order);
      var id := cues[i].agent;
      if id !in groups {
        order := order + [id];
      }
      groups := groups[id := (if id in groups then groups[id] else []) + [i]];
    }
    assert cues[..|cues|] == cues;
  }

  method NormalizedGroup(cues: seq<Cue>, id: AgentId, positions: seq<nat>, fallback: Option<int>)
    returns (group: seq<Cue>)
    requires positions == Positions(cues, id)
    ensures group == Normalized(Sub(cues, id), fallback)
  {
    PositionsFacts(cues, id);
    group := [];
    for k := 0 to |positions|
      invariant |group| == k && forall l | 0 <= l < k :: group[l] == cues[positions[l]]
    {
      group := group + [cues[positions[k]]];
    }
    assert group == Sub(cues, id);
    group := NormalizeCueEnds(group, fallback);
  }

  /** Puts a normalised group back at its positions. */
  method PutBack(cues: seq<Cue>, out: seq<Cue>, id: AgentId, positions: seq<nat>, fallback: Option<int>)
    returns (next: seq<Cue>)
    requires |out| == |cues| && positions == Positions(cues, id)
    ensures |next| == |cues|
    ensures forall i | 0 <= i < |cues| :: next[i] == if cues[i].agent == id then ByAgent(cues, fallback)[i] else out[i]
  {
    PositionsFacts(cues, id);
    var group := NormalizedGroup(cues, id, positions, fallback);
    next := out;
    hide Normalized, Positions;
    for k := 0 to |positions|
      invariant |next| == |cues|
      invariant forall l | 0 <= l < k :: next[positions[l]] == group[l]
      invariant forall i | 0 <= i < |cues| && i !in positions[..k] :: next[i] == out[i]
    {
      next := next[positions[k] := group[k]];
    }
    assert positions[..|positions|] == positions;
    hide Sub, Rank, ByAgent;
    forall i | 0 <= i < |cues|
      ensures next[i] == if cues[i].agent == id then ByAgent(cues, fallback)[i] else out[i]
    {
      if cues[i].agent == id {
        PutBackAt(cues, i, fallback);
        assert positions[Rank(cues, i)] == i;
      }
    }
  }

  lemma PutBackAt(cues: seq<Cue>, i: nat, fallback: Option<int>)
    requires i < |cues|
    ensures Rank(cues, i) < |Positions(cues, cues[i].agent)| && Positions(cues, cues[i].agent)[Rank(cues, i)] == i
    ensures ByAgent(cues, fallback)[i] == Normalized(Sub(cues, cues[i].agent), fallback)[Rank(cues, i)]
  {
    RankIsIndex(cues, i);
  }

  method NormalizeCueEndsByAgent(cues: seq<Cue>, fallback: Option<int>) returns (out: seq<Cue>)
    ensures out == ByAgent(cues, fallback)
  {
    hide ByAgent, Normalized, Grouped, OneAgent;
    var groups, order := GroupByAgent(cues);
    if |order| <= 1 {
      FewAgents(cues, groups, order);
      OneAgentNeedsNoGroups(cues, fallback);
      out := NormalizeCueEnds(cues, fallback);
    } else {
      out := NormalizeGroups(cues, groups, order, fallback);
    }
  }

  method NormalizeGroups(cues: seq<Cue>, groups: map<AgentId, seq<nat>>, order: seq<AgentId>, fallback: Option<int>)
    returns (out: seq<Cue>)
    requires Grouped(cues, groups, order)
    ensures out == ByAgent(cues, fallback)
  {
    out := cues;
    hide ByAgent, Positions, Grouped;
    for k := 0 to |order|
      invariant |out| == |cues|
      invariant forall i | 0 <= i < |cues| && cues[i].agent in order[..k] :: out[i] == ByAgent(cues, fallback)[i]
    {
      ListedGroup(cues, groups, order, k);
      out := PutBack(cues, out, order[k], groups[order[k]], fallback);
      assert order[..k + 1] == order[..k] + [order[k]];
    }
    EveryAgentListed(cues, groups, order);
    assert order[..|order|] == order;
  }

  lemma ListedGroup(cues: seq<Cue>, groups: map<AgentId, seq<nat>>, order: seq<AgentId>, k: nat)
    requires Grouped(cues, groups, order) && k < |order|
    ensures order[k] in groups && groups[order[k]] == Positions(cues, order[k])
  {
    assert order[k] in order;
  }

  lemma EveryAgentListed(cues: seq<Cue>, groups: map<AgentId, seq<nat>>, order: seq<AgentId>)
    requires Grouped(cues, groups, order)
    ensures forall i | 0 <= i < |cues| :: cues[i].agent in order
  {
    hide Positions;
    forall i | 0 <= i < |cues|
      ensures cues[i].agent in order
    {
      PositionsCover(cues, i);
    }
  }

  lemma FewAgents(cues: seq<Cue>, groups: map<AgentId, seq<nat>>, order: seq<AgentId>)
    requires Grouped(cues, groups, order) && |order| <= 1
    ensures OneAgent(cues)
  {
    hide Grouped;
    EveryAgentListed(cues, groups, order);
    forall i, j | 0 <= i < |cues| && 0 <= j < |cues|
      ensures cues[i].agent == cues[j].agent
    {
      assert cues[i].agent in order && cues[j].agent in order;
    }
  }

  // ---- Lines ----

  function Earlier(a: Option<int>, b: Option<int>): Option<int> {
    if a.None? || (b.Some? && b.value < a.value) then b else a
  }

  function Later(a: Option<int>, b: Option<int>): Option<int> {
    if a.None? || (b.Some? && b.value > a.value) then b else a
  }

  /** A cue without an end counts with its start. */
  function LastTime(cue: Cue): Option<int> {
    if cue.end.Some? then cue.end else cue.start
  }

  function EarliestStart(cues: seq<Cue>): Option<int> {
    if cues == [] then None else Earlier(EarliestStart(cues[..|cues| - 1]), cues[|cues| - 1].start)
  }

  function LatestEnd(cues: seq<Cue>): Option<int> {
    if cues == [] then None else Later(LatestEnd(cues[..|cues| - 1]), LastTime(cues[|cues| - 1]))
  }

  /** A line without its own times spans its cues. */
  function Timed(line: Line): Line {
    line.(start := if line.start.Some? then line.start else EarliestStart(line.cues),
    end := if line.end.Some? then line.end else LatestEnd(line.cues))
  }

  predicate IsEarliest(t: Option<int>, cues: seq<Cue>) {
    && (t.None? <==> forall i | 0 <= i < |cues| :: cues[i].start.None?)
    && (t.Some? ==> exists i | 0 <= i < |cues| :: cues[i].start == t)
    && (t.Some? ==> forall i | 0 <= i < |cues| && cues[i].start.Some? :: t.value <= cues[i].start.value)
  }

  /** The latest end, where a cue without one counts with its start. */
  predicate IsLatest(t: Option<int>, cues: seq<Cue>) {
    && (t.None? <==> forall i | 0 <= i < |cues| :: cues[i].start.None? && cues[i].end.None?)
    && (t.Some? ==> exists i | 0 <= i < |cues| :: cues[i].end == t || (cues[i].end.None? && cues[i].start == t))
    && (t.Some? ==> forall i | 0 <= i < |cues| && cues[i].end.Some? :: cues[i].end.value <= t.value)
    && (t.Some? ==> forall i | 0 <= i < |cues| && cues[i].end.None? && cues[i].start.Some? ::
      cues[i].start.value <= t.value)
  }

  /** Times of its own stay; missing ones are those of the cues. */
  predicate SpansCues(line: Line, out: Line) {
    && out.value == line.value && out.cues == line.cues
    && (if line.start.Some? then out.start == line.start else IsEarliest(out.start, line.cues))
    && (if line.end.Some? then out.end == line.end else IsLatest(out.end, line.cues))
  }

  lemma TimedSpans(line: Line)
    ensures SpansCues(line, Timed(line))
  {
    EarliestIsIt(line.cues);
    LatestIsIt(line.cues);
    hide IsEarliest, IsLatest;
  }

  lemma EarliestIsIt(cues: seq<Cue>)
    ensures IsEarliest(EarliestStart(cues), cues)
  {
    EarliestIsLeast(cues);
    hide EarliestStart;
    if EarliestStart(cues).Some? {
      var i :| 0 <= i < |cues| && cues[i].start == EarliestStart(cues);
    }
  }

  lemma LatestIsIt(cues: seq<Cue>)
    ensures IsLatest(LatestEnd(cues), cues)
  {
    LatestIsGreatest(cues);
    hide LatestEnd;
    forall i | 0 <= i < |cues|
      ensures LastTime(cues[i]) == if cues[i].end.Some? then cues[i].end else cues[i].start
    {
    }
    if LatestEnd(cues).Some? {
      var i :| 0 <= i < |cues| && LastTime(cues[i]) == LatestEnd(cues);
    }
  }

  method NormalizeLineTiming(line: Line) returns (out: Line)
    ensures out == Timed(line)
    ensures SpansCues(line, out)
  {
    TimedSpans(line);
    if line.cues == [] {
      return line;
    }
    var earliest: Option<int>, latest: Option<int> := None, None;
    for i := 0 to |line.cues|
      invariant earliest == EarliestStart(line.cues[..i]) && latest == LatestEnd(line.cues[..i])
    {
      assert line.cues[..i + 1][..i] == line.cues[..i];
      var cue := line.cues[i];
      if cue.start.Some? {
        if earliest.None? || cue.start.value < earliest.value {
          earliest := cue.start;
        }
      }
      var candidate := if cue.end.None? then cue.start else cue.end;
      if candidate.Some? {
        if latest.None? || candidate.value > latest.value {
          latest := candidate;
        }
      }
    }
    assert line.cues[..|line.cues|] == line.cues;
    out := line;
    if line.start.None? && earliest.Some? {
      out := out.(start := earliest);
    }
    if line.end.None? && latest.Some? {
      out := out.(end := latest);
    }
  }

  /** The earliest start is a cue's and before all others; it is missing only if all are. */
  lemma {:induction false} EarliestIsLeast(cues: seq<Cue>)
    ensures forall i | 0 <= i < |cues| && cues[i].start.Some? ::
      EarliestStart(cues).Some? && EarliestStart(cues).value <= cues[i].start.value
    ensures EarliestStart(cues).Some? ==> exists i | 0 <= i < |cues| :: cues[i].start == EarliestStart(cues)
  {
    if cues != [] {
      var init, last := cues[..|cues| - 1], cues[|cues| - 1];
      EarliestIsLeast(init);
      if EarliestStart(cues).Some? && EarliestStart(cues) != last.start {
        var i :| 0 <= i < |init| && init[i].start == EarliestStart(init);
        assert cues[i].start == EarliestStart(cues);
      }
    }
  }

  lemma {:induction false} LatestIsGreatest(cues: seq<Cue>)
    ensures forall i | 0 <= i < |cues| && LastTime(cues[i]).Some? ::
      LatestEnd(cues).Some? && LatestEnd(cues).value >= LastTime(cues[i]).value
    ensures LatestEnd(cues).Some? ==> exists i | 0 <= i < |cues| :: LastTime(cues[i]) == LatestEnd(cues)
  {
    if cues != [] {
      var init, last := cues[..|cues| - 1], cues[|cues| - 1];
      LatestIsGreatest(init);
      if LatestEnd(cues).Some? && LatestEnd(cues) != LastTime(last) {
        var i :| 0 <= i < |init| && LastTime(init[i]) == LatestEnd(init);
        assert LastTime(cues[i]) == LatestEnd(cues);
      }
    }
  }

  /** A line's cues may run to its own end, else to the start of the next line. */
  function LineFallback(lines: seq<Line>, i: nat): Option<int>
    requires i < |lines|
  {
    if lines[i].end.Some? then lines[i].end else if i + 1 < |lines| then lines[i + 1].start else None
  }

  function NormalizedLine(line: Line, fallback: Option<int>): Line {
    Timed(line.(cues := ByAgent(line.cues, fallback)))
  }

  /** The ends of each agent's cues are resolved by themselves, and the line spans what comes out. */
  ghost predicate IsNormalized(line: Line, fallback: Option<int>, out: Line) {
    && |out.cues| == |line.cues| && (forall k | 0 <= k < |line.cues| :: out.cues[k].agent == line.cues[k].agent)
    && (forall a :: EndsResolved(Sub(line.cues, a), fallback, Sub(out.cues, a)))
    && SpansCues(line.(cues := out.cues), out)
  }

  lemma LineIsNormalized(line: Line, fallback: Option<int>)
    ensures IsNormalized(line, fallback, NormalizedLine(line, fallback))
  {
    var cues := ByAgent(line.cues, fallback);
    forall a
      ensures EndsResolved(Sub(line.cues, a), fallback, Sub(cues, a))
    {
      ByAgentNormalizesEach(line.cues, fallback, a);
      NormalizedResolves(Sub(line.cues, a), fallback);
    }
    TimedSpans(line.(cues := cues));
    hide EndsResolved, SpansCues, Sub, Normalized, Rank;
  }

  lemma LinesAreNormalized(lines: seq<Line>)
    ensures forall i | 0 <= i < |lines| ::
      IsNormalized(lines[i], LineFallback(lines, i), NormalizedLine(lines[i], LineFallback(lines, i)))
  {
    hide NormalizedLine, IsNormalized;
    forall i | 0 <= i < |lines|
      ensures IsNormalized(lines[i], LineFallback(lines, i), NormalizedLine(lines[i], LineFallback(lines, i)))
    {
      LineIsNormalized(lines[i], LineFallback(lines, i));
    }
  }

  /** Line by line; the fallback is read before the next line is touched. */
  method NormalizeCueLines(lines: seq<Line>) returns (out: seq<Line>)
    ensures |out| == |lines|
    ensures forall i | 0 <= i < |lines| :: out[i] == NormalizedLine(lines[i], LineFallback(lines, i))
    ensures forall i | 0 <= i < |lines| && lines[i].end.Some? :: IsNormalized(lines[i], lines[i].end, out[i])
    ensures forall i | 0 <= i < |lines| - 1 && lines[i].end.None? :: IsNormalized(lines[i], lines[i + 1].start, out[i])
    ensures lines != [] && lines[|lines| - 1].end.None? ==> IsNormalized(lines[|lines| - 1], None, out[|lines| - 1])
  {
    LinesAreNormalized(lines);
    hide IsNormalized;
    out := lines;
    hide ByAgent, Timed;
    for i := 0 to |lines|
      invariant |out| == |lines|
      invariant forall j | 0 <= j < i :: out[j] == NormalizedLine(lines[j], LineFallback(lines, j))
      invariant forall j | i <= j < |lines| :: out[j] == lines[j]
    {
      var fallback: Option<int> := None;
      if out[i].end.Some? {
        fallback := out[i].end;
      } else if i + 1 < |out| && out[i + 1].start.Some? {
        fallback := out[i + 1].start;
      }
      var cues := NormalizeCueEndsByAgent(out[i].cues, fallback);
      var line := NormalizeLineTiming(out[i].(cues := cues));
      out := out[i := line];
    }
  }
}
