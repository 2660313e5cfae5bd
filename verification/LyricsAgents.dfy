/** Which agents a TTML document's cues belong to, and which of them is the main one. */
module LyricsAgents {
  import opened LyricsModel

  /** What an agent is before one is made the main one; an empty id is no agent. */
  datatype BaseRole = Solo | Group | Background

  datatype Role = Main | Base(role: BaseRole)

  datatype ListedAgent = ListedAgent(id: string, role: Role, name: string)

  /** What a document says of an agent. */
  datatype Definition = Definition(kind: string, name: string)

  type Definitions = map<string, Definition>

  const BACKGROUND_PREFIX := "__nd_bg__|"

  predicate IsBackground(id: string) {
    BACKGROUND_PREFIX <= id
  }

  function BaseRoleOf(defined: Definitions, id: string): BaseRole {
    if IsBackground(id) then Background
    else if id in defined && defined[id].kind == "group" then Group
    else Solo
  }

  /** A background voice has the name of the agent it belongs to, except that of "main". */
  function NameOf(defined: Definitions, id: string): string {
    var base := if IsBackground(id) then id[|BACKGROUND_PREFIX|..] else id;
    if IsBackground(id) && base == "main" then ""
    else if base in defined then defined[base].name
    else ""
  }

  /** The used ids in order of first use. */
  function UsedOrder(ids: seq<string>): seq<string> {
    if ids == [] then [] else
      var init, last := UsedOrder(ids[..|ids| - 1]), ids[|ids| - 1];
      if last == "" || last in init then init else init + [last]
  }

  lemma {:induction false} UsedOnce(ids: seq<string>)
    ensures forall id :: id in UsedOrder(ids) <==> id in ids && id != ""
    ensures forall i, j | 0 <= i < j < |UsedOrder(ids)| :: UsedOrder(ids)[i] != UsedOrder(ids)[j]
  {
    if ids != [] {
      var init, last := ids[..|ids| - 1], ids[|ids| - 1];
      UsedOnce(init);
      assert ids == init + [last];
    }
  }

  /** Some use of `a` comes before every use of `b`. */
  predicate UsedBefore(ids: seq<string>, a: string, b: string) {
    exists p | 0 <= p < |ids| :: ids[p] == a && b !in ids[..p + 1]
  }

  /** The ids that are not empty, each once, in order of first use. */
  predicate InOrderOfUse(ids: seq<string>, order: seq<string>) {
    && (forall id | id in order :: id in ids && id != "") && (forall id | id in ids && id != "" :: id in order)
    && forall i, j | 0 <= i < j < |order| :: UsedBefore(ids, order[i], order[j])
  }

  lemma {:induction false} UsedInOrder(ids: seq<string>)
    ensures InOrderOfUse(ids, UsedOrder(ids))
  {
    if ids != [] {
      var n := |ids| - 1;
      var init := ids[..n];
      var order := UsedOrder(ids);
      UsedInOrder(init);
      UsedOnce(ids);
      UsedOnce(init);
      assert ids == init + [ids[n]];
      forall i, j | 0 <= i < j < |order|
        ensures UsedBefore(ids, order[i], order[j])
      {
        var p: nat;
        if j < |UsedOrder(init)| {
          p :| 0 <= p < n && init[p] == order[i] && order[j] !in init[..p + 1];
        } else {
          assert order[i] in init;
          p :| 0 <= p < n && init[p] == order[i];
        }
        assert ids[..p + 1] == init[..p + 1];
      }
    }
  }

  /** The first id, if any, of an allowed role. */
  function FirstOf(order: seq<string>, defined: Definitions, allowed: set<BaseRole>): Option<string> {
    if order == [] then None
    else if BaseRoleOf(defined, order[0]) in allowed then Some(order[0])
    else FirstOf(order[1..], defined, allowed)
  }

  predicate IsFirst(order: seq<string>, defined: Definitions, allowed: set<BaseRole>, k: nat) {
    && k < |order| && BaseRoleOf(defined, order[k]) in allowed
    && forall l | 0 <= l < k :: BaseRoleOf(defined, order[l]) !in allowed
  }

  lemma {:induction false} FirstOfIsFirst(order: seq<string>, defined: Definitions, allowed: set<BaseRole>)
    ensures FirstOf(order, defined, allowed).None? <==> forall id | id in order :: BaseRoleOf(defined, id) !in allowed
    ensures FirstOf(order, defined, allowed).Some? ==>
      exists k: nat :: IsFirst(order, defined, allowed, k) && order[k] == FirstOf(order, defined, allowed).value
  {
    if order != [] {
      FirstOfIsFirst(order[1..], defined, allowed);
      if BaseRoleOf(defined, order[0]) in allowed {
        assert IsFirst(order, defined, allowed, 0);
      } else if FirstOf(order, defined, allowed).Some? {
        var found := FirstOf(order, defined, allowed).value;
        var k: nat :| IsFirst(order[1..], defined, allowed, k) && order[1..][k] == found;
        assert forall l | 0 < l <= k + 1 :: order[l] == order[1..][l - 1];
        assert IsFirst(order, defined, allowed, k + 1);
      }
    }
  }

  /** A solo voice, else "main" for cues without an agent, else a group, else whatever comes first. */
  function MainOf(order: seq<string>, sawEmpty: bool, defined: Definitions): string
    requires order != []
  {
    var solo, front := FirstOf(order, defined, {Solo}), FirstOf(order, defined, {Solo, Group});
    if solo.Some? then solo.value else if sawEmpty then "main" else if front.Some? then front.value else order[0]
  }

  function Listed(order: seq<string>, main: string): seq<string> {
    if main in order then order else [main] + order
  }

  method UsedIds(ids: seq<string>) returns (order: seq<string>, sawEmpty: bool)
    ensures order == UsedOrder(ids) && (sawEmpty <==> "" in ids)
  {
    order, sawEmpty := [], false;
    for i := 0 to |ids|
      invariant order == UsedOrder(ids[..i]) && (sawEmpty <==> "" in ids[..i])
    {
      assert ids[..i + 1] == ids[..i] + [ids[i]];
      if ids[i] == "" {
        sawEmpty := true;
      } else if ids[i] !in order {
        order := order + [ids[i]];
      }
    }
    assert ids[..|ids|] == ids;
  }

  method Find(order: seq<string>, defined: Definitions, allowed: set<BaseRole>) returns (found: Option<string>)
    ensures found == FirstOf(order, defined, allowed)
  {
    found := None;
    var i := 0;
    while i < |order|
      invariant i <= |order| && FirstOf(order[i..], defined, allowed) == FirstOf(order, defined, allowed)
    {
      assert order[i..][1..] == order[i + 1..];
      if BaseRoleOf(defined, order[i]) in allowed {
        return Some(order[i]);
      }
      i := i + 1;
    }
    assert order[i..] == [];
  }

  // ---- What the choice is ----

  predicate InBackground(id: string) {
    |id| >= 10 && id[..10] == "__nd_bg__|"
  }

  /** Neither a background voice nor a group. */
  predicate SingsAlone(defined: Definitions, id: string) {
    !InBackground(id) && (id in defined ==> defined[id].kind != "group")
  }

  /** The first in order that sings alone. */
  predicate FirstAlone(order: seq<string>, defined: Definitions, main: string) {
    exists k | 0 <= k < |order| ::
      order[k] == main && SingsAlone(defined, main) && forall l | 0 <= l < k :: !SingsAlone(defined, order[l])
  }

  predicate FirstInFront(order: seq<string>, main: string) {
    exists k | 0 <= k < |order| ::
      order[k] == main && !InBackground(main) && forall l | 0 <= l < k :: InBackground(order[l])
  }

  /**
   * The first agent used that sings alone; without one, "main" if some cue has no agent; else the first
   * that is not in the background; else the first of all.
   */
  predicate IsMain(ids: seq<string>, order: seq<string>, defined: Definitions, main: string) {
    var alone := exists id | id in order :: SingsAlone(defined, id);
    var front := exists id | id in order :: !InBackground(id);
    && (alone ==> FirstAlone(order, defined, main))
    && (!alone && "" in ids ==> main == "main")
    && (!alone && "" !in ids && front ==> FirstInFront(order, main))
    && (!alone && "" !in ids && !front ==> order != [] && main == order[0])
  }

  /** The role "main" for one, else the role the document gives; a background voice has the name of its agent. */
  predicate IsListedAs(agent: ListedAgent, id: string, main: string, defined: Definitions) {
    && agent.id == id && (id == main <==> agent.role == Main)
    && (id != main && InBackground(id) ==> agent.role == Base(Background))
    && (id != main && !InBackground(id) ==> agent.role == Base(if SingsAlone(defined, id) then Solo else Group))
    && (!InBackground(id) ==> agent.name == if id in defined then defined[id].name else "")
    && (InBackground(id) ==> var base := id[10..];
      agent.name == if base != "main" && base in defined then defined[base].name else "")
  }

  ghost predicate AgentsResolved(ids: seq<string>, defined: Definitions,
      resolved: seq<string>, agents: seq<ListedAgent>) {
    exists order, main :: ResolvedWith(ids, defined, resolved, agents, order, main)
  }

  ghost predicate ResolvedWith(ids: seq<string>, defined: Definitions,
      resolved: seq<string>, agents: seq<ListedAgent>, order: seq<string>, main: string) {
    && InOrderOfUse(ids, order) && IsMain(ids, order, defined, main)
    && |resolved| == |ids| && (forall i | 0 <= i < |ids| :: resolved[i] == if ids[i] == "" then main else ids[i])
    && var listed := if main in order then order else [main] + order;
      |agents| == |listed| && forall i | 0 <= i < |agents| :: IsListedAs(agents[i], listed[i], main, defined)
  }

  lemma RoleIs(defined: Definitions, id: string)
    ensures BaseRoleOf(defined, id) == Background <==> InBackground(id)
    ensures BaseRoleOf(defined, id) == Solo <==> SingsAlone(defined, id)
    ensures |BACKGROUND_PREFIX| == 10
  {
  }

  lemma FirstAloneIs(order: seq<string>, defined: Definitions)
    ensures var solo := FirstOf(order, defined, {Solo});
      && (solo.Some? <==> exists id | id in order :: SingsAlone(defined, id))
      && (solo.Some? ==> FirstAlone(order, defined, solo.value))
  {
    FirstOfIsFirst(order, defined, {Solo});
    hide FirstOf, BaseRoleOf, SingsAlone;
    forall id
      ensures BaseRoleOf(defined, id) == Solo <==> SingsAlone(defined, id)
    {
      RoleIs(defined, id);
    }
  }

  lemma FirstInFrontIs(order: seq<string>, defined: Definitions)
    ensures var front := FirstOf(order, defined, {Solo, Group});
      && (front.Some? <==> exists id | id in order :: !InBackground(id))
      && (front.Some? ==> FirstInFront(order, front.value))
  {
    FirstOfIsFirst(order, defined, {Solo, Group});
    hide FirstOf, BaseRoleOf, InBackground;
    forall id
      ensures BaseRoleOf(defined, id) == Background <==> InBackground(id)
    {
      RoleIs(defined, id);
    }
  }

  lemma MainIs(ids: seq<string>, order: seq<string>, defined: Definitions)
    requires order != []
    ensures IsMain(ids, order, defined, MainOf(order, "" in ids, defined))
  {
    hide FirstOf, FirstAlone, FirstInFront, SingsAlone, InBackground;
    FirstAloneIs(order, defined);
    FirstInFrontIs(order, defined);
  }

  lemma ListedAs(order: seq<string>, main: string, defined: Definitions)
    ensures forall i | 0 <= i < |order| :: IsListedAs(Roles(order, main, defined)[i], order[i], main, defined)
  {
    forall i | 0 <= i < |order|
      ensures IsListedAs(Roles(order, main, defined)[i], order[i], main, defined)
    {
      RoleIs(defined, order[i]);
    }
  }

  /** The main agent's role is replaced; the others keep theirs. */
  function Roles(order: seq<string>, main: string, defined: Definitions): (agents: seq<ListedAgent>)
    ensures |agents| == |order|
  {
    seq(|order|, i requires 0 <= i < |order| =>
      var role := if order[i] == main then Main else Base(BaseRoleOf(defined, order[i]));
      ListedAgent(order[i], role, NameOf(defined, order[i])))
  }

  method ChooseMain(order: seq<string>, sawEmpty: bool, defined: Definitions) returns (main: string)
    requires order != []
    ensures main == MainOf(order, sawEmpty, defined)
  {
    var found := Find(order, defined, {Solo});
    if found.Some? {
      return found.value;
    }
    if sawEmpty {
      return "main";
    }
    found := Find(order, defined, {Solo, Group});
    main := if found.Some? then found.value else order[0];
  }

  method FillEmpty(ids: seq<string>, main: string) returns (resolved: seq<string>)
    ensures |resolved| == |ids| && forall i | 0 <= i < |ids| :: resolved[i] == if ids[i] == "" then main else ids[i]
  {
    resolved := ids;
    for i := 0 to |ids|
      invariant |resolved| == |ids|
      invariant forall j | 0 <= j < |ids| :: resolved[j] == if j < i && ids[j] == "" then main else ids[j]
    {
      if resolved[i] == "" {
        resolved := resolved[i := main];
      }
    }
  }

  method ListAgents(order: seq<string>, main: string, defined: Definitions) returns (agents: seq<ListedAgent>)
    ensures agents == Roles(order, main, defined)
  {
    agents := [];
    hide BaseRoleOf, NameOf;
    for i := 0 to |order|
      invariant |agents| == i && forall j | 0 <= j < i :: agents[j] == Roles(order, main, defined)[j]
    {
      var role := if order[i] == main then Main else Base(BaseRoleOf(defined, order[i]));
      agents := agents + [ListedAgent(order[i], role, NameOf(defined, order[i]))];
    }
  }

  /** Gives every cue without an agent the main one; lists the agents with their roles, the main one among them. */
  method ResolveAgents(ids: seq<string>, defined: Definitions) returns (resolved: seq<string>, agents: seq<ListedAgent>)
    ensures |resolved| == |ids|
    ensures UsedOrder(ids) == [] ==> resolved == ids && agents == []
    ensures UsedOrder(ids) != [] ==>
      var main := MainOf(UsedOrder(ids), "" in ids, defined);
      && agents == Roles(Listed(UsedOrder(ids), main), main, defined)
      && forall i | 0 <= i < |ids| :: resolved[i] == if ids[i] == "" then main else ids[i]
    ensures (forall id | id in ids :: id == "") ==> resolved == ids && agents == []
    ensures (exists id | id in ids :: id != "") ==> AgentsResolved(ids, defined, resolved, agents)
  {
    UsedInOrder(ids);
    hide UsedOrder, MainOf, Roles, IsMain, IsListedAs, AgentsResolved;
    var order, sawEmpty := UsedIds(ids);
    assert order != [] ==> order[0] in order;
    if order == [] {
      return ids, [];
    }
    var main := ChooseMain(order, sawEmpty, defined);
    if main !in order {
      order := [main] + order;
    }
    resolved := FillEmpty(ids, main);
    agents := ListAgents(order, main, defined);
    ListIsResolved(ids, defined, resolved, agents);
  }

  lemma ListIsResolved(ids: seq<string>, defined: Definitions, resolved: seq<string>, agents: seq<ListedAgent>)
    requires UsedOrder(ids) != [] && |resolved| == |ids|
    requires var main := MainOf(UsedOrder(ids), "" in ids, defined);
      && agents == Roles(Listed(UsedOrder(ids), main), main, defined)
      && forall i | 0 <= i < |ids| :: resolved[i] == if ids[i] == "" then main else ids[i]
    ensures AgentsResolved(ids, defined, resolved, agents)
  {
    hide UsedOrder, MainOf, Roles, IsMain, IsListedAs, InOrderOfUse;
    var order := UsedOrder(ids);
    var main := MainOf(order, "" in ids, defined);
    UsedInOrder(ids);
    MainIs(ids, order, defined);
    ListedAs(Listed(order, main), main, defined);
    assert ResolvedWith(ids, defined, resolved, agents, order, main);
  }

  /** The outcome for ids that are not all empty. */
  function Resolved(ids: seq<string>, defined: Definitions): seq<ListedAgent>
    requires UsedOrder(ids) != []
  {
    var main := MainOf(UsedOrder(ids), "" in ids, defined);
    Roles(Listed(UsedOrder(ids), main), main, defined)
  }

  lemma ListedIds(order: seq<string>, main: string)
    requires forall i, j | 0 <= i < j < |order| :: order[i] != order[j]
    ensures forall i, j | 0 <= i < j < |Listed(order, main)| :: Listed(order, main)[i] != Listed(order, main)[j]
    ensures forall id :: id in Listed(order, main) <==> id in order || id == main
  {
    if main !in order {
      assert Listed(order, main)[0] == main;
    }
  }

  predicate HasAgent(agents: seq<ListedAgent>, id: string) {
    exists i | 0 <= i < |agents| :: agents[i].id == id
  }

  /** Afterwards every cue names a listed agent, no agent is listed twice, and just one of them is the main one. */
  lemma EveryCueHasAListedAgent(ids: seq<string>, defined: Definitions)
    requires UsedOrder(ids) != []
    ensures var agents, main := Resolved(ids, defined), MainOf(UsedOrder(ids), "" in ids, defined);
      && (forall id | id in ids :: HasAgent(agents, if id == "" then main else id))
      && (forall i, j | 0 <= i < j < |agents| :: agents[i].id != agents[j].id)
      && HasAgent(agents, main) && forall i | 0 <= i < |agents| :: agents[i].role == Main <==> agents[i].id == main
  {
    UsedOnce(ids);
    var order, main, agents := UsedOrder(ids), MainOf(UsedOrder(ids), "" in ids, defined), Resolved(ids, defined);
    hide UsedOrder, MainOf;
    ListedIds(order, main);
    hide Listed;
    var listed := Listed(order, main);
    forall id | id in listed
      ensures HasAgent(agents, id)
    {
      var i :| 0 <= i < |listed| && listed[i] == id;
      assert agents[i].id == id;
    }
  }

  /** A background voice is made the main one only when there are no others and no cue lacks an agent. */
  lemma BackgroundIsMainOnlyAlone(ids: seq<string>, defined: Definitions)
    requires UsedOrder(ids) != []
    ensures IsBackground(MainOf(UsedOrder(ids), "" in ids, defined)) <==> forall id | id in ids :: IsBackground(id)
  {
    UsedOnce(ids);
    var order := UsedOrder(ids);
    assert order[0] in order;
    FirstOfIsFirst(order, defined, {Solo});
    FirstOfIsFirst(order, defined, {Solo, Group});
    assert !IsBackground("main") && !IsBackground("");
    if "" !in ids {
      assert forall id :: id in ids <==> id in order;
    }
  }
}
