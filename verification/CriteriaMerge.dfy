/** Merging of tag and role conditions on one field into batched EXISTS subqueries: what it yields. */
module CriteriaMerge {
  import opened SqlConditions

  const BATCH_SIZE: nat := 350

  /** The field a mergeable condition is about. */
  datatype Key = RoleKey(name: string) | TagKey(name: string)

  function KeyText(key: Key): string {
    match key
    case RoleKey(name) => "role:" + name
    case TagKey(name) => "tag:" + name
  }

  /** Conditions of the requested polarity that carry a test can be merged. */
  function MergeKey(c: Cond, negated: bool): Option<Key> {
    match c
    case RoleCond(role, Some(_), n) => if n == negated then Some(RoleKey(role)) else None
    case TagCond(tag, _, Some(_), n) => if n == negated then Some(TagKey(tag)) else None
    case _ => None
  }

  function TestOf(c: Cond): Test
    requires (c.RoleCond? || c.TagCond?) && c.test.Some?
  {
    c.test.value
  }

  predicate IsNumericTag(c: Cond) {
    c.TagCond? && c.numeric
  }

  /** The tests on one field, in order. */
  function TestsFor(conds: seq<Cond>, negated: bool, key: Key): seq<Test> {
    if conds == [] then [] else
      var last := conds[|conds| - 1];
      TestsFor(conds[..|conds| - 1], negated, key) + if MergeKey(last, negated) == Some(key) then [TestOf(last)] else []
  }

  /** The group of a field takes the numeric flag of its first condition. */
  predicate NumericFor(conds: seq<Cond>, negated: bool, key: Key) {
    if conds == [] then false else
      var init, last := conds[..|conds| - 1], conds[|conds| - 1];
      if TestsFor(init, negated, key) != [] then NumericFor(init, negated, key)
      else MergeKey(last, negated) == Some(key) && IsNumericTag(last)
  }

  predicate Merges(conds: seq<Cond>, negated: bool, key: Key) {
    |TestsFor(conds, negated, key)| >= 2
  }

  predicate IsMerged(conds: seq<Cond>, negated: bool, c: Cond) {
    MergeKey(c, negated).Some? && Merges(conds, negated, MergeKey(c, negated).value)
  }

  /** What is left of a prefix of `conds` once the merged conditions are taken out. */
  function Kept(conds: seq<Cond>, prefix: seq<Cond>, negated: bool): seq<Cond> {
    if prefix == [] then [] else
      var last := prefix[|prefix| - 1];
      Kept(conds, prefix[..|prefix| - 1], negated) + if IsMerged(conds, negated, last) then [] else [last]
  }

  function GroupCond(key: Key, numeric: bool, tests: seq<Test>, negated: bool): Cond {
    match key
    case RoleKey(role) => RoleGroup(role, tests, negated)
    case TagKey(tag) => TagGroup(tag, numeric, tests, negated)
  }

  function GroupsFor(key: Key, numeric: bool, tests: seq<Test>, negated: bool): seq<Cond> {
    if tests == [] then []
    else if |tests| <= BATCH_SIZE then [GroupCond(key, numeric, tests, negated)]
    else [GroupCond(key, numeric, tests[..BATCH_SIZE], negated)] + GroupsFor(key, numeric, tests[BATCH_SIZE..], negated)
  }

  function AdditionsFor(conds: seq<Cond>, negated: bool, key: Key): seq<Cond> {
    if Merges(conds, negated, key) then
      GroupsFor(key, NumericFor(conds, negated, key), TestsFor(conds, negated, key), negated)
    else []
  }

  function Additions(conds: seq<Cond>, negated: bool, keys: seq<Key>): seq<Cond> {
    if keys == [] then [] else AdditionsFor(conds, negated, keys[0]) + Additions(conds, negated, keys[1..])
  }

  function KeysOf(conds: seq<Cond>, negated: bool): set<Key> {
    set c | c in conds && MergeKey(c, negated).Some? :: MergeKey(c, negated).value
  }

  // ---- The order of the groups ----

  predicate LexLeq(a: string, b: string) {
    a == b || LexLess(a, b)
  }

  lemma {:induction false} LexTotal(a: string, b: string)
    ensures LexLeq(a, b) || LexLeq(b, a)
  {
    if a != "" && b != "" && a[0] == b[0] {
      LexTotal(a[1..], b[1..]);
      assert a == [a[0]] + a[1..] && b == [b[0]] + b[1..];
    }
  }

  lemma {:induction false} LexTransitive(a: string, b: string, c: string)
    requires LexLess(a, b) && LexLess(b, c)
    ensures LexLess(a, c)
  {
    if a != "" && a[0] == b[0] && b[0] == c[0] {
      LexTransitive(a[1..], b[1..], c[1..]);
    }
  }

  lemma {:induction false} LexIrreflexive(a: string)
    ensures !LexLess(a, a)
  {
    if a != "" {
      LexIrreflexive(a[1..]);
    }
  }

  predicate KeyLeq(a: Key, b: Key) {
    LexLeq(KeyText(a), KeyText(b))
  }

  lemma KeyTextInjective(a: Key, b: Key)
    requires KeyText(a) == KeyText(b)
    ensures a == b
  {
    assert KeyText(a)[0] == KeyText(b)[0];
    var skip := if a.RoleKey? then 5 else 4;
    assert a.name == KeyText(a)[skip..] && b.name == KeyText(b)[skip..];
  }

  lemma KeyAntisymmetric(a: Key, b: Key)
    requires KeyLeq(a, b) && KeyLeq(b, a)
    ensures a == b
  {
    if KeyText(a) != KeyText(b) {
      LexTransitive(KeyText(a), KeyText(b), KeyText(a));
      LexIrreflexive(KeyText(a));
    } else {
      KeyTextInjective(a, b);
    }
  }

  predicate IsLeast(keys: set<Key>, least: Key) {
    least in keys && forall k | k in keys :: KeyLeq(least, k)
  }

  lemma {:induction false} SomeKeyIsLeast(keys: set<Key>)
    requires keys != {}
    ensures exists least :: IsLeast(keys, least)
    decreases keys
  {
    var k :| k in keys;
    var rest := keys - {k};
    if rest == {} {
      assert keys == {k};
      assert IsLeast(keys, k);
    } else {
      SomeKeyIsLeast(rest);
      var m :| IsLeast(rest, m);
      LexTotal(KeyText(k), KeyText(m));
      if KeyLeq(m, k) {
        assert IsLeast(keys, m);
      } else {
        forall other | other in keys
          ensures KeyLeq(k, other)
        {
          assert other != k ==> KeyLeq(m, other);
          if other != k && KeyText(m) != KeyText(other) {
            LexTransitive(KeyText(k), KeyText(m), KeyText(other));
          }
        }
        assert IsLeast(keys, k);
      }
    }
  }

  ghost function LeastKey(keys: set<Key>): (least: Key)
    requires keys != {}
    ensures IsLeast(keys, least)
  {
    SomeKeyIsLeast(keys);
    var least :| IsLeast(keys, least);
    least
  }

  lemma LeastKeyIsUnique(keys: set<Key>, least: Key)
    requires IsLeast(keys, least)
    ensures least == LeastKey(keys)
  {
    KeyAntisymmetric(least, LeastKey(keys));
  }

  ghost function SortedKeys(keys: set<Key>): (sorted: seq<Key>)
    ensures forall k :: k in sorted <==> k in keys
    ensures |sorted| == |keys|
    decreases keys
  {
    if keys == {} then [] else
      var least := LeastKey(keys);
      [least] + SortedKeys(keys - {least})
  }

  lemma {:induction false} SortedKeysDistinct(keys: set<Key>)
    ensures forall i, j | 0 <= i < j < |SortedKeys(keys)| :: SortedKeys(keys)[i] != SortedKeys(keys)[j]
    decreases keys
  {
    if keys != {} {
      SortedKeysDistinct(keys - {LeastKey(keys)});
      assert LeastKey(keys) !in SortedKeys(keys - {LeastKey(keys)});
    }
  }

  /** The rewritten list: what was not merged in its order, then the groups by sorted field. */
  ghost function Merged(conds: seq<Cond>, negated: bool): seq<Cond> {
    Kept(conds, conds, negated) + Additions(conds, negated, SortedKeys(KeysOf(conds, negated)))
  }

  // ---- Simple facts ----

  lemma {:induction false} TestsForCounts(conds: seq<Cond>, negated: bool, key: Key)
    ensures TestsFor(conds, negated, key) != [] <==> key in KeysOf(conds, negated)
  {
    if conds != [] {
      var init, last := conds[..|conds| - 1], conds[|conds| - 1];
      assert conds == init + [last];
      TestsForCounts(init, negated, key);
      assert key in KeysOf(conds, negated) <==> key in KeysOf(init, negated) || MergeKey(last, negated) == Some(key);
    }
  }

  lemma {:induction false} TestsForAppend(a: seq<Cond>, b: seq<Cond>, negated: bool, key: Key)
    ensures TestsFor(a + b, negated, key) == TestsFor(a, negated, key) + TestsFor(b, negated, key)
  {
    if b == [] {
      assert a + b == a;
    } else {
      var init, last := b[..|b| - 1], b[|b| - 1];
      TestsForAppend(a, init, negated, key);
      assert (a + b)[..|a + b| - 1] == a + init && (a + b)[|a + b| - 1] == last;
    }
  }

  /** Only tag conditions that disagree on being numeric could be read differently in a group. */
  predicate NumericAgrees(conds: seq<Cond>) {
    forall c, d | c in conds && d in conds && c.TagCond? && d.TagCond? && c.tag == d.tag :: c.numeric == d.numeric
  }

  lemma {:induction false} NumericForAgrees(conds: seq<Cond>, negated: bool, c: Cond, key: Key)
    requires NumericAgrees(conds) && c in conds && MergeKey(c, negated) == Some(key)
    ensures NumericFor(conds, negated, key) == IsNumericTag(c)
  {
    var init, last := conds[..|conds| - 1], conds[|conds| - 1];
    assert conds == init + [last];
    TestsForCounts(init, negated, key);
    if TestsFor(init, negated, key) != [] {
      var d :| d in init && MergeKey(d, negated) == Some(key);
      NumericForAgrees(init, negated, d, key);
    }
  }

  // ---- Sizes ----

  predicate IsGroup(c: Cond) {
    c.RoleGroup? || c.TagGroup?
  }

  function GroupKey(c: Cond): Key
    requires IsGroup(c)
  {
    if c.RoleGroup? then RoleKey(c.role) else TagKey(c.tag)
  }

  function CountGroups(conds: seq<Cond>, key: Key): nat {
    if conds == [] then 0 else
      CountGroups(conds[..|conds| - 1], key) +
        if IsGroup(conds[|conds| - 1]) && GroupKey(conds[|conds| - 1]) == key then 1 else 0
  }

  lemma {:induction false} CountGroupsAppend(a: seq<Cond>, b: seq<Cond>, key: Key)
    ensures CountGroups(a + b, key) == CountGroups(a, key) + CountGroups(b, key)
  {
    if b == [] {
      assert a + b == a;
    } else {
      CountGroupsAppend(a, b[..|b| - 1], key);
      assert (a + b)[..|a + b| - 1] == a + b[..|b| - 1];
    }
  }

  function CeilDiv(n: nat, d: nat): nat
    requires d > 0
  {
    (n + d - 1) / d
  }

  /** Batches hold between one and 350 tests, and are as few as that allows. */
  lemma {:induction false} GroupSizes(key: Key, numeric: bool, tests: seq<Test>, negated: bool)
    ensures |GroupsFor(key, numeric, tests, negated)| == CeilDiv(|tests|, 350)
    ensures forall g | g in GroupsFor(key, numeric, tests, negated) ::
      IsGroup(g) && GroupKey(g) == key && 1 <= |g.tests| <= 350 && g.negated == negated
    decreases |tests|
  {
    if |tests| > BATCH_SIZE {
      GroupSizes(key, numeric, tests[BATCH_SIZE..], negated);
    }
  }

  lemma {:induction false} AllGroupsCount(groups: seq<Cond>, key: Key, other: Key)
    requires forall g | g in groups :: IsGroup(g) && GroupKey(g) == key
    ensures CountGroups(groups, other) == if other == key then |groups| else 0
  {
    if groups != [] {
      assert groups[|groups| - 1] in groups;
      AllGroupsCount(groups[..|groups| - 1], key, other);
    }
  }

  lemma {:induction false} AdditionSizes(conds: seq<Cond>, negated: bool, keys: seq<Key>, key: Key)
    requires forall i, j | 0 <= i < j < |keys| :: keys[i] != keys[j]
    ensures forall g | g in Additions(conds, negated, keys) ::
      IsGroup(g) && 1 <= |g.tests| <= 350 && g.negated == negated
    ensures CountGroups(Additions(conds, negated, keys), key) ==
      if key in keys && Merges(conds, negated, key) then CeilDiv(|TestsFor(conds, negated, key)|, 350) else 0
  {
    if keys != [] {
      AdditionSizes(conds, negated, keys[1..], key);
      GroupSizes(keys[0], NumericFor(conds, negated, keys[0]), TestsFor(conds, negated, keys[0]), negated);
      AllGroupsCount(AdditionsFor(conds, negated, keys[0]), keys[0], key);
      CountGroupsAppend(AdditionsFor(conds, negated, keys[0]), Additions(conds, negated, keys[1..]), key);
      assert forall k :: k in keys <==> k == keys[0] || k in keys[1..];
    }
  }

  lemma {:induction false} KeptGroups(conds: seq<Cond>, prefix: seq<Cond>, negated: bool, key: Key)
    ensures CountGroups(Kept(conds, prefix, negated), key) == CountGroups(prefix, key)
  {
    if prefix != [] {
      var init, last := prefix[..|prefix| - 1], prefix[|prefix| - 1];
      KeptGroups(conds, init, negated, key);
      assert IsMerged(conds, negated, last) ==> !IsGroup(last);
      hide IsMerged, IsGroup, GroupKey;
      var rest := Kept(conds, init, negated);
      CountGroupsAppend(rest, if IsMerged(conds, negated, last) then [] else [last], key);
    }
  }

  /** A field with k >= 2 mergeable conditions gets exactly ceil(k/350) groups; any other field none. */
  lemma MergedGroupCount(conds: seq<Cond>, negated: bool, key: Key)
    ensures CountGroups(Merged(conds, negated), key) == CountGroups(conds, key) +
      (if Merges(conds, negated, key) then CeilDiv(|TestsFor(conds, negated, key)|, 350) else 0)
    ensures forall g | g in Merged(conds, negated) && g !in conds ::
      IsGroup(g) && 1 <= |g.tests| <= 350 && g.negated == negated
  {
    var keys := SortedKeys(KeysOf(conds, negated));
    SortedKeysDistinct(KeysOf(conds, negated));
    AdditionSizes(conds, negated, keys, key);
    KeptGroups(conds, conds, negated, key);
    KeptComesFromInput(conds, conds, negated);
    CountGroupsAppend(Kept(conds, conds, negated), Additions(conds, negated, keys), key);
    TestsForCounts(conds, negated, key);
  }

  lemma {:induction false} KeptComesFromInput(conds: seq<Cond>, prefix: seq<Cond>, negated: bool)
    ensures forall c :: c in Kept(conds, prefix, negated) <==> c in prefix && !IsMerged(conds, negated, c)
  {
    if prefix != [] {
      var init, last := prefix[..|prefix| - 1], prefix[|prefix| - 1];
      assert prefix == init + [last];
      KeptComesFromInput(conds, init, negated);
    }
  }

  // ---- A second merge changes nothing ----

  lemma {:induction false} KeptTests(conds: seq<Cond>, prefix: seq<Cond>, negated: bool, key: Key)
    ensures TestsFor(Kept(conds, prefix, negated), negated, key) ==
      if Merges(conds, negated, key) then [] else TestsFor(prefix, negated, key)
  {
    if prefix != [] {
      var init, last := prefix[..|prefix| - 1], prefix[|prefix| - 1];
      KeptTests(conds, init, negated, key);
      assert MergeKey(last, negated) == Some(key) ==> (IsMerged(conds, negated, last) <==> Merges(conds, negated, key));
      hide MergeKey, IsMerged, Merges;
      var rest := Kept(conds, init, negated);
      TestsForAppend(rest, if IsMerged(conds, negated, last) then [] else [last], negated, key);
    }
  }

  lemma {:induction false} GroupsHaveNoTests(groups: seq<Cond>, negated: bool, key: Key)
    requires forall g | g in groups :: IsGroup(g)
    ensures TestsFor(groups, negated, key) == []
  {
    if groups != [] {
      assert groups[|groups| - 1] in groups;
      GroupsHaveNoTests(groups[..|groups| - 1], negated, key);
    }
  }

  lemma {:induction false} NothingTakenOut(conds: seq<Cond>, prefix: seq<Cond>, negated: bool)
    requires forall key :: !Merges(conds, negated, key)
    ensures Kept(conds, prefix, negated) == prefix
  {
    hide Merges, MergeKey;
    if prefix != [] {
      var init, last := prefix[..|prefix| - 1], prefix[|prefix| - 1];
      NothingTakenOut(conds, init, negated);
      assert !IsMerged(conds, negated, last);
      assert prefix == init + [last];
    }
  }

  lemma {:induction false} NothingAdded(conds: seq<Cond>, negated: bool, keys: seq<Key>)
    requires forall key :: !Merges(conds, negated, key)
    ensures Additions(conds, negated, keys) == []
  {
    hide Merges;
    if keys != [] {
      NothingAdded(conds, negated, keys[1..]);
    }
  }

  lemma NothingMerged(conds: seq<Cond>, negated: bool)
    requires forall key :: !Merges(conds, negated, key)
    ensures Merged(conds, negated) == conds
  {
    hide Merges;
    NothingTakenOut(conds, conds, negated);
    NothingAdded(conds, negated, SortedKeys(KeysOf(conds, negated)));
  }

  lemma MergeIsIdempotent(conds: seq<Cond>, negated: bool)
    ensures Merged(Merged(conds, negated), negated) == Merged(conds, negated)
  {
    var once := Merged(conds, negated);
    var keys := SortedKeys(KeysOf(conds, negated));
    SortedKeysDistinct(KeysOf(conds, negated));
    forall key
      ensures !Merges(once, negated, key)
    {
      AdditionSizes(conds, negated, keys, key);
      KeptTests(conds, conds, negated, key);
      GroupsHaveNoTests(Additions(conds, negated, keys), negated, key);
      TestsForAppend(Kept(conds, conds, negated), Additions(conds, negated, keys), negated, key);
    }
    NothingMerged(once, negated);
  }

  // ---- No condition is lost or invented ----

  datatype Leaf = FieldLeaf(key: Key, test: Test, negated: bool) | OtherLeaf(cond: Cond)

  function TestLeaves(key: Key, tests: seq<Test>, negated: bool): multiset<Leaf> {
    if tests == [] then multiset{} else
      TestLeaves(key, tests[..|tests| - 1], negated) + multiset{FieldLeaf(key, tests[|tests| - 1], negated)}
  }

  function LeavesOf(c: Cond): multiset<Leaf> {
    if MergeKey(c, true).Some? then multiset{FieldLeaf(MergeKey(c, true).value, TestOf(c), true)}
    else if MergeKey(c, false).Some? then multiset{FieldLeaf(MergeKey(c, false).value, TestOf(c), false)}
    else if IsGroup(c) then TestLeaves(GroupKey(c), c.tests, c.negated)
    else multiset{OtherLeaf(c)}
  }

  function Leaves(conds: seq<Cond>): multiset<Leaf> {
    if conds == [] then multiset{} else Leaves(conds[..|conds| - 1]) + LeavesOf(conds[|conds| - 1])
  }

  lemma {:induction false} LeavesAppend(a: seq<Cond>, b: seq<Cond>)
    ensures Leaves(a + b) == Leaves(a) + Leaves(b)
  {
    hide LeavesOf;
    if b == [] {
      assert a + b == a;
    } else {
      LeavesAppend(a, b[..|b| - 1]);
      assert (a + b)[..|a + b| - 1] == a + b[..|b| - 1];
    }
  }

  lemma LastOfAppend(a: seq<Test>, b: seq<Test>)
    requires b != []
    ensures b == b[..|b| - 1] + [b[|b| - 1]]
    ensures a + b == (a + b[..|b| - 1]) + [b[|b| - 1]]
  {
  }

  lemma {:induction false} TestLeavesAppend(key: Key, a: seq<Test>, b: seq<Test>, negated: bool)
    ensures TestLeaves(key, a + b, negated) == TestLeaves(key, a, negated) + TestLeaves(key, b, negated)
  {
    if b == [] {
      assert a + b == a;
    } else {
      var init, last := b[..|b| - 1], b[|b| - 1];
      hide TestLeaves;
      LastOfAppend(a, b);
      TestLeavesAppend(key, a, init, negated);
      TestLeavesOneMore(key, init, last, negated);
      TestLeavesOneMore(key, a + init, last, negated);
    }
  }

  lemma SingleLeaves(c: Cond)
    ensures Leaves([c]) == LeavesOf(c)
  {
    hide LeavesOf;
    assert [c][..0] == [];
  }

  lemma {:induction false} GroupLeaves(key: Key, numeric: bool, tests: seq<Test>, negated: bool)
    ensures Leaves(GroupsFor(key, numeric, tests, negated)) == TestLeaves(key, tests, negated)
    decreases |tests|
  {
    if tests != [] {
      GroupCondLeaves(key, numeric, tests, negated);
      SingleLeaves(GroupCond(key, numeric, tests, negated));
    }
    hide LeavesOf;
    if |tests| > BATCH_SIZE {
      var first, rest := tests[..BATCH_SIZE], tests[BATCH_SIZE..];
      var head := GroupCond(key, numeric, first, negated);
      GroupCondLeaves(key, numeric, first, negated);
      SingleLeaves(head);
      GroupLeaves(key, numeric, rest, negated);
      LeavesAppend([head], GroupsFor(key, numeric, rest, negated));
      TestLeavesAppend(key, first, rest, negated);
      assert tests == first + rest;
    }
  }

  lemma GroupCondLeaves(key: Key, numeric: bool, tests: seq<Test>, negated: bool)
    ensures LeavesOf(GroupCond(key, numeric, tests, negated)) == TestLeaves(key, tests, negated)
  {
    hide TestLeaves;
  }

  lemma MergeableLeaf(c: Cond, negated: bool, key: Key)
    requires MergeKey(c, negated) == Some(key)
    ensures LeavesOf(c) == multiset{FieldLeaf(key, TestOf(c), negated)}
  {
  }

  /** The leaves of one field that merging takes out of a prefix. */
  function TakenFor(conds: seq<Cond>, prefix: seq<Cond>, negated: bool, key: Key): multiset<Leaf> {
    if Merges(conds, negated, key) then TestLeaves(key, TestsFor(prefix, negated, key), negated) else multiset{}
  }

  function TakenLeaves(conds: seq<Cond>, prefix: seq<Cond>, negated: bool, keys: seq<Key>): multiset<Leaf> {
    if keys == [] then multiset{} else
      TakenFor(conds, prefix, negated, keys[0]) + TakenLeaves(conds, prefix, negated, keys[1..])
  }

  lemma {:induction false} AdditionLeaves(conds: seq<Cond>, negated: bool, keys: seq<Key>)
    ensures Leaves(Additions(conds, negated, keys)) == TakenLeaves(conds, conds, negated, keys)
  {
    if keys != [] {
      AdditionLeaves(conds, negated, keys[1..]);
      GroupLeaves(keys[0], NumericFor(conds, negated, keys[0]), TestsFor(conds, negated, keys[0]), negated);
      LeavesAppend(AdditionsFor(conds, negated, keys[0]), Additions(conds, negated, keys[1..]));
    }
  }

  lemma {:induction false} TakenFromNothing(conds: seq<Cond>, negated: bool, keys: seq<Key>)
    ensures TakenLeaves(conds, [], negated, keys) == multiset{}
  {
    if keys != [] {
      TakenFromNothing(conds, negated, keys[1..]);
    }
  }

  lemma TestsForOneMore(prefix: seq<Cond>, c: Cond, negated: bool, key: Key)
    ensures TestsFor(prefix + [c], negated, key) ==
      TestsFor(prefix, negated, key) + if MergeKey(c, negated) == Some(key) then [TestOf(c)] else []
  {
    assert (prefix + [c])[..|prefix|] == prefix;
  }

  lemma TestLeavesOneMore(key: Key, tests: seq<Test>, test: Test, negated: bool)
    ensures TestLeaves(key, tests + [test], negated) ==
      TestLeaves(key, tests, negated) + multiset{FieldLeaf(key, test, negated)}
  {
    assert (tests + [test])[..|tests|] == tests;
  }

  lemma TakenForOneMore(conds: seq<Cond>, prefix: seq<Cond>, c: Cond, negated: bool, key: Key)
    ensures TakenFor(conds, prefix + [c], negated, key) == TakenFor(conds, prefix, negated, key) +
      if IsMerged(conds, negated, c) && MergeKey(c, negated) == Some(key) then LeavesOf(c) else multiset{}
  {
    TestsForOneMore(prefix, c, negated, key);
    var tests := TestsFor(prefix, negated, key);
    if MergeKey(c, negated) == Some(key) {
      MergeableLeaf(c, negated, key);
      hide TestLeaves, LeavesOf, TestsFor;
      TestLeavesOneMore(key, tests, TestOf(c), negated);
    } else {
      assert tests + [] == tests;
    }
  }

  /** A condition that is not one of the listed fields' takes nothing from them. */
  lemma {:induction false} TakenUnchanged(conds: seq<Cond>, prefix: seq<Cond>, c: Cond, negated: bool, keys: seq<Key>)
    requires !IsMerged(conds, negated, c) || MergeKey(c, negated).value !in keys
    ensures TakenLeaves(conds, prefix + [c], negated, keys) == TakenLeaves(conds, prefix, negated, keys)
  {
    if keys != [] {
      hide TakenFor, MergeKey;
      TakenForOneMore(conds, prefix, c, negated, keys[0]);
      TakenUnchanged(conds, prefix, c, negated, keys[1..]);
    }
  }

  /** A merged condition adds its leaf to the taken ones, once. */
  lemma {:induction false} TakenGrows(conds: seq<Cond>, prefix: seq<Cond>, c: Cond, negated: bool, keys: seq<Key>)
    requires forall i, j | 0 <= i < j < |keys| :: keys[i] != keys[j]
    requires IsMerged(conds, negated, c) && MergeKey(c, negated).value in keys
    ensures TakenLeaves(conds, prefix + [c], negated, keys) == TakenLeaves(conds, prefix, negated, keys) + LeavesOf(c)
  {
    hide TakenFor, LeavesOf, MergeKey, Merges;
    TakenForOneMore(conds, prefix, c, negated, keys[0]);
    if MergeKey(c, negated).value == keys[0] {
      TakenUnchanged(conds, prefix, c, negated, keys[1..]);
    } else {
      TakenGrows(conds, prefix, c, negated, keys[1..]);
    }
  }

  lemma KeptOneMore(conds: seq<Cond>, prefix: seq<Cond>, c: Cond, negated: bool)
    ensures Leaves(prefix + [c]) == Leaves(prefix) + LeavesOf(c)
    ensures Leaves(Kept(conds, prefix + [c], negated)) ==
      Leaves(Kept(conds, prefix, negated)) + if IsMerged(conds, negated, c) then multiset{} else LeavesOf(c)
  {
    hide LeavesOf, IsMerged, MergeKey;
    assert (prefix + [c])[..|prefix|] == prefix;
    var rest := Kept(conds, prefix, negated);
    if IsMerged(conds, negated, c) {
      assert rest + [] == rest;
    } else {
      assert (rest + [c])[..|rest|] == rest;
    }
  }

  lemma {:induction false} KeptAndTaken(conds: seq<Cond>, prefix: seq<Cond>, negated: bool, keys: seq<Key>)
    requires forall i, j | 0 <= i < j < |keys| :: keys[i] != keys[j]
    requires forall c | c in prefix && MergeKey(c, negated).Some? :: MergeKey(c, negated).value in keys
    ensures Leaves(prefix) == Leaves(Kept(conds, prefix, negated)) + TakenLeaves(conds, prefix, negated, keys)
  {
    if prefix == [] {
      TakenFromNothing(conds, negated, keys);
    } else {
      var init, last := prefix[..|prefix| - 1], prefix[|prefix| - 1];
      assert prefix == init + [last];
      KeptAndTaken(conds, init, negated, keys);
      KeptOneMore(conds, init, last, negated);
      if IsMerged(conds, negated, last) {
        TakenGrows(conds, init, last, negated, keys);
      } else {
        TakenUnchanged(conds, init, last, negated, keys);
      }
    }
  }

  /** The rewritten list tests exactly what the original tested, each test as often as before. */
  lemma MergeConservesLeaves(conds: seq<Cond>, negated: bool)
    ensures Leaves(Merged(conds, negated)) == Leaves(conds)
  {
    var keys := SortedKeys(KeysOf(conds, negated));
    SortedKeysDistinct(KeysOf(conds, negated));
    KeptAndTaken(conds, conds, negated, keys);
    AdditionLeaves(conds, negated, keys);
    LeavesAppend(Kept(conds, conds, negated), Additions(conds, negated, keys));
  }

  // ---- What is merged, and in which order ----

  /** Two tests of one field, both of the requested polarity. */
  predicate SameField(c: Cond, d: Cond, negated: bool) {
    || (c.RoleCond? && d.RoleCond? && c.role == d.role
      && c.test.Some? && d.test.Some? && c.negated == negated && d.negated == negated)
    || (c.TagCond? && d.TagCond? && c.tag == d.tag
      && c.test.Some? && d.test.Some? && c.negated == negated && d.negated == negated)
  }

  /** Another condition tests the same field. */
  predicate HasPartner(conds: seq<Cond>, i: nat, negated: bool) {
    i < |conds| && exists j | 0 <= j < |conds| :: j != i && SameField(conds[i], conds[j], negated)
  }

  lemma SameFieldSameKey(c: Cond, d: Cond, negated: bool)
    ensures SameField(c, d, negated) <==> MergeKey(c, negated).Some? && MergeKey(c, negated) == MergeKey(d, negated)
  {
  }

  /** A field with two tests has them at two places, and conversely. */
  lemma {:induction false} TestPlaces(conds: seq<Cond>, negated: bool, key: Key)
    ensures |TestsFor(conds, negated, key)| >= 1 <==>
      exists i | 0 <= i < |conds| :: MergeKey(conds[i], negated) == Some(key)
    ensures |TestsFor(conds, negated, key)| >= 2 <==>
      exists i, j | 0 <= i < j < |conds| :: MergeKey(conds[i], negated) == MergeKey(conds[j], negated) == Some(key)
  {
    hide MergeKey;
    if conds != [] {
      var n := |conds| - 1;
      var init, last := conds[..n], conds[n];
      TestPlaces(init, negated, key);
      if MergeKey(last, negated) == Some(key) && |TestsFor(init, negated, key)| >= 1 {
        var i :| 0 <= i < n && MergeKey(init[i], negated) == Some(key);
        assert MergeKey(conds[i], negated) == MergeKey(conds[n], negated) == Some(key);
      }
      if i, j :| 0 <= i < j < n && MergeKey(init[i], negated) == MergeKey(init[j], negated) == Some(key) {
        assert MergeKey(conds[i], negated) == MergeKey(conds[j], negated) == Some(key);
      }
      if i, j :| 0 <= i < j < |conds| && MergeKey(conds[i], negated) == MergeKey(conds[j], negated) == Some(key) {
        assert init[i] == conds[i] && (j < n ==> init[j] == conds[j]);
      }
      if i :| 0 <= i < n && MergeKey(init[i], negated) == Some(key) {
        assert conds[i] == init[i];
      }
      if i :| 0 <= i < |conds| && MergeKey(conds[i], negated) == Some(key) {
        assert i < n ==> init[i] == conds[i];
      }
    }
  }

  /** A condition is merged exactly when another one tests its field. */
  lemma MergedIffPartner(conds: seq<Cond>, negated: bool, i: nat)
    requires i < |conds|
    ensures IsMerged(conds, negated, conds[i]) <==> HasPartner(conds, i, negated)
  {
    forall j | 0 <= j < |conds|
      ensures SameField(conds[i], conds[j], negated) <==>
        MergeKey(conds[i], negated).Some? && MergeKey(conds[i], negated) == MergeKey(conds[j], negated)
    {
      SameFieldSameKey(conds[i], conds[j], negated);
    }
    hide MergeKey, SameField, TestsFor;
    if MergeKey(conds[i], negated).Some? {
      TestPlaces(conds, negated, MergeKey(conds[i], negated).value);
    }
  }

  /** The conditions at these places, in order. */
  predicate TakenAt(places: seq<nat>, conds: seq<Cond>, taken: seq<Cond>) {
    && |taken| == |places| && (forall k | 0 <= k < |places| :: places[k] < |conds| && taken[k] == conds[places[k]])
    && forall k, l | 0 <= k < l < |places| :: places[k] < places[l]
  }

  lemma {:induction false} KeptPlaces(conds: seq<Cond>, m: nat, negated: bool) returns (places: seq<nat>)
    requires m <= |conds|
    ensures TakenAt(places, conds, Kept(conds, conds[..m], negated)) && forall p | p in places :: p < m
    ensures forall i | 0 <= i < m :: i in places <==> !IsMerged(conds, negated, conds[i])
  {
    hide IsMerged;
    places := [];
    if m > 0 {
      places := KeptPlaces(conds, m - 1, negated);
      assert conds[..m][..m - 1] == conds[..m - 1];
      if !IsMerged(conds, negated, conds[m - 1]) {
        assert forall k | 0 <= k < |places| :: places[k] in places;
        places := places + [m - 1];
      }
    }
  }

  /** The name a group is sorted under. */
  function GroupName(g: Cond): string {
    if g.RoleGroup? then "role:" + g.role else if g.TagGroup? then "tag:" + g.tag else ""
  }

  predicate InNameOrder(groups: seq<Cond>, negated: bool) {
    && (forall g | g in groups :: (g.RoleGroup? || g.TagGroup?) && g.negated == negated && 1 <= |g.tests| <= 350)
    && forall i, j | 0 <= i < j < |groups| && groups[i] in groups && groups[j] in groups ::
      GroupName(groups[i]) == GroupName(groups[j]) || LexLess(GroupName(groups[i]), GroupName(groups[j]))
  }

  lemma {:induction false} SortedKeysAscend(keys: set<Key>)
    ensures forall i, j | 0 <= i < j < |SortedKeys(keys)| :: KeyLeq(SortedKeys(keys)[i], SortedKeys(keys)[j])
    decreases keys
  {
    hide KeyLeq;
    if keys != {} {
      SortedKeysAscend(keys - {LeastKey(keys)});
      assert forall k | k in SortedKeys(keys - {LeastKey(keys)}) :: k in keys;
    }
  }

  lemma {:induction false} AdditionsAscend(conds: seq<Cond>, negated: bool, keys: seq<Key>)
    requires forall i, j | 0 <= i < j < |keys| :: KeyLeq(keys[i], keys[j])
    ensures InNameOrder(Additions(conds, negated, keys), negated)
    ensures forall g | g in Additions(conds, negated, keys) :: IsGroup(g) && GroupKey(g) in keys
  {
    if keys != [] {
      var first, rest := AdditionsFor(conds, negated, keys[0]), Additions(conds, negated, keys[1..]);
      AdditionsAscend(conds, negated, keys[1..]);
      GroupSizes(keys[0], NumericFor(conds, negated, keys[0]), TestsFor(conds, negated, keys[0]), negated);
      hide Additions, AdditionsFor, GroupsFor, Merges;
      forall g | g in first
        ensures IsGroup(g) && GroupKey(g) == keys[0] && g.negated == negated && 1 <= |g.tests| <= 350
      {
        FirstAdditions(conds, negated, keys[0], g);
      }
      AscendJoined(first, rest, keys, negated);
      NextAdditions(conds, negated, keys);
    }
  }

  lemma NextAdditions(conds: seq<Cond>, negated: bool, keys: seq<Key>)
    requires keys != []
    ensures Additions(conds, negated, keys) ==
      AdditionsFor(conds, negated, keys[0]) + Additions(conds, negated, keys[1..])
  {
  }

  lemma FirstAdditions(conds: seq<Cond>, negated: bool, key: Key, g: Cond)
    requires g in AdditionsFor(conds, negated, key)
    ensures IsGroup(g) && GroupKey(g) == key && g.negated == negated && 1 <= |g.tests| <= 350
  {
    GroupSizes(key, NumericFor(conds, negated, key), TestsFor(conds, negated, key), negated);
  }

  lemma AscendJoined(first: seq<Cond>, rest: seq<Cond>, keys: seq<Key>, negated: bool)
    requires keys != [] && forall i, j | 0 <= i < j < |keys| :: KeyLeq(keys[i], keys[j])
    requires forall g | g in first ::
      IsGroup(g) && GroupKey(g) == keys[0] && g.negated == negated && 1 <= |g.tests| <= 350
    requires InNameOrder(rest, negated) && forall g | g in rest :: IsGroup(g) && GroupKey(g) in keys[1..]
    ensures InNameOrder(first + rest, negated)
  {
    var both := first + rest;
    forall i, j | 0 <= i < j < |both|
      ensures both[i] in both && both[j] in both && IsGroup(both[i]) && IsGroup(both[j])
      ensures GroupName(both[i]) == GroupName(both[j]) || LexLess(GroupName(both[i]), GroupName(both[j]))
    {
      if i >= |first| {
        assert both[i] == rest[i - |first|] && both[j] == rest[j - |first|];
      } else {
        assert both[i] == first[i] && both[i] in first;
        if j >= |first| {
          assert both[j] == rest[j - |first|] && both[j] in rest;
          var k :| 0 <= k < |keys[1..]| && keys[1..][k] == GroupKey(both[j]);
          assert KeyLeq(keys[0], keys[k + 1]);
        } else {
          assert both[j] == first[j] && both[j] in first;
        }
      }
    }
  }

  /** The tests of one field, batch after batch. */
  function GroupedTests(groups: seq<Cond>, name: string): seq<Test> {
    if groups == [] then [] else
      var first := groups[0];
      (if (first.RoleGroup? || first.TagGroup?) && GroupName(first) == name then first.tests else [])
      + GroupedTests(groups[1..], name)
  }

  /** The tests of the field of c, in the order of the conditions. */
  function FieldTests(conds: seq<Cond>, c: Cond, negated: bool): seq<Test> {
    if conds == [] then [] else
      var last := conds[|conds| - 1];
      FieldTests(conds[..|conds| - 1], c, negated) + if SameField(c, last, negated) then [last.test.value] else []
  }

  lemma {:induction false} FieldTestsAre(conds: seq<Cond>, c: Cond, negated: bool)
    requires MergeKey(c, negated).Some?
    ensures FieldTests(conds, c, negated) == TestsFor(conds, negated, MergeKey(c, negated).value)
  {
    if conds != [] {
      FieldTestsAre(conds[..|conds| - 1], c, negated);
      SameFieldSameKey(c, conds[|conds| - 1], negated);
    }
  }

  lemma {:induction false} GroupedAppend(a: seq<Cond>, b: seq<Cond>, name: string)
    ensures GroupedTests(a + b, name) == GroupedTests(a, name) + GroupedTests(b, name)
  {
    hide GroupName;
    if a == [] {
      assert a + b == b;
    } else {
      assert (a + b)[1..] == a[1..] + b && (a + b)[0] == a[0];
      GroupedAppend(a[1..], b, name);
    }
  }

  lemma {:induction false} GroupedBatches(key: Key, numeric: bool, tests: seq<Test>, negated: bool, name: string)
    ensures GroupedTests(GroupsFor(key, numeric, tests, negated), name) == if KeyText(key) == name then tests else []
    decreases |tests|
  {
    GroupSizes(key, numeric, tests, negated);
    if |tests| > BATCH_SIZE {
      GroupedBatches(key, numeric, tests[BATCH_SIZE..], negated, name);
      assert tests == tests[..BATCH_SIZE] + tests[BATCH_SIZE..];
    }
  }

  lemma {:induction false} GroupedAdditions(conds: seq<Cond>, negated: bool, keys: seq<Key>, key: Key)
    requires forall i, j | 0 <= i < j < |keys| :: keys[i] != keys[j]
    ensures GroupedTests(Additions(conds, negated, keys), KeyText(key)) ==
      if key in keys && Merges(conds, negated, key) then TestsFor(conds, negated, key) else []
  {
    if keys != [] {
      var first, rest := AdditionsFor(conds, negated, keys[0]), Additions(conds, negated, keys[1..]);
      GroupedAdditions(conds, negated, keys[1..], key);
      var tests := TestsFor(conds, negated, keys[0]);
      GroupedBatches(keys[0], NumericFor(conds, negated, keys[0]), tests, negated, KeyText(key));
      if KeyText(keys[0]) == KeyText(key) {
        KeyTextInjective(keys[0], key);
      }
      assert forall k :: k in keys <==> k == keys[0] || k in keys[1..];
      hide KeyText, GroupsFor, TestsFor, NumericFor;
      GroupedAppend(first, rest, KeyText(key));
    }
  }

  /**
   * The conditions without a partner in their order, then the groups by name, with the tests of their
   * fields in order.
   */
  ghost predicate MergesInto(conds: seq<Cond>, negated: bool, result: seq<Cond>, places: seq<nat>) {
    && |places| <= |result| && TakenAt(places, conds, result[..|places|])
    && (forall i | 0 <= i < |conds| :: i in places <==> !HasPartner(conds, i, negated))
    && InNameOrder(result[|places|..], negated)
    && forall i | 0 <= i < |conds| && HasPartner(conds, i, negated) ::
      GroupedTests(result[|places|..], FieldName(conds[i])) == FieldTests(conds, conds[i], negated)
  }

  function FieldName(c: Cond): string {
    if c.RoleCond? then "role:" + c.role else if c.TagCond? then "tag:" + c.tag else ""
  }

  lemma MergedIs(conds: seq<Cond>, negated: bool) returns (places: seq<nat>)
    ensures MergesInto(conds, negated, Merged(conds, negated), places)
  {
    places := KeptPlaces(conds, |conds|, negated);
    assert conds[..|conds|] == conds;
    forall i | 0 <= i < |conds|
      ensures i in places <==> !HasPartner(conds, i, negated)
    {
      MergedIffPartner(conds, negated, i);
    }
    var keys := SortedKeys(KeysOf(conds, negated));
    SortedKeysAscend(KeysOf(conds, negated));
    AdditionsAscend(conds, negated, keys);
    forall i | 0 <= i < |conds| && HasPartner(conds, i, negated)
      ensures GroupedTests(Additions(conds, negated, keys), FieldName(conds[i])) == FieldTests(conds, conds[i], negated)
    {
      PartnersGrouped(conds, negated, i);
    }
    hide HasPartner, InNameOrder, IsMerged;
  }

  lemma FieldNameIs(c: Cond, negated: bool)
    requires MergeKey(c, negated).Some?
    ensures KeyText(MergeKey(c, negated).value) == FieldName(c)
  {
  }

  lemma PartnersGrouped(conds: seq<Cond>, negated: bool, i: nat)
    requires HasPartner(conds, i, negated)
    ensures GroupedTests(Additions(conds, negated, SortedKeys(KeysOf(conds, negated))), FieldName(conds[i])) ==
      FieldTests(conds, conds[i], negated)
  {
    MergedIffPartner(conds, negated, i);
    hide HasPartner, GroupedTests, FieldTests, TestsFor, FieldName, KeyText, MergeKey, Additions, SortedKeys, KeysOf;
    var key := MergeKey(conds[i], negated).value;
    SortedKeysDistinct(KeysOf(conds, negated));
    GroupedAdditions(conds, negated, SortedKeys(KeysOf(conds, negated)), key);
    TestsForCounts(conds, negated, key);
    FieldTestsAre(conds, conds[i], negated);
    FieldNameIs(conds[i], negated);
  }
}
