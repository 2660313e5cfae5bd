/** The merge as the program performs it: a table of groups, a set of removed positions, three passes. */
module CriteriaMergeLoop {
  import opened SqlConditions
  import opened CriteriaMerge

  datatype Entry = Entry(index: nat, test: Test)

  datatype Group = Group(entries: seq<Entry>, numeric: bool)

  function Tests(entries: seq<Entry>): seq<Test> {
    if entries == [] then [] else Tests(entries[..|entries| - 1]) + [entries[|entries| - 1].test]
  }

  function Indices(entries: seq<Entry>): set<nat> {
    set e | e in entries :: e.index
  }

  /** The positions of one field's conditions. */
  function Positions(conds: seq<Cond>, negated: bool, key: Key): set<nat> {
    set i | 0 <= i < |conds| && MergeKey(conds[i], negated) == Some(key)
  }

  /** The table describes a prefix of the conditions. */
  ghost predicate Describes(groups: map<Key, Group>, conds: seq<Cond>, negated: bool) {
    forall key :: DescribesKey(groups, conds, negated, key)
  }

  lemma AppendEntry(entries: seq<Entry>, e: Entry)
    ensures Tests(entries + [e]) == Tests(entries) + [e.test]
    ensures Indices(entries + [e]) == Indices(entries) + {e.index}
  {
    assert (entries + [e])[..|entries|] == entries;
  }

  lemma {:induction false} TestsLength(entries: seq<Entry>)
    ensures |Tests(entries)| == |entries|
    ensures forall i | 0 <= i < |entries| :: Tests(entries)[i] == entries[i].test
  {
    if entries != [] {
      TestsLength(entries[..|entries| - 1]);
    }
  }

  lemma OneMorePosition(conds: seq<Cond>, c: Cond, negated: bool, key: Key)
    ensures Positions(conds + [c], negated, key) ==
      Positions(conds, negated, key) + if MergeKey(c, negated) == Some(key) then {|conds|} else {}
  {
    hide MergeKey;
  }

  lemma OneMoreTest(conds: seq<Cond>, c: Cond, negated: bool, key: Key)
    ensures TestsFor(conds + [c], negated, key) ==
      TestsFor(conds, negated, key) + if MergeKey(c, negated) == Some(key) then [TestOf(c)] else []
    ensures NumericFor(conds + [c], negated, key) ==
      if TestsFor(conds, negated, key) != [] then NumericFor(conds, negated, key)
      else MergeKey(c, negated) == Some(key) && IsNumericTag(c)
  {
    assert (conds + [c])[..|conds|] == conds;
  }

  lemma NothingToRecord(groups: map<Key, Group>, conds: seq<Cond>, c: Cond, negated: bool)
    requires Describes(groups, conds, negated) && MergeKey(c, negated).None?
    ensures Describes(groups, conds + [c], negated)
  {
    forall key
      ensures DescribesKey(groups, conds + [c], negated, key)
    {
      assert DescribesKey(groups, conds, negated, key);
      OneMoreTest(conds, c, negated, key);
      OneMorePosition(conds, c, negated, key);
    }
  }

  ghost predicate DescribesKey(groups: map<Key, Group>, conds: seq<Cond>, negated: bool, key: Key) {
    && (key in groups <==> TestsFor(conds, negated, key) != [])
    && (key in groups ==>
          && Tests(groups[key].entries) == TestsFor(conds, negated, key)
          && Indices(groups[key].entries) == Positions(conds, negated, key)
          && groups[key].numeric == NumericFor(conds, negated, key))
  }

  function Recorded(groups: map<Key, Group>, key: Key, index: nat, c: Cond): map<Key, Group>
    requires (c.RoleCond? || c.TagCond?) && c.test.Some?
  {
    var g := if key in groups then groups[key] else Group([], IsNumericTag(c));
    groups[key := g.(entries := g.entries + [Entry(index, TestOf(c))])]
  }

  lemma RecordedKey(groups: map<Key, Group>, conds: seq<Cond>, c: Cond, negated: bool, key: Key)
    requires DescribesKey(groups, conds, negated, key) && MergeKey(c, negated) == Some(key)
    ensures DescribesKey(Recorded(groups, key, |conds|, c), conds + [c], negated, key)
  {
    var test, numeric := TestOf(c), IsNumericTag(c);
    var entries := if key in groups then groups[key].entries else [];
    AppendEntry(entries, Entry(|conds|, test));
    OneMoreTest(conds, c, negated, key);
    OneMorePosition(conds, c, negated, key);
    if key !in groups {
      EmptyPositions(conds, negated, key);
    }
  }

  lemma OtherKeysUnchanged(groups: map<Key, Group>, conds: seq<Cond>, c: Cond, negated: bool, key: Key, other: Key)
    requires DescribesKey(groups, conds, negated, other) && MergeKey(c, negated) == Some(key) && other != key
    ensures DescribesKey(Recorded(groups, key, |conds|, c), conds + [c], negated, other)
  {
    OneMoreTest(conds, c, negated, other);
    OneMorePosition(conds, c, negated, other);
  }

  lemma RecordedOneMore(groups: map<Key, Group>, conds: seq<Cond>, c: Cond, negated: bool, key: Key)
    requires Describes(groups, conds, negated) && MergeKey(c, negated) == Some(key)
    ensures Describes(Recorded(groups, key, |conds|, c), conds + [c], negated)
  {
    forall k
      ensures DescribesKey(Recorded(groups, key, |conds|, c), conds + [c], negated, k)
    {
      assert DescribesKey(groups, conds, negated, k);
      if k == key {
        RecordedKey(groups, conds, c, negated, key);
      } else {
        OtherKeysUnchanged(groups, conds, c, negated, key, k);
      }
    }
  }

  lemma {:induction false} EmptyPositions(conds: seq<Cond>, negated: bool, key: Key)
    requires TestsFor(conds, negated, key) == []
    ensures Positions(conds, negated, key) == {}
  {
    if conds != [] {
      var init, last := conds[..|conds| - 1], conds[|conds| - 1];
      assert conds == init + [last];
      OneMoreTest(init, last, negated, key);
      OneMorePosition(init, last, negated, key);
      EmptyPositions(init, negated, key);
    }
  }

  /** First pass: collect the mergeable conditions by field. */
  method CollectGroups(conds: seq<Cond>, negated: bool) returns (groups: map<Key, Group>)
    ensures Describes(groups, conds, negated)
  {
    groups := map[];
    var i := 0;
    assert conds[..0] == [];
    while i < |conds|
      invariant 0 <= i <= |conds|
      invariant Describes(groups, conds[..i], negated)
    {
      var c := conds[i];
      assert conds[..i + 1] == conds[..i] + [c];
      var key := MergeKey(c, negated);
      if key.Some? {
        RecordedOneMore(groups, conds[..i], c, negated, key.value);
        groups := Recorded(groups, key.value, i, c);
      } else {
        NothingToRecord(groups, conds[..i], c, negated);
      }
      i := i + 1;
    }
    assert conds[..i] == conds;
  }

  lemma OneMoreBatch(key: Key, numeric: bool, rest: seq<Test>, negated: bool, size: nat)
    requires rest != [] && size == if |rest| <= BATCH_SIZE then |rest| else BATCH_SIZE
    ensures GroupsFor(key, numeric, rest, negated) ==
      [GroupCond(key, numeric, rest[..size], negated)] + GroupsFor(key, numeric, rest[size..], negated)
    ensures GroupsFor(key, numeric, [], negated) == []
  {
    assert |rest| <= BATCH_SIZE ==> rest[..size] == rest && rest[size..] == [];
  }

  /** Splits the tests of one field into batches of at most 350, each its own subquery. */
  method BatchGroups(key: Key, numeric: bool, tests: seq<Test>, negated: bool) returns (batches: seq<Cond>)
    ensures batches == GroupsFor(key, numeric, tests, negated)
  {
    batches := [];
    var rest := tests;
    while |rest| > 0
      invariant batches + GroupsFor(key, numeric, rest, negated) == GroupsFor(key, numeric, tests, negated)
      decreases |rest|
    {
      hide GroupsFor, GroupCond;
      var size := if |rest| <= BATCH_SIZE then |rest| else BATCH_SIZE;
      OneMoreBatch(key, numeric, rest, negated, size);
      batches := batches + [GroupCond(key, numeric, rest[..size], negated)];
      rest := rest[size..];
    }
  }

  /** The conditions at the positions not removed, in their order. */
  method Remaining(conds: seq<Cond>, remove: set<nat>, negated: bool) returns (kept: seq<Cond>)
    requires forall i | 0 <= i < |conds| :: i in remove <==> IsMerged(conds, negated, conds[i])
    ensures kept == Kept(conds, conds, negated)
  {
    kept := [];
    var i := 0;
    while i < |conds|
      invariant 0 <= i <= |conds|
      invariant kept == Kept(conds, conds[..i], negated)
    {
      assert conds[..i + 1][..i] == conds[..i];
      if i !in remove {
        kept := kept + [conds[i]];
      }
      i := i + 1;
    }
    assert conds[..i] == conds;
  }

  /** The positions of every field treated so far that has at least two conditions. */
  ghost predicate Removes(remove: set<nat>, conds: seq<Cond>, negated: bool, done: set<Key>) {
    && (forall i | i in remove :: i < |conds|)
    && (forall i | 0 <= i < |conds| ::
          i in remove <==> IsMerged(conds, negated, conds[i]) && MergeKey(conds[i], negated).value in done)
  }

  lemma RemovesOneMore(remove: set<nat>, conds: seq<Cond>, negated: bool, done: set<Key>, key: Key, positions: set<nat>)
    requires Removes(remove, conds, negated, done)
    requires positions == if Merges(conds, negated, key) then Positions(conds, negated, key) else {}
    ensures Removes(remove + positions, conds, negated, done + {key})
  {
  }

  lemma DescribedKeys(groups: map<Key, Group>, conds: seq<Cond>, negated: bool)
    requires Describes(groups, conds, negated)
    ensures groups.Keys == KeysOf(conds, negated)
  {
    forall key
      ensures key in KeysOf(conds, negated) <==> key in groups
    {
      assert DescribesKey(groups, conds, negated, key);
      TestsForCounts(conds, negated, key);
    }
  }

  lemma DescribedGroup(groups: map<Key, Group>, conds: seq<Cond>, negated: bool, key: Key)
    requires Describes(groups, conds, negated) && key in groups
    ensures |groups[key].entries| >= 2 <==> Merges(conds, negated, key)
    ensures Tests(groups[key].entries) == TestsFor(conds, negated, key)
    ensures Indices(groups[key].entries) == Positions(conds, negated, key)
    ensures groups[key].numeric == NumericFor(conds, negated, key)
  {
    assert DescribesKey(groups, conds, negated, key);
    TestsLength(groups[key].entries);
  }

  lemma LeastKeyFirst(conds: seq<Cond>, negated: bool, rest: set<Key>, key: Key)
    requires IsLeast(rest, key)
    ensures Additions(conds, negated, SortedKeys(rest)) ==
      AdditionsFor(conds, negated, key) + Additions(conds, negated, SortedKeys(rest - {key}))
  {
    LeastKeyIsUnique(rest, key);
    hide IsLeast, KeyLeq, AdditionsFor;
    var sorted := SortedKeys(rest);
    assert sorted == [key] + SortedKeys(rest - {key});
    assert sorted[1..] == SortedKeys(rest - {key});
  }

  lemma MoveOver(rest: set<Key>, done: set<Key>, key: Key)
    requires key in rest && rest !! done
    ensures (rest - {key}) + (done + {key}) == rest + done && rest - {key} !! done + {key}
  {
  }

  lemma Associates(a: seq<Cond>, b: seq<Cond>, c: seq<Cond>)
    ensures (a + b) + c == a + (b + c)
  {
  }

  /** What is collected once the fields in `done` are treated; `rest` are the others. */
  ghost predicate Collected(conds: seq<Cond>, negated: bool, done: set<Key>,
      rest: set<Key>, remove: set<nat>, additions: seq<Cond>) {
    && rest + done == KeysOf(conds, negated)
    && rest !! done
    && additions + Additions(conds, negated, SortedKeys(rest)) ==
        Additions(conds, negated, SortedKeys(KeysOf(conds, negated)))
    && Removes(remove, conds, negated, done)
  }

  lemma CollectedOneMore(conds: seq<Cond>, negated: bool, done: set<Key>,
      rest: set<Key>, remove: set<nat>, additions: seq<Cond>,
                         key: Key, positions: set<nat>)
    requires Collected(conds, negated, done, rest, remove, additions) && IsLeast(rest, key)
    requires positions == if Merges(conds, negated, key) then Positions(conds, negated, key) else {}
    ensures Collected(conds, negated, done + {key}, rest - {key}, remove + positions,
      additions + AdditionsFor(conds, negated, key))
  {
    assert key in rest;
    hide Removes, Merges, Additions, AdditionsFor, SortedKeys, KeysOf, KeyLeq, Positions, IsLeast;
    RemovesOneMore(remove, conds, negated, done, key, positions);
    LeastKeyFirst(conds, negated, rest, key);
    Associates(additions, AdditionsFor(conds, negated, key), Additions(conds, negated, SortedKeys(rest - {key})));
    MoveOver(rest, done, key);
  }

  lemma CollectedAtFirst(conds: seq<Cond>, negated: bool)
    ensures Collected(conds, negated, {}, KeysOf(conds, negated), {}, [])
  {
    hide Additions, SortedKeys, KeysOf, IsMerged, MergeKey;
  }

  lemma CollectedAtLast(conds: seq<Cond>, negated: bool, done: set<Key>, remove: set<nat>, additions: seq<Cond>)
    requires Collected(conds, negated, done, {}, remove, additions)
    ensures additions == Additions(conds, negated, SortedKeys(KeysOf(conds, negated)))
    ensures Removes(remove, conds, negated, KeysOf(conds, negated))
  {
    hide Removes, KeysOf;
    assert SortedKeys({}) == [];
    assert {} + done == done;
  }

  /** One field of the second pass: its batches, and the positions they replace. */
  method FieldBatches(group: Group, conds: seq<Cond>, negated: bool, key: Key)
    returns (batches: seq<Cond>, positions: set<nat>)
    requires |group.entries| >= 2 <==> Merges(conds, negated, key)
    requires Tests(group.entries) == TestsFor(conds, negated, key)
    requires Indices(group.entries) == Positions(conds, negated, key)
    requires group.numeric == NumericFor(conds, negated, key)
    ensures batches == AdditionsFor(conds, negated, key)
    ensures positions == if Merges(conds, negated, key) then Positions(conds, negated, key) else {}
  {
    hide Merges, TestsFor, NumericFor, Tests, Indices, Positions;
    if |group.entries| >= 2 {
      batches := BatchGroups(key, group.numeric, Tests(group.entries), negated);
      positions := Indices(group.entries);
    } else {
      batches, positions := [], {};
    }
  }

  /** Second pass: batch every field with two conditions or more, in the order of the field keys. */
  method AddGroups(groups: map<Key, Group>, conds: seq<Cond>, negated: bool)
    returns (remove: set<nat>, additions: seq<Cond>)
    requires Describes(groups, conds, negated)
    ensures additions == Additions(conds, negated, SortedKeys(KeysOf(conds, negated)))
    ensures Removes(remove, conds, negated, KeysOf(conds, negated))
  {
    DescribedKeys(groups, conds, negated);
    hide Removes, Describes, Merges, Positions, AdditionsFor, Additions;
    hide SortedKeys, KeysOf, KeyLeq, Tests, TestsFor, NumericFor;
    remove, additions := {}, [];
    var rest := groups.Keys;
    ghost var done: set<Key> := {};
    CollectedAtFirst(conds, negated);
    hide Collected;
    while rest != {}
      invariant rest <= groups.Keys
      invariant Collected(conds, negated, done, rest, remove, additions)
      decreases |rest|
    {
      SomeKeyIsLeast(rest);
      var key :| IsLeast(rest, key);
      DescribedGroup(groups, conds, negated, key);
      var batches, positions := FieldBatches(groups[key], conds, negated, key);
      CollectedOneMore(conds, negated, done, rest, remove, additions, key, positions);
      remove, additions := remove + positions, additions + batches;
      rest, done := rest - {key}, done + {key};
    }
    CollectedAtLast(conds, negated, done, remove, additions);
  }

  lemma NothingRemoved(conds: seq<Cond>, negated: bool)
    requires forall c | c in conds :: !IsMerged(conds, negated, c)
    ensures Merged(conds, negated) == conds
  {
    forall key
      ensures !Merges(conds, negated, key)
    {
      TestsForCounts(conds, negated, key);
    }
    NothingMerged(conds, negated);
  }

  lemma HappensIff(conds: seq<Cond>, negated: bool)
    ensures (exists c | c in conds :: IsMerged(conds, negated, c)) <==> exists i: nat :: HasPartner(conds, i, negated)
  {
    forall i | 0 <= i < |conds|
      ensures IsMerged(conds, negated, conds[i]) <==> HasPartner(conds, i, negated)
    {
      MergedIffPartner(conds, negated, i);
    }
    hide IsMerged;
    if c :| c in conds && IsMerged(conds, negated, c) {
      var i :| 0 <= i < |conds| && conds[i] == c;
      assert HasPartner(conds, i, negated);
    }
    if i: nat :| HasPartner(conds, i, negated) {
      assert i < |conds|;
      assert conds[i] in conds;
    }
  }

  /** The rewritten conditions, and whether any merge happened; without one the list is handed back as it is. */
  method MergeSameFieldConds(conds: seq<Cond>, negated: bool) returns (result: seq<Cond>, happened: bool)
    ensures result == Merged(conds, negated)
    ensures happened <==> exists c | c in conds :: IsMerged(conds, negated, c)
    ensures !happened ==> result == conds
    ensures happened <==> exists i: nat :: HasPartner(conds, i, negated)
    ensures exists places :: MergesInto(conds, negated, result, places)
  {
    ghost var places := MergedIs(conds, negated);
    HappensIff(conds, negated);
    hide MergesInto, HasPartner;
    var groups := CollectGroups(conds, negated);
    var remove, additions := AddGroups(groups, conds, negated);
    forall i | 0 <= i < |conds|
      ensures i in remove <==> IsMerged(conds, negated, conds[i])
    {
      assert conds[i] in conds;
    }
    if remove == {} {
      NothingRemoved(conds, negated);
      return conds, false;
    }
    var kept := Remaining(conds, remove, negated);
    result, happened := kept + additions, true;
    assert exists i :: i in remove;
  }
}
