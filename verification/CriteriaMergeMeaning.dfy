/** Merging preserves meaning, for an Or group of positive conditions and an And group of negated ones. */
module CriteriaMergeMeaning {
  import opened SqlConditions
  import opened CriteriaMerge

  /** Some value of the field passes the test. */
  predicate FieldPasses(key: Key, numeric: bool, test: Test, t: Track, db: Engine) {
    match key
    case RoleKey(role) => exists v | v in RoleNames(t, role) :: EvalTest(db, test, Text(v)).True?
    case TagKey(tag) => exists v | v in TagValues(t, tag) :: EvalTest(db, test, View(db, numeric, v)).True?
  }

  /** What settles the group: an accepted condition settles an Or, a refused one an And. */
  predicate Decides(c: Cond, negated: bool, t: Track, db: Engine) {
    Accepts(c, t, db) != negated
  }

  predicate SomeDecides(conds: seq<Cond>, negated: bool, t: Track, db: Engine) {
    exists c | c in conds :: Decides(c, negated, t, db)
  }

  lemma MergeableDecides(c: Cond, negated: bool, key: Key, t: Track, db: Engine)
    requires MergeKey(c, negated) == Some(key)
    ensures Decides(c, negated, t, db) <==> FieldPasses(key, IsNumericTag(c), TestOf(c), t, db)
  {
  }

  /** One subquery over a disjunction of tests finds a row exactly when one of them does. */
  lemma GroupDecides(key: Key, numeric: bool, tests: seq<Test>, negated: bool, t: Track, db: Engine)
    ensures Decides(GroupCond(key, numeric, tests, negated), negated, t, db)
      <==> exists test | test in tests :: FieldPasses(key, numeric, test, t, db)
  {
    forall v: Value
      ensures EvalTests(db, tests, v).True? <==> exists test | test in tests :: EvalTest(db, test, v).True?
    {
      TestsAccept(db, tests, v);
    }
  }

  lemma {:induction false} GroupsDecide(key: Key, numeric: bool, tests: seq<Test>, negated: bool, t: Track, db: Engine)
    ensures SomeDecides(GroupsFor(key, numeric, tests, negated), negated, t, db)
      <==> exists test | test in tests :: FieldPasses(key, numeric, test, t, db)
    decreases |tests|
  {
    hide Decides, FieldPasses, GroupCond;
    if |tests| > BATCH_SIZE {
      var first, rest := tests[..BATCH_SIZE], tests[BATCH_SIZE..];
      assert tests == first + rest;
      GroupDecides(key, numeric, first, negated, t, db);
      GroupsDecide(key, numeric, rest, negated, t, db);
      assert forall c :: c in GroupsFor(key, numeric, tests, negated) <==>
        c == GroupCond(key, numeric, first, negated) || c in GroupsFor(key, numeric, rest, negated);
    } else if tests != [] {
      GroupDecides(key, numeric, tests, negated, t, db);
      assert GroupCond(key, numeric, tests, negated) in GroupsFor(key, numeric, tests, negated);
    }
  }

  /** The tests collected for a field are those of its conditions. */
  lemma {:induction false} TestsForDecide(conds: seq<Cond>, negated: bool,
      key: Key, numeric: bool, t: Track, db: Engine)
    requires forall c | c in conds && MergeKey(c, negated) == Some(key) :: IsNumericTag(c) == numeric
    ensures (exists test | test in TestsFor(conds, negated, key) :: FieldPasses(key, numeric, test, t, db))
      <==> exists c | c in conds :: MergeKey(c, negated) == Some(key) && Decides(c, negated, t, db)
  {
    if conds != [] {
      var init, last := conds[..|conds| - 1], conds[|conds| - 1];
      assert conds == init + [last];
      TestsForDecide(init, negated, key, numeric, t, db);
      if MergeKey(last, negated) == Some(key) {
        MergeableDecides(last, negated, key, t, db);
        assert forall test :: test in TestsFor(conds, negated, key) <==>
          test in TestsFor(init, negated, key) || test == TestOf(last);
      }
      assert forall c :: c in conds <==> c in init || c == last;
    }
  }

  lemma AdditionsForDecide(conds: seq<Cond>, negated: bool, key: Key, t: Track, db: Engine)
    requires NumericAgrees(conds) && Merges(conds, negated, key)
    ensures SomeDecides(AdditionsFor(conds, negated, key), negated, t, db)
      <==> exists c | c in conds :: MergeKey(c, negated) == Some(key) && Decides(c, negated, t, db)
  {
    var numeric := NumericFor(conds, negated, key);
    forall c | c in conds && MergeKey(c, negated) == Some(key)
      ensures IsNumericTag(c) == numeric
    {
      NumericForAgrees(conds, negated, c, key);
    }
    TestsForDecide(conds, negated, key, numeric, t, db);
    GroupsDecide(key, numeric, TestsFor(conds, negated, key), negated, t, db);
  }

  lemma {:induction false} AdditionsDecide(conds: seq<Cond>, negated: bool, keys: seq<Key>, t: Track, db: Engine)
    requires NumericAgrees(conds)
    ensures SomeDecides(Additions(conds, negated, keys), negated, t, db)
      <==> exists c | c in conds ::
        IsMerged(conds, negated, c) && MergeKey(c, negated).value in keys && Decides(c, negated, t, db)
  {
    if keys != [] {
      AdditionsDecide(conds, negated, keys[1..], t, db);
      var head, tail := AdditionsFor(conds, negated, keys[0]), Additions(conds, negated, keys[1..]);
      if Merges(conds, negated, keys[0]) {
        AdditionsForDecide(conds, negated, keys[0], t, db);
      }
      hide Decides, MergeKey, NumericAgrees, TestsFor, GroupsFor;
      assert forall k :: k in keys <==> k == keys[0] || k in keys[1..];
      assert forall c :: c in head + tail <==> c in head || c in tail;
    }
  }

  /** The merged list is settled by a track exactly when the original is. */
  lemma MergePreservesDecision(conds: seq<Cond>, negated: bool, t: Track, db: Engine)
    requires NumericAgrees(conds)
    ensures SomeDecides(Merged(conds, negated), negated, t, db) <==> SomeDecides(conds, negated, t, db)
  {
    var keys := SortedKeys(KeysOf(conds, negated));
    AdditionsDecide(conds, negated, keys, t, db);
    KeptComesFromInput(conds, conds, negated);
    hide Decides, NumericAgrees, TestsFor;
    assert forall c | c in conds && MergeKey(c, negated).Some? :: MergeKey(c, negated).value in KeysOf(conds, negated);
    var kept, added := Kept(conds, conds, negated), Additions(conds, negated, keys);
    assert forall c :: c in kept + added <==> c in kept || c in added;
  }

  lemma OrDecides(conds: seq<Cond>, t: Track, db: Engine)
    ensures Accepts(Or(conds), t, db) <==> SomeDecides(conds, false, t, db)
  {
    OrAccepts(conds, t, db);
    hide Eval;
    if SomeDecides(conds, false, t, db) {
      var c :| c in conds && Decides(c, false, t, db);
      var i :| 0 <= i < |conds| && conds[i] == c;
    }
    assert forall i | 0 <= i < |conds| ::
      conds[i] in conds && (Accepts(conds[i], t, db) <==> Decides(conds[i], false, t, db));
    assert Eval(Or(conds), t, db) == EvalOr(conds, t, db) by { EvalOfOr(conds, t, db); }
  }

  lemma EvalOfOr(conds: seq<Cond>, t: Track, db: Engine)
    ensures Eval(Or(conds), t, db) == EvalOr(conds, t, db)
    ensures Eval(And(conds), t, db) == EvalAnd(conds, t, db)
  {
  }

  lemma AndDecides(conds: seq<Cond>, t: Track, db: Engine)
    ensures Accepts(And(conds), t, db) <==> !SomeDecides(conds, true, t, db)
  {
    AndAccepts(conds, t, db);
    hide Eval;
    if SomeDecides(conds, true, t, db) {
      var c :| c in conds && Decides(c, true, t, db);
      var i :| 0 <= i < |conds| && conds[i] == c;
    }
    assert forall i | 0 <= i < |conds| ::
      conds[i] in conds && (Accepts(conds[i], t, db) <==> !Decides(conds[i], true, t, db));
    assert Eval(And(conds), t, db) == EvalAnd(conds, t, db) by { EvalOfOr(conds, t, db); }
  }

  /** mergeJsonConds on an Or group. */
  lemma MergedOrAcceptsSameTracks(conds: seq<Cond>, t: Track, db: Engine)
    requires NumericAgrees(conds)
    ensures Accepts(Or(Merged(conds, false)), t, db) <==> Accepts(Or(conds), t, db)
  {
    OrDecides(conds, t, db);
    OrDecides(Merged(conds, false), t, db);
    MergePreservesDecision(conds, false, t, db);
  }

  /** mergeNegatedJsonConds on an And group, by De Morgan. */
  lemma MergedAndAcceptsSameTracks(conds: seq<Cond>, t: Track, db: Engine)
    requires NumericAgrees(conds)
    ensures Accepts(And(Merged(conds, true)), t, db) <==> Accepts(And(conds), t, db)
  {
    AndDecides(conds, t, db);
    AndDecides(Merged(conds, true), t, db);
    MergePreservesDecision(conds, true, t, db);
  }

  /** An engine whose cast reads "5" as five, and a track tagged "5". */
  function FiveEngine(): Engine {
    Engine((v: Value, pattern: string) => false, (text: string) => if text == "5" then 5.0 else 0.0)
  }

  function FiveTrack(tag: string): Track {
    Track(map[], map[tag := {"5"}], map[], {})
  }

  function AsText(tag: string): Cond {
    TagCond(tag, false, Some(CompareTest(Eq, Text("good"))), false)
  }

  function AsNumber5(tag: string): Cond {
    TagCond(tag, true, Some(CompareTest(Eq, Num(5.0))), false)
  }

  function MergedAsText(tag: string): Cond {
    TagGroup(tag, false, [TestOf(AsText(tag)), TestOf(AsNumber5(tag))], false)
  }

  lemma DisagreeingConditionsMerge(tag: string)
    ensures Merged([AsText(tag), AsNumber5(tag)], false) == [MergedAsText(tag)]
  {
    var conds, key := [AsText(tag), AsNumber5(tag)], TagKey(tag);
    assert conds[..1] == [AsText(tag)] && [AsText(tag)][..0] == [];
    assert TestsFor(conds[..1], false, key) == [TestOf(AsText(tag))];
    assert TestsFor(conds, false, key) == [TestOf(AsText(tag)), TestOf(AsNumber5(tag))];
    assert !NumericFor(conds[..1], false, key);
    assert !NumericFor(conds, false, key);
    assert Kept(conds, conds[..1], false) == [];
    assert Kept(conds, conds, false) == [];
    assert KeysOf(conds, false) == {key} by {
      assert AsText(tag) in conds;
    }
    assert SortedKeys({key}) == [key] by {
      assert LeastKey({key}) == key;
      assert {key} - {key} == {};
    }
    assert [key][1..] == [];
    assert AdditionsFor(conds, false, key) == [MergedAsText(tag)];
    assert Additions(conds, false, [key]) == [MergedAsText(tag)] + Additions(conds, false, []);
  }

  lemma OnlySeparatelyAccepted(tag: string)
    ensures Accepts(AsNumber5(tag), FiveTrack(tag), FiveEngine())
    ensures !Accepts(MergedAsText(tag), FiveTrack(tag), FiveEngine())
  {
    var t, db := FiveTrack(tag), FiveEngine();
    assert "5" in TagValues(t, tag);
    assert EvalTest(db, TestOf(AsNumber5(tag)), View(db, true, "5")).True?;
    TestsAccept(db, [TestOf(AsText(tag)), TestOf(AsNumber5(tag))], Text("5"));
    assert !EvalTest(db, TestOf(AsText(tag)), Text("5")).True? by {
      assert "5" != "good";
    }
  }

  /**
   * Agreement is needed: a tag compared first as text and then as a number loses the number
   * comparison when merged.
   */
  lemma MergeNeedsNumericAgreement(tag: string)
    ensures Accepts(Or([AsText(tag), AsNumber5(tag)]), FiveTrack(tag), FiveEngine())
    ensures !Accepts(Or(Merged([AsText(tag), AsNumber5(tag)], false)), FiveTrack(tag), FiveEngine())
  {
    var conds, t, db := [AsText(tag), AsNumber5(tag)], FiveTrack(tag), FiveEngine();
    hide Eval, EvalTest, Merged;
    DisagreeingConditionsMerge(tag);
    OnlySeparatelyAccepted(tag);
    OrDecides(conds, t, db);
    OrDecides([MergedAsText(tag)], t, db);
    assert AsNumber5(tag) in conds && Decides(AsNumber5(tag), false, t, db);
  }
}
