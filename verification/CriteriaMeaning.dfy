/** What a criteria tree means for a track, in two values, and that the compiled conditions say just that. */
module CriteriaMeaning {
  import opened SqlConditions
  import opened CriteriaMerge
  import opened CriteriaMergeMeaning
  import opened CriteriaCompile

  // ---- The meaning ----

  /** A stored value against a compared one; a missing value only ever equals NULL. */
  predicate ValueMatches(op: Op, v: Value, arg: Value) {
    match arg
    case Nil => (op.Eq? && v.Nil?) || (op.Ne? && !v.Nil?)
    case List(items) => (op.Eq? && AmongItems(v, items)) || (op.Ne? && ApartFromItems(v, items))
    case _ => !v.Nil? && Holds(op, v, arg)
  }

  predicate AmongItems(v: Value, items: seq<Value>) {
    !v.Nil? && exists item | item in items :: !item.Nil? && Same(v, item)
  }

  predicate ApartFromItems(v: Value, items: seq<Value>) {
    items == [] || (!v.Nil? && forall item | item in items :: !item.Nil? && !Same(v, item))
  }

  predicate TextMatches(v: Value, pattern: string, negated: bool, db: Engine) {
    !v.Nil? && db.like(v, pattern) != negated
  }

  /** A track without an annotation row counts as having the default. */
  function FieldValue(f: Field, t: Track): Value
    requires f.PlainColumn? || f.Annotation?
  {
    var v := Stored(t, f.column);
    if f.Annotation? && v.Nil? then f.default else v
  }

  /** The values of a tag (cast when numeric) or the names of a role. */
  function FieldValues(f: Field, t: Track, db: Engine): set<Value>
    requires IsJson(f)
  {
    if f.Role? then set v | v in RoleNames(t, f.name) :: Text(v)
    else set v | v in TagValues(t, f.name) :: View(db, f.numeric, v)
  }

  predicate IsMeaning(f: Field, op: Op, arg: Value, t: Track, db: Engine) {
    if IsJson(f) then exists v | v in FieldValues(f, t, db) :: ValueMatches(op, v, arg)
    else !f.Pseudo? && ValueMatches(op, FieldValue(f, t), arg)
  }

  /** "Is not" on a tag or role means that no value is equal, not that some value differs. */
  predicate IsNotMeaning(f: Field, arg: Value, t: Track, db: Engine) {
    if IsJson(f) then !IsMeaning(f, Eq, arg, t, db) else IsMeaning(f, Ne, arg, t, db)
  }

  predicate MatchMeaning(f: Field, pattern: string, negated: bool, t: Track, db: Engine) {
    if IsJson(f) then (exists v | v in FieldValues(f, t, db) :: TextMatches(v, pattern, false, db)) != negated
    else !f.Pseudo? && TextMatches(FieldValue(f, t), pattern, negated, db)
  }

  predicate PeriodMeaning(f: Field, date: string, negated: bool, t: Track) {
    (f.PlainColumn? || f.Annotation?) &&
    var v := Stored(t, f.column);
    if negated then v.Nil? || Holds(Lt, v, Text(date)) else !v.Nil? && Holds(Gt, v, Text(date))
  }

  predicate IsAbsent(f: Field, t: Track, db: Engine) {
    if IsJson(f) then FieldValues(f, t, db) == {} else f.PlainColumn? && IsMissingValue(f, Stored(t, f.column))
  }

  predicate IsMissingValue(f: Field, v: Value)
    requires f.PlainColumn?
  {
    v.Nil? || (v.Text? && v.s in MissingTexts(f))
  }

  predicate Means(e: Expr, cat: Catalogue, t: Track, db: Engine) {
    match e
    case All(items) => forall item | item in items :: Means(item, cat, t, db)
    case Any(items) => exists item | item in items :: Means(item, cat, t, db)
    case Listed(playlist, negated) => playlist.Some? && (playlist.value in t.playlists) != negated
    case Is(field, op, value) => field in cat && IsMeaning(cat[field], op, value, t, db)
    case IsNot(field, value) => field in cat && IsNotMeaning(cat[field], value, t, db)
    case Matches(field, text, place, negated) =>
      field in cat && MatchMeaning(cat[field], PatternOf(text, place), negated, t, db)
    case InRange(field, bounds) =>
      field in cat && bounds.List? && |bounds.items| == 2
      && IsMeaning(cat[field], Ge, bounds.items[0], t, db) && IsMeaning(cat[field], Le, bounds.items[1], t, db)
    case InTheLast(field, since, negated) =>
      field in cat && since.Some? && PeriodMeaning(cat[field], since.value, negated, t)
    case Missing(field, flag, absence) =>
      field in cat && flag.Bool? && IsAbsent(cat[field], t, db) == (absence == flag.b)
  }

  // ---- Comparisons ----

  lemma {:induction false} InListTruth(a: Value, items: seq<Value>)
    ensures InList(a, items).True? <==> AmongItems(a, items)
    ensures InList(a, items).False? <==> ApartFromItems(a, items)
  {
    if items != [] {
      InListTruth(a, items[1..]);
      assert forall item :: item in items <==> item == items[0] || item in items[1..];
    }
  }

  lemma CompareMatches(op: Op, v: Value, arg: Value)
    ensures EvalCompare(op, v, arg).True? <==> ValueMatches(op, v, arg)
  {
    if arg.List? {
      InListTruth(v, arg.items);
    }
  }

  /** The default of an annotation: a number or a boolean, never NULL. */
  predicate WellDefaulted(f: Field) {
    f.Annotation? ==> f.default.Num? || f.default.Bool?
  }

  lemma SatisfiesIsHolds(op: Op, default: Value, value: Value)
    requires (default.Num? || default.Bool?) && BareNullInclusion(default, op, value).Some?
    ensures BareNullInclusion(default, op, value).value <==> Holds(op, default, value)
    ensures !value.Nil? && !value.List?
  {
  }

  /** The bare comparison, with or without IS NULL, accepts the rows the COALESCE form accepts. */
  lemma AnnotationCondAccepts(f: Field, op: Op, value: Value, t: Track, db: Engine)
    requires f.Annotation? && WellDefaulted(f)
    ensures Accepts(AnnotationCond(f, op, value), t, db) <==>
      Accepts(Compare(Coalesced(f.column, f.default), op, value), t, db)
  {
    var wrap := BareNullInclusion(f.default, op, value);
    if wrap.Some? {
      SatisfiesIsHolds(op, f.default, value);
      if wrap.value {
        var base, isNull := Compare(Bare(f.column), op, value), Compare(Bare(f.column), Eq, Nil);
        OrOfTwo(base, isNull, t, db);
      }
    }
  }

  lemma OrOfTwo(a: Cond, b: Cond, t: Track, db: Engine)
    ensures Accepts(Or([a, b]), t, db) <==> Accepts(a, t, db) || Accepts(b, t, db)
  {
    OrAccepts([a, b], t, db);
    EvalOfOr([a, b], t, db);
    assert [a, b][0] == a && [a, b][1] == b;
    hide Eval;
  }

  lemma AndOfTwo(a: Cond, b: Cond, t: Track, db: Engine)
    ensures Accepts(And([a, b]), t, db) <==> Accepts(a, t, db) && Accepts(b, t, db)
  {
    AndAccepts([a, b], t, db);
    EvalOfOr([a, b], t, db);
    assert [a, b][0] == a && [a, b][1] == b;
    hide Eval;
  }

  /**
   * The two forms are not the same condition: for a row without the annotation the bare one may be
   * NULL where the other is FALSE. They agree only because no annotation comparison is ever negated.
   */
  lemma BareFormMayBeUnknown(f: Field, n: real, t: Track, db: Engine)
    requires f.Annotation? && f.default == Num(0.0) && n > 0.0 && Stored(t, f.column).Nil?
    ensures Eval(AnnotationCond(f, Gt, Num(n)), t, db).Unknown?
    ensures Eval(Compare(Coalesced(f.column, f.default), Gt, Num(n)), t, db).False?
  {
  }

  // ---- Leaves ----

  lemma JsonMatches(f: Field, test: Test, negated: bool, t: Track, db: Engine)
    requires IsJson(f)
    ensures Accepts(JsonCond(f, Some(test), negated), t, db)
      <==> ((exists v | v in FieldValues(f, t, db) :: EvalTest(db, test, v).True?) != negated)
  {
    hide EvalTest;
    if f.Role? {
      assert forall name | name in RoleNames(t, f.name) :: Text(name) in FieldValues(f, t, db);
    } else {
      assert forall text | text in TagValues(t, f.name) :: View(db, f.numeric, text) in FieldValues(f, t, db);
    }
  }

  lemma ComparisonMeans(cat: Catalogue, style: Style, field: string, op: Op, value: Value, t: Track, db: Engine)
    requires ComparisonCond(cat, style, field, op, value).Ok? && WellDefaulted(cat[field])
    ensures Accepts(ComparisonCond(cat, style, field, op, value).value, t, db) <==>
      IsMeaning(cat[field], op, value, t, db)
  {
    var f := cat[field];
    if IsJson(f) {
      JsonMatches(f, CompareTest(op, value), false, t, db);
      forall v
        ensures EvalTest(db, CompareTest(op, value), v).True? <==> ValueMatches(op, v, value)
      {
        CompareMatches(op, v, value);
      }
    } else {
      CompareMatches(op, FieldValue(f, t), value);
      if f.Annotation? {
        AnnotationCondAccepts(f, op, value, t, db);
      }
    }
  }

  lemma IsNotMeans(cat: Catalogue, style: Style, field: string, value: Value, t: Track, db: Engine)
    requires IsNotCond(cat, style, field, value).Ok? && WellDefaulted(cat[field])
    ensures Accepts(IsNotCond(cat, style, field, value).value, t, db) <==> IsNotMeaning(cat[field], value, t, db)
  {
    var f := cat[field];
    if IsJson(f) {
      JsonMatches(f, CompareTest(Eq, value), true, t, db);
      forall v
        ensures EvalTest(db, CompareTest(Eq, value), v).True? <==> ValueMatches(Eq, v, value)
      {
        CompareMatches(Eq, v, value);
      }
    } else {
      ComparisonMeans(cat, style, field, Ne, value, t, db);
    }
  }

  lemma MatchMeans(cat: Catalogue, field: string, pattern: string, negated: bool, t: Track, db: Engine)
    requires LikeCond(cat, field, pattern, negated).Ok? && WellDefaulted(cat[field])
    ensures Accepts(LikeCond(cat, field, pattern, negated).value, t, db) <==>
      MatchMeaning(cat[field], pattern, negated, t, db)
  {
    var f := cat[field];
    if IsJson(f) {
      JsonMatches(f, LikeTest(pattern), negated, t, db);
      assert forall v :: EvalTest(db, LikeTest(pattern), v).True? <==> TextMatches(v, pattern, false, db);
    }
  }

  lemma {:induction false} TextComparisonsTruth(column: string, texts: seq<string>, t: Track, db: Engine)
    requires !Stored(t, column).Nil?
    ensures EvalOr(TextComparisons(column, Eq, texts), t, db).True? <==>
      Stored(t, column).Text? && Stored(t, column).s in texts
    ensures EvalAnd(TextComparisons(column, Ne, texts), t, db).True? <==>
      !(Stored(t, column).Text? && Stored(t, column).s in texts)
  {
    if texts != [] {
      TextComparisonsTruth(column, texts[1..], t, db);
      assert forall s :: s in texts <==> s == texts[0] || s in texts[1..];
      EvalFirst(Compare(Bare(column), Eq, Text(texts[0])), TextComparisons(column, Eq, texts[1..]), t, db);
      EvalFirst(Compare(Bare(column), Ne, Text(texts[0])), TextComparisons(column, Ne, texts[1..]), t, db);
    }
  }

  lemma EvalFirst(c: Cond, rest: seq<Cond>, t: Track, db: Engine)
    ensures EvalOr([c] + rest, t, db) == Or3(Eval(c, t, db), EvalOr(rest, t, db))
    ensures EvalAnd([c] + rest, t, db) == And3(Eval(c, t, db), EvalAnd(rest, t, db))
  {
    assert ([c] + rest)[1..] == rest;
  }

  lemma MissingMeans(cat: Catalogue, field: string, flag: Value, absence: bool, t: Track, db: Engine)
    requires MissingCond(cat, field, flag, absence).Ok?
    ensures Accepts(MissingCond(cat, field, flag, absence).value, t, db) <==>
      IsAbsent(cat[field], t, db) == (absence == flag.b)
  {
    var f := cat[field];
    if IsJson(f) {
      if f.Role? {
        assert forall name | name in RoleNames(t, f.name) :: Text(name) in FieldValues(f, t, db);
      } else {
        assert forall text | text in TagValues(t, f.name) :: View(db, f.numeric, text) in FieldValues(f, t, db);
      }
    } else {
      ColumnMissingMeans(f, t, db);
    }
  }

  lemma ColumnMissingMeans(f: Field, t: Track, db: Engine)
    requires f.PlainColumn?
    ensures Accepts(Or([Compare(Bare(f.column), Eq, Nil)] + TextComparisons(f.column, Eq, MissingTexts(f))), t, db) <==>
      IsAbsent(f, t, db)
    ensures Accepts(And([Compare(Bare(f.column), Ne, Nil)] + TextComparisons(f.column, Ne, MissingTexts(f))), t, db)
      <==> !IsAbsent(f, t, db)
  {
    var texts := MissingTexts(f);
    EvalFirst(Compare(Bare(f.column), Eq, Nil), TextComparisons(f.column, Eq, texts), t, db);
    EvalFirst(Compare(Bare(f.column), Ne, Nil), TextComparisons(f.column, Ne, texts), t, db);
    if !Stored(t, f.column).Nil? {
      TextComparisonsTruth(f.column, texts, t, db);
    }
  }

  /** isMissing and isPresent split the tracks: each accepts exactly what the other refuses. */
  lemma MissingOrPresent(cat: Catalogue, field: string, b: bool, t: Track, db: Engine)
    requires MissingCond(cat, field, Bool(b), true).Ok?
    ensures MissingCond(cat, field, Bool(b), false).Ok?
    ensures Accepts(MissingCond(cat, field, Bool(b), true).value, t, db) <==>
      !Accepts(MissingCond(cat, field, Bool(b), false).value, t, db)
  {
    hide Eval;
    MissingMeans(cat, field, Bool(b), true, t, db);
    MissingMeans(cat, field, Bool(b), false, t, db);
  }

  lemma PeriodMeans(cat: Catalogue, field: string, since: Option<string>, negated: bool, t: Track, db: Engine)
    requires PeriodCond(cat, field, since, negated).Ok?
    ensures since.Some?
    ensures Accepts(PeriodCond(cat, field, since, negated).value, t, db) <==>
      PeriodMeaning(cat[field], since.value, negated, t)
  {
    var column := cat[field].column;
    OrOfTwo(Compare(Bare(column), Lt, Text(since.value)), Compare(Bare(column), Eq, Nil), t, db);
  }

  lemma LeafMeans(e: Expr, cat: Catalogue, style: Style, t: Track, db: Engine)
    requires !e.All? && !e.Any? && LeafCond(e, cat, style).Ok? && forall field | field in cat ::
      WellDefaulted(cat[field])
    ensures Accepts(LeafCond(e, cat, style).value, t, db) <==> Means(e, cat, t, db)
  {
    hide IsMeaning, IsNotMeaning, MatchMeaning, PeriodMeaning, IsAbsent;
    hide ComparisonCond, IsNotCond, LikeCond, PeriodCond, MissingCond;
    match e
    case Is(field, op, value) =>
      OkInCatalogue(e, cat, style);
      ComparisonMeans(cat, style, field, op, value, t, db);
    case IsNot(field, value) =>
      OkInCatalogue(e, cat, style);
      IsNotMeans(cat, style, field, value, t, db);
    case Matches(field, text, place, negated) =>
      OkInCatalogue(e, cat, style);
      MatchMeans(cat, field, PatternOf(text, place), negated, t, db);
    case InRange(field, bounds) =>
      ComparisonMeans(cat, style, field, Ge, bounds.items[0], t, db);
      ComparisonMeans(cat, style, field, Le, bounds.items[1], t, db);
      AndOfTwo(ComparisonCond(cat, style, field, Ge, bounds.items[0]).value,
        ComparisonCond(cat, style, field, Le, bounds.items[1]).value, t, db);
    case InTheLast(field, since, negated) =>
      OkInCatalogue(e, cat, style);
      PeriodMeans(cat, field, since, negated, t, db);
    case Missing(field, flag, absence) =>
      OkInCatalogue(e, cat, style);
      MissingMeans(cat, field, flag, absence, t, db);
    case Listed(_, _) =>
  }

  lemma OkInCatalogue(e: Expr, cat: Catalogue, style: Style)
    requires !e.All? && !e.Any? && !e.Listed? && LeafCond(e, cat, style).Ok?
    ensures e.field in cat
    ensures e.InTheLast? ==> e.since.Some?
    ensures e.Missing? ==> e.flag.Bool?
  {
  }

  // ---- Trees ----

  /** Names of one tag (a tag and its aliases) agree on being numeric. */
  predicate TagsAgree(cat: Catalogue) {
    forall f, g | f in cat && g in cat && cat[f].Tag? && cat[g].Tag? && cat[f].name == cat[g].name ::
      cat[f].numeric == cat[g].numeric
  }

  predicate WellFormed(cat: Catalogue) {
    forall field | field in cat :: WellDefaulted(cat[field])
  }

  predicate FromCatalogue(c: Cond, cat: Catalogue) {
    c.TagCond? ==> exists f | f in cat :: cat[f] == Tag(c.tag, c.numeric)
  }

  lemma TagConditionsKeepTheirField(e: Expr, cat: Catalogue, style: Style)
    requires Compiled(e, cat, style).Ok?
    ensures FromCatalogue(Compiled(e, cat, style).value, cat)
  {
    if !e.All? && !e.Any? {
      var c := LeafCond(e, cat, style).value;
      if c.TagCond? {
        assert e.field in cat && cat[e.field] == Tag(c.tag, c.numeric);
      }
    }
  }

  lemma {:induction false} ItemsKeepTheirFields(items: seq<Expr>, cat: Catalogue, style: Style)
    requires CompiledItems(items, cat, style).Ok?
    ensures forall c | c in CompiledItems(items, cat, style).value :: FromCatalogue(c, cat)
  {
    if items != [] {
      ItemsKeepTheirFields(items[..|items| - 1], cat, style);
      TagConditionsKeepTheirField(items[|items| - 1], cat, style);
    }
  }

  lemma AgreementCarriesOver(conds: seq<Cond>, cat: Catalogue)
    requires TagsAgree(cat) && forall c | c in conds :: FromCatalogue(c, cat)
    ensures NumericAgrees(conds)
  {
    forall c, d | c in conds && d in conds && c.TagCond? && d.TagCond? && c.tag == d.tag
      ensures c.numeric == d.numeric
    {
      var f :| f in cat && cat[f] == Tag(c.tag, c.numeric);
      var g :| g in cat && cat[g] == Tag(d.tag, d.numeric);
    }
  }

  /** Compiled items, one by one. */
  lemma {:induction false} ItemsMean(items: seq<Expr>, cat: Catalogue, style: Style, t: Track, db: Engine)
    requires CompiledItems(items, cat, style).Ok? && WellFormed(cat) && (style.Fast? ==> TagsAgree(cat))
    ensures |CompiledItems(items, cat, style).value| == |items|
    ensures forall i | 0 <= i < |items| ::
      Accepts(CompiledItems(items, cat, style).value[i], t, db) <==> Means(items[i], cat, t, db)
    decreases items
  {
    hide Accepts, Means, Compiled, WellFormed, TagsAgree;
    if items != [] {
      ItemsMean(items[..|items| - 1], cat, style, t, db);
      CompiledMeans(items[|items| - 1], cat, style, t, db);
    }
  }

  lemma AllOfItems(conds: seq<Cond>, items: seq<Expr>, cat: Catalogue, t: Track, db: Engine)
    requires |conds| == |items| && forall i | 0 <= i < |items| ::
      Accepts(conds[i], t, db) <==> Means(items[i], cat, t, db)
    ensures Accepts(And(conds), t, db) <==> Means(All(items), cat, t, db)
    ensures Accepts(Or(conds), t, db) <==> Means(Any(items), cat, t, db)
  {
    EvalOfOr(conds, t, db);
    hide Eval;
    AndAccepts(conds, t, db);
    OrAccepts(conds, t, db);
    assert forall i | 0 <= i < |items| :: items[i] in items;
    assert Means(All(items), cat, t, db) <==> forall item | item in items :: Means(item, cat, t, db);
    assert Means(Any(items), cat, t, db) <==> exists item | item in items :: Means(item, cat, t, db);
  }

  lemma MergedIfAccepts(style: Style, conds: seq<Cond>, t: Track, db: Engine)
    requires style.Fast? ==> NumericAgrees(conds)
    ensures Accepts(And(MergedIf(style, conds, true)), t, db) <==> Accepts(And(conds), t, db)
    ensures Accepts(Or(MergedIf(style, conds, false)), t, db) <==> Accepts(Or(conds), t, db)
  {
    hide Accepts, Merged, NumericAgrees;
    if style.Fast? {
      MergedAndAcceptsSameTracks(conds, t, db);
      MergedOrAcceptsSameTracks(conds, t, db);
    }
  }

  /** The main result: either style selects exactly the tracks the criteria describe. */
  lemma {:induction false} CompiledMeans(e: Expr, cat: Catalogue, style: Style, t: Track, db: Engine)
    requires Compiled(e, cat, style).Ok? && WellFormed(cat) && (style.Fast? ==> TagsAgree(cat))
    ensures Accepts(Compiled(e, cat, style).value, t, db) <==> Means(e, cat, t, db)
    decreases e
  {
    hide Accepts, Merged, MergedIf, TagsAgree, NumericAgrees, Means;
    if e.All? || e.Any? {
      var conds := CompiledItems(e.items, cat, style).value;
      ItemsMean(e.items, cat, style, t, db);
      AllOfItems(conds, e.items, cat, t, db);
      if style.Fast? {
        ItemsKeepTheirFields(e.items, cat, style);
        AgreementCarriesOver(conds, cat);
      }
      MergedIfAccepts(style, conds, t, db);
    } else {
      LeafMeans(e, cat, style, t, db);
    }
  }

  /** The two optimisations change neither the selection nor the outcome. */
  lemma FastSelectsWhatSimpleSelects(e: Expr, cat: Catalogue, t: Track, db: Engine)
    requires WellFormed(cat) && TagsAgree(cat)
    ensures Compiled(e, cat, Fast).Ok? <==> Compiled(e, cat, Simple).Ok?
    ensures Compiled(e, cat, Fast).Err? ==> Compiled(e, cat, Fast) == Compiled(e, cat, Simple)
    ensures Compiled(e, cat, Fast).Ok? ==>
      (Accepts(Compiled(e, cat, Fast).value, t, db) <==> Accepts(Compiled(e, cat, Simple).value, t, db))
    ensures Compiled(e, cat, Fast).Ok? ==>
      (Renders(Compiled(e, cat, Fast).value) <==> Renders(Compiled(e, cat, Simple).value))
  {
    StylesAgree(e, cat);
    if Compiled(e, cat, Fast).Ok? {
      CompiledMeans(e, cat, Fast, t, db);
      CompiledMeans(e, cat, Simple, t, db);
    }
  }

  ghost predicate SelectsDifferently(e: Expr, cat: Catalogue, t: Track, db: Engine) {
    && Compiled(e, cat, Fast).Ok? && Compiled(e, cat, Simple).Ok?
    && Accepts(Compiled(e, cat, Fast).value, t, db) != Accepts(Compiled(e, cat, Simple).value, t, db)
  }

  /** "Is the text good" or "is the number five", on two names of one tag. */
  function TextOrNumber(asText: string, asNumber: string): Expr {
    Any([Is(asText, Eq, Text("good")), Is(asNumber, Eq, Num(5.0))])
  }

  lemma OneMoreItem(items: seq<Expr>, e: Expr, cat: Catalogue, style: Style)
    requires CompiledItems(items, cat, style).Ok? && Compiled(e, cat, style).Ok?
    ensures CompiledItems(items + [e], cat, style) ==
      Ok(CompiledItems(items, cat, style).value + [Compiled(e, cat, style).value])
  {
    hide Compiled;
    assert (items + [e])[..|items|] == items;
  }

  lemma TextOrNumberCompiles(asText: string, asNumber: string, tag: string, cat: Catalogue, style: Style)
    requires asText in cat && asNumber in cat && cat[asText] == Tag(tag, false) && cat[asNumber] == Tag(tag, true)
    ensures Compiled(TextOrNumber(asText, asNumber), cat, style) ==
      Ok(Or(MergedIf(style, [AsText(tag), AsNumber5(tag)], false)))
  {
    hide MergedIf;
    var items := TextOrNumber(asText, asNumber).items;
    assert items == [items[0]] + [items[1]] && [items[0]] == [] + [items[0]];
    assert CompiledItems([], cat, style) == Ok([]);
    assert Compiled(items[0], cat, style) == Ok(AsText(tag));
    OneMoreItem([], items[0], cat, style);
    assert CompiledItems([items[0]], cat, style).value == [AsText(tag)];
    OneMoreItem([items[0]], items[1], cat, style);
    assert Compiled(items[1], cat, style) == Ok(AsNumber5(tag));
    assert CompiledItems(items, cat, style).value == [AsText(tag), AsNumber5(tag)];
  }

  /**
   * Exactly when: for a catalogue with sound defaults the fast form always selects what the simple
   * one does if and only if the names of each tag agree on being numeric.
   */
  lemma FastIsSafeIff(cat: Catalogue)
    requires WellFormed(cat)
    ensures TagsAgree(cat) <==> !exists e, t, db :: SelectsDifferently(e, cat, t, db)
  {
    hide Merged, Accepts, Compiled;
    if TagsAgree(cat) {
      forall e, t, db
        ensures !SelectsDifferently(e, cat, t, db)
      {
        FastSelectsWhatSimpleSelects(e, cat, t, db);
      }
    } else {
      var f, g :| f in cat && g in cat && cat[f].Tag? && cat[g].Tag? &&
        cat[f].name == cat[g].name && cat[f].numeric != cat[g].numeric;
      var asText, asNumber, tag := if cat[f].numeric then g else f, if cat[f].numeric then f else g, cat[f].name;
      TextOrNumberCompiles(asText, asNumber, tag, cat, Fast);
      TextOrNumberCompiles(asText, asNumber, tag, cat, Simple);
      MergeNeedsNumericAgreement(tag);
      assert SelectsDifferently(TextOrNumber(asText, asNumber), cat, FiveTrack(tag), FiveEngine());
    }
  }

  // ---- Errors ----

  predicate TestRenders(test: Test) {
    test.CompareTest? ==> Renderable(test.op, test.arg)
  }

  /** Whether the SQL builder accepts every comparison of the condition. */
  predicate Renders(c: Cond) {
    match c
    case And(conds) => forall d | d in conds :: Renders(d)
    case Or(conds) => forall d | d in conds :: Renders(d)
    case Compare(_, op, arg) => Renderable(op, arg)
    case TagCond(_, _, test, _) => test.None? || TestRenders(test.value)
    case RoleCond(_, test, _) => test.None? || TestRenders(test.value)
    case TagGroup(_, _, tests, _) => forall test | test in tests :: TestRenders(test)
    case RoleGroup(_, tests, _) => forall test | test in tests :: TestRenders(test)
    case _ => true
  }

  predicate LeafRenders(leaf: Leaf) {
    match leaf
    case FieldLeaf(_, test, _) => TestRenders(test)
    case OtherLeaf(c) => Renders(c)
  }

  predicate AllRender(leaves: multiset<Leaf>) {
    forall leaf | leaf in leaves :: LeafRenders(leaf)
  }

  lemma AllRenderSum(a: multiset<Leaf>, b: multiset<Leaf>)
    ensures AllRender(a + b) <==> AllRender(a) && AllRender(b)
  {
    assert forall leaf :: leaf in a + b <==> leaf in a || leaf in b;
  }

  lemma AllRenderOne(leaf: Leaf)
    ensures AllRender(multiset{leaf}) <==> LeafRenders(leaf)
  {
    assert leaf in multiset{leaf};
  }

  lemma {:induction false} TestLeavesRender(key: Key, tests: seq<Test>, negated: bool)
    ensures AllRender(TestLeaves(key, tests, negated)) <==> forall test | test in tests :: TestRenders(test)
  {
    if tests != [] {
      var init, last := tests[..|tests| - 1], tests[|tests| - 1];
      TestLeavesRender(key, init, negated);
      AllRenderOne(FieldLeaf(key, last, negated));
      AllRenderSum(TestLeaves(key, init, negated), multiset{FieldLeaf(key, last, negated)});
      hide TestRenders, AllRender;
      assert tests == init + [last];
    }
  }

  lemma LeavesOfRender(c: Cond)
    ensures AllRender(LeavesOf(c)) <==> Renders(c)
  {
    if MergeKey(c, true).Some? || MergeKey(c, false).Some? {
      var negated := MergeKey(c, true).Some?;
      AllRenderOne(FieldLeaf(MergeKey(c, negated).value, TestOf(c), negated));
    } else if IsGroup(c) {
      TestLeavesRender(GroupKey(c), c.tests, c.negated);
    } else {
      AllRenderOne(OtherLeaf(c));
    }
  }

  /** A list renders exactly when all it tests does. */
  lemma {:induction false} LeavesRender(conds: seq<Cond>)
    ensures AllRender(Leaves(conds)) <==> forall c | c in conds :: Renders(c)
  {
    if conds != [] {
      var init, last := conds[..|conds| - 1], conds[|conds| - 1];
      hide Renders, LeavesOf, AllRender;
      LeavesRender(init);
      LeavesOfRender(last);
      AllRenderSum(Leaves(init), LeavesOf(last));
      assert forall c :: c in conds <==> c in init || c == last;
    } else {
      assert AllRender(multiset{});
    }
  }

  lemma MergedRenders(conds: seq<Cond>, negated: bool)
    ensures (forall c | c in Merged(conds, negated) :: Renders(c)) <==> forall c | c in conds :: Renders(c)
  {
    hide Renders, Merged, AllRender;
    MergeConservesLeaves(conds, negated);
    LeavesRender(conds);
    LeavesRender(Merged(conds, negated));
  }

  /** The styles fail on the same trees with the same error, and their queries render alike. */
  predicate Alike(a: Result<Cond>, b: Result<Cond>) {
    if a.Ok? then b.Ok? && (Renders(a.value) <==> Renders(b.value)) else a == b
  }

  predicate AlikeItems(a: Result<seq<Cond>>, b: Result<seq<Cond>>) {
    if a.Err? then a == b else
      b.Ok? && ((forall c | c in a.value :: Renders(c)) <==> forall c | c in b.value :: Renders(c))
  }

  lemma ComparisonsAgree(cat: Catalogue, field: string, op: Op, value: Value)
    ensures Alike(ComparisonCond(cat, Fast, field, op, value), ComparisonCond(cat, Simple, field, op, value))
  {
  }

  lemma LeavesAgree(e: Expr, cat: Catalogue)
    requires !e.All? && !e.Any?
    ensures Alike(LeafCond(e, cat, Fast), LeafCond(e, cat, Simple))
  {
    hide ComparisonCond, LikeCond, PeriodCond, MissingCond;
    match e
    case Is(field, op, value) => ComparisonsAgree(cat, field, op, value);
    case IsNot(field, value) => ComparisonsAgree(cat, field, Ne, value);
    case InRange(field, bounds) =>
      if field in cat && !IsJson(cat[field]) && bounds.List? && |bounds.items| == 2 {
        ComparisonsAgree(cat, field, Ge, bounds.items[0]);
        ComparisonsAgree(cat, field, Le, bounds.items[1]);
      }
    case _ =>
  }

  lemma {:induction false} ItemsAgree(items: seq<Expr>, cat: Catalogue)
    ensures AlikeItems(CompiledItems(items, cat, Fast), CompiledItems(items, cat, Simple))
    decreases items
  {
    hide Renders, Compiled;
    if items != [] {
      ItemsAgree(items[..|items| - 1], cat);
      StylesAgree(items[|items| - 1], cat);
    }
  }

  /** The lists of both styles, merged or not, render alike when the items do. */
  lemma MergedAlike(fast: seq<Cond>, simple: seq<Cond>, negated: bool)
    requires AlikeItems(Ok(fast), Ok(simple))
    ensures Renders(And(MergedIf(Fast, fast, negated))) <==> Renders(And(MergedIf(Simple, simple, negated)))
    ensures Renders(Or(MergedIf(Fast, fast, negated))) <==> Renders(Or(MergedIf(Simple, simple, negated)))
  {
    MergedRenders(fast, negated);
    hide Merged;
  }

  lemma {:induction false} StylesAgree(e: Expr, cat: Catalogue)
    ensures Alike(Compiled(e, cat, Fast), Compiled(e, cat, Simple))
    decreases e
  {
    if e.All? || e.Any? {
      hide Renders, MergedIf;
      ItemsAgree(e.items, cat);
      var fast, simple := CompiledItems(e.items, cat, Fast), CompiledItems(e.items, cat, Simple);
      if fast.Ok? {
        MergedAlike(fast.value, simple.value, e.All?);
      }
    } else {
      LeavesAgree(e, cat);
    }
  }
}
