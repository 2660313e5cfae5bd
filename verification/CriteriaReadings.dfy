/** What single criteria select, read off the stored values; and which criteria are refused. */
module CriteriaReadings {
  import opened SqlConditions
  import opened CriteriaMerge
  import opened CriteriaMergeMeaning
  import opened CriteriaCompile
  import opened CriteriaMeaning

  // ---- LIKE ----

  /** LIKE ignores the case of ASCII letters. */
  function Lower(c: char): char {
    if 'A' <= c <= 'Z' then (c as int + 32) as char else c
  }

  predicate SameLetter(a: char, b: char) {
    Lower(a) == Lower(b)
  }

  /** '%' stands for any text, '_' for any character. */
  predicate LikeMatches(s: string, pattern: string)
    decreases |pattern|
  {
    if pattern == "" then s == ""
    else if pattern[0] == '%' then exists k | 0 <= k <= |s| :: LikeMatches(s[k..], pattern[1..])
    else s != "" && (pattern[0] == '_' || SameLetter(s[0], pattern[0])) && LikeMatches(s[1..], pattern[1..])
  }

  ghost predicate ReadsPatterns(db: Engine) {
    forall s, pattern :: db.like(Text(s), pattern) <==> LikeMatches(s, pattern)
  }

  /** Without wildcards. */
  predicate IsLiteral(text: string) {
    '%' !in text && '_' !in text
  }

  /** The text stands in s from place k on. */
  predicate StandsAt(s: string, text: string, k: nat) {
    k + |text| <= |s| && forall i | 0 <= i < |text| :: SameLetter(s[k + i], text[i])
  }

  predicate HasText(s: string, text: string, place: Placement) {
    match place
    case Starting => StandsAt(s, text, 0)
    case Ending => |text| <= |s| && StandsAt(s, text, |s| - |text|)
    case Containing => exists k | 0 <= k <= |s| :: StandsAt(s, text, k)
  }

  lemma {:induction false} LikeLiteral(s: string, text: string, rest: string)
    requires IsLiteral(text)
    ensures LikeMatches(s, text + rest) <==> StandsAt(s, text, 0) && LikeMatches(s[|text|..], rest)
  {
    if text == "" {
      assert text + rest == rest && s[0..] == s;
    } else {
      assert (text + rest)[1..] == text[1..] + rest && (text + rest)[0] == text[0];
      assert text[0] in text && forall c | c in text[1..] :: c in text;
      if s != "" {
        LikeLiteral(s[1..], text[1..], rest);
        assert StandsAt(s, text, 0) <==> SameLetter(s[0], text[0]) && StandsAt(s[1..], text[1..], 0) by {
          assert forall i | 0 <= i < |text[1..]| :: text[1..][i] == text[i + 1];
          assert forall i | 0 < i < |text| :: text[i] == text[1..][i - 1];
          if |text| <= |s| {
            assert forall i | 0 <= i < |text[1..]| :: s[1..][i] == s[i + 1];
          }
        }
        if |text| <= |s| {
          assert s[1..][|text[1..]|..] == s[|text|..];
        }
      }
    }
  }

  lemma LikeAnything(s: string)
    ensures LikeMatches(s, "%")
  {
    assert LikeMatches(s[|s|..], "");
  }

  lemma StandsInSuffix(s: string, text: string, k: nat)
    requires k <= |s|
    ensures StandsAt(s[k..], text, 0) <==> StandsAt(s, text, k)
  {
  }

  lemma StartingMatches(s: string, text: string)
    requires IsLiteral(text)
    ensures LikeMatches(s, text + "%") <==> HasText(s, text, Starting)
  {
    LikeLiteral(s, text, "%");
    if |text| <= |s| {
      LikeAnything(s[|text|..]);
    }
  }

  lemma EndingMatches(s: string, text: string)
    requires IsLiteral(text)
    ensures LikeMatches(s, "%" + text) <==> HasText(s, text, Ending)
  {
    assert ("%" + text)[1..] == text == text + "";
    forall k | 0 <= k <= |s|
      ensures LikeMatches(s[k..], text) <==> StandsAt(s, text, k) && k + |text| == |s|
    {
      LikeLiteral(s[k..], text, "");
      StandsInSuffix(s, text, k);
    }
    if |text| <= |s| {
      assert StandsAt(s, text, |s| - |text|) <==> LikeMatches(s[|s| - |text|..], text);
    }
  }

  lemma ContainingMatches(s: string, text: string)
    requires IsLiteral(text)
    ensures LikeMatches(s, "%" + text + "%") <==> HasText(s, text, Containing)
  {
    assert ("%" + text + "%")[1..] == text + "%";
    forall k | 0 <= k <= |s|
      ensures LikeMatches(s[k..], text + "%") <==> StandsAt(s, text, k)
    {
      StartingMatches(s[k..], text);
      StandsInSuffix(s, text, k);
    }
  }

  lemma PatternMatches(s: string, text: string, place: Placement)
    requires IsLiteral(text)
    ensures LikeMatches(s, PatternOf(text, place)) <==> HasText(s, text, place)
  {
    match place
    case Starting => StartingMatches(s, text);
    case Ending => EndingMatches(s, text);
    case Containing => ContainingMatches(s, text);
  }

  /**
   * "Contains", "starts with" and "ends with": a text column is accepted exactly when the text stands
   * in it, at its start or at its end.
   */
  lemma MatchingReads(cat: Catalogue, style: Style, field: string, text: string, place: Placement, negated: bool,
      t: Track, db: Engine, s: string)
    requires ReadsPatterns(db) && IsLiteral(text) && WellFormed(cat)
    requires field in cat && cat[field].PlainColumn? && Stored(t, cat[field].column) == Text(s)
    ensures var c := Compiled(Matches(field, text, place, negated), cat, style);
      c.Ok? && (Accepts(c.value, t, db) <==> HasText(s, text, place) != negated)
  {
    PatternMatches(s, text, place);
    hide PatternOf, HasText;
    LeafMeans(Matches(field, text, place, negated), cat, style, t, db);
  }

  /** On a tag or role some value has the text; negated, none has. */
  lemma MatchingReadsValues(cat: Catalogue, style: Style, field: string, text: string, place: Placement, negated: bool,
      t: Track, db: Engine)
    requires ReadsPatterns(db) && IsLiteral(text) && WellFormed(cat)
    requires field in cat && (cat[field].Role? || (cat[field].Tag? && !cat[field].numeric))
    ensures var values := if cat[field].Role? then RoleNames(t, cat[field].name) else TagValues(t, cat[field].name);
      var c := Compiled(Matches(field, text, place, negated), cat, style);
      c.Ok? && (Accepts(c.value, t, db) <==> (exists s | s in values :: HasText(s, text, place)) != negated)
  {
    var values := if cat[field].Role? then RoleNames(t, cat[field].name) else TagValues(t, cat[field].name);
    forall s
      ensures LikeMatches(s, PatternOf(text, place)) <==> HasText(s, text, place)
    {
      PatternMatches(s, text, place);
    }
    hide PatternOf, HasText;
    LeafMeans(Matches(field, text, place, negated), cat, style, t, db);
    assert forall v :: v in FieldValues(cat[field], t, db) <==> v.Text? && v.s in values;
    assert forall s | s in values :: Text(s) in FieldValues(cat[field], t, db);
  }

  // ---- Comparisons ----

  /** A number column, or an annotation with its default where there is no row, against a number. */
  lemma NumberReads(cat: Catalogue, style: Style, field: string, op: Op, n: real, t: Track, db: Engine, x: real)
    requires WellFormed(cat) && field in cat && (cat[field].PlainColumn? || cat[field].Annotation?)
    requires Stored(t, cat[field].column) == Num(x) ||
      (Stored(t, cat[field].column).Nil? && cat[field].Annotation? && cat[field].default == Num(x))
    ensures Compiled(Is(field, op, Num(n)), cat, style).Ok?
    ensures var accepted := Accepts(Compiled(Is(field, op, Num(n)), cat, style).value, t, db);
      && (op == Eq ==> (accepted <==> x == n)) && (op == Ne ==> (accepted <==> x != n))
      && (op == Gt ==> (accepted <==> x > n)) && (op == Ge ==> (accepted <==> x >= n))
      && (op == Lt ==> (accepted <==> x < n)) && (op == Le ==> (accepted <==> x <= n))
  {
    LeafMeans(Is(field, op, Num(n)), cat, style, t, db);
  }

  /** "Loved": a boolean annotation counts as its default where there is no row. */
  lemma FlagReads(cat: Catalogue, style: Style, field: string, b: bool, t: Track, db: Engine, x: bool)
    requires WellFormed(cat) && field in cat && cat[field].Annotation?
    requires Stored(t, cat[field].column) == Bool(x) ||
      (Stored(t, cat[field].column).Nil? && cat[field].default == Bool(x))
    ensures Compiled(Is(field, Eq, Bool(b)), cat, style).Ok? && Compiled(IsNot(field, Bool(b)), cat, style).Ok?
    ensures Accepts(Compiled(Is(field, Eq, Bool(b)), cat, style).value, t, db) <==> x == b
    ensures Accepts(Compiled(IsNot(field, Bool(b)), cat, style).value, t, db) <==> x != b
  {
    LeafMeans(Is(field, Eq, Bool(b)), cat, style, t, db);
    LeafMeans(IsNot(field, Bool(b)), cat, style, t, db);
  }

  /** A sorts before B: it is a proper prefix, or has the smaller character where they first differ. */
  predicate SortsBefore(a: string, b: string) {
    exists k | 0 <= k <= |a| ::
      k < |b| && a[..k] == b[..k] && (k == |a| || a[k] < b[k])
  }

  lemma {:induction false} LexLessIs(a: string, b: string)
    ensures LexLess(a, b) <==> SortsBefore(a, b)
  {
    if a == "" || b == "" {
      assert b != "" && a == "" ==> a[..0] == b[..0];
    } else if a[0] == b[0] {
      LexLessIs(a[1..], b[1..]);
      if SortsBefore(a, b) {
        var k :| 0 <= k <= |a| && k < |b| && a[..k] == b[..k] && (k == |a| || a[k] < b[k]);
        assert a[1..][..k - 1] == a[..k][1..] && b[1..][..k - 1] == b[..k][1..];
      }
      if SortsBefore(a[1..], b[1..]) {
        var x, y := a[1..], b[1..];
        var k :| 0 <= k <= |x| && k < |y| && x[..k] == y[..k] && (k == |x| || x[k] < y[k]);
        assert a[..k + 1] == [a[0]] + a[1..][..k] && b[..k + 1] == [b[0]] + b[1..][..k];
      }
    } else if SortsBefore(a, b) {
      var k :| 0 <= k <= |a| && k < |b| && a[..k] == b[..k] && (k == |a| || a[k] < b[k]);
      assert k == 0 || a[..k][0] == b[..k][0];
    } else {
      assert a[..0] == b[..0];
    }
  }

  /** A text column against a text: dates are texts that sort by time. */
  lemma TextReads(cat: Catalogue, style: Style, field: string, s: string, t: Track, db: Engine, x: string)
    requires WellFormed(cat) && field in cat && cat[field].PlainColumn? && Stored(t, cat[field].column) == Text(x)
    ensures forall op :: Compiled(Is(field, op, Text(s)), cat, style).Ok?
    ensures Accepts(Compiled(Is(field, Eq, Text(s)), cat, style).value, t, db) <==> x == s
    ensures Accepts(Compiled(Is(field, Ne, Text(s)), cat, style).value, t, db) <==> x != s
    ensures Accepts(Compiled(Is(field, Lt, Text(s)), cat, style).value, t, db) <==> SortsBefore(x, s)
    ensures Accepts(Compiled(Is(field, Gt, Text(s)), cat, style).value, t, db) <==> SortsBefore(s, x)
    ensures Accepts(Compiled(IsNot(field, Text(s)), cat, style).value, t, db) <==> x != s
  {
    LexLessIs(x, s);
    LexLessIs(s, x);
    hide LexLess, SortsBefore;
    LeafMeans(Is(field, Eq, Text(s)), cat, style, t, db);
    LeafMeans(Is(field, Ne, Text(s)), cat, style, t, db);
    LeafMeans(Is(field, Lt, Text(s)), cat, style, t, db);
    LeafMeans(Is(field, Gt, Text(s)), cat, style, t, db);
    LeafMeans(IsNot(field, Text(s)), cat, style, t, db);
  }

  /** A column without a value is accepted only by a comparison with NULL. */
  lemma NothingStoredReads(cat: Catalogue, style: Style, field: string, op: Op, value: Value, t: Track, db: Engine)
    requires WellFormed(cat) && field in cat && cat[field].PlainColumn? && Stored(t, cat[field].column).Nil?
    requires !value.List?
    ensures Compiled(Is(field, op, value), cat, style).Ok?
    ensures Accepts(Compiled(Is(field, op, value), cat, style).value, t, db) <==> op == Eq && value == Nil
  {
    LeafMeans(Is(field, op, value), cat, style, t, db);
  }

  /** On a tag or role, "is" asks for one equal value, "is not" for none; a numeric tag is cast first. */
  lemma ValuesRead(cat: Catalogue, style: Style, field: string, s: string, t: Track, db: Engine)
    requires WellFormed(cat) && field in cat && (cat[field].Role? || (cat[field].Tag? && !cat[field].numeric))
    ensures Compiled(Is(field, Eq, Text(s)), cat, style).Ok? && Compiled(IsNot(field, Text(s)), cat, style).Ok?
    ensures var values := if cat[field].Role? then RoleNames(t, cat[field].name) else TagValues(t, cat[field].name);
      && (Accepts(Compiled(Is(field, Eq, Text(s)), cat, style).value, t, db) <==> s in values)
      && (Accepts(Compiled(IsNot(field, Text(s)), cat, style).value, t, db) <==> s !in values)
  {
    LeafMeans(Is(field, Eq, Text(s)), cat, style, t, db);
    LeafMeans(IsNot(field, Text(s)), cat, style, t, db);
    var values := if cat[field].Role? then RoleNames(t, cat[field].name) else TagValues(t, cat[field].name);
    assert forall v :: v in FieldValues(cat[field], t, db) <==> v.Text? && v.s in values;
    assert Text(s) in FieldValues(cat[field], t, db) <==> s in values;
  }

  lemma NumericTagReads(cat: Catalogue, style: Style, field: string, n: real, t: Track, db: Engine)
    requires WellFormed(cat) && field in cat && cat[field].Tag? && cat[field].numeric
    ensures Compiled(Is(field, Gt, Num(n)), cat, style).Ok? && Compiled(Is(field, Lt, Num(n)), cat, style).Ok?
    ensures Accepts(Compiled(Is(field, Gt, Num(n)), cat, style).value, t, db) <==>
      exists v | v in TagValues(t, cat[field].name) :: db.cast(v) > n
    ensures Accepts(Compiled(Is(field, Lt, Num(n)), cat, style).value, t, db) <==>
      exists v | v in TagValues(t, cat[field].name) :: db.cast(v) < n
  {
    LeafMeans(Is(field, Gt, Num(n)), cat, style, t, db);
    LeafMeans(Is(field, Lt, Num(n)), cat, style, t, db);
    assert forall v | v in TagValues(t, cat[field].name) :: Num(db.cast(v)) in FieldValues(cat[field], t, db);
  }

  /** A range holds both of its ends. */
  lemma RangeReads(cat: Catalogue, style: Style, field: string, low: real, high: real, t: Track, db: Engine, x: real)
    requires WellFormed(cat) && field in cat && (cat[field].PlainColumn? || cat[field].Annotation?)
    requires Stored(t, cat[field].column) == Num(x) ||
      (Stored(t, cat[field].column).Nil? && cat[field].Annotation? && cat[field].default == Num(x))
    ensures Compiled(InRange(field, List([Num(low), Num(high)])), cat, style).Ok?
    ensures Accepts(Compiled(InRange(field, List([Num(low), Num(high)])), cat, style).value, t, db) <==>
      low <= x <= high
  {
    LeafMeans(InRange(field, List([Num(low), Num(high)])), cat, style, t, db);
  }

  // ---- Periods, playlists, missing values ----

  /**
   * "In the last days" takes what is dated after the first day, "not in the last days" what is dated
   * before it or has no date. A value equal to the first day is taken by neither.
   */
  lemma PeriodReads(cat: Catalogue, style: Style, field: string, first: string, t: Track, db: Engine)
    requires WellFormed(cat) && field in cat && (cat[field].PlainColumn? || cat[field].Annotation?)
    requires Stored(t, cat[field].column).Nil? || Stored(t, cat[field].column).Text?
    ensures Compiled(InTheLast(field, Some(first), false), cat, style).Ok?
    ensures Compiled(InTheLast(field, Some(first), true), cat, style).Ok?
    ensures var v := Stored(t, cat[field].column);
      var within := Accepts(Compiled(InTheLast(field, Some(first), false), cat, style).value, t, db);
      var outside := Accepts(Compiled(InTheLast(field, Some(first), true), cat, style).value, t, db);
      && (within <==> v.Text? && SortsBefore(first, v.s)) && (outside <==> v.Nil? || SortsBefore(v.s, first))
      && !(within && outside) && (!within && !outside <==> v == Text(first))
  {
    var v := Stored(t, cat[field].column);
    if v.Text? {
      LexLessIs(first, v.s);
      LexLessIs(v.s, first);
      LexLessTotal(first, v.s);
    }
    hide LexLess, SortsBefore;
    LeafMeans(InTheLast(field, Some(first), false), cat, style, t, db);
    LeafMeans(InTheLast(field, Some(first), true), cat, style, t, db);
  }

  lemma {:induction false} LexLessTotal(a: string, b: string)
    ensures !(LexLess(a, b) && LexLess(b, a)) && (!LexLess(a, b) && !LexLess(b, a) <==> a == b)
  {
    if a != "" && b != "" {
      LexLessTotal(a[1..], b[1..]);
      assert a == [a[0]] + a[1..] && b == [b[0]] + b[1..];
    }
  }

  lemma PlaylistReads(cat: Catalogue, style: Style, id: string, t: Track, db: Engine)
    requires WellFormed(cat)
    ensures Compiled(Listed(Some(id), false), cat, style).Ok? && Compiled(Listed(Some(id), true), cat, style).Ok?
    ensures Accepts(Compiled(Listed(Some(id), false), cat, style).value, t, db) <==> id in t.playlists
    ensures Accepts(Compiled(Listed(Some(id), true), cat, style).value, t, db) <==> id !in t.playlists
  {
    LeafMeans(Listed(Some(id), false), cat, style, t, db);
    LeafMeans(Listed(Some(id), true), cat, style, t, db);
  }

  /** Missing: nothing stored, or, in a column of texts, the empty text or an encoding of it. */
  lemma MissingReads(cat: Catalogue, style: Style, field: string, t: Track, db: Engine)
    requires WellFormed(cat) && field in cat && cat[field].PlainColumn? && cat[field].nullable
    ensures Compiled(Missing(field, Bool(true), true), cat, style).Ok?
    ensures var v := Stored(t, cat[field].column);
      Accepts(Compiled(Missing(field, Bool(true), true), cat, style).value, t, db) <==>
        v.Nil? || (!cat[field].typed && v.Text? && (v.s == "" || v.s in cat[field].empties))
  {
    LeafMeans(Missing(field, Bool(true), true), cat, style, t, db);
  }

  lemma MissingReadsValues(cat: Catalogue, style: Style, field: string, t: Track, db: Engine)
    requires WellFormed(cat) && field in cat && (cat[field].Role? || cat[field].Tag?)
    ensures Compiled(Missing(field, Bool(true), true), cat, style).Ok?
    ensures Accepts(Compiled(Missing(field, Bool(true), true), cat, style).value, t, db) <==>
      (if cat[field].Role? then RoleNames(t, cat[field].name) else TagValues(t, cat[field].name)) == {}
  {
    var values := if cat[field].Role? then RoleNames(t, cat[field].name) else TagValues(t, cat[field].name);
    LeafMeans(Missing(field, Bool(true), true), cat, style, t, db);
    if cat[field].Role? {
      assert forall name | name in values :: Text(name) in FieldValues(cat[field], t, db);
    } else {
      assert forall text | text in values :: View(db, cat[field].numeric, text) in FieldValues(cat[field], t, db);
    }
  }

  /** isMissing false asks what isPresent true asks, and the other way round. */
  lemma PresentReads(cat: Catalogue, style: Style, field: string, b: bool, t: Track, db: Engine)
    requires Compiled(Missing(field, Bool(true), true), cat, style).Ok? && WellFormed(cat)
    ensures Compiled(Missing(field, Bool(b), true), cat, style).Ok?
    ensures Compiled(Missing(field, Bool(b), false), cat, style).Ok?
    ensures var missing := Accepts(Compiled(Missing(field, Bool(true), true), cat, style).value, t, db);
      && (Accepts(Compiled(Missing(field, Bool(b), true), cat, style).value, t, db) <==> missing == b)
      && (Accepts(Compiled(Missing(field, Bool(b), false), cat, style).value, t, db) <==> missing == !b)
  {
    LeafMeans(Missing(field, Bool(true), true), cat, style, t, db);
    LeafMeans(Missing(field, Bool(b), true), cat, style, t, db);
    LeafMeans(Missing(field, Bool(b), false), cat, style, t, db);
  }

  // ---- Trees ----

  /** All of the parts, any of the parts. */
  lemma TreesRead(items: seq<Expr>, cat: Catalogue, style: Style, t: Track, db: Engine)
    requires WellFormed(cat) && (style.Fast? ==> TagsAgree(cat))
    requires forall e | e in items :: Compiled(e, cat, style).Ok?
    ensures Compiled(All(items), cat, style).Ok? && Compiled(Any(items), cat, style).Ok?
    ensures Accepts(Compiled(All(items), cat, style).value, t, db) <==>
      forall e | e in items :: Accepts(Compiled(e, cat, style).value, t, db)
    ensures Accepts(Compiled(Any(items), cat, style).value, t, db) <==>
      exists e | e in items :: Accepts(Compiled(e, cat, style).value, t, db)
  {
    hide Accepts, WellFormed, TagsAgree, MergedIf, LeafCond;
    ItemsCompile(items, cat, style);
    CompiledMeans(All(items), cat, style, t, db);
    CompiledMeans(Any(items), cat, style, t, db);
    forall e | e in items
      ensures Accepts(Compiled(e, cat, style).value, t, db) <==> Means(e, cat, t, db)
    {
      CompiledMeans(e, cat, style, t, db);
    }
  }

  lemma LastItem(items: seq<Expr>, cat: Catalogue, style: Style)
    requires items != []
    ensures CompiledItems(items, cat, style).Ok? <==>
      CompiledItems(items[..|items| - 1], cat, style).Ok? && Compiled(items[|items| - 1], cat, style).Ok?
  {
    hide Compiled;
  }

  lemma {:induction false} ItemsCompile(items: seq<Expr>, cat: Catalogue, style: Style)
    requires forall e | e in items :: Compiled(e, cat, style).Ok?
    ensures CompiledItems(items, cat, style).Ok?
  {
    if items != [] {
      var init, last := items[..|items| - 1], items[|items| - 1];
      assert forall e | e in init :: e in items;
      assert last in items;
      ItemsCompile(init, cat, style);
      LastItem(items, cat, style);
    }
  }

  // ---- What is refused ----

  /** A field with a column in the query. */
  predicate HasColumn(cat: Catalogue, field: string) {
    field in cat && (cat[field].PlainColumn? || cat[field].Annotation?)
  }

  predicate HasValues(cat: Catalogue, field: string) {
    field in cat && (cat[field].Tag? || cat[field].Role?)
  }

  /** What is wrong with a single criterion, if anything. */
  predicate IsFault(e: Expr, cat: Catalogue, error: Option<Error>) {
    match e
    case All(_) => true
    case Any(_) => true
    case InRange(field, bounds) =>
      && (field !in cat ==> error == Some(InvalidField))
      && (HasValues(cat, field) ==> error == Some(RangeOnTag))
      && (field in cat && !HasValues(cat, field) && !(bounds.List? && |bounds.items| == 2) ==>
        error == Some(MalformedRange))
      && (field in cat && cat[field].Pseudo? && bounds.List? && |bounds.items| == 2 ==> error == Some(InvalidField))
      && (HasColumn(cat, field) && bounds.List? && |bounds.items| == 2 ==> error == None)
    case InTheLast(field, since, _) =>
      && (!HasColumn(cat, field) ==> error == Some(if HasValues(cat, field) then TagInColumnList else InvalidField))
      && (HasColumn(cat, field) ==> error == if since.None? then Some(MalformedDays) else None)
    case Listed(playlist, _) => error == if playlist.None? then Some(NoPlaylist) else None
    case Missing(field, flag, _) =>
      && (field !in cat ==> error == Some(InvalidField))
      && (field in cat && !flag.Bool? ==> error == Some(NotABoolean))
      && (field in cat && flag.Bool? ==>
        (error == None <==> HasValues(cat, field) || (cat[field].PlainColumn? && cat[field].nullable)))
      && (field in cat && flag.Bool? && error.Some? ==> error.value == MissingUnsupported)
    case _ => error == if HasColumn(cat, e.field) || HasValues(cat, e.field) then None else Some(InvalidField)
  }

  /** The fault of a tree is that of its first faulty part; one without a faulty part has none. */
  ghost predicate FaultIs(e: Expr, cat: Catalogue, error: Option<Error>)
    decreases e
  {
    if e.All? || e.Any? then
      if error.None? then forall item | item in e.items :: FaultIs(item, cat, None)
      else exists k | 0 <= k < |e.items| ::
        FaultIs(e.items[k], cat, error) && forall l | 0 <= l < k :: FaultIs(e.items[l], cat, None)
    else IsFault(e, cat, error)
  }

  function FaultOf(r: Result<Cond>): Option<Error> {
    if r.Ok? then None else Some(r.error)
  }

  lemma LeafFault(e: Expr, cat: Catalogue, style: Style)
    requires !e.All? && !e.Any?
    ensures IsFault(e, cat, FaultOf(LeafCond(e, cat, style)))
  {
  }

  /** Exactly which criteria are refused, and why. */
  lemma {:induction false} CompiledFault(e: Expr, cat: Catalogue, style: Style)
    ensures FaultIs(e, cat, FaultOf(Compiled(e, cat, style)))
    decreases e
  {
    hide IsFault, LeafCond, MergedIf;
    if e.All? || e.Any? {
      ItemsFault(e.items, cat, style);
    } else {
      LeafFault(e, cat, style);
    }
  }

  lemma {:induction false} ItemsFault(items: seq<Expr>, cat: Catalogue, style: Style)
    ensures CompiledItems(items, cat, style).Ok? ==> forall item | item in items :: FaultIs(item, cat, None)
    ensures CompiledItems(items, cat, style).Err? ==>
      exists k | 0 <= k < |items| :: FaultIs(items[k], cat, Some(CompiledItems(items, cat, style).error))
        && forall l | 0 <= l < k :: FaultIs(items[l], cat, None)
    decreases items
  {
    hide Compiled, FaultIs;
    if items != [] {
      var init, last := items[..|items| - 1], items[|items| - 1];
      ItemsFault(init, cat, style);
      CompiledFault(last, cat, style);
      assert items == init + [last];
    }
  }

  /** No order is asked for against NULL or a list, which the SQL builder refuses. */
  predicate OrdersScalars(e: Expr) {
    match e
    case All(items) => forall item | item in items :: OrdersScalars(item)
    case Any(items) => forall item | item in items :: OrdersScalars(item)
    case Is(_, op, value) => op == Eq || op == Ne || !(value.Nil? || value.List?)
    case InRange(_, bounds) => bounds.List? ==> forall b | b in bounds.items :: !(b.Nil? || b.List?)
    case _ => true
  }

  lemma LeafRendersIff(e: Expr, cat: Catalogue, style: Style)
    requires !e.All? && !e.Any? && LeafCond(e, cat, style).Ok?
    ensures Renders(LeafCond(e, cat, style).value) <==> OrdersScalars(e)
  {
    match e
    case Is(field, op, value) => ComparisonRenders(cat, style, field, op, value);
    case IsNot(field, value) => ComparisonRenders(cat, style, field, Ne, value);
    case InRange(field, bounds) =>
      ComparisonRenders(cat, style, field, Ge, bounds.items[0]);
      ComparisonRenders(cat, style, field, Le, bounds.items[1]);
      hide ComparisonCond;
      assert bounds.items == [bounds.items[0], bounds.items[1]];
    case Missing(field, flag, absence) =>
      if cat[field].PlainColumn? {
        TextsRender(cat[field].column, Eq, MissingTexts(cat[field]));
        TextsRender(cat[field].column, Ne, MissingTexts(cat[field]));
      }
    case _ =>
  }

  lemma ComparisonRenders(cat: Catalogue, style: Style, field: string, op: Op, value: Value)
    requires ComparisonCond(cat, style, field, op, value).Ok?
    ensures Renders(ComparisonCond(cat, style, field, op, value).value) <==>
      op == Eq || op == Ne || !(value.Nil? || value.List?)
  {
  }

  lemma {:induction false} TextsRender(column: string, op: Op, texts: seq<string>)
    ensures forall c | c in TextComparisons(column, op, texts) :: Renders(c)
  {
    if texts != [] {
      TextsRender(column, op, texts[1..]);
    }
  }

  /** Exactly which criteria, once compiled, become SQL. */
  lemma {:induction false} CompiledRendersIff(e: Expr, cat: Catalogue, style: Style)
    requires Compiled(e, cat, style).Ok?
    ensures Renders(Compiled(e, cat, style).value) <==> OrdersScalars(e)
    decreases e
  {
    if e.All? || e.Any? {
      var conds := CompiledItems(e.items, cat, style).value;
      ItemsRenderIff(e.items, cat, style);
      MergedRenders(conds, e.All?);
      hide Merged;
    } else {
      LeafRendersIff(e, cat, style);
    }
  }

  lemma {:induction false} ItemsRenderIff(items: seq<Expr>, cat: Catalogue, style: Style)
    requires CompiledItems(items, cat, style).Ok?
    ensures (forall c | c in CompiledItems(items, cat, style).value :: Renders(c)) <==>
      forall item | item in items :: OrdersScalars(item)
    decreases items
  {
    hide Renders, OrdersScalars, Compiled;
    if items != [] {
      var init, last := items[..|items| - 1], items[|items| - 1];
      LastItem(items, cat, style);
      ItemsRenderIff(init, cat, style);
      CompiledRendersIff(last, cat, style);
      assert items == init + [last];
    }
  }

  /** The optimised form compares a bare column whenever it can tell whether the default would match. */
  lemma BareWheneverKnown(f: Field, op: Op, value: Value)
    requires f.Annotation?
    ensures var bare := AnnotationCond(f, op, value) == Compare(Bare(f.column), op, value)
        || AnnotationCond(f, op, value) == Or([Compare(Bare(f.column), op, value), Compare(Bare(f.column), Eq, Nil)]);
      && (f.default.Num? && value.Num? ==> bare)
      && (f.default.Bool? && (op == Eq || op == Ne) && value.Bool? ==> bare)
      && (!bare ==> AnnotationCond(f, op, value) == Compare(Coalesced(f.column, f.default), op, value))
  {
  }
}
