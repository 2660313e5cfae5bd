/** From a smart-playlist criteria tree to the condition of its query. */
module CriteriaCompile {
  import opened SqlConditions
  import opened CriteriaMerge
  import CriteriaMergeLoop

  datatype Result<+T> = Ok(value: T) | Err(error: Error)

  datatype Error = InvalidField | RangeOnTag | MalformedRange | NotABoolean
    | MissingUnsupported | TagInColumnList | MalformedDays | NoPlaylist

  /**
   * What a field name stands for. `nullable` columns support isMissing; texts (not `typed`) may
   * also be missing as "" or one of `empties`. Annotations are columns of an optional joined row,
   * read as `default` without one. A pseudo field has no column.
   */
  datatype Field =
    | PlainColumn(column: string, nullable: bool, typed: bool, empties: seq<string>)
    | Annotation(column: string, default: Value)
    | Tag(name: string, numeric: bool)
    | Role(name: string)
    | Pseudo

  type Catalogue = map<string, Field>

  datatype Placement = Containing | Starting | Ending

  datatype Expr =
    | All(items: seq<Expr>)
    | Any(items: seq<Expr>)
    | Is(field: string, op: Op, value: Value)
    | IsNot(field: string, value: Value)
    | Matches(field: string, text: string, place: Placement, negated: bool)
    | InRange(field: string, bounds: Value)
    | InTheLast(field: string, since: Option<string>, negated: bool)
    | Listed(playlist: Option<string>, negated: bool)
    | Missing(field: string, flag: Value, absence: bool)

  /** `Fast` merges subqueries and compares bare annotation columns; `Simple` does neither. */
  datatype Style = Fast | Simple

  function PatternOf(text: string, place: Placement): string {
    match place
    case Containing => "%" + text + "%"
    case Starting => text + "%"
    case Ending => "%" + text
  }

  function JsonCond(f: Field, test: Option<Test>, negated: bool): Cond
    requires f.Tag? || f.Role?
  {
    if f.Role? then RoleCond(f.name, test, negated) else TagCond(f.name, f.numeric, test, negated)
  }

  predicate IsJson(f: Field) {
    f.Tag? || f.Role?
  }

  // ---- Annotations ----

  function ToFloat(v: Value): Option<real> {
    if v.Num? then Some(v.n) else None
  }

  function ToBool(v: Value): Option<bool> {
    match v
    case Bool(b) => Some(b)
    case Num(n) => if n == 1.0 then Some(true) else if n == 0.0 then Some(false) else None
    case _ => None
  }

  function BoolToFloat(b: bool): real {
    if b then 1.0 else 0.0
  }

  predicate Satisfies(op: Op, a: real, b: real) {
    match op
    case Eq => a == b
    case Ne => a != b
    case Gt => a > b
    case Ge => a >= b
    case Lt => a < b
    case Le => a <= b
  }

  /** Whether missing rows must be put back, when the bare comparison can be reasoned about at all. */
  function BareNullInclusion(default: Value, op: Op, value: Value): Option<bool> {
    if default.Bool? then
      if IsOrdering(op) then None else
        match ToBool(value)
        case None => None
        case Some(v) => Some(Satisfies(op, BoolToFloat(default.b), BoolToFloat(v)))
    else
      match (ToFloat(default), ToFloat(value))
      case (Some(d), Some(v)) => Some(Satisfies(op, d, v))
      case _ => None
  }

  function AnnotationCond(f: Field, op: Op, value: Value): Cond
    requires f.Annotation?
  {
    match BareNullInclusion(f.default, op, value)
    case None => Compare(Coalesced(f.column, f.default), op, value)
    case Some(wrapNull) =>
      var base := Compare(Bare(f.column), op, value);
      if wrapNull then Or([base, Compare(Bare(f.column), Eq, Nil)]) else base
  }

  // ---- Leaves ----

  function ColumnOf(cat: Catalogue, field: string): Result<string> {
    if field !in cat then Err(InvalidField) else
      match cat[field]
      case Tag(_, _) => Err(TagInColumnList)
      case Role(_) => Err(TagInColumnList)
      case Pseudo => Err(InvalidField)
      case PlainColumn(column, _, _, _) => Ok(column)
      case Annotation(column, _) => Ok(column)
  }

  function ComparisonCond(cat: Catalogue, style: Style, field: string, op: Op, value: Value): Result<Cond> {
    if field in cat && IsJson(cat[field]) then Ok(JsonCond(cat[field], Some(CompareTest(op, value)), false))
    else if field in cat && cat[field].Annotation? then
      Ok(if style.Fast? then AnnotationCond(cat[field], op, value)
        else Compare(Coalesced(cat[field].column, cat[field].default), op, value))
    else
      match ColumnOf(cat, field)
      case Err(e) => Err(e)
      case Ok(column) => Ok(Compare(Bare(column), op, value))
  }

  function IsNotCond(cat: Catalogue, style: Style, field: string, value: Value): Result<Cond> {
    if field in cat && IsJson(cat[field]) then Ok(JsonCond(cat[field], Some(CompareTest(Eq, value)), true))
    else ComparisonCond(cat, style, field, Ne, value)
  }

  /** LIKE keeps the COALESCE form: a NULL column never matches. */
  function LikeCond(cat: Catalogue, field: string, pattern: string, negated: bool): Result<Cond> {
    if field in cat && IsJson(cat[field]) then Ok(JsonCond(cat[field], Some(LikeTest(pattern)), negated))
    else if field in cat && cat[field].Annotation? then
      Ok(Like(Coalesced(cat[field].column, cat[field].default), pattern, negated))
    else
      match ColumnOf(cat, field)
      case Err(e) => Err(e)
      case Ok(column) => Ok(Like(Bare(column), pattern, negated))
  }

  function RangeCond(cat: Catalogue, style: Style, field: string, bounds: Value): Result<Cond> {
    if field !in cat then Err(InvalidField)
    else if IsJson(cat[field]) then Err(RangeOnTag)
    else if !bounds.List? || |bounds.items| != 2 then Err(MalformedRange)
    else
      match ComparisonCond(cat, style, field, Ge, bounds.items[0])
      case Err(e) => Err(e)
      case Ok(low) =>
        match ComparisonCond(cat, style, field, Le, bounds.items[1])
        case Err(e) => Err(e)
        case Ok(high) => Ok(And([low, high]))
  }

  function PeriodCond(cat: Catalogue, field: string, since: Option<string>, negated: bool): Result<Cond> {
    match ColumnOf(cat, field)
    case Err(e) => Err(e)
    case Ok(column) =>
      match since
      case None => Err(MalformedDays)
      case Some(date) =>
        if negated then Ok(Or([Compare(Bare(column), Lt, Text(date)), Compare(Bare(column), Eq, Nil)]))
        else Ok(Compare(Bare(column), Gt, Text(date)))
  }

  function TextComparisons(column: string, op: Op, texts: seq<string>): seq<Cond> {
    if texts == [] then [] else [Compare(Bare(column), op, Text(texts[0]))] + TextComparisons(column, op, texts[1..])
  }

  function MissingTexts(f: Field): seq<string>
    requires f.PlainColumn?
  {
    if f.typed then [] else [""] + f.empties
  }

  function MissingCond(cat: Catalogue, field: string, flag: Value, absence: bool): Result<Cond> {
    if field !in cat then Err(InvalidField)
    else if !flag.Bool? then Err(NotABoolean)
    else
      var f, wantsMissing := cat[field], absence == flag.b;
      if IsJson(f) then Ok(JsonCond(f, None, wantsMissing))
      else if f.PlainColumn? && f.nullable then
        Ok(if wantsMissing then Or([Compare(Bare(f.column), Eq, Nil)] + TextComparisons(f.column, Eq, MissingTexts(f)))
          else And([Compare(Bare(f.column), Ne, Nil)] + TextComparisons(f.column, Ne, MissingTexts(f))))
      else Err(MissingUnsupported)
  }

  function LeafCond(e: Expr, cat: Catalogue, style: Style): Result<Cond>
    requires !e.All? && !e.Any?
  {
    match e
    case Is(field, op, value) => ComparisonCond(cat, style, field, op, value)
    case IsNot(field, value) => IsNotCond(cat, style, field, value)
    case Matches(field, text, place, negated) => LikeCond(cat, field, PatternOf(text, place), negated)
    case InRange(field, bounds) => RangeCond(cat, style, field, bounds)
    case InTheLast(field, since, negated) => PeriodCond(cat, field, since, negated)
    case Listed(None, _) => Err(NoPlaylist)
    case Listed(Some(id), negated) => Ok(InPlaylist(id, negated))
    case Missing(field, flag, absence) => MissingCond(cat, field, flag, absence)
  }

  // ---- Trees ----

  ghost function MergedIf(style: Style, conds: seq<Cond>, negated: bool): seq<Cond> {
    if style.Fast? then Merged(conds, negated) else conds
  }

  ghost function Compiled(e: Expr, cat: Catalogue, style: Style): Result<Cond>
    decreases e, 1
  {
    match e
    case All(items) => (
      match CompiledItems(items, cat, style)
      case Err(x) => Err(x)
      case Ok(conds) => Ok(And(MergedIf(style, conds, true))))
    case Any(items) => (
      match CompiledItems(items, cat, style)
      case Err(x) => Err(x)
      case Ok(conds) => Ok(Or(MergedIf(style, conds, false))))
    case _ => LeafCond(e, cat, style)
  }

  /** The first error of the list, or every condition. */
  ghost function CompiledItems(items: seq<Expr>, cat: Catalogue, style: Style): Result<seq<Cond>>
    decreases items
  {
    if items == [] then Ok([]) else
      match CompiledItems(items[..|items| - 1], cat, style)
      case Err(x) => Err(x)
      case Ok(init) =>
        match Compiled(items[|items| - 1], cat, style)
        case Err(x) => Err(x)
        case Ok(last) => Ok(init + [last])
  }

  lemma {:induction false} FirstErrorSticks(items: seq<Expr>, k: nat, cat: Catalogue, style: Style)
    requires k <= |items| && CompiledItems(items[..k], cat, style).Err?
    ensures CompiledItems(items, cat, style) == CompiledItems(items[..k], cat, style)
  {
    if k == |items| {
      assert items[..k] == items;
    } else {
      assert items[..|items| - 1][..k] == items[..k];
      FirstErrorSticks(items[..|items| - 1], k, cat, style);
    }
  }

  lemma NoItems(cat: Catalogue, style: Style)
    ensures CompiledItems([], cat, style) == Ok([])
  {
  }

  lemma NextItem(items: seq<Expr>, i: nat, cat: Catalogue, style: Style)
    requires i < |items| && CompiledItems(items[..i], cat, style).Ok?
    ensures CompiledItems(items[..i + 1], cat, style) ==
      match Compiled(items[i], cat, style)
      case Err(x) => Err(x)
      case Ok(c) => Ok(CompiledItems(items[..i], cat, style).value + [c])
  {
    hide Compiled;
    assert items[..i + 1][..i] == items[..i];
  }

  /** The compiler of the program: every list of conditions is merged on the way up. */
  method ExprSQL(e: Expr, cat: Catalogue) returns (r: Result<Cond>)
    ensures r == Compiled(e, cat, Fast)
    decreases e, 1
  {
    match e {
      case All(items) =>
        var conds := ItemsSQL(items, cat);
        if conds.Err? {
          return Err(conds.error);
        }
        var merged, _ := CriteriaMergeLoop.MergeSameFieldConds(conds.value, true);
        return Ok(And(merged));
      case Any(items) =>
        var conds := ItemsSQL(items, cat);
        if conds.Err? {
          return Err(conds.error);
        }
        var merged, _ := CriteriaMergeLoop.MergeSameFieldConds(conds.value, false);
        return Ok(Or(merged));
      case _ =>
        return LeafCond(e, cat, Fast);
    }
  }

  method ItemsSQL(items: seq<Expr>, cat: Catalogue) returns (r: Result<seq<Cond>>)
    ensures r == CompiledItems(items, cat, Fast)
    decreases items, 0
  {
    var conds := [];
    var i := 0;
    hide Compiled, CompiledItems;
    NoItems(cat, Fast);
    assert items[..0] == [];
    while i < |items|
      invariant 0 <= i <= |items|
      invariant CompiledItems(items[..i], cat, Fast) == Ok(conds)
    {
      var c := ExprSQL(items[i], cat);
      NextItem(items, i, cat, Fast);
      if c.Err? {
        FirstErrorSticks(items, i + 1, cat, Fast);
        return Err(c.error);
      }
      conds := conds + [c.value];
      i := i + 1;
    }
    assert items[..i] == items;
    return Ok(conds);
  }
}
