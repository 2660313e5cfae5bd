/** The conditions the smart-playlist compiler emits, under SQL's three-valued logic. */
module SqlConditions {

  datatype Option<+T> = None | Some(value: T)

  /**
   * A column value or a compared value, already typed: a string that denotes a number or a boolean
   * stands as Num or Bool, so Text is a string that denotes neither. Nil is NULL.
   */
  datatype Value = Nil | Num(n: real) | Bool(b: bool) | Text(s: string) | List(items: seq<Value>)

  datatype Truth = True | False | Unknown

  datatype Op = Eq | Ne | Gt | Ge | Lt | Le

  predicate IsOrdering(op: Op) {
    !op.Eq? && !op.Ne?
  }

  function FromBool(b: bool): Truth {
    if b then True else False
  }

  function Not3(a: Truth): Truth {
    match a
    case True => False
    case False => True
    case Unknown => Unknown
  }

  function And3(a: Truth, b: Truth): Truth {
    if a.False? || b.False? then False else if a.True? && b.True? then True else Unknown
  }

  function Or3(a: Truth, b: Truth): Truth {
    if a.True? || b.True? then True else if a.False? && b.False? then False else Unknown
  }

  /** Two values are a Boolean algebra, the third stands for either, and De Morgan's law holds in all three. */
  lemma ThreeValues(a: Truth, b: Truth)
    ensures Not3(And3(a, b)) == Or3(Not3(a), Not3(b)) && Not3(Not3(a)) == a
    ensures a == True ==> And3(a, b) == b && Or3(a, b) == True
    ensures a == False ==> And3(a, b) == False && Or3(a, b) == b
    ensures And3(a, b) == And3(b, a) && Or3(a, b) == Or3(b, a)
    ensures a == Unknown && b == Unknown ==> And3(a, b) == Or3(a, b) == Not3(a) == Unknown
  {
  }

  // ---- Scalars ----

  predicate IsNumeric(v: Value) {
    v.Num? || v.Bool?
  }

  /** Booleans are stored as 0 and 1. */
  function AsNumber(v: Value): real
    requires IsNumeric(v)
  {
    match v
    case Num(n) => n
    case Bool(b) => if b then 1.0 else 0.0
  }

  predicate LexLess(a: string, b: string) {
    if b == "" then false
    else if a == "" then true
    else a[0] < b[0] || (a[0] == b[0] && LexLess(a[1..], b[1..]))
  }

  predicate Same(a: Value, b: Value) {
    if IsNumeric(a) && IsNumeric(b) then AsNumber(a) == AsNumber(b) else a == b
  }

  /** Numbers sort before texts. */
  predicate Less(a: Value, b: Value) {
    if IsNumeric(a) && IsNumeric(b) then AsNumber(a) < AsNumber(b)
    else if a.Text? && b.Text? then LexLess(a.s, b.s)
    else IsNumeric(a) && b.Text?
  }

  predicate Holds(op: Op, a: Value, b: Value) {
    match op
    case Eq => Same(a, b)
    case Ne => !Same(a, b)
    case Gt => Less(b, a)
    case Ge => Less(b, a) || Same(a, b)
    case Lt => Less(a, b)
    case Le => Less(a, b) || Same(a, b)
  }

  function ScalarCompare(op: Op, a: Value, b: Value): Truth {
    if a.Nil? || b.Nil? then Unknown else FromBool(Holds(op, a, b))
  }

  function InList(a: Value, items: seq<Value>): Truth {
    if items == [] then False else Or3(ScalarCompare(Eq, a, items[0]), InList(a, items[1..]))
  }

  /** `col <op> ?`: equality with NULL renders as IS [NOT] NULL, equality with a list as [NOT] IN. */
  function EvalCompare(op: Op, a: Value, arg: Value): Truth {
    match arg
    case Nil => (match op case Eq => FromBool(a.Nil?) case Ne => FromBool(!a.Nil?) case _ => Unknown)
    case List(items) => (match op case Eq => InList(a, items) case Ne => Not3(InList(a, items)) case _ => Unknown)
    case _ => ScalarCompare(op, a, arg)
  }

  /** The SQL builder refuses to order against a list or NULL. */
  predicate Renderable(op: Op, arg: Value) {
    IsOrdering(op) ==> !arg.Nil? && !arg.List?
  }

  // ---- Conditions ----

  datatype Column = Bare(name: string) | Coalesced(name: string, default: Value)

  /** A test of one tag value or artist name inside an EXISTS subquery. */
  datatype Test = CompareTest(op: Op, arg: Value) | LikeTest(pattern: string)

  datatype Cond =
    | And(conds: seq<Cond>)
    | Or(conds: seq<Cond>)
    | Compare(col: Column, op: Op, arg: Value)
    | Like(col: Column, pattern: string, negated: bool)
    | InPlaylist(id: string, negated: bool)
    | TagCond(tag: string, numeric: bool, test: Option<Test>, negated: bool)
    | RoleCond(role: string, test: Option<Test>, negated: bool)
    | TagGroup(tag: string, numeric: bool, tests: seq<Test>, negated: bool)
    | RoleGroup(role: string, tests: seq<Test>, negated: bool)

  /** One row of the query: a track with its (nullable) joined columns, tags, artists and playlists. */
  datatype Track = Track(columns: map<string, Value>, tags: map<string, set<string>>,
      roles: map<string, set<string>>, playlists: set<string>)

  /** What is left to the database: LIKE on a non-null value, and CAST(text AS REAL). */
  datatype Engine = Engine(like: (Value, string) -> bool, cast: string -> real)

  function Stored(t: Track, name: string): Value {
    if name in t.columns then t.columns[name] else Nil
  }

  function ColumnValue(t: Track, col: Column): Value {
    match col
    case Bare(name) => Stored(t, name)
    case Coalesced(name, default) => if Stored(t, name).Nil? then default else Stored(t, name)
  }

  function TagValues(t: Track, tag: string): set<string> {
    if tag in t.tags then t.tags[tag] else {}
  }

  function RoleNames(t: Track, role: string): set<string> {
    if role in t.roles then t.roles[role] else {}
  }

  function EvalLike(db: Engine, v: Value, pattern: string): Truth {
    if v.Nil? then Unknown else FromBool(db.like(v, pattern))
  }

  function EvalTest(db: Engine, test: Test, v: Value): Truth {
    match test
    case CompareTest(op, arg) => EvalCompare(op, v, arg)
    case LikeTest(pattern) => EvalLike(db, v, pattern)
  }

  /** The disjunction inside a merged subquery. */
  function EvalTests(db: Engine, tests: seq<Test>, v: Value): Truth {
    if tests == [] then False else Or3(EvalTest(db, tests[0], v), EvalTests(db, tests[1..], v))
  }

  /** A tag's JSON value as the subquery reads it: numeric tags are cast. */
  function View(db: Engine, numeric: bool, text: string): Value {
    if numeric then Num(db.cast(text)) else Text(text)
  }

  /** EXISTS is never unknown: a row counts when the inner condition is TRUE. */
  function Exists(found: bool, negated: bool): Truth {
    FromBool(found != negated)
  }

  function Eval(c: Cond, t: Track, db: Engine): Truth
    decreases c
  {
    match c
    case And(conds) => EvalAnd(conds, t, db)
    case Or(conds) => EvalOr(conds, t, db)
    case Compare(col, op, arg) => EvalCompare(op, ColumnValue(t, col), arg)
    case Like(col, pattern, negated) =>
      var r := EvalLike(db, ColumnValue(t, col), pattern);
      if negated then Not3(r) else r
    case InPlaylist(id, negated) => Exists(id in t.playlists, negated)
    case TagCond(tag, numeric, test, negated) =>
      Exists(exists v | v in TagValues(t, tag) :: test.None? || EvalTest(db, test.value, View(db, numeric, v)).True?,
        negated)
    case RoleCond(role, test, negated) =>
      Exists(exists v | v in RoleNames(t, role) :: test.None? || EvalTest(db, test.value, Text(v)).True?, negated)
    case TagGroup(tag, numeric, tests, negated) =>
      Exists(exists v | v in TagValues(t, tag) :: EvalTests(db, tests, View(db, numeric, v)).True?, negated)
    case RoleGroup(role, tests, negated) =>
      Exists(exists v | v in RoleNames(t, role) :: EvalTests(db, tests, Text(v)).True?, negated)
  }

  /** An empty conjunction renders as (1=1). */
  function EvalAnd(conds: seq<Cond>, t: Track, db: Engine): Truth
    decreases conds
  {
    if conds == [] then True else And3(Eval(conds[0], t, db), EvalAnd(conds[1..], t, db))
  }

  /** An empty disjunction renders as (1=0). */
  function EvalOr(conds: seq<Cond>, t: Track, db: Engine): Truth
    decreases conds
  {
    if conds == [] then False else Or3(Eval(conds[0], t, db), EvalOr(conds[1..], t, db))
  }

  /** A row is selected only when the whole condition is TRUE; NULL does not do. */
  predicate Accepts(c: Cond, t: Track, db: Engine) {
    Eval(c, t, db).True?
  }

  lemma {:induction false} AndAccepts(conds: seq<Cond>, t: Track, db: Engine)
    ensures EvalAnd(conds, t, db).True? <==> forall i | 0 <= i < |conds| :: Accepts(conds[i], t, db)
  {
    if conds != [] {
      AndAccepts(conds[1..], t, db);
      assert forall i | 1 <= i < |conds| :: conds[i] == conds[1..][i - 1];
      assert forall i | 0 <= i < |conds[1..]| :: conds[1..][i] == conds[i + 1];
    }
  }

  lemma {:induction false} OrAccepts(conds: seq<Cond>, t: Track, db: Engine)
    ensures EvalOr(conds, t, db).True? <==> exists i | 0 <= i < |conds| :: Accepts(conds[i], t, db)
  {
    if conds != [] {
      OrAccepts(conds[1..], t, db);
      assert forall i | 1 <= i < |conds| :: conds[i] == conds[1..][i - 1];
      assert forall i | 0 <= i < |conds[1..]| :: conds[1..][i] == conds[i + 1];
    }
  }

  lemma {:induction false} TestsAccept(db: Engine, tests: seq<Test>, v: Value)
    ensures EvalTests(db, tests, v).True? <==> exists i | 0 <= i < |tests| :: EvalTest(db, tests[i], v).True?
  {
    if tests != [] {
      TestsAccept(db, tests[1..], v);
      assert forall i | 1 <= i < |tests| :: tests[i] == tests[1..][i - 1];
      assert forall i | 0 <= i < |tests[1..]| :: tests[1..][i] == tests[i + 1];
    }
  }
}
