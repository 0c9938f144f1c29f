/**
 Five rewrite rules and the visitor that applies them: visit a node once, then descend into the
 children of whatever the visit left there.
 */
module SqlRules {
  import opened Wrappers
  import opened SqlAst
  import opened SqlStrings
  import opened Digits

  datatype Rule = ArrayAnyAll | StripCollate | PgOperator | RegCast | ProjectionSubquery

  // ---------- x = ANY(arr), x <> ALL(arr) ----------

  function TextItems(items: seq<string>): seq<Node> {
    seq(|items|, i requires 0 <= i < |items| => Lit(Text(items[i])))
  }

  /** A braced string literal becomes an ARRAY of its items; any other operand passes through. */
  function ArrayOperand(right: Node): Node {
    match right.kind
    case Value(Text(s)) => if right.kids == [] && Braced(s) then Node(ArrayLiteral, TextItems(ArrayItems(s))) else right
    case _ => right
  }

  function ArrayContains(left: Node, right: Node): Node {
    Call("array_contains", [ArrayOperand(right), left])
  }

  function VisitAnyAll(n: Node): Node {
    match n.kind
    case AnyOp(Eq) => if |n.kids| == 2 then ArrayContains(n.kids[0], n.kids[1]) else n
    case AllOp(NotEq) => if |n.kids| == 2 then Negate(ArrayContains(n.kids[0], n.kids[1])) else n
    case _ => n
  }

  // ---------- COLLATE ----------

  function VisitCollate(n: Node): Node {
    if n.kind.Collate? && |n.kids| == 1 then n.kids[0] else n
  }

  // ---------- OPERATOR(pg_catalog.~) ----------

  function BuiltinOperator(op: Operator): Operator {
    if op.Custom? && op.path != [] && op.path[0] == "pg_catalog" then
      var name := op.path[|op.path| - 1];
      if name == "~" then RegexMatch
      else if name == "~*" then RegexIMatch
      else if name == "!~" then RegexNotMatch
      else if name == "!~*" then RegexNotIMatch
      else op
    else op
  }

  function VisitOperator(n: Node): Node {
    if n.kind.BinaryOp? then Node(BinaryOp(BuiltinOperator(n.kind.op)), n.kids) else n
  }

  // ---------- 'name'::regclass ----------

  const PG_CATALOG_PREFIX := "pg_catalog."

  function LowerChar(c: char): char {
    if 'A' <= c <= 'Z' then c - 'A' + 'a' else c
  }

  function Lower(s: string): string {
    seq(|s|, i requires 0 <= i < |s| => LowerChar(s[i]))
  }

  function NormalizeTypeName(dataType: string): string {
    var lower := Lower(dataType);
    if PG_CATALOG_PREFIX <= lower then lower[|PG_CATALOG_PREFIX|..] else lower
  }

  const PARAMETER := Lit(Placeholder("$1"))

  /** `SELECT oid FROM pg_catalog.<table> WHERE <column> = <operand>`. */
  function LookupQuery(table: string, column: string, operand: Node): Node {
    SelectFrom(Name("oid"), [Node(Table(["pg_catalog", table], None), [])], Compare(Name(column), Eq, operand))
  }

  function NameLookup(table: string, column: string): Node { LookupQuery(table, column, PARAMETER) }

  const LENGTH := Call("array_length", [Name("parts"), Lit(Number("1"))])

  function Part(i: string): Node { Node(OtherExpr("subscript"), [Name("parts"), Lit(Number(i))]) }

  function PartCount(n: string): Node { Compare(LENGTH, Eq, Lit(Number(n))) }

  function And(left: Node, right: Node): Node { Compare(left, OtherOperator("AND"), right) }

  function PartsItem(operand: Node): Node {
    Node(Item(Some("parts")), [Call("parse_ident", [Node(Cast("TEXT"), [operand])])])
  }

  /** `(SELECT parse_ident(<operand>::TEXT) AS parts)`. */
  function PartsQuery(operand: Node): Node {
    Node(Query(false, false), [Node(Select, [Node(Projection, [PartsItem(operand)]), Node(From, [])])])
  }

  const CLASSES := ["pg_catalog", "pg_class"]
  const NAMESPACES := ["pg_catalog", "pg_namespace"]

  function RegclassFrom(operand: Node): Node {
    Node(From, [
      Node(Table(CLASSES, Some("c")), []),
      Node(Table(NAMESPACES, Some("n")), []),
      Node(Derived(None), [PartsQuery(operand)])])
  }

  const REGCLASS_ARITY := Node(OtherExpr("in"), [LENGTH, Lit(Number("1")), Lit(Number("2"))])

  const REGCLASS_BARE :=
    And(PartCount("1"), And(Compare(Column("n", "nspname"), Eq, Call("current_schema", [])),
                            Compare(Column("c", "relname"), Eq, Part("1"))))

  const REGCLASS_QUALIFIED :=
    And(PartCount("2"),
      And(Compare(Column("n", "nspname"), Eq, Part("1")), Compare(Column("c", "relname"), Eq, Part("2"))))

  const JOINED := Compare(Column("c", "relnamespace"), Eq, Column("n", "oid"))
  const NAMED := And(REGCLASS_ARITY, Compare(REGCLASS_BARE, OtherOperator("OR"), REGCLASS_QUALIFIED))

  /** The relation lookup: one part names a relation of the current schema, two a schema and relation. */
  function RegclassQuery(operand: Node): Node {
    Node(Query(false, false), [Node(Select, [
      Node(Projection, [Node(Item(None), [Column("c", "oid")])]), RegclassFrom(operand), JOINED, NAMED])])
  }

  // The templates, with the parameter for the operand.
  const PARTS_ITEM := PartsItem(PARAMETER)
  const PARTS_QUERY := PartsQuery(PARAMETER)
  const REGCLASS_FROM := RegclassFrom(PARAMETER)
  const REGCLASS_QUERY := RegclassQuery(PARAMETER)

  function Template(typeName: string): Option<Node> {
    if typeName == "regclass" then Some(REGCLASS_QUERY)
    else if typeName == "regnamespace" then Some(NameLookup("pg_namespace", "nspname"))
    else if typeName == "regtype" then Some(NameLookup("pg_type", "typname"))
    else if typeName == "regproc" then Some(NameLookup("pg_proc", "proname"))
    else None
  }

  predicate IsPlaceholder(n: Node) {
    n.kind.Value? && n.kind.literal.Placeholder? && n.kids == []
  }

  predicate IsNameOperand(n: Node) {
    n.kind.Value? && (n.kind.literal.Text? || n.kind.literal.Placeholder?) && n.kids == []
  }

  /** PlaceholderReplacer's walk over a template. */
  function Substitute(n: Node, operand: Node): Node {
    if IsPlaceholder(n) then operand
    else Node(n.kind, seq(|n.kids|, i requires 0 <= i < |n.kids| => Substitute(n.kids[i], operand)))
  }

  /** A cast of a string literal or placeholder to one of the four resolvable types. */
  predicate IsNameCast(n: Node) {
    n.kind.Cast? && |n.kids| == 1 && IsNameOperand(n.kids[0]) && Template(NormalizeTypeName(n.kind.dataType)).Some?
  }

  predicate NumericText(n: Node) {
    n.kind.Value? && n.kind.literal.Text? && n.kind.literal.text != [] && AllDigits(n.kind.literal.text)
  }

  function VisitRegCast(n: Node): Node {
    if IsNameCast(n) then
      if NumericText(n.kids[0]) then Lit(Number(n.kids[0].kind.literal.text))
      else Node(Subquery, [Substitute(Template(NormalizeTypeName(n.kind.dataType)).value, n.kids[0])])
    else n
  }

  // ---------- Subqueries in the projection ----------

  predicate HasLimit(query: Node) {
    query.kind.Query? && (query.kind.limited || query.kind.fetched)
  }

  /** The aliases given to tables directly in the FROM of a SELECT. */
  function TableAliases(select: Node): set<string> {
    if |select.kids| < 2 || !select.kids[1].kind.From? then {}
    else set t | t in select.kids[1].kids && t.kind.Table? && t.kind.alias.Some? :: t.kind.alias.value
  }

  /** CorrelationCheckVisitor: a placeholder, or a qualified name not headed by one of the aliases. */
  predicate Correlated(aliases: set<string>, n: Node) {
    IsPlaceholder(n) ||
    (n.kind.CompoundIdentifier? && n.kind.parts != [] && n.kind.parts[0] !in aliases) ||
    exists m :: m in n.kids && Correlated(aliases, m)
  }

  predicate HasCorrelation(query: Node) {
    |query.kids| > 0 && query.kids[0].kind.Select? && Correlated(TableAliases(query.kids[0]), query)
  }

  predicate IsSubqueryItem(n: Node) {
    n.kind.Item? && |n.kids| == 1 && n.kids[0].kind.Subquery? && |n.kids[0].kids| == 1 &&
    n.kids[0].kids[0].kind.Query? && |n.kids[0].kids[0].kids| > 0
  }

  function AddLimit(query: Node): Node
    requires query.kind.Query? && |query.kids| > 0
  {
    Node(Query(true, query.kind.fetched), [query.kids[0], Lit(Number("1"))] + query.kids[1..])
  }

  function StampItem(item: Node): Node {
    if IsSubqueryItem(item) then
      var query := item.kids[0].kids[0];
      if HasCorrelation(query) then Node(item.kind, [Lit(Null)])
      else if !HasLimit(query) then Node(item.kind, [Node(Subquery, [AddLimit(query)])])
      else item
    else item
  }

  function StampItems(items: seq<Node>): seq<Node> {
    seq(|items|, i requires 0 <= i < |items| => StampItem(items[i]))
  }

  predicate HasProjection(query: Node) {
    query.kind.Query? && |query.kids| > 0 && query.kids[0].kind.Select? && |query.kids[0].kids| > 0 &&
    query.kids[0].kids[0].kind.Projection?
  }

  function VisitQuery(n: Node): Node {
    if HasProjection(n) then
      var select := n.kids[0];
      var projection := Node(Projection, StampItems(select.kids[0].kids));
      Node(n.kind, [Node(Select, [projection] + select.kids[1..])] + n.kids[1..])
    else n
  }

  // ---------- The visitor ----------

  function Visit(rule: Rule, n: Node): Node {
    match rule
    case ArrayAnyAll => VisitAnyAll(n)
    case StripCollate => VisitCollate(n)
    case PgOperator => VisitOperator(n)
    case RegCast => VisitRegCast(n)
    case ProjectionSubquery => VisitQuery(n)
  }

  /** How many nodes of a tree the rule would change. */
  function Redexes(rule: Rule, n: Node): nat {
    (if Visit(rule, n) != n then 1 else 0) + RedexesAll(rule, n.kids)
  }

  function RedexesAll(rule: Rule, ns: seq<Node>): nat {
    if ns == [] then 0 else Redexes(rule, ns[0]) + RedexesAll(rule, ns[1..])
  }

  /** Nothing in the tree would be changed. */
  predicate Clean(rule: Rule, n: Node) {
    Visit(rule, n) == n && forall m :: m in n.kids ==> Clean(rule, m)
  }
}
