/**
 What expressions and queries mean: SQL's three-valued logic over a database of named tables.
 Whatever no rule touches (other operators, functions, casts) means what `Sem` says.
 */
module SqlSemantics {
  import opened Wrappers
  import opened SqlAst
  import opened SqlStrings
  import opened Digits
  import opened SqlRules

  /** A column is in scope under its name and under its table's name or alias. */
  type Scope = map<seq<string>, Val>

  /** A row of a table, by column. */
  type TableRow = map<string, Val>

  datatype Val =
    | Unknown                           // NULL
    | Bool(b: bool)
    | Int(n: int)
    | Str(s: string)
    | Arr(elems: seq<Val>)
    | Cell(name: Option<string>, v: Val)  // a column of a projected row
    | Row(cells: seq<Val>)              // a projected row
    | Rows(rows: seq<Val>)              // a query's result
    | Scopes(scopes: seq<Scope>)        // a relation of the FROM clause
    | Opaque(id: int)
    | Error

  datatype Sem = Sem(
    db: map<seq<string>, seq<TableRow>>,
    params: string -> Val,                        // the values bound to $1, $2, ...
    binary: (string, Val, Val) -> Val,            // operators by their symbol
    apply: (Kind, seq<Val>) -> Val,               // everything else, on the values of its children
    star: Scope -> Val,                           // the columns a wildcard stands for, as a row of its own
    collateTransparent: bool)                     // a collated string literal is still a literal

  // ---------- Three-valued logic, quantifiers and membership ----------

  function Not3(v: Val): Val { if v.Bool? then Bool(!v.b) else Unknown }

  function Or3(a: Val, b: Val): Val {
    if a == Bool(true) || b == Bool(true) then Bool(true)
    else if a.Bool? && b.Bool? then Bool(false)
    else Unknown
  }

  function And3(a: Val, b: Val): Val {
    if a == Bool(false) || b == Bool(false) then Bool(false)
    else if a.Bool? && b.Bool? then Bool(true)
    else Unknown
  }

  function Equal3(a: Val, b: Val): Val { if a.Unknown? || b.Unknown? then Unknown else Bool(a == b) }

  /** How an operator is spelled; OPERATOR(pg_catalog.x) is the built-in operator spelled x. */
  function Symbol(op: Operator): string {
    match op
    case Eq => "="
    case NotEq => "<>"
    case RegexMatch => "~"
    case RegexIMatch => "~*"
    case RegexNotMatch => "!~"
    case RegexNotIMatch => "!~*"
    case OtherOperator(symbol) => symbol
    case Custom(path) =>
      if path != [] && path[0] == "pg_catalog" then path[|path| - 1] else "OPERATOR(" + Join(path, '.') + ")"
  }

  function Binary(sem: Sem, op: Operator, a: Val, b: Val): Val {
    if Symbol(op) == "=" then Equal3(a, b)
    else if Symbol(op) == "<>" then Not3(Equal3(a, b))
    else sem.binary(Symbol(op), a, b)
  }

  /** `x op ANY (arr)`: some element compares true. */
  function AnyOf(sem: Sem, op: Operator, x: Val, elems: seq<Val>): Val {
    if elems == [] then Bool(false) else Or3(Binary(sem, op, x, elems[0]), AnyOf(sem, op, x, elems[1..]))
  }

  /** `x op ALL (arr)`: every element compares true. */
  function AllOf(sem: Sem, op: Operator, x: Val, elems: seq<Val>): Val {
    if elems == [] then Bool(true) else And3(Binary(sem, op, x, elems[0]), AllOf(sem, op, x, elems[1..]))
  }

  /** `array_contains(arr, x)`: membership, unknown when a NULL could decide it. */
  function Contains(elems: seq<Val>, x: Val): Val {
    if elems == [] then Bool(false)
    else if x.Unknown? then Unknown
    else if x in elems then Bool(true)
    else if Unknown in elems then Unknown
    else Bool(false)
  }

  // ---------- Array operands ----------

  /** The string of a string literal. */
  function LiteralText(sem: Sem, n: Node): Option<string> {
    if n.kind.Value? && n.kind.literal.Text? && n.kids == [] then Some(n.kind.literal.text)
    else if sem.collateTransparent && n.kind.Collate? && |n.kids| == 1 then LiteralText(sem, n.kids[0])
    else None
  }

  /** The array a string literal is read as, next to ANY or ALL. */
  function ArrayText(sem: Sem, n: Node): Option<string> {
    var text := LiteralText(sem, n);
    if text.Some? && Braced(text.value) then text else None
  }

  function Strings(items: seq<string>): seq<Val> {
    seq(|items|, i requires 0 <= i < |items| => Str(items[i]))
  }

  /** The array on the right of ANY or ALL: a braced literal is read element by element. */
  function ArrayOf(text: Option<string>, v: Val): Option<seq<Val>> {
    if text.Some? then Some(Strings(ArrayItems(text.value)))
    else if v.Arr? then Some(v.elems)
    else None
  }

  // ---------- Casts to the resolvable types ----------

  /** The first row of a table whose `column` is the name. */
  function FindOid(rows: seq<TableRow>, column: string, name: string): Val {
    if rows == [] then Unknown
    else if column in rows[0] && rows[0][column] == Str(name) then if "oid" in rows[0] then rows[0]["oid"] else Unknown
    else FindOid(rows[1..], column, name)
  }

  /** All of them. */
  function RowsNamed(rows: seq<TableRow>, column: string, name: string): seq<TableRow> {
    if rows == [] then []
    else
      (if column in rows[0] && rows[0][column] == Str(name) then [rows[0]] else []) + RowsNamed(rows[1..], column, name)
  }

  function TableRows(sem: Sem, path: seq<string>): seq<TableRow> {
    if path in sem.db then sem.db[path] else []
  }

  /** The catalog table and name column that resolve names of a type. */
  function CatalogOf(typeName: string): Option<(string, string)> {
    if typeName == "regnamespace" then Some(("pg_namespace", "nspname"))
    else if typeName == "regtype" then Some(("pg_type", "typname"))
    else if typeName == "regproc" then Some(("pg_proc", "proname"))
    else None
  }

  /** The parts `parse_ident` takes a name apart into. */
  function NameParts(sem: Sem, name: string): Option<seq<string>> {
    var parts := sem.apply(Function("parse_ident"), [sem.apply(Cast("TEXT"), [Str(name)])]);
    if parts.Arr? && forall v :: v in parts.elems ==> v.Str? then
      Some(seq(|parts.elems|, i requires 0 <= i < |parts.elems| => parts.elems[i].s))
    else None
  }

  function CurrentSchema(sem: Sem): Val {
    sem.apply(Function("current_schema"), [])
  }

  /** The first relation of that name in the namespace. */
  function FindRelation(rows: seq<TableRow>, namespace: Val, name: string): Val {
    if rows == [] || namespace.Unknown? then Unknown
    else if "relname" in rows[0] && rows[0]["relname"] == Str(name) &&
            "relnamespace" in rows[0] && rows[0]["relnamespace"] == namespace then
      if "oid" in rows[0] then rows[0]["oid"] else Unknown
    else FindRelation(rows[1..], namespace, name)
  }

  /** The schema a relation's name asks for: the current one if it has one part, the one it gives if it has two. */
  function AskedSchema(sem: Sem, parts: seq<string>): Val {
    if |parts| == 1 then CurrentSchema(sem) else if |parts| == 2 then Str(parts[0]) else Unknown
  }

  /** The first namespace of that name. */
  function AskedNamespace(sem: Sem, parts: seq<string>): Val {
    var schema := AskedSchema(sem, parts);
    if schema.Str? then FindOid(TableRows(sem, NAMESPACES), "nspname", schema.s) else Unknown
  }

  /** The relation that the last part names there. */
  function RelationOid(sem: Sem, parts: seq<string>): Val {
    if 1 <= |parts| <= 2 then FindRelation(TableRows(sem, CLASSES), AskedNamespace(sem, parts), parts[|parts| - 1])
    else Unknown
  }

  /** The oid a name of a resolvable type stands for; None where the name itself is malformed. */
  function LookedUp(sem: Sem, typeName: string, name: string): Option<Val> {
    if CatalogOf(typeName).Some? then
      var (table, column) := CatalogOf(typeName).value;
      Some(FindOid(TableRows(sem, ["pg_catalog", table]), column, name))
    else
      match NameParts(sem, name) case Some(parts) => Some(RelationOid(sem, parts)) case None => None
  }

  predicate NumericString(s: string) {
    s != [] && AllDigits(s)
  }

  /** A numeric string is the oid itself; any other string is looked up by name. */
  function CastValue(sem: Sem, dataType: string, v: Val): Val {
    var typeName := NormalizeTypeName(dataType);
    if v.Str? && Template(typeName).Some? then
      if NumericString(v.s) then Int(ParseNat(v.s))
      else (match LookedUp(sem, typeName, v.s) case Some(oid) => oid case None => sem.apply(Cast(dataType), [v]))
    else sem.apply(Cast(dataType), [v])
  }

  // ---------- Queries ----------

  function BindRow(path: seq<string>, alias: Option<string>, row: TableRow): Scope {
    var name := if alias.Some? then alias.value else if path == [] then "" else path[|path| - 1];
    (map c | c in row :: [c] := row[c]) + (map c | c in row :: [name, c] := row[c])
  }

  /** Every way to take one scope from each relation, on top of the enclosing scope. */
  function Cross(outer: Scope, relations: seq<Val>): seq<Scope>
    decreases |relations|, 0
  {
    if relations == [] then [outer]
    else
      var first := relations[0];
      if first.Scopes? then CrossWith(outer, first.scopes, relations[1..]) else []
  }

  function CrossWith(outer: Scope, scopes: seq<Scope>, relations: seq<Val>): seq<Scope>
    decreases |relations|, |scopes| + 1
  {
    if scopes == [] then []
    else Cross(outer + scopes[0], relations) + CrossWith(outer, scopes[1..], relations)
  }

  function Kept(scopes: seq<Scope>, conditions: seq<seq<Val>>): seq<Scope>
    requires |scopes| == |conditions|
  {
    if scopes == [] then []
    else
      (if forall v :: v in conditions[0] ==> v == Bool(true) then [scopes[0]] else []) +
      Kept(scopes[1..], conditions[1..])
  }

  function FirstRows(v: Val, limit: Val): Val {
    if v.Rows? && limit.Int? && 0 <= limit.n < |v.rows| then Rows(v.rows[..limit.n]) else v
  }

  /** A scalar subquery: NULL on no row, an error on several. */
  function Scalar(v: Val): Val {
    if v.Rows? && v.rows == [] then Unknown
    else if v.Rows? && |v.rows| == 1 && v.rows[0].Row? && |v.rows[0].cells| == 1 && v.rows[0].cells[0].Cell? then
      v.rows[0].cells[0].v
    else Error
  }

  /** The name of a column without an alias: that of the column it shows, through any COLLATE. */
  function Label(n: Node): Option<string> {
    match n.kind
    case Identifier(name) => Some(name)
    case CompoundIdentifier(parts) => if parts == [] then None else Some(parts[|parts| - 1])
    case Collate(_) => if |n.kids| == 1 then Label(n.kids[0]) else None
    case _ => None
  }

  /** The columns of a derived table's row, by name and by alias and name. */
  function BindCells(alias: Option<string>, cells: seq<Val>): Scope {
    if cells == [] then map[]
    else
      var first: Scope :=
        match cells[0]
        case Cell(Some(name), v) => (if alias.Some? then map[[alias.value, name] := v] else map[]) + map[[name] := v]
        case Row(inner) => BindCells(alias, inner)
        case _ => map[];
      first + BindCells(alias, cells[1..])
  }

  function BindDerived(alias: Option<string>, v: Val): seq<Scope> {
    if !v.Rows? then []
    else
      seq(|v.rows|, i requires 0 <= i < |v.rows| => if v.rows[i].Row? then BindCells(alias, v.rows[i].cells) else map[])
  }

  function Lookup(scope: Scope, key: seq<string>): Val {
    if key in scope then scope[key] else Error
  }

  function Limited(limited: bool, fetched: bool, vals: seq<Val>): Val {
    if vals == [] then Error
    else if limited && fetched && |vals| == 3 then FirstRows(FirstRows(vals[0], vals[1]), vals[2])
    else if limited != fetched && |vals| == 2 then FirstRows(vals[0], vals[1])
    else if !limited && !fetched && |vals| == 1 then vals[0]
    else Error
  }

  /** What a node other than SELECT makes of its children's values. */
  function Combine(sem: Sem, kind: Kind, text: Option<string>, name: Option<string>, vals: seq<Val>,
                   scope: Scope): Val {
    match kind
    case Value(Null) => Unknown
    case Value(Number(digits)) => if AllDigits(digits) then Int(ParseNat(digits)) else sem.apply(kind, [])
    case Value(Text(s)) => Str(s)
    case Value(Placeholder(id)) => sem.params(id)
    case Identifier(name) => Lookup(scope, [name])
    case CompoundIdentifier(parts) => Lookup(scope, parts)
    case AnyOp(op) =>
      if |vals| != 2 then Error
      else (match ArrayOf(text, vals[1]) case Some(elems) => AnyOf(sem, op, vals[0], elems) case None => Unknown)
    case AllOp(op) =>
      if |vals| != 2 then Error
      else (match ArrayOf(text, vals[1]) case Some(elems) => AllOf(sem, op, vals[0], elems) case None => Unknown)
    case Not => if |vals| == 1 then Not3(vals[0]) else Error
    case BinaryOp(op) => if |vals| == 2 then Binary(sem, op, vals[0], vals[1]) else Error
    case Function(name) =>
      if name == "array_contains" && |vals| == 2 then
        if vals[0].Arr? then Contains(vals[0].elems, vals[1]) else Unknown
      else sem.apply(kind, vals)
    case ArrayLiteral => Arr(vals)
    case Cast(dataType) => if |vals| == 1 then CastValue(sem, dataType, vals[0]) else Error
    case Collate(_) => if |vals| == 1 then vals[0] else Error
    case Subquery => if |vals| == 1 then Scalar(vals[0]) else Error
    case Query(limited, fetched) => Limited(limited, fetched, vals)
    case Projection => Row(vals)
    case Item(alias) => if |vals| == 1 then Cell(if alias.Some? then alias else name, vals[0]) else Error
    case Wildcard => sem.star(scope)
    case From => Scopes(Cross(scope, vals))
    case Table(path, alias) =>
      var rows := TableRows(sem, path);
      Scopes(seq(|rows|, i requires 0 <= i < |rows| => BindRow(path, alias, rows[i])))
    case Derived(alias) => if |vals| == 1 then Scopes(BindDerived(alias, vals[0])) else Error
    case _ => sem.apply(kind, vals)
  }

  function Eval(sem: Sem, n: Node, scope: Scope): Val
    decreases n, 1
  {
    if n.kind.Select? then
      if |n.kids| < 2 then Error
      else
        var from := Eval(sem, n.kids[1], scope);
        if !from.Scopes? then Error
        else
          var conditions :=
            seq(|from.scopes|, i requires 0 <= i < |from.scopes| => EvalAll(sem, n.kids[2..], from.scopes[i]));
          var kept := Kept(from.scopes, conditions);
          Rows(seq(|kept|, i requires 0 <= i < |kept| => Eval(sem, n.kids[0], kept[i])))
    else
      var text := if |n.kids| == 2 then ArrayText(sem, n.kids[1]) else None;
      var name := if |n.kids| == 1 then Label(n.kids[0]) else None;
      Combine(sem, n.kind, text, name, EvalAll(sem, n.kids, scope), scope)
  }

  function EvalAll(sem: Sem, ns: seq<Node>, scope: Scope): (r: seq<Val>)
    ensures |r| == |ns|
    decreases ns, 0
  {
    if ns == [] then [] else [Eval(sem, ns[0], scope)] + EvalAll(sem, ns[1..], scope)
  }
}
