/**
 The lookup behind `'name'::regclass`: two catalog tables and the parts of the name, joined and filtered,
 give the relation the name means.
 */
module SqlRegclass {
  import opened Wrappers
  import opened SqlAst
  import opened SqlStrings
  import opened Digits
  import opened SqlRules
  import opened SqlTemplates
  import opened SqlSemantics
  import opened SqlMeaning

  ghost predicate StandardConnectives(sem: Sem) {
    (forall a, b :: sem.binary("AND", a, b) == And3(a, b)) && (forall a, b :: sem.binary("OR", a, b) == Or3(a, b))
  }

  /** array_length along the first dimension: NULL for an empty array. */
  function ArrayLength(e: seq<Val>): Val { if e == [] then Unknown else Int(|e|) }

  ghost predicate StandardLength(sem: Sem) {
    forall e {:trigger sem.apply(Function("array_length"), [Arr(e), Int(1)])} ::
      sem.apply(Function("array_length"), [Arr(e), Int(1)]) == ArrayLength(e)
  }

  ghost predicate StandardIn(sem: Sem) {
    forall x {:trigger sem.apply(OtherExpr("in"), [x, Int(1), Int(2)])} ::
      sem.apply(OtherExpr("in"), [x, Int(1), Int(2)]) == Or3(Equal3(x, Int(1)), Equal3(x, Int(2)))
  }

  /** Arrays are counted from 1; outside them there is NULL. */
  function Element(e: seq<Val>, i: int): Val { if 1 <= i <= |e| then e[i - 1] else Unknown }

  ghost predicate StandardSubscript(sem: Sem) {
    forall e, i {:trigger sem.apply(OtherExpr("subscript"), [Arr(e), Int(i)])} ::
      sem.apply(OtherExpr("subscript"), [Arr(e), Int(i)]) == Element(e, i)
  }

  /** The functions and operators of the template mean what they mean in PostgreSQL. */
  ghost predicate StandardOperators(sem: Sem) {
    StandardConnectives(sem) && StandardLength(sem) && StandardIn(sem) && StandardSubscript(sem) &&
    CurrentSchema(sem).Str?
  }

  /** Every row has an oid and the other columns of a relation. */
  predicate Relations(rows: seq<TableRow>) {
    forall row :: row in rows ==> IsRelation(row)
  }

  predicate IsRelation(row: TableRow) {
    "oid" in row && row["oid"].Int? && "relname" in row && "relnamespace" in row
  }

  /** Every row has an oid and a name. */
  predicate Named(rows: seq<TableRow>, column: string) {
    forall row :: row in rows ==> IsNamed(row, column)
  }

  predicate IsNamed(row: TableRow, column: string) {
    "oid" in row && row["oid"].Int? && column in row
  }

  predicate IsNamespace(row: TableRow) {
    IsNamed(row, "nspname")
  }

  /** What a scalar subquery makes of the rows that a lookup finds: NULL, the oid, or an error. */
  function OneOid(rows: seq<TableRow>): Val {
    if rows == [] then Unknown
    else if |rows| == 1 && "oid" in rows[0] then rows[0]["oid"]
    else Error
  }

  /** The scopes show the rows' oids under the key. */
  predicate ShowOids(scopes: seq<Scope>, key: seq<string>, rows: seq<TableRow>) {
    |scopes| == |rows| && forall i :: 0 <= i < |rows| ==> "oid" in rows[i] && Lookup(scopes[i], key) == rows[i]["oid"]
  }

  lemma ShowConcat(xs: seq<Scope>, ys: seq<Scope>, key: seq<string>, rows: seq<TableRow>, more: seq<TableRow>)
    requires ShowOids(xs, key, rows) && ShowOids(ys, key, more)
    ensures ShowOids(xs + ys, key, rows + more)
  {
    hide Lookup;
    forall i | 0 <= i < |rows + more|
      ensures "oid" in (rows + more)[i] && Lookup((xs + ys)[i], key) == (rows + more)[i]["oid"]
    {
      if i < |rows| { assert Lookup(xs[i], key) == rows[i]["oid"]; }
      else { assert Lookup(ys[i - |rows|], key) == more[i - |rows|]["oid"]; }
    }
  }

  lemma ShowNone(key: seq<string>)
    ensures ShowOids([], key, [])
  {
  }

  lemma ShowOne(s: Scope, key: seq<string>, row: TableRow)
    requires "oid" in row && Lookup(s, key) == row["oid"]
    ensures ShowOids([s], key, [row])
  {
  }

  /** One row for each scope, showing what is under the key. */
  function OidCells(kept: seq<Scope>, key: seq<string>): seq<Val> {
    seq(|kept|, i requires 0 <= i < |kept| => Row([Cell(Some("oid"), Lookup(kept[i], key))]))
  }

  lemma ScalarOid(kept: seq<Scope>, key: seq<string>, rows: seq<TableRow>)
    requires ShowOids(kept, key, rows)
    ensures Scalar(Rows(OidCells(kept, key))) == OneOid(rows)
  {
    hide Lookup;
    if |rows| == 1 { assert Lookup(kept[0], key) == rows[0]["oid"]; }
  }

  // ---------- The instantiated template ----------

  lemma SubstituteLeaf(n: Node, operand: Node)
    requires n.kids == [] && !IsPlaceholder(n)
    ensures Substitute(n, operand) == n
  {
  }

  lemma SubstituteKids(n: Node, operand: Node, kids: seq<Node>)
    requires !IsPlaceholder(n) && |kids| == |n.kids|
    requires forall i :: 0 <= i < |kids| ==> Substitute(n.kids[i], operand) == kids[i]
    ensures Substitute(n, operand) == Node(n.kind, kids)
  {
    assert Substitute(n, operand).kids == kids;
  }

  lemma PlaceholderReplaced(id: string, operand: Node)
    ensures Substitute(Lit(Placeholder(id)), operand) == operand
  {
  }

  predicate HasPlaceholder(n: Node) {
    IsPlaceholder(n) || exists m :: m in n.kids && HasPlaceholder(m)
  }

  lemma {:induction false} NothingReplaced(n: Node, operand: Node)
    requires !HasPlaceholder(n)
    ensures Substitute(n, operand) == n
  {
    forall i | 0 <= i < |n.kids| ensures Substitute(n.kids[i], operand) == n.kids[i] {
      assert n.kids[i] in n.kids;
      NothingReplaced(n.kids[i], operand);
    }
    assert Substitute(n, operand).kids == n.kids;
  }

  // ---------- Values of the pieces ----------

  lemma EvalCompare(sem: Sem, left: Node, op: Operator, right: Node, s: Scope)
    ensures Eval(sem, Compare(left, op, right), s) == Binary(sem, op, Eval(sem, left, s), Eval(sem, right, s))
  {
    EvalPair(sem, left, right, s);
  }

  predicate Applied(kind: Kind) {
    kind.OtherExpr? || (kind.Function? && kind.name != "array_contains")
  }

  lemma EvalCall(sem: Sem, kind: Kind, kids: seq<Node>, s: Scope)
    requires Applied(kind)
    ensures Eval(sem, Node(kind, kids), s) == sem.apply(kind, EvalAll(sem, kids, s))
  {
  }

  lemma EvalCallPair(sem: Sem, kind: Kind, a: Node, b: Node, s: Scope)
    requires Applied(kind)
    ensures Eval(sem, Node(kind, [a, b]), s) == sem.apply(kind, [Eval(sem, a, s), Eval(sem, b, s)])
  {
    hide *;
    EvalCall(sem, kind, [a, b], s);
    EvalPair(sem, a, b, s);
  }

  lemma EvalCallTriple(sem: Sem, kind: Kind, a: Node, b: Node, c: Node, s: Scope)
    requires Applied(kind)
    ensures Eval(sem, Node(kind, [a, b, c]), s) == sem.apply(kind, [Eval(sem, a, s), Eval(sem, b, s), Eval(sem, c, s)])
  {
    hide *;
    EvalCall(sem, kind, [a, b, c], s);
    EvalTriple(sem, a, b, c, s);
  }

  lemma EvalNumber(sem: Sem, s: Scope)
    ensures Eval(sem, Lit(Number("1")), s) == Int(1) && Eval(sem, Lit(Number("2")), s) == Int(2)
  {
    assert ParseNat("1") == 1 && ParseNat("2") == 2 by {
      assert "1"[..0] == "" && "2"[..0] == "";
    }
  }

  // The operators at the values the template gives them.
  lemma LengthOf(sem: Sem, e: seq<Val>)
    requires StandardOperators(sem)
    ensures sem.apply(Function("array_length"), [Arr(e), Int(1)]) == ArrayLength(e)
  {
  }

  lemma InOf(sem: Sem, x: Val)
    requires StandardOperators(sem)
    ensures sem.apply(OtherExpr("in"), [x, Int(1), Int(2)]) == Or3(Equal3(x, Int(1)), Equal3(x, Int(2)))
  {
  }

  lemma SubscriptOf(sem: Sem, e: seq<Val>, i: int)
    requires StandardOperators(sem) && 1 <= i <= |e|
    ensures sem.apply(OtherExpr("subscript"), [Arr(e), Int(i)]) == e[i - 1]
  {
  }

  lemma BinaryOf(sem: Sem, a: Val, b: Val)
    ensures Binary(sem, OtherOperator("AND"), a, b) == sem.binary("AND", a, b)
    ensures Binary(sem, OtherOperator("OR"), a, b) == sem.binary("OR", a, b)
    ensures Binary(sem, Eq, a, b) == Equal3(a, b)
  {
    assert Symbol(OtherOperator("AND")) == "AND" && Symbol(OtherOperator("OR")) == "OR" && Symbol(Eq) == "=";
    hide Equal3, Not3, Symbol;
  }

  lemma StandardLogic(sem: Sem, a: Val, b: Val)
    requires StandardOperators(sem)
    ensures sem.binary("AND", a, b) == And3(a, b) && sem.binary("OR", a, b) == Or3(a, b)
  {
    hide And3, Or3, Equal3, CurrentSchema;
  }

  lemma LogicOf(sem: Sem, a: Val, b: Val)
    requires StandardOperators(sem)
    ensures Binary(sem, OtherOperator("AND"), a, b) == And3(a, b) && Binary(sem, OtherOperator("OR"), a, b) == Or3(a, b)
    ensures Binary(sem, Eq, a, b) == Equal3(a, b)
  {
    hide *;
    BinaryOf(sem, a, b);
    StandardLogic(sem, a, b);
  }

  /** The parts are in scope as an array. */
  predicate HasParts(s: Scope, parts: seq<string>) {
    Lookup(s, ["parts"]) == Arr(Strings(parts))
  }

  lemma EvalParts(sem: Sem, s: Scope, parts: seq<string>)
    requires HasParts(s, parts)
    ensures Eval(sem, Name("parts"), s) == Arr(Strings(parts)) && |Strings(parts)| == |parts|
    ensures forall i :: 0 <= i < |parts| ==> Strings(parts)[i] == Str(parts[i])
  {
  }

  lemma EvalLength(sem: Sem, s: Scope, parts: seq<string>)
    requires StandardOperators(sem) && HasParts(s, parts)
    ensures Eval(sem, LENGTH, s) == if parts == [] then Unknown else Int(|parts|)
  {
    LengthNode();
    hide *;
    EvalNumber(sem, s);
    EvalParts(sem, s, parts);
    EvalCallPair(sem, Function("array_length"), Name("parts"), Lit(Number("1")), s);
    LengthOf(sem, Strings(parts));
    StringsLength(parts);
  }

  lemma StringsLength(parts: seq<string>)
    ensures ArrayLength(Strings(parts)) == if parts == [] then Unknown else Int(|parts|)
  {
  }

  lemma LengthNode()
    ensures LENGTH == Node(Function("array_length"), [Name("parts"), Lit(Number("1"))]) &&
            Applied(Function("array_length"))
  {
  }

  /** `array_length(parts, 1) = n`, as a comparison of what the length is. */
  function CountIs(parts: seq<string>, n: int): Val {
    if parts == [] then Unknown else Bool(|parts| == n)
  }

  lemma CountOf(parts: seq<string>, n: int)
    ensures Equal3(if parts == [] then Unknown else Int(|parts|), Int(n)) == CountIs(parts, n)
  {
  }

  lemma EvalPartCount(sem: Sem, s: Scope, parts: seq<string>)
    requires StandardOperators(sem) && HasParts(s, parts)
    ensures Eval(sem, PartCount("1"), s) == CountIs(parts, 1) && Eval(sem, PartCount("2"), s) == CountIs(parts, 2)
  {
    assert PartCount("1") == Compare(LENGTH, Eq, Lit(Number("1"))) &&
           PartCount("2") == Compare(LENGTH, Eq, Lit(Number("2")));
    hide *;
    EvalLength(sem, s, parts);
    EvalNumber(sem, s);
    EvalCompare(sem, LENGTH, Eq, Lit(Number("1")), s);
    EvalCompare(sem, LENGTH, Eq, Lit(Number("2")), s);
    var length := Eval(sem, LENGTH, s);
    LogicOf(sem, length, Int(1));
    LogicOf(sem, length, Int(2));
    CountOf(parts, 1);
    CountOf(parts, 2);
  }

  lemma EvalPart(sem: Sem, s: Scope, parts: seq<string>)
    requires StandardOperators(sem) && HasParts(s, parts)
    ensures |parts| >= 1 ==> Eval(sem, Part("1"), s) == Str(parts[0])
    ensures |parts| >= 2 ==> Eval(sem, Part("2"), s) == Str(parts[1])
  {
    assert Part("1") == Node(OtherExpr("subscript"), [Name("parts"), Lit(Number("1"))]);
    assert Part("2") == Node(OtherExpr("subscript"), [Name("parts"), Lit(Number("2"))]);
    assert Applied(OtherExpr("subscript"));
    hide *;
    EvalNumber(sem, s);
    EvalParts(sem, s, parts);
    EvalCallPair(sem, OtherExpr("subscript"), Name("parts"), Lit(Number("1")), s);
    EvalCallPair(sem, OtherExpr("subscript"), Name("parts"), Lit(Number("2")), s);
    if |parts| >= 1 { SubscriptOf(sem, Strings(parts), 1); }
    if |parts| >= 2 { SubscriptOf(sem, Strings(parts), 2); }
  }

  lemma EvalArity(sem: Sem, s: Scope, parts: seq<string>)
    requires StandardOperators(sem) && HasParts(s, parts)
    ensures Eval(sem, REGCLASS_ARITY, s) == Or3(CountIs(parts, 1), CountIs(parts, 2))
  {
    assert REGCLASS_ARITY == Node(OtherExpr("in"), [LENGTH, Lit(Number("1")), Lit(Number("2"))]) &&
           Applied(OtherExpr("in"));
    hide *;
    EvalLength(sem, s, parts);
    EvalNumber(sem, s);
    EvalCallTriple(sem, OtherExpr("in"), LENGTH, Lit(Number("1")), Lit(Number("2")), s);
    InOf(sem, Eval(sem, LENGTH, s));
    CountOf(parts, 1);
    CountOf(parts, 2);
  }

  lemma EvalColumn(sem: Sem, table: string, name: string, s: Scope)
    ensures Eval(sem, Column(table, name), s) == Lookup(s, [table, name])
  {
  }

  lemma EvalAnd(sem: Sem, left: Node, right: Node, s: Scope)
    requires StandardOperators(sem)
    ensures Eval(sem, And(left, right), s) == And3(Eval(sem, left, s), Eval(sem, right, s))
  {
    assert And(left, right) == Compare(left, OtherOperator("AND"), right);
    hide *;
    EvalCompare(sem, left, OtherOperator("AND"), right, s);
    LogicOf(sem, Eval(sem, left, s), Eval(sem, right, s));
  }

  lemma EvalEq(sem: Sem, left: Node, right: Node, s: Scope)
    ensures Eval(sem, Compare(left, Eq, right), s) == Equal3(Eval(sem, left, s), Eval(sem, right, s))
  {
    EvalCompare(sem, left, Eq, right, s);
    hide Eval;
  }

  lemma EvalCurrentSchema(sem: Sem, s: Scope)
    ensures Eval(sem, Call("current_schema", []), s) == CurrentSchema(sem)
  {
    EvalCall(sem, Function("current_schema"), [], s);
  }

  /** The conditions for a bare name and for a qualified one. */
  lemma EvalBare(sem: Sem, s: Scope, parts: seq<string>)
    requires StandardOperators(sem) && HasParts(s, parts)
    ensures Eval(sem, REGCLASS_BARE, s) ==
            And3(CountIs(parts, 1), And3(Equal3(Lookup(s, ["n", "nspname"]), CurrentSchema(sem)),
                                         Equal3(Lookup(s, ["c", "relname"]), Eval(sem, Part("1"), s))))
  {
    var current, name :=
      Compare(Column("n", "nspname"), Eq, Call("current_schema", [])), Compare(Column("c", "relname"), Eq, Part("1"));
    assert REGCLASS_BARE == And(PartCount("1"), And(current, name));
    hide *;
    EvalCurrentSchema(sem, s);
    EvalPartCount(sem, s, parts);
    EvalColumn(sem, "n", "nspname", s);
    EvalColumn(sem, "c", "relname", s);
    EvalEq(sem, Column("n", "nspname"), Call("current_schema", []), s);
    EvalEq(sem, Column("c", "relname"), Part("1"), s);
    EvalAnd(sem, current, name, s);
    EvalAnd(sem, PartCount("1"), And(current, name), s);
  }

  lemma EvalQualified(sem: Sem, s: Scope, parts: seq<string>)
    requires StandardOperators(sem) && HasParts(s, parts)
    ensures Eval(sem, REGCLASS_QUALIFIED, s) ==
            And3(CountIs(parts, 2), And3(Equal3(Lookup(s, ["n", "nspname"]), Eval(sem, Part("1"), s)),
                                         Equal3(Lookup(s, ["c", "relname"]), Eval(sem, Part("2"), s))))
  {
    var schema, name := Compare(Column("n", "nspname"), Eq, Part("1")), Compare(Column("c", "relname"), Eq, Part("2"));
    assert REGCLASS_QUALIFIED == And(PartCount("2"), And(schema, name));
    hide *;
    EvalPartCount(sem, s, parts);
    EvalColumn(sem, "n", "nspname", s);
    EvalColumn(sem, "c", "relname", s);
    EvalEq(sem, Column("n", "nspname"), Part("1"), s);
    EvalEq(sem, Column("c", "relname"), Part("2"), s);
    EvalAnd(sem, schema, name, s);
    EvalAnd(sem, PartCount("2"), And(schema, name), s);
  }

  /** The namespace and the relation are the ones asked for. */
  predicate Asked(sem: Sem, nspname: Val, relname: Val, parts: seq<string>) {
    1 <= |parts| <= 2 && Equal3(nspname, AskedSchema(sem, parts)) == Bool(true) &&
    Equal3(relname, Str(parts[|parts| - 1])) == Bool(true)
  }

  /** The logic of the condition, on the values of its parts. */
  lemma AskedExactly(sem: Sem, nspname: Val, relname: Val, parts: seq<string>, first: Val, second: Val)
    requires (|parts| >= 1 ==> first == Str(parts[0])) && (|parts| >= 2 ==> second == Str(parts[1]))
    ensures And3(Or3(CountIs(parts, 1), CountIs(parts, 2)),
                 Or3(And3(CountIs(parts, 1), And3(Equal3(nspname, CurrentSchema(sem)), Equal3(relname, first))),
                     And3(CountIs(parts, 2), And3(Equal3(nspname, first), Equal3(relname, second))))) == Bool(true) <==>
            Asked(sem, nspname, relname, parts)
  {
  }

  lemma EvalNamed(sem: Sem, s: Scope, parts: seq<string>)
    requires StandardOperators(sem) && HasParts(s, parts)
    ensures Eval(sem, NAMED, s) == Bool(true) <==>
            Asked(sem, Lookup(s, ["n", "nspname"]), Lookup(s, ["c", "relname"]), parts)
  {
    var either := Compare(REGCLASS_BARE, OtherOperator("OR"), REGCLASS_QUALIFIED);
    assert NAMED == And(REGCLASS_ARITY, either);
    hide *;
    EvalArity(sem, s, parts);
    EvalBare(sem, s, parts);
    EvalQualified(sem, s, parts);
    EvalPart(sem, s, parts);
    EvalCompare(sem, REGCLASS_BARE, OtherOperator("OR"), REGCLASS_QUALIFIED, s);
    LogicOf(sem, Eval(sem, REGCLASS_BARE, s), Eval(sem, REGCLASS_QUALIFIED, s));
    EvalAnd(sem, REGCLASS_ARITY, either, s);
    AskedExactly(sem, Lookup(s, ["n", "nspname"]), Lookup(s, ["c", "relname"]), parts, Eval(sem, Part("1"), s),
      Eval(sem, Part("2"), s));
  }

  /** The row of pg_class and the row of pg_namespace belong together and are the ones asked for. */
  predicate Matches(sem: Sem, s: Scope, parts: seq<string>) {
    Equal3(Lookup(s, ["c", "relnamespace"]), Lookup(s, ["n", "oid"])) == Bool(true) &&
    Asked(sem, Lookup(s, ["n", "nspname"]), Lookup(s, ["c", "relname"]), parts)
  }

  predicate AllTrue(vs: seq<Val>) {
    forall v :: v in vs ==> v == Bool(true)
  }

  lemma AllTruePair(a: Val, b: Val)
    ensures AllTrue([a, b]) <==> a == Bool(true) && b == Bool(true)
  {
    assert a in [a, b] && b in [a, b];
  }

  /** The template's conditions hold exactly for the match. */
  lemma EvalConditions(sem: Sem, s: Scope, parts: seq<string>)
    requires StandardOperators(sem) && HasParts(s, parts)
    ensures AllTrue(EvalAll(sem, [JOINED, NAMED], s)) <==> Matches(sem, s, parts)
  {
    assert Matches(sem, s, parts) <==>
           Equal3(Lookup(s, ["c", "relnamespace"]), Lookup(s, ["n", "oid"])) == Bool(true) &&
           Asked(sem, Lookup(s, ["n", "nspname"]), Lookup(s, ["c", "relname"]), parts);
    assert JOINED == Compare(Column("c", "relnamespace"), Eq, Column("n", "oid"));
    hide *;
    EvalPair(sem, JOINED, NAMED, s);
    AllTruePair(Eval(sem, JOINED, s), Eval(sem, NAMED, s));
    EvalColumn(sem, "c", "relnamespace", s);
    EvalColumn(sem, "n", "oid", s);
    EvalEq(sem, Column("c", "relnamespace"), Column("n", "oid"), s);
    EvalNamed(sem, s, parts);
  }

  // ---------- The rows the join keeps ----------

  function PartsScope(parts: seq<string>): Scope {
    map[["parts"] := Arr(Strings(parts))]
  }

  /** A row of pg_class, a row of pg_namespace and the parts, on top of the enclosing scope. */
  function Joined(outer: Scope, rel: TableRow, ns: TableRow, parts: seq<string>): Scope {
    outer + BindRow(CLASSES, Some("c"), rel) + BindRow(NAMESPACES, Some("n"), ns) + PartsScope(parts)
  }

  lemma BoundColumn(path: seq<string>, alias: string, row: TableRow, column: string)
    requires column in row
    ensures var s := BindRow(path, Some(alias), row); [alias, column] in s && s[[alias, column]] == row[column]
    ensures forall key :: key in BindRow(path, Some(alias), row) ==> |key| == 1 || (|key| == 2 && key[0] == alias)
  {
  }

  lemma LookupUnder(outer: Scope, a: Scope, b: Scope, c: Scope, key: seq<string>)
    requires key !in c
    ensures key in b ==> Lookup(outer + a + b + c, key) == b[key]
    ensures key in a && key !in b ==> Lookup(outer + a + b + c, key) == a[key]
  {
  }

  lemma RelationColumn(outer: Scope, rel: TableRow, ns: TableRow, parts: seq<string>, column: string)
    requires column in rel
    ensures Lookup(Joined(outer, rel, ns, parts), ["c", column]) == rel[column]
  {
    var a, b, key := BindRow(CLASSES, Some("c"), rel), BindRow(NAMESPACES, Some("n"), ns), ["c", column];
    BoundColumn(CLASSES, "c", rel, column);
    NotBound(NAMESPACES, "n", ns, key);
    assert |key| == 2 && key !in PartsScope(parts);
    hide BindRow, PartsScope, Lookup;
    LookupUnder(outer, a, b, PartsScope(parts), key);
  }

  lemma NotBound(path: seq<string>, alias: string, row: TableRow, key: seq<string>)
    requires |key| == 2 && key[0] != alias
    ensures key !in BindRow(path, Some(alias), row)
  {
  }

  lemma NamespaceColumn(outer: Scope, rel: TableRow, ns: TableRow, parts: seq<string>, column: string)
    requires column in ns
    ensures Lookup(Joined(outer, rel, ns, parts), ["n", column]) == ns[column]
  {
    var a, b, key := BindRow(CLASSES, Some("c"), rel), BindRow(NAMESPACES, Some("n"), ns), ["n", column];
    BoundColumn(NAMESPACES, "n", ns, column);
    assert |key| == 2 && key !in PartsScope(parts);
    hide BindRow, PartsScope, Lookup;
    LookupUnder(outer, a, b, PartsScope(parts), key);
  }

  lemma JoinedColumns(outer: Scope, rel: TableRow, ns: TableRow, parts: seq<string>)
    requires IsRelation(rel) && IsNamespace(ns)
    ensures var s := Joined(outer, rel, ns, parts);
            HasParts(s, parts) && Lookup(s, ["c", "oid"]) == rel["oid"] &&
            Lookup(s, ["c", "relname"]) == rel["relname"] && Lookup(s, ["c", "relnamespace"]) == rel["relnamespace"] &&
            Lookup(s, ["n", "oid"]) == ns["oid"] && Lookup(s, ["n", "nspname"]) == ns["nspname"]
  {
    PartsInScope(outer, rel, ns, parts);
    assert "oid" in rel && "relname" in rel && "relnamespace" in rel && "oid" in ns && "nspname" in ns;
    hide *;
    RelationColumn(outer, rel, ns, parts, "oid");
    RelationColumn(outer, rel, ns, parts, "relname");
    RelationColumn(outer, rel, ns, parts, "relnamespace");
    NamespaceColumn(outer, rel, ns, parts, "oid");
    NamespaceColumn(outer, rel, ns, parts, "nspname");
  }

  lemma PartsInScope(outer: Scope, rel: TableRow, ns: TableRow, parts: seq<string>)
    ensures HasParts(Joined(outer, rel, ns, parts), parts)
  {
    hide BindRow, Strings;
  }

  function BindAll(path: seq<string>, alias: string, rows: seq<TableRow>): seq<Scope> {
    seq(|rows|, i requires 0 <= i < |rows| => BindRow(path, Some(alias), rows[i]))
  }

  /** The scopes in which the template's conditions hold. */
  function Passing(sem: Sem, scopes: seq<Scope>): seq<Scope> {
    if scopes == [] then []
    else (if AllTrue(EvalAll(sem, [JOINED, NAMED], scopes[0])) then [scopes[0]] else []) + Passing(sem, scopes[1..])
  }

  lemma PassingStep(sem: Sem, scopes: seq<Scope>)
    ensures if scopes == [] then Passing(sem, scopes) == []
            else Passing(sem, scopes) ==
                 (if AllTrue(EvalAll(sem, [JOINED, NAMED], scopes[0])) then [scopes[0]] else []) +
                   Passing(sem, scopes[1..])
  {
    hide EvalAll, AllTrue;
  }

  lemma {:induction false} PassingConcat(sem: Sem, xs: seq<Scope>, ys: seq<Scope>)
    ensures Passing(sem, xs + ys) == Passing(sem, xs) + Passing(sem, ys)
  {
    hide *;
    PassingStep(sem, xs);
    if xs == [] {
      assert xs + ys == ys && [] + Passing(sem, ys) == Passing(sem, ys);
    } else {
      PassingStep(sem, xs + ys);
      assert (xs + ys)[1..] == xs[1..] + ys && (xs + ys)[0] == xs[0];
      PassingConcat(sem, xs[1..], ys);
    }
  }

  function Conditions(sem: Sem, scopes: seq<Scope>): seq<seq<Val>> {
    seq(|scopes|, i requires 0 <= i < |scopes| => EvalAll(sem, [JOINED, NAMED], scopes[i]))
  }

  lemma ConditionsStep(sem: Sem, scopes: seq<Scope>)
    requires scopes != []
    ensures |Conditions(sem, scopes)| == |scopes| &&
            Conditions(sem, scopes)[0] == EvalAll(sem, [JOINED, NAMED], scopes[0])
    ensures Conditions(sem, scopes)[1..] == Conditions(sem, scopes[1..])
  {
    hide EvalAll;
  }

  lemma KeptHead(scopes: seq<Scope>, conditions: seq<seq<Val>>)
    requires |scopes| == |conditions| > 0
    ensures Kept(scopes, conditions) ==
            (if AllTrue(conditions[0]) then [scopes[0]] else []) + Kept(scopes[1..], conditions[1..])
  {
  }

  lemma {:induction false} PassingIsKept(sem: Sem, scopes: seq<Scope>)
    ensures |Conditions(sem, scopes)| == |scopes| && Kept(scopes, Conditions(sem, scopes)) == Passing(sem, scopes)
  {
    if scopes == [] {
      assert Conditions(sem, scopes) == [];
    } else {
      hide *;
      ConditionsStep(sem, scopes);
      KeptHead(scopes, Conditions(sem, scopes));
      PassingStep(sem, scopes);
      PassingIsKept(sem, scopes[1..]);
    }
  }

  lemma PassingOne(sem: Sem, outer: Scope, rel: TableRow, ns: TableRow, parts: seq<string>)
    requires StandardOperators(sem) && IsRelation(rel) && IsNamespace(ns)
    ensures var s := Joined(outer, rel, ns, parts);
            Passing(sem, [s]) == if Pairs(sem, rel, ns, parts) then [s] else []
  {
    var s := Joined(outer, rel, ns, parts);
    hide *;
    JoinedColumns(outer, rel, ns, parts);
    EvalConditions(sem, s, parts);
    MatchIsPair(sem, s, rel, ns, parts);
    PassingStep(sem, [s]);
    PassingStep(sem, []);
    assert [s][1..] == [] && [s] + [] == [s];
  }

  lemma MatchIsPair(sem: Sem, s: Scope, rel: TableRow, ns: TableRow, parts: seq<string>)
    requires IsRelation(rel) && IsNamespace(ns)
    requires Lookup(s, ["c", "relname"]) == rel["relname"] && Lookup(s, ["c", "relnamespace"]) == rel["relnamespace"]
    requires Lookup(s, ["n", "oid"]) == ns["oid"] && Lookup(s, ["n", "nspname"]) == ns["nspname"]
    ensures Matches(sem, s, parts) <==> Pairs(sem, rel, ns, parts)
  {
    hide Equal3, Asked, Lookup;
  }

  predicate Pairs(sem: Sem, rel: TableRow, ns: TableRow, parts: seq<string>)
    requires IsRelation(rel) && IsNamespace(ns)
  {
    Equal3(rel["relnamespace"], ns["oid"]) == Bool(true) && Asked(sem, ns["nspname"], rel["relname"], parts)
  }

  lemma LastRelation(outer: Scope, s: Scope)
    ensures Cross(outer, [Scopes([s])]) == [outer + s]
  {
    assert [Scopes([s])][1..] == [] && [s][1..] == [];
    assert Cross(outer + s, []) == [outer + s] && CrossWith(outer, [], []) == [];
    assert CrossWith(outer, [s], []) == [outer + s] + [];
  }

  lemma EqualExactly(a: Val, b: Val)
    ensures Equal3(a, b) == Bool(true) <==> a == b && !a.Unknown?
  {
  }

  lemma SchemaKnown(sem: Sem, parts: seq<string>)
    requires StandardOperators(sem)
    ensures 1 <= |parts| <= 2 ==> AskedSchema(sem, parts).Str?
  {
  }

  /** The two row conditions, as equations. */
  lemma PairValues(sem: Sem, rel: TableRow, ns: TableRow, parts: seq<string>)
    requires StandardOperators(sem) && IsRelation(rel) && IsNamespace(ns)
    ensures Pairs(sem, rel, ns, parts) <==>
            1 <= |parts| <= 2 && rel["relname"] == Str(parts[|parts| - 1]) && !rel["relnamespace"].Unknown? &&
            ns["nspname"] == AskedSchema(sem, parts) && rel["relnamespace"] == ns["oid"]
  {
    SchemaKnown(sem, parts);
    EqualExactly(rel["relnamespace"], ns["oid"]);
    EqualExactly(ns["nspname"], AskedSchema(sem, parts));
    if 1 <= |parts| <= 2 { EqualExactly(rel["relname"], Str(parts[|parts| - 1])); }
    hide AskedSchema, Equal3, StandardOperators;
  }

  lemma CrossStep(outer: Scope, scopes: seq<Scope>, relations: seq<Val>)
    requires scopes != []
    ensures CrossWith(outer, scopes, relations) ==
            Cross(outer + scopes[0], relations) + CrossWith(outer, scopes[1..], relations)
  {
  }

  lemma CrossNone(sem: Sem, outer: Scope, relations: seq<Val>)
    ensures Passing(sem, CrossWith(outer, [], relations)) == []
  {
    PassingStep(sem, []);
  }

  lemma BindStep(path: seq<string>, alias: string, rows: seq<TableRow>)
    ensures if rows == [] then BindAll(path, alias, rows) == []
            else BindAll(path, alias, rows) != [] &&
                 BindAll(path, alias, rows)[0] == BindRow(path, Some(alias), rows[0]) &&
                 BindAll(path, alias, rows)[1..] == BindAll(path, alias, rows[1..])
  {
    hide BindRow;
  }

  /** One relation with every namespace. */
  function RelationScopes(outer: Scope, rel: TableRow, namespaces: seq<TableRow>,
                          parts: seq<string>): seq<Scope> {
    CrossWith(outer +
        BindRow(CLASSES, Some("c"), rel), BindAll(NAMESPACES, "n", namespaces), [Scopes([PartsScope(parts)])])
  }

  lemma RelationScopesStep(outer: Scope, rel: TableRow, namespaces: seq<TableRow>, parts: seq<string>)
    requires namespaces != []
    ensures RelationScopes(outer, rel, namespaces, parts) ==
            [Joined(outer, rel, namespaces[0], parts)] + RelationScopes(outer, rel, namespaces[1..], parts)
  {
    var own, last := outer + BindRow(CLASSES, Some("c"), rel), [Scopes([PartsScope(parts)])];
    var all := BindAll(NAMESPACES, "n", namespaces);
    hide BindAll, BindRow, CrossWith, Cross, PartsScope;
    BindStep(NAMESPACES, "n", namespaces);
    CrossStep(own, all, last);
    LastRelation(own + all[0], PartsScope(parts));
  }

  lemma RelationScopesNone(sem: Sem, outer: Scope, rel: TableRow, parts: seq<string>)
    requires IsRelation(rel)
    ensures Passing(sem, RelationScopes(outer, rel, [], parts)) == [] && AskedWith(sem, rel, [], parts) == []
  {
    BindStep(NAMESPACES, "n", []);
    CrossNone(sem, outer + BindRow(CLASSES, Some("c"), rel), [Scopes([PartsScope(parts)])]);
    hide CrossWith, BindAll, BindRow, Passing;
  }

  /** The relation, once for each namespace with which it is the one asked for. */
  function AskedWith(sem: Sem, rel: TableRow, namespaces: seq<TableRow>, parts: seq<string>): seq<TableRow> {
    if namespaces == [] || !IsRelation(rel) then []
    else
      (if IsNamespace(namespaces[0]) && Pairs(sem, rel, namespaces[0], parts) then [rel] else []) +
      AskedWith(sem, rel, namespaces[1..], parts)
  }

  /** The relations asked for, in the order of the join. */
  function AskedRows(sem: Sem, rels: seq<TableRow>, namespaces: seq<TableRow>, parts: seq<string>): seq<TableRow> {
    if rels == [] then []
    else AskedWith(sem, rels[0], namespaces, parts) + AskedRows(sem, rels[1..], namespaces, parts)
  }

  lemma AskedWithStep(sem: Sem, rel: TableRow, namespaces: seq<TableRow>, parts: seq<string>)
    requires IsRelation(rel) && namespaces != [] && Named(namespaces, "nspname")
    ensures IsNamespace(namespaces[0]) && Named(namespaces[1..], "nspname")
    ensures AskedWith(sem, rel, namespaces, parts) ==
            (if Pairs(sem, rel, namespaces[0], parts) then [rel] else []) +
            AskedWith(sem, rel, namespaces[1..], parts)
  {
    assert namespaces[0] in namespaces;
    hide Pairs;
  }

  /** The scopes of one relation that pass show its oid, once for each namespace of its own that is asked for. */
  lemma {:induction false} OneRelation(sem: Sem, outer: Scope, rel: TableRow, namespaces: seq<TableRow>,
                                       parts: seq<string>)
    requires StandardOperators(sem) && IsRelation(rel) && Named(namespaces, "nspname")
    ensures ShowOids(Passing(sem, RelationScopes(outer, rel, namespaces, parts)), ["c", "oid"],
                     AskedWith(sem, rel, namespaces, parts))
    decreases |namespaces|
  {
    assert "oid" in rel;
    hide *;
    if namespaces == [] {
      RelationScopesNone(sem, outer, rel, parts);
      ShowNone(["c", "oid"]);
    } else {
      var s := Joined(outer, rel, namespaces[0], parts);
      AskedWithStep(sem, rel, namespaces, parts);
      RelationScopesStep(outer, rel, namespaces, parts);
      PassingConcat(sem, [s], RelationScopes(outer, rel, namespaces[1..], parts));
      PassingOne(sem, outer, rel, namespaces[0], parts);
      JoinedColumns(outer, rel, namespaces[0], parts);
      OneRelation(sem, outer, rel, namespaces[1..], parts);
      ShowNone(["c", "oid"]);
      ShowOne(s, ["c", "oid"], rel);
      var paired := Pairs(sem, rel, namespaces[0], parts);
      ShowConcat(if paired then [s] else [], Passing(sem, RelationScopes(outer, rel, namespaces[1..], parts)),
                 ["c", "oid"], if paired then [rel] else [], AskedWith(sem, rel, namespaces[1..], parts));
    }
  }

  /** Every relation with every namespace. */
  function AllScopes(outer: Scope, rels: seq<TableRow>, namespaces: seq<TableRow>,
                     parts: seq<string>): seq<Scope> {
    CrossWith(outer, BindAll(CLASSES, "c", rels),
      [Scopes(BindAll(NAMESPACES, "n", namespaces)), Scopes([PartsScope(parts)])])
  }

  lemma AllScopesStep(outer: Scope, rels: seq<TableRow>, namespaces: seq<TableRow>, parts: seq<string>)
    requires rels != []
    ensures AllScopes(outer, rels, namespaces, parts) ==
            RelationScopes(outer, rels[0], namespaces, parts) + AllScopes(outer, rels[1..], namespaces, parts)
  {
    var nss, last := BindAll(NAMESPACES, "n", namespaces), [Scopes([PartsScope(parts)])];
    var all, relations := BindAll(CLASSES, "c", rels), [Scopes(nss), Scopes([PartsScope(parts)])];
    assert relations[1..] == last && Cross(outer + BindRow(CLASSES, Some("c"), rels[0]), relations)
        == CrossWith(outer + BindRow(CLASSES, Some("c"), rels[0]), nss, last);
    hide BindAll, BindRow, CrossWith, Cross, PartsScope;
    BindStep(CLASSES, "c", rels);
    CrossStep(outer, all, relations);
  }

  lemma AllScopesNone(sem: Sem, outer: Scope, namespaces: seq<TableRow>, parts: seq<string>)
    ensures Passing(sem, AllScopes(outer, [], namespaces, parts)) == []
  {
    BindStep(CLASSES, "c", []);
    CrossNone(sem, outer, [Scopes(BindAll(NAMESPACES, "n", namespaces)), Scopes([PartsScope(parts)])]);
    hide CrossWith, BindAll, Passing;
  }

  lemma AskedRowsStep(sem: Sem, rels: seq<TableRow>, namespaces: seq<TableRow>, parts: seq<string>)
    requires rels != [] && Relations(rels)
    ensures IsRelation(rels[0]) && Relations(rels[1..])
    ensures AskedRows(sem, rels, namespaces, parts) ==
            AskedWith(sem, rels[0], namespaces, parts) + AskedRows(sem, rels[1..], namespaces, parts)
  {
    assert rels[0] in rels;
    hide AskedWith;
  }

  lemma AskedRowsNone(sem: Sem, namespaces: seq<TableRow>, parts: seq<string>)
    ensures AskedRows(sem, [], namespaces, parts) == []
  {
  }

  /** Over all relations the scopes that pass show the oids of the relations asked for. */
  lemma {:induction false} AllRelations(sem: Sem, outer: Scope, rels: seq<TableRow>, namespaces: seq<TableRow>,
                                        parts: seq<string>)
    requires StandardOperators(sem) && Relations(rels) && Named(namespaces, "nspname")
    ensures ShowOids(Passing(sem, AllScopes(outer, rels, namespaces, parts)), ["c", "oid"],
                     AskedRows(sem, rels, namespaces, parts))
    decreases |rels|
  {
    hide *;
    if rels == [] {
      AllScopesNone(sem, outer, namespaces, parts);
      AskedRowsNone(sem, namespaces, parts);
      ShowNone(["c", "oid"]);
    } else {
      AllScopesStep(outer, rels, namespaces, parts);
      AskedRowsStep(sem, rels, namespaces, parts);
      var first := RelationScopes(outer, rels[0], namespaces, parts);
      var rest := AllScopes(outer, rels[1..], namespaces, parts);
      PassingConcat(sem, first, rest);
      OneRelation(sem, outer, rels[0], namespaces, parts);
      AllRelations(sem, outer, rels[1..], namespaces, parts);
      ShowConcat(Passing(sem, first), Passing(sem, rest), ["c", "oid"],
                 AskedWith(sem, rels[0], namespaces, parts), AskedRows(sem, rels[1..], namespaces, parts));
    }
  }

  // ---------- The query ----------

  lemma TextIsPlain()
    ensures Template(NormalizeTypeName("TEXT")).None?
  {
    assert |NormalizeTypeName("TEXT")| == 4 by { assert Lower("TEXT")[0] == 't'; }
  }

  lemma EvalTextCast(sem: Sem, operand: Node, name: string, s: Scope)
    requires Eval(sem, operand, s) == Str(name)
    ensures Eval(sem, Node(Cast("TEXT"), [operand]), s) == sem.apply(Cast("TEXT"), [Str(name)])
  {
    TextIsPlain();
    EvalPair(sem, operand, operand, s);
    hide NormalizeTypeName, Template;
  }

  lemma PartsArray(sem: Sem, name: string, parts: seq<string>)
    requires NameParts(sem, name) == Some(parts)
    ensures sem.apply(Function("parse_ident"), [sem.apply(Cast("TEXT"), [Str(name)])]) == Arr(Strings(parts))
  {
    var v := sem.apply(Function("parse_ident"), [sem.apply(Cast("TEXT"), [Str(name)])]);
    assert |v.elems| == |parts|;
    forall i | 0 <= i < |parts| ensures v.elems[i] == Str(parts[i]) { assert v.elems[i] in v.elems; }
    assert v.elems == Strings(parts);
  }

  lemma EvalPartsItem(sem: Sem, operand: Node, name: string, parts: seq<string>, s: Scope)
    requires Eval(sem, operand, s) == Str(name) && NameParts(sem, name) == Some(parts)
    ensures var cast := Node(Cast("TEXT"), [operand]); var item :=
            Node(Item(Some("parts")), [Call("parse_ident", [cast])]);
            Eval(sem, Node(Projection, [item]), s) == Row([Cell(Some("parts"), Arr(Strings(parts)))])
  {
    var cast := Node(Cast("TEXT"), [operand]);
    var call := Call("parse_ident", [cast]);
    var item := Node(Item(Some("parts")), [call]);
    hide NameParts;
    assert call == Node(Function("parse_ident"), [cast]);
    hide *;
    EvalTextCast(sem, operand, name, s);
    PartsArray(sem, name, parts);
    EvalPair(sem, cast, cast, s);
    EvalPair(sem, item, item, s);
    EvalCall(sem, Function("parse_ident"), [cast], s);
    EvalNamedItem(sem, "parts", call, s);
    ProjectionRow(sem, [item], s);
  }

  lemma EvalNamedItem(sem: Sem, alias: string, value: Node, s: Scope)
    ensures Eval(sem, Node(Item(Some(alias)), [value]), s) == Cell(Some(alias), Eval(sem, value, s))
  {
    EvalPair(sem, value, value, s);
  }

  lemma ProjectionRow(sem: Sem, items: seq<Node>, s: Scope)
    ensures Eval(sem, Node(Projection, items), s) == Row(EvalAll(sem, items, s))
  {
  }

  /** A SELECT without relations gives one row. */
  lemma EvalBareSelect(sem: Sem, projection: Node, s: Scope)
    ensures Eval(sem, Node(Select, [projection, Node(From, [])]), s) == Rows([Eval(sem, projection, s)])
  {
    var select := Node(Select, [projection, Node(From, [])]);
    assert Eval(sem, select.kids[1], s) == Scopes([s]);
    assert select.kids[2..] == [] && EvalAll(sem, [], s) == [];
    var conditions := seq(1, i requires 0 <= i < 1 => EvalAll(sem, select.kids[2..], [s][i]));
    assert Kept([s], conditions) == [s] by { assert [s][1..] == [] && Kept([], conditions[1..]) == []; }
    assert Eval(sem, select, s) == Rows(seq(1, i requires 0 <= i < 1 => Eval(sem, projection, [s][i])));
  }

  lemma EvalDerived(sem: Sem, operand: Node, name: string, parts: seq<string>, s: Scope)
    requires Eval(sem, operand, s) == Str(name) && NameParts(sem, name) == Some(parts)
    ensures Eval(sem, Node(Derived(None), [PartsQuery(operand)]), s) == Scopes([PartsScope(parts)])
  {
    var query := PartsQuery(operand);
    var select := query.kids[0];
    PartsQueryShape(operand);
    hide *;
    EvalPartsItem(sem, operand, name, parts, s);
    EvalBareSelect(sem, select.kids[0], s);
    EvalPlainQuery(sem, select, s);
    EvalDerivedOf(sem, query, s);
    DerivedScope(parts);
  }

  lemma PartsQueryShape(operand: Node)
    ensures var query := PartsQuery(operand);
            |query.kids| == 1 && |query.kids[0].kids| == 2 && query == Node(Query(false, false), [query.kids[0]]) &&
            query.kids[0] == Node(Select, [query.kids[0].kids[0], Node(From, [])]) &&
            query.kids[0].kids[0] ==
            Node(Projection, [Node(Item(Some("parts")), [Call("parse_ident", [Node(Cast("TEXT"), [operand])])])])
  {
  }

  lemma EvalPlainQuery(sem: Sem, select: Node, s: Scope)
    ensures Eval(sem, Node(Query(false, false), [select]), s) == Eval(sem, select, s)
  {
    EvalPair(sem, select, select, s);
  }

  lemma EvalDerivedOf(sem: Sem, query: Node, s: Scope)
    ensures Eval(sem, Node(Derived(None), [query]), s) == Scopes(BindDerived(None, Eval(sem, query, s)))
  {
    EvalPair(sem, query, query, s);
  }

  lemma DerivedScope(parts: seq<string>)
    ensures BindDerived(None, Rows([Row([Cell(Some("parts"), Arr(Strings(parts)))])])) == [PartsScope(parts)]
  {
    var cells := [Cell(Some("parts"), Arr(Strings(parts)))];
    assert cells[1..] == [] && BindCells(None, []) == map[];
    assert BindCells(None, cells) == PartsScope(parts);
  }

  lemma EvalTable(sem: Sem, path: seq<string>, alias: string, s: Scope)
    ensures Eval(sem, Node(Table(path, Some(alias)), []), s) == Scopes(BindAll(path, alias, TableRows(sem, path)))
  {
    var rows := TableRows(sem, path);
    assert BindAll(path, alias, rows) == seq(|rows|, i requires 0 <= i < |rows| => BindRow(path, Some(alias), rows[i]));
  }

  lemma EvalFrom(sem: Sem, a: Node, b: Node, c: Node, s: Scope)
    ensures Eval(sem, Node(From, [a, b, c]), s) == Scopes(Cross(s, [Eval(sem, a, s), Eval(sem, b, s), Eval(sem, c, s)]))
  {
    EvalTriple(sem, a, b, c, s);
    EvalNode(sem, From, [a, b, c], s);
    hide Eval, EvalAll, ArrayText, Label, Cross;
  }

  lemma EvalTriple(sem: Sem, a: Node, b: Node, c: Node, s: Scope)
    ensures EvalAll(sem, [a, b, c], s) == [Eval(sem, a, s), Eval(sem, b, s), Eval(sem, c, s)]
  {
    assert [a, b, c][1..] == [b, c];
    assert EvalAll(sem, [a, b, c], s) == [Eval(sem, a, s)] + EvalAll(sem, [b, c], s);
    hide *;
    EvalPair(sem, b, c, s);
    assert [Eval(sem, a, s)] + [Eval(sem, b, s), Eval(sem, c, s)] ==
           [Eval(sem, a, s), Eval(sem, b, s), Eval(sem, c, s)];
  }

  lemma EvalRelations(sem: Sem, operand: Node, name: string, parts: seq<string>, s: Scope)
    requires Eval(sem, operand, s) == Str(name) && NameParts(sem, name) == Some(parts)
    ensures Eval(sem, RegclassQuery(operand).kids[0].kids[1], s) ==
            Scopes(AllScopes(s, TableRows(sem, CLASSES), TableRows(sem, NAMESPACES), parts))
  {
    var a, b := Node(Table(CLASSES, Some("c")), []), Node(Table(NAMESPACES, Some("n")), []);
    var c := Node(Derived(None), [PartsQuery(operand)]);
    var classes, nss :=
      BindAll(CLASSES, "c", TableRows(sem, CLASSES)), BindAll(NAMESPACES, "n", TableRows(sem, NAMESPACES));
    var relations := [Scopes(nss), Scopes([PartsScope(parts)])];
    assert RegclassQuery(operand).kids[0].kids[1] == Node(From, [a, b, c]);
    assert [Scopes(classes), Scopes(nss), Scopes([PartsScope(parts)])][1..] == relations;
    assert Cross(s, [Scopes(classes), Scopes(nss), Scopes([PartsScope(parts)])]) == CrossWith(s, classes, relations);
    assert AllScopes(s, TableRows(sem, CLASSES), TableRows(sem, NAMESPACES), parts) == CrossWith(s, classes, relations);
    hide *;
    EvalTable(sem, CLASSES, "c", s);
    EvalTable(sem, NAMESPACES, "n", s);
    EvalDerived(sem, operand, name, parts, s);
    EvalFrom(sem, a, b, c, s);
  }

  lemma EvalOid(sem: Sem, s: Scope)
    ensures Eval(sem, Node(Projection, [Node(Item(None), [Column("c", "oid")])]), s) ==
            Row([Cell(Some("oid"), Lookup(s, ["c", "oid"]))])
  {
    var item := Node(Item(None), [Column("c", "oid")]);
    EvalColumn(sem, "c", "oid", s);
    EvalPair(sem, item.kids[0], item, s);
    EvalPair(sem, item, item, s);
  }

  lemma EvalSelectOids(sem: Sem, operand: Node, scopes: seq<Scope>, s: Scope)
    requires Eval(sem, RegclassQuery(operand).kids[0].kids[1], s) == Scopes(scopes)
    ensures Eval(sem, RegclassQuery(operand).kids[0], s) == Rows(OidCells(Passing(sem, scopes), ["c", "oid"]))
  {
    var select := RegclassQuery(operand).kids[0];
    assert select.kids[2..] == [JOINED, NAMED];
    PassingIsKept(sem, scopes);
    var kept := Passing(sem, scopes);
    assert Eval(sem, select, s) == Rows(seq(|kept|, i requires 0 <= i < |kept| => Eval(sem, select.kids[0], kept[i])));
    hide Eval, Passing, Kept;
    var key := ["c", "oid"];
    forall i | 0 <= i < |kept| ensures Eval(sem, select.kids[0], kept[i]) == OidCells(kept, key)[i] {
      EvalOid(sem, kept[i]);
    }
    assert seq(|kept|, i requires 0 <= i < |kept| => Eval(sem, select.kids[0], kept[i])) == OidCells(kept, key);
  }

  lemma EvalSubquery(sem: Sem, select: Node, s: Scope)
    ensures Eval(sem, Node(Subquery, [Node(Query(false, false), [select])]), s) == Scalar(Eval(sem, select, s))
  {
    var query := Node(Query(false, false), [select]);
    EvalPair(sem, select, select, s);
    EvalPair(sem, query, query, s);
  }

  /** The instantiated template finds the relations asked for: NULL if there is none, an error if there are several. */
  lemma EvalRegclass(sem: Sem, operand: Node, name: string, parts: seq<string>, s: Scope)
    requires StandardOperators(sem) && Relations(TableRows(sem, CLASSES))
    requires Named(TableRows(sem, NAMESPACES), "nspname")
    requires Eval(sem, operand, s) == Str(name) && NameParts(sem, name) == Some(parts)
    ensures Eval(sem, Node(Subquery, [RegclassQuery(operand)]), s) ==
            OneOid(AskedRows(sem, TableRows(sem, CLASSES), TableRows(sem, NAMESPACES), parts))
  {
    var query := RegclassQuery(operand);
    assert query == Node(Query(false, false), [query.kids[0]]);
    hide *;
    var scopes := AllScopes(s, TableRows(sem, CLASSES), TableRows(sem, NAMESPACES), parts);
    var rows := AskedRows(sem, TableRows(sem, CLASSES), TableRows(sem, NAMESPACES), parts);
    EvalRelations(sem, operand, name, parts, s);
    EvalSelectOids(sem, operand, scopes, s);
    EvalSubquery(sem, query.kids[0], s);
    AllRelations(sem, s, TableRows(sem, CLASSES), TableRows(sem, NAMESPACES), parts);
    ScalarOid(Passing(sem, scopes), ["c", "oid"], rows);
  }

  // ---------- One relation or several ----------

  function AskedRelations(sem: Sem, parts: seq<string>): seq<TableRow> {
    AskedRows(sem, TableRows(sem, CLASSES), TableRows(sem, NAMESPACES), parts)
  }

  lemma AskedRelationsIs(sem: Sem, parts: seq<string>)
    ensures AskedRelations(sem, parts) == AskedRows(sem, TableRows(sem, CLASSES), TableRows(sem, NAMESPACES), parts)
  {
    hide AskedRows, TableRows;
  }

  /** At most one relation is asked for, and that in the first namespace of the schema's name. */
  predicate OneRelationAsked(sem: Sem, parts: seq<string>) {
    var rows := AskedRelations(sem, parts);
    |rows| <= 1 && forall row :: row in rows ==> IsRelation(row) && row["relnamespace"] == AskedNamespace(sem, parts)
  }

  lemma {:induction false} WithMember(sem: Sem, rel: TableRow, nss: seq<TableRow>, parts: seq<string>)
    requires IsRelation(rel)
    ensures forall row :: row in AskedWith(sem, rel, nss, parts) ==> row == rel
    ensures forall ns :: ns in nss && IsNamespace(ns) && Pairs(sem, rel, ns, parts) ==>
              rel in AskedWith(sem, rel, nss, parts)
    ensures AskedWith(sem, rel, nss, parts) != [] ==>
              exists ns :: ns in nss && IsNamespace(ns) && Pairs(sem, rel, ns, parts)
  {
    hide Pairs;
    if nss != [] { WithMember(sem, rel, nss[1..], parts); }
  }

  lemma {:induction false} AskedMember(sem: Sem, rels: seq<TableRow>, nss: seq<TableRow>, parts: seq<string>)
    requires Relations(rels)
    ensures forall row :: row in AskedRows(sem, rels, nss, parts) ==>
              row in rels && IsRelation(row) && exists ns :: ns in nss && IsNamespace(ns) && Pairs(sem, row, ns, parts)
    ensures forall rel, ns ::
              rel in rels && ns in nss && IsRelation(rel) && IsNamespace(ns) && Pairs(sem, rel, ns, parts) ==>
              rel in AskedRows(sem, rels, nss, parts)
  {
    hide Pairs;
    if rels != [] {
      AskedRowsStep(sem, rels, nss, parts);
      WithMember(sem, rels[0], nss, parts);
      AskedMember(sem, rels[1..], nss, parts);
      hide AskedRows, AskedWith;
    }
  }

  lemma {:induction false} FindRelationFinds(rels: seq<TableRow>, namespace: Val, name: string)
    requires Relations(rels)
    ensures FindRelation(rels, namespace, name) == Unknown ||
            exists rel :: rel in rels && IsRelation(rel) && rel["relname"] == Str(name) &&
                          rel["relnamespace"] == namespace && !namespace.Unknown? &&
                          FindRelation(rels, namespace, name) == rel["oid"]
    ensures forall rel :: rel in rels && IsRelation(rel) && rel["relname"] == Str(name) &&
                          rel["relnamespace"] == namespace && !namespace.Unknown? ==>
              FindRelation(rels, namespace, name).Int?
  {
    if rels != [] {
      assert rels[0] in rels && IsRelation(rels[0]);
      FindRelationFinds(rels[1..], namespace, name);
      assert forall rel :: rel in rels <==> rel == rels[0] || rel in rels[1..];
    }
  }

  lemma {:induction false} FindOidFinds(rows: seq<TableRow>, column: string, name: string)
    requires Named(rows, column)
    ensures FindOid(rows, column, name) == Unknown ||
            exists row :: row in rows && IsNamed(row, column) && row[column] == Str(name) &&
                          FindOid(rows, column, name) == row["oid"]
  {
    if rows != [] {
      assert rows[0] in rows && IsNamed(rows[0], column);
      FindOidFinds(rows[1..], column, name);
    }
  }

  lemma RelationOidIs(sem: Sem, parts: seq<string>)
    ensures RelationOid(sem, parts) ==
            if 1 <= |parts| <= 2 then
              FindRelation(TableRows(sem, CLASSES), AskedNamespace(sem, parts), parts[|parts| - 1])
            else Unknown
    ensures AskedSchema(sem, parts).Str? ==>
              AskedNamespace(sem, parts) == FindOid(TableRows(sem, NAMESPACES), "nspname", AskedSchema(sem, parts).s)
  {
    hide FindRelation, FindOid, TableRows, AskedSchema;
  }

  lemma InAsked(sem: Sem, parts: seq<string>, rel: TableRow, ns: TableRow)
    requires Relations(TableRows(sem, CLASSES)) && rel in TableRows(sem, CLASSES) && ns in TableRows(sem, NAMESPACES)
    requires IsRelation(rel) && IsNamespace(ns) && Pairs(sem, rel, ns, parts)
    ensures rel in AskedRelations(sem, parts)
  {
    hide Pairs, AskedRows, TableRows, Relations, IsRelation;
    AskedMember(sem, TableRows(sem, CLASSES), TableRows(sem, NAMESPACES), parts);
  }

  lemma FromAsked(sem: Sem, parts: seq<string>, row: TableRow) returns (ns: TableRow)
    requires Relations(TableRows(sem, CLASSES)) && row in AskedRelations(sem, parts)
    ensures row in TableRows(sem, CLASSES) && IsRelation(row) && ns in TableRows(sem, NAMESPACES)
    ensures IsNamespace(ns) && Pairs(sem, row, ns, parts)
  {
    hide Pairs, AskedRows, TableRows, Relations, IsRelation;
    AskedMember(sem, TableRows(sem, CLASSES), TableRows(sem, NAMESPACES), parts);
    ns :| ns in TableRows(sem, NAMESPACES) && IsNamespace(ns) && Pairs(sem, row, ns, parts);
  }

  lemma RelationHasOid(row: TableRow)
    requires IsRelation(row)
    ensures "oid" in row && row["oid"].Int? && "relname" in row && "relnamespace" in row
  {
  }

  /** What the cast means is found among the relations asked for. */
  lemma MeantIsAsked(sem: Sem, parts: seq<string>) returns (rel: TableRow)
    requires StandardOperators(sem) && Relations(TableRows(sem, CLASSES))
    requires Named(TableRows(sem, NAMESPACES), "nspname")
    requires RelationOid(sem, parts) != Unknown
    ensures rel in AskedRelations(sem, parts) && IsRelation(rel)
    ensures rel["relnamespace"] == AskedNamespace(sem, parts) && RelationOid(sem, parts) == rel["oid"]
  {
    hide *;
    RelationOidIs(sem, parts);
    SchemaKnown(sem, parts);
    var namespace, name, schema := AskedNamespace(sem, parts), parts[|parts| - 1], AskedSchema(sem, parts).s;
    var rels, nss := TableRows(sem, CLASSES), TableRows(sem, NAMESPACES);
    FindRelationFinds(rels, namespace, name);
    forall row: TableRow | IsRelation(row) ensures "relname" in row && "relnamespace" in row && "oid" in row {
      RelationHasOid(row);
    }
    rel :| rel in rels && IsRelation(rel) && rel["relname"] == Str(name) && rel["relnamespace"] == namespace &&
           !namespace.Unknown? && FindRelation(rels, namespace, name) == rel["oid"];
    FindOidFinds(nss, "nspname", schema);
    var ns := NamespaceFound(nss, schema);
    PairValues(sem, rel, ns, parts);
    InAsked(sem, parts, rel, ns);
  }

  lemma NamespaceFound(nss: seq<TableRow>, schema: string) returns (ns: TableRow)
    requires Named(nss, "nspname") && FindOid(nss, "nspname", schema) != Unknown
    ensures ns in nss && IsNamespace(ns) && "oid" in ns && "nspname" in ns
    ensures ns["nspname"] == Str(schema) && ns["oid"] == FindOid(nss, "nspname", schema)
  {
    hide FindOid;
    FindOidFinds(nss, "nspname", schema);
    ns :| ns in nss && IsNamed(ns, "nspname") && ns["nspname"] == Str(schema) &&
          FindOid(nss, "nspname", schema) == ns["oid"];
  }

  /** And it is found if one of them is in the first namespace of the schema's name. */
  lemma AskedIsMeant(sem: Sem, parts: seq<string>, rel: TableRow)
    requires StandardOperators(sem) && Relations(TableRows(sem, CLASSES))
    requires Named(TableRows(sem, NAMESPACES), "nspname")
    requires rel in AskedRelations(sem, parts) && IsRelation(rel) && "relnamespace" in rel
    requires rel["relnamespace"] == AskedNamespace(sem, parts)
    ensures RelationOid(sem, parts).Int?
  {
    hide *;
    RelationHasOid(rel);
    var ns := FromAsked(sem, parts, rel);
    NamespaceHasName(ns);
    PairValues(sem, rel, ns, parts);
    RelationOidIs(sem, parts);
    FindRelationFinds(TableRows(sem, CLASSES), AskedNamespace(sem, parts), parts[|parts| - 1]);
  }

  lemma NamespaceHasName(row: TableRow)
    requires IsNamespace(row)
    ensures "oid" in row && row["oid"].Int? && "nspname" in row
  {
  }

  lemma OneOidIs(rows: seq<TableRow>)
    ensures rows == [] ==> OneOid(rows) == Unknown
    ensures |rows| == 1 && "oid" in rows[0] ==> OneOid(rows) == rows[0]["oid"]
    ensures |rows| > 1 ==> OneOid(rows) == Error
  {
  }

  lemma OneAskedIs(sem: Sem, parts: seq<string>)
    ensures var rows := AskedRelations(sem, parts);
            OneRelationAsked(sem, parts) <==>
            rows == [] ||
            (|rows| == 1 && IsRelation(rows[0]) && rows[0]["relnamespace"] == AskedNamespace(sem, parts))
  {
    hide AskedRelations, AskedNamespace, IsRelation;
    var rows := AskedRelations(sem, parts);
    if |rows| == 1 { assert rows[0] in rows && forall row :: row in rows ==> row == rows[0]; }
  }

  /** The template finds what the cast means exactly when it finds at most one relation, in the first namespace of the
      schema's name. */
  lemma RelationExactly(sem: Sem, parts: seq<string>)
    requires StandardOperators(sem) && Relations(TableRows(sem, CLASSES))
    requires Named(TableRows(sem, NAMESPACES), "nspname")
    ensures OneOid(AskedRelations(sem, parts)) == RelationOid(sem, parts) <==> OneRelationAsked(sem, parts)
  {
    hide *;
    var rows := AskedRelations(sem, parts);
    OneAskedIs(sem, parts);
    OneOidIs(rows);
    if RelationOid(sem, parts) != Unknown {
      var rel := MeantIsAsked(sem, parts);
      RelationHasOid(rel);
    }
    if |rows| == 1 {
      var ns := FromAsked(sem, parts, rows[0]);
      RelationHasOid(rows[0]);
      if rows[0]["relnamespace"] == AskedNamespace(sem, parts) { AskedIsMeant(sem, parts, rows[0]); }
    }
  }

  // ---------- The template is that query ----------

  lemma {:induction false} KindsFree(n: Node)
    requires All(ConditionKind, n)
    ensures !HasPlaceholder(n)
  {
    forall m | m in n.kids ensures !HasPlaceholder(m) { KindsFree(m); }
  }

  lemma SubstituteParts(operand: Node)
    ensures Substitute(PARTS_QUERY, operand) == PartsQuery(operand)
  {
    var select, to := PARTS_QUERY.kids[0], PartsQuery(operand).kids[0];
    var cast := PARTS_ITEM.kids[0].kids[0];
    hide Substitute;
    PlaceholderReplaced("$1", operand);
    SubstituteKids(cast, operand, [operand]);
    SubstituteKids(PARTS_ITEM.kids[0], operand, to.kids[0].kids[0].kids[0].kids);
    SubstituteKids(PARTS_ITEM, operand, to.kids[0].kids[0].kids);
    SubstituteKids(select.kids[0], operand, to.kids[0].kids);
    SubstituteLeaf(select.kids[1], operand);
    SubstituteKids(select, operand, to.kids);
    SubstituteKids(PARTS_QUERY, operand, [to]);
  }

  lemma SubstituteRegclass(operand: Node)
    ensures Substitute(REGCLASS_QUERY, operand) == RegclassQuery(operand)
  {
    var select, to := REGCLASS_QUERY.kids[0], RegclassQuery(operand).kids[0];
    assert select.kids[2] == JOINED && select.kids[3] == NAMED;
    hide Substitute, HasPlaceholder, All;
    ConditionKinds();
    KindsFree(JOINED);
    KindsFree(NAMED);
    NothingReplaced(JOINED, operand);
    NothingReplaced(NAMED, operand);
    SubstituteLeaf(Column("c", "oid"), operand);
    SubstituteKids(select.kids[0].kids[0], operand, to.kids[0].kids[0].kids);
    SubstituteKids(select.kids[0], operand, to.kids[0].kids);
    SubstituteLeaf(REGCLASS_FROM.kids[0], operand);
    SubstituteLeaf(REGCLASS_FROM.kids[1], operand);
    SubstituteParts(operand);
    SubstituteKids(REGCLASS_FROM.kids[2], operand, [PartsQuery(operand)]);
    SubstituteKids(REGCLASS_FROM, operand, to.kids[1].kids);
    SubstituteKids(select, operand, to.kids);
    SubstituteKids(REGCLASS_QUERY, operand, [to]);
  }
}
