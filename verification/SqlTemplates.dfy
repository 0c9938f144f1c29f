/** The kinds of node that the lookup templates are made of, for what other modules say of every node in them. */
module SqlTemplates {
  import opened Wrappers
  import opened SqlAst
  import opened SqlRules

  /** A property of every node of a tree, by its kind and its number of children. */
  predicate All(p: (Kind, nat) -> bool, n: Node) {
    p(n.kind, |n.kids|) && forall m :: m in n.kids ==> All(p, m)
  }

  lemma {:induction false} Weaker(p: (Kind, nat) -> bool, q: (Kind, nat) -> bool, n: Node)
    requires All(p, n) && forall kind: Kind, k: nat :: p(kind, k) ==> q(kind, k)
    ensures All(q, n)
  {
    forall m | m in n.kids ensures All(q, m) { Weaker(p, q, m); }
  }

  lemma {:induction false} SubstituteAll(p: (Kind, nat) -> bool, n: Node, operand: Node)
    requires All(p, n) && All(p, operand)
    ensures All(p, Substitute(n, operand))
  {
    if !IsPlaceholder(n) {
      var r := Substitute(n, operand);
      forall m | m in r.kids ensures All(p, m) {
        var i :| 0 <= i < |n.kids| && r.kids[i] == m;
        SubstituteAll(p, n.kids[i], operand);
      }
    }
  }

  /** The conditions of the relation lookup. */
  predicate ConditionKind(kind: Kind, k: nat) {
    match kind
    case Value(literal) => literal.Number?
    case CompoundIdentifier(parts) => |parts| == 2 && (parts[0] == "c" || parts[0] == "n")
    case BinaryOp(op) => !op.Custom?
    case _ => kind.Identifier? || kind.Function? || kind.OtherExpr?
  }

  /** All of the templates. */
  predicate TemplateKind(kind: Kind, k: nat) {
    match kind
    case Value(literal) => literal.Number? || literal == Placeholder("$1")
    case Cast(dataType) => dataType == "TEXT"
    case _ =>
      ConditionKind(kind, k) || kind.Query? || kind.Select? || kind.Projection? || kind.Item? || kind.From? ||
      kind.Table? || kind.Derived?
  }

  lemma ConditionNode(kind: Kind, kids: seq<Node>)
    requires ConditionKind(kind, |kids|) && forall m :: m in kids ==> All(ConditionKind, m)
    ensures All(ConditionKind, Node(kind, kids))
  {
  }

  lemma TemplateNode(kind: Kind, kids: seq<Node>)
    requires TemplateKind(kind, |kids|) && forall m :: m in kids ==> All(TemplateKind, m)
    ensures All(TemplateKind, Node(kind, kids))
  {
  }

  lemma PartKinds(i: string)
    ensures All(ConditionKind, LENGTH) && All(ConditionKind, Part(i)) && All(ConditionKind, PartCount(i))
  {
    hide All;
    ConditionNode(Identifier("parts"), []);
    ConditionNode(Value(Number(i)), []);
    ConditionNode(Value(Number("1")), []);
    ConditionNode(Function("array_length"), LENGTH.kids);
    ConditionNode(OtherExpr("subscript"), Part(i).kids);
    ConditionNode(BinaryOp(Eq), PartCount(i).kids);
  }

  lemma PairKinds(left: Node, op: Operator, right: Node)
    requires All(ConditionKind, left) && All(ConditionKind, right) && !op.Custom?
    ensures All(ConditionKind, Compare(left, op, right))
  {
    hide All;
    ConditionNode(BinaryOp(op), [left, right]);
  }

  lemma ColumnKinds(table: string, name: string)
    requires table == "c" || table == "n"
    ensures All(ConditionKind, Column(table, name))
  {
  }

  lemma ArityKinds()
    ensures All(ConditionKind, REGCLASS_ARITY)
  {
    PartKinds("1");
    hide All;
    ConditionNode(Value(Number("1")), []);
    ConditionNode(Value(Number("2")), []);
    ConditionNode(OtherExpr("in"), REGCLASS_ARITY.kids);
  }

  lemma ConditionKinds()
    ensures All(ConditionKind, JOINED) && All(ConditionKind, NAMED)
  {
    var and := OtherOperator("AND");
    hide All, ConditionKind;
    PartKinds("1");
    PartKinds("2");
    ArityKinds();
    ColumnKinds("n", "nspname");
    ColumnKinds("n", "oid");
    ColumnKinds("c", "relname");
    ColumnKinds("c", "relnamespace");
    SchemaKinds();
    PairKinds(Column("c", "relnamespace"), Eq, Column("n", "oid"));
    PairKinds(Column("n", "nspname"), Eq, Call("current_schema", []));
    PairKinds(Column("n", "nspname"), Eq, Part("1"));
    PairKinds(Column("c", "relname"), Eq, Part("1"));
    PairKinds(Column("c", "relname"), Eq, Part("2"));
    PairKinds(REGCLASS_BARE.kids[1].kids[0], and, REGCLASS_BARE.kids[1].kids[1]);
    PairKinds(REGCLASS_QUALIFIED.kids[1].kids[0], and, REGCLASS_QUALIFIED.kids[1].kids[1]);
    PairKinds(PartCount("1"), and, REGCLASS_BARE.kids[1]);
    PairKinds(PartCount("2"), and, REGCLASS_QUALIFIED.kids[1]);
    PairKinds(REGCLASS_BARE, OtherOperator("OR"), REGCLASS_QUALIFIED);
    PairKinds(REGCLASS_ARITY, and, NAMED.kids[1]);
  }

  lemma SchemaKinds()
    ensures All(ConditionKind, Call("current_schema", []))
  {
  }

  lemma PartsKinds()
    ensures All(TemplateKind, PARTS_QUERY)
  {
    var select := PARTS_QUERY.kids[0];
    hide All;
    TemplateNode(Value(Placeholder("$1")), []);
    TemplateNode(Cast("TEXT"), [PARAMETER]);
    TemplateNode(Function("parse_ident"), PARTS_ITEM.kids[0].kids);
    TemplateNode(Item(Some("parts")), PARTS_ITEM.kids);
    TemplateNode(Projection, [PARTS_ITEM]);
    TemplateNode(From, []);
    TemplateNode(Select, select.kids);
    TemplateNode(Query(false, false), [select]);
  }

  lemma RegclassKinds()
    ensures All(TemplateKind, REGCLASS_QUERY)
  {
    var select := REGCLASS_QUERY.kids[0];
    hide All;
    PartsKinds();
    ConditionKinds();
    Weaker(ConditionKind, TemplateKind, JOINED);
    Weaker(ConditionKind, TemplateKind, NAMED);
    TemplateNode(Table(CLASSES, Some("c")), []);
    TemplateNode(Table(NAMESPACES, Some("n")), []);
    TemplateNode(Derived(None), [PARTS_QUERY]);
    TemplateNode(From, REGCLASS_FROM.kids);
    TemplateNode(CompoundIdentifier(["c", "oid"]), []);
    TemplateNode(Item(None), [Column("c", "oid")]);
    TemplateNode(Projection, select.kids[0].kids);
    TemplateNode(Select, select.kids);
    TemplateNode(Query(false, false), [select]);
  }

  lemma LookupKinds(table: string, column: string)
    ensures All(TemplateKind, NameLookup(table, column))
  {
    var select := NameLookup(table, column).kids[0];
    hide All;
    TemplateNode(Identifier("oid"), []);
    TemplateNode(Item(None), [Name("oid")]);
    TemplateNode(Projection, select.kids[0].kids);
    TemplateNode(Table(["pg_catalog", table], None), []);
    TemplateNode(From, select.kids[1].kids);
    TemplateNode(Identifier(column), []);
    TemplateNode(Value(Placeholder("$1")), []);
    TemplateNode(BinaryOp(Eq), select.kids[2].kids);
    TemplateNode(Select, select.kids);
    TemplateNode(Query(false, false), [select]);
  }

  /** Every node of every template is of these kinds. */
  lemma TemplateKinds(typeName: string)
    requires Template(typeName).Some?
    ensures All(TemplateKind, Template(typeName).value)
  {
    RegclassKinds();
    LookupKinds("pg_namespace", "nspname");
    LookupKinds("pg_type", "typname");
    LookupKinds("pg_proc", "proname");
    hide All, NameLookup, REGCLASS_QUERY;
  }
}
