/** A name cast as an item of a SELECT: the pipeline as a whole keeps what it shows. */
module SqlSelected {
  import opened Wrappers
  import opened SqlAst
  import opened SqlStrings
  import opened SqlRules
  import opened SqlTemplates
  import opened SqlVisitor
  import opened SqlNormalForms
  import opened SqlProjection
  import opened SqlSemantics
  import opened SqlMeaning
  import opened SqlRegclass
  import opened SqlRegCast
  import opened SqlPipeline
  import opened SqlPreservation

  // ---------- The lookups hold no scalar subqueries of their own ----------

  predicate NoSubquery(kind: Kind, k: nat) { !kind.Subquery? }

  lemma {:induction false} FreeKept(sem: Sem, n: Node)
    requires All(NoSubquery, n)
    ensures ItemsKept(sem, n)
  {
    forall m | m in n.kids ensures ItemsKept(sem, m) { FreeKept(sem, m); }
    if HasProjection(n) {
      var select := n.kids[0];
      assert All(NoSubquery, select) && All(NoSubquery, select.kids[0]);
      forall item | item in select.kids[0].kids ensures !IsSubqueryItem(item) {
        assert All(NoSubquery, item) && forall m :: m in item.kids ==> All(NoSubquery, m);
        if item.kids != [] { assert item.kids[0] in item.kids; }
      }
    }
    hide ItemKept;
  }

  lemma InstanceFree(typeName: string, name: string)
    requires Template(typeName).Some?
    ensures All(NoSubquery, Substitute(Template(typeName).value, Lit(Text(name))))
  {
    TemplateKinds(typeName);
    assert All(NoSubquery, Lit(Text(name)));
    hide All, Substitute, Template;
    Weaker(TemplateKind, NoSubquery, Template(typeName).value);
    SubstituteAll(NoSubquery, Template(typeName).value, Lit(Text(name)));
  }

  // ---------- The lookup of a name that resolves gives at most one row ----------

  lemma OneRowScalar(v: Val)
    requires Scalar(v) != Error
    ensures AtMostOneRow(v)
  {
  }

  lemma FoundNoError(sem: Sem, typeName: string, name: string)
    requires CatalogReady(sem) && Template(typeName).Some? && RowsFound(sem, typeName, name).Some?
    requires Unambiguous(sem, typeName, name)
    ensures OneOid(RowsFound(sem, typeName, name).value) != Error
  {
    hide *;
    var rows := RowsFound(sem, typeName, name).value;
    OneOidIs(rows);
    if CatalogOf(typeName).Some? {
      var (table, column) := CatalogOf(typeName).value;
      NameTemplate(sem, typeName, name);
      NameExactly(TableRows(sem, ["pg_catalog", table]), column, name);
      if |rows| == 1 {
        assert rows[0] in rows;
        NamedHasOid(rows[0], column);
      }
    } else {
      RegclassTemplate(sem, typeName, name);
      OneAskedIs(sem, NameParts(sem, name).value);
      if |rows| == 1 { RelationHasOid(rows[0]); }
    }
  }

  lemma TemplateOneRow(sem: Sem, typeName: string, operand: Node, name: string, scope: Scope)
    requires CatalogReady(sem) && Template(typeName).Some? && RowsFound(sem, typeName, name).Some?
    requires Unambiguous(sem, typeName, name) && forall s :: Eval(sem, operand, s) == Str(name)
    ensures var query := Substitute(Template(typeName).value, operand);
            query.kind == Query(false, false) && |query.kids| == 1 && AtMostOneRow(Eval(sem, query.kids[0], scope))
  {
    hide *;
    var query := Substitute(Template(typeName).value, operand);
    TemplateIsQuery(typeName);
    SubstituteQuery(Template(typeName).value, operand);
    EvalTemplate(sem, typeName, operand, name, scope);
    assert query == Node(Query(false, false), [query.kids[0]]);
    EvalSubquery(sem, query.kids[0], scope);
    FoundNoError(sem, typeName, name);
    OneRowScalar(Eval(sem, query.kids[0], scope));
  }

  // ---------- The item ----------

  /** A cast of a literal that is a name and resolves. */
  predicate NamesOne(sem: Sem, cast: Node) {
    IsNameCast(cast) && !IsPlaceholder(cast.kids[0]) && !NumericText(cast.kids[0]) && Resolves(sem, cast)
  }

  lemma LiteralName(sem: Sem, cast: Node) returns (name: string)
    requires NamesOne(sem, cast)
    ensures cast.kind.Cast? && IsNameCast(cast) && Template(NormalizeTypeName(cast.kind.dataType)).Some?
    ensures cast.kids == [Lit(Text(name))] && OperandName(sem, cast.kids[0]) == Some(name) && !NumericString(name)
  {
    name := cast.kids[0].kind.literal.text;
    hide Template, NormalizeTypeName, Resolves;
  }

  lemma NamesParts(sem: Sem, cast: Node)
    requires NamesOne(sem, cast)
    ensures IsNameCast(cast) && !NumericText(cast.kids[0]) && Resolves(sem, cast) && !IsPlaceholder(cast.kids[0])
  {
    hide Resolves, IsNameCast;
  }

  lemma ItemIsKept(sem: Sem, alias: Option<string>, query: Node)
    requires query.kind == Query(false, false) && |query.kids| == 1 && !HasCorrelation(query) && All(NoSubquery, query)
    requires forall s :: AtMostOneRow(Eval(sem, query.kids[0], s))
    ensures var item := Node(Item(alias), [Node(Subquery, [query])]); ItemKept(sem, item) && ItemsKept(sem, item)
  {
    hide HasCorrelation, Eval, AtMostOneRow;
    var item := Node(Item(alias), [Node(Subquery, [query])]);
    assert ItemKept(sem, item);
    hide *;
    FreeKept(sem, query);
    OneKept(sem, Subquery, query);
    OneKept(sem, Item(alias), Node(Subquery, [query]));
  }

  /** The last pass keeps the item that the cast pass made of it. */
  lemma CastItemKept(sem: Sem, alias: Option<string>, cast: Node)
    requires CatalogReady(sem) && NamesOne(sem, cast)
    ensures var item := Node(Item(alias), [Walk(RegCast, cast)]); ItemKept(sem, item) && ItemsKept(sem, item)
  {
    hide *;
    var name := LiteralName(sem, cast);
    NamesParts(sem, cast);
    var operand, typeName := cast.kids[0], NormalizeTypeName(cast.kind.dataType);
    ResolvesIs(sem, cast, name);
    WalkCast(cast);
    CastVisit(cast);
    forall s ensures Eval(sem, operand, s) == Str(name) { OperandEval(sem, operand, s); }
    var query := Substitute(Template(typeName).value, operand);
    TemplateIsQuery(typeName);
    SubstituteQuery(Template(typeName).value, operand);
    forall s ensures AtMostOneRow(Eval(sem, query.kids[0], s)) { TemplateOneRow(sem, typeName, operand, name, s); }
    TemplateCorrelation(typeName, operand);
    InstanceFree(typeName, name);
    ItemIsKept(sem, alias, query);
  }

  // ---------- The query ----------

  /** `SELECT item, ..., item`. */
  function SelectOf(items: seq<Node>): Node {
    Node(Query(false, false), [Node(Select, [Node(Projection, items), Node(From, [])])])
  }

  /** Each item is such a cast. */
  predicate SelectsNames(sem: Sem, items: seq<Node>) {
    forall i :: 0 <= i < |items| ==>
      items[i].kind.Item? && |items[i].kids| == 1 && NamesOne(sem, items[i].kids[0])
  }

  predicate FirstThree(rule: Rule) { rule.ArrayAnyAll? || rule.StripCollate? || rule.PgOperator? }

  lemma ItemUntouched(rule: Rule, item: Node, cast: Node, name: string)
    requires FirstThree(rule) && item.kind.Item? && item.kids == [cast]
    requires cast.kind.Cast? && cast.kids == [Lit(Text(name))]
    ensures Clean(rule, item) && Uncollated(item)
  {
    assert Clean(rule, Lit(Text(name))) && Uncollated(Lit(Text(name)));
    assert Clean(rule, cast) && Uncollated(cast);
  }

  lemma SelectUntouched(rule: Rule, items: seq<Node>)
    requires FirstThree(rule) && forall item :: item in items ==> Clean(rule, item) && Uncollated(item)
    ensures Clean(rule, SelectOf(items)) && Uncollated(SelectOf(items))
  {
    var projection, from := Node(Projection, items), Node(From, []);
    var select := Node(Select, [projection, from]);
    assert Clean(rule, projection) && Uncollated(projection) && Clean(rule, from) && Uncollated(from);
    assert Clean(rule, select) && Uncollated(select);
  }

  lemma SelectReady(sem: Sem, items: seq<Node>)
    requires forall item :: item in items ==> CastsReady(sem, item)
    ensures CastsReady(sem, SelectOf(items))
  {
    var projection, from := Node(Projection, items), Node(From, []);
    ReadyOther(sem, projection);
    ReadyOther(sem, from);
    ReadyPair(sem, Select, projection, from);
    ReadyOne(sem, Query(false, false), Node(Select, [projection, from]));
    hide CastsReady;
  }

  lemma ItemReady(sem: Sem, item: Node, cast: Node, name: string)
    requires item.kind.Item? && item.kids == [cast] && cast.kind.Cast? && cast.kids == [Lit(Text(name))]
    requires IsNameCast(cast) && Resolves(sem, cast)
    ensures CastsReady(sem, item)
  {
    assert Stripped(cast) == cast;
    hide Resolves, IsNameCast, NormalizeTypeName, Template;
    ReadyOther(sem, Lit(Text(name)));
    ReadyNode(sem, cast);
    ReadyOther(sem, item);
  }

  /** The items that the cast pass makes of the items. */
  function Looked(items: seq<Node>): seq<Node> {
    seq(|items|, i requires 0 <= i < |items| => Walk(RegCast, items[i]))
  }

  lemma WalkSelect(items: seq<Node>)
    ensures Walk(RegCast, SelectOf(items)) == SelectOf(Looked(items))
  {
    var projection, from := Node(Projection, items), Node(From, []);
    var select, query := Node(Select, [projection, from]), SelectOf(items);
    assert VisitRegCast(projection) == projection && VisitRegCast(from) == from;
    assert VisitRegCast(select) == select && VisitRegCast(query) == query;
    WalkNode(RegCast, projection);
    WalkNode(RegCast, from);
    WalkNode(RegCast, select);
    WalkNode(RegCast, query);
    hide Walk, VisitRegCast;
    assert Walk(RegCast, projection).kids == Looked(items) && Walk(RegCast, from).kids == [];
    assert Walk(RegCast, select).kids == [Node(Projection, Looked(items)), from];
    assert Walk(RegCast, query).kids == [Node(Select, [Node(Projection, Looked(items)), from])];
  }

  lemma SelectKept(sem: Sem, items: seq<Node>)
    requires forall item :: item in items ==> ItemKept(sem, item) && ItemsKept(sem, item)
    ensures ItemsKept(sem, SelectOf(items))
  {
    hide ItemKept;
    var projection, from := Node(Projection, items), Node(From, []);
    KidsKept(sem, Projection, items);
    KidsKept(sem, From, []);
    KidsKept(sem, Select, [projection, from]);
  }

  lemma ItemParts(sem: Sem, items: seq<Node>, i: nat)
    requires SelectsNames(sem, items) && i < |items|
    ensures items[i].kind.Item? && items[i] == Node(Item(items[i].kind.alias), [items[i].kids[0]])
    ensures NamesOne(sem, items[i].kids[0])
  {
    hide NamesOne;
    assert items[i].kids == [items[i].kids[0]];
  }

  lemma Resolved(sem: Sem, items: seq<Node>)
    requires SelectsNames(sem, items)
    ensures Resolve(SelectOf(items)) == SelectOf(Looked(items))
    ensures LiteralsKept(sem, SelectOf(items)) && CastsReady(sem, SelectOf(items))
  {
    hide *;
    forall item, rule | item in items && FirstThree(rule)
      ensures Clean(rule, item) && Uncollated(item) && CastsReady(sem, item)
    {
      var i :| 0 <= i < |items| && items[i] == item;
      ItemParts(sem, items, i);
      NamesParts(sem, item.kids[0]);
      var name := LiteralName(sem, item.kids[0]);
      ItemUntouched(rule, item, item.kids[0], name);
      ItemReady(sem, item, item.kids[0], name);
    }
    AreFirst();
    forall rule | FirstThree(rule) ensures Walk(rule, SelectOf(items)) == SelectOf(items) {
      SelectUntouched(rule, items);
      WalkFixed(rule, SelectOf(items));
    }
    SelectUntouched(ArrayAnyAll, items);
    SelectReady(sem, items);
    UncollatedKept(sem, SelectOf(items));
    ResolveSteps(SelectOf(items));
    WalkSelect(items);
  }

  lemma AreFirst()
    ensures FirstThree(ArrayAnyAll) && FirstThree(StripCollate) && FirstThree(PgOperator)
  {
  }

  lemma LookedAt(items: seq<Node>)
    ensures |Looked(items)| == |items| && forall i :: 0 <= i < |items| ==> Looked(items)[i] == Walk(RegCast, items[i])
  {
    hide Walk;
  }

  /** A SELECT of casts of names that resolve shows the same row after all five passes. */
  lemma SelectedNames(sem: Sem, items: seq<Node>, scope: Scope)
    requires CatalogReady(sem) && SelectsNames(sem, items)
    ensures Eval(sem, Rewrite(SelectOf(items)), scope) == Eval(sem, SelectOf(items), scope)
  {
    hide *;
    Resolved(sem, items);
    LookedAt(items);
    forall item | item in Looked(items) ensures ItemKept(sem, item) && ItemsKept(sem, item) {
      var i :| 0 <= i < |items| && Looked(items)[i] == item;
      ItemParts(sem, items, i);
      ItemVisit(items[i].kind.alias, items[i].kids[0]);
      CastItemKept(sem, items[i].kind.alias, items[i].kids[0]);
    }
    SelectKept(sem, Looked(items));
    RewritePreserves(sem, SelectOf(items), scope);
  }
}
