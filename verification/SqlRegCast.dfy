/**
 Forward oid casts: the subquery put in place of `'name'::regnamespace` (regtype, regproc) evaluates
 to the lookup the cast means.
 */
module SqlRegCast {
  import opened Wrappers
  import opened SqlAst
  import opened SqlStrings
  import opened Digits
  import opened SqlRules
  import opened SqlTemplates
  import opened SqlVisitor
  import opened SqlNormalForms
  import opened SqlSemantics
  import opened SqlMeaning
  import opened SqlProjection
  import opened SqlRegclass

  // ---------- Evaluating the lookup query ----------

  lemma SubstituteLookup(table: string, column: string, operand: Node)
    ensures Substitute(NameLookup(table, column), operand) == LookupQuery(table, column, operand)
  {
    var from, to := NameLookup(table, column).kids[0], LookupQuery(table, column, operand).kids[0];
    hide Substitute;
    SubstituteLeaf(Name("oid"), operand);
    SubstituteLeaf(Name(column), operand);
    SubstituteLeaf(from.kids[1].kids[0], operand);
    PlaceholderReplaced("$1", operand);
    SubstituteKids(from.kids[0].kids[0], operand, [Name("oid")]);
    SubstituteKids(from.kids[0], operand, to.kids[0].kids);
    SubstituteKids(from.kids[1], operand, to.kids[1].kids);
    SubstituteKids(from.kids[2], operand, [Name(column), operand]);
    SubstituteKids(from, operand, to.kids);
    SubstituteKids(NameLookup(table, column), operand, [to]);
  }

  lemma {:induction false} CrossOne(outer: Scope, scopes: seq<Scope>)
    ensures CrossWith(outer, scopes, []) == seq(|scopes|, i requires 0 <= i < |scopes| => outer + scopes[i])
  {
    if scopes != [] {
      CrossOne(outer, scopes[1..]);
      assert Cross(outer + scopes[0], []) == [outer + scopes[0]];
    }
  }

  function Bound(path: seq<string>, rows: seq<TableRow>, scope: Scope): seq<Scope> {
    seq(|rows|, i requires 0 <= i < |rows| => scope + BindRow(path, None, rows[i]))
  }

  lemma EvalFromTable(sem: Sem, path: seq<string>, scope: Scope)
    ensures Eval(sem, Node(From, [Node(Table(path, None), [])]), scope) ==
            Scopes(Bound(path, TableRows(sem, path), scope))
  {
    var table := Node(Table(path, None), []);
    EvalPair(sem, table, table, scope);
    var rows := TableRows(sem, path);
    var scopes := seq(|rows|, i requires 0 <= i < |rows| => BindRow(path, None, rows[i]));
    assert Eval(sem, table, scope) == Scopes(scopes);
    CrossOne(scope, scopes);
    assert [Scopes(scopes)][1..] == [];
    assert Bound(path, rows, scope) == seq(|scopes|, i requires 0 <= i < |scopes| => scope + scopes[i]);
  }

  /** `conditions[i]` is the comparison of row `i`'s name. */
  predicate Compares(rows: seq<TableRow>, column: string, name: string, conditions: seq<seq<Val>>) {
    (forall row :: row in rows ==> "oid" in row && column in row) && |conditions| == |rows| &&
    forall i :: 0 <= i < |rows| ==> conditions[i] == [Equal3(rows[i][column], Str(name))]
  }

  lemma KeptStep(path: seq<string>, rows: seq<TableRow>, column: string, name: string, scope: Scope,
                 conditions: seq<seq<Val>>)
    requires rows != [] && Compares(rows, column, name, conditions)
    ensures var rest := Kept(Bound(path, rows[1..], scope), conditions[1..]);
            Kept(Bound(path, rows, scope), conditions) ==
            (if rows[0][column] == Str(name) then [Bound(path, rows, scope)[0]] else []) + rest
    ensures Compares(rows[1..], column, name, conditions[1..])
  {
    hide *;
    ComparesStep(rows, column, name, conditions);
    BoundStep(path, rows, scope);
    KeptCons(Bound(path, rows, scope), conditions, Equal3(rows[0][column], Str(name)));
    EqualExactly(rows[0][column], Str(name));
  }

  lemma ComparesStep(rows: seq<TableRow>, column: string, name: string, conditions: seq<seq<Val>>)
    requires rows != [] && Compares(rows, column, name, conditions)
    ensures rows[0] in rows && column in rows[0] && |conditions| == |rows|
    ensures conditions[0] == [Equal3(rows[0][column], Str(name))] && Compares(rows[1..], column, name, conditions[1..])
  {
    hide Equal3;
    assert rows[0] in rows;
  }

  lemma BoundStep(path: seq<string>, rows: seq<TableRow>, scope: Scope)
    requires rows != []
    ensures |Bound(path, rows, scope)| == |rows| && Bound(path, rows, scope)[1..] == Bound(path, rows[1..], scope)
  {
    hide BindRow;
  }

  lemma KeptCons(scopes: seq<Scope>, conditions: seq<seq<Val>>, v: Val)
    requires |scopes| == |conditions| > 0 && conditions[0] == [v]
    ensures Kept(scopes, conditions) ==
            (if v == Bool(true) then [scopes[0]] else []) + Kept(scopes[1..], conditions[1..])
  {
    assert v in conditions[0];
  }

  lemma BoundOid(path: seq<string>, rows: seq<TableRow>, scope: Scope)
    requires rows != [] && "oid" in rows[0]
    ensures Lookup(Bound(path, rows, scope)[0], ["oid"]) == rows[0]["oid"]
  {
  }

  lemma NamedStep(rows: seq<TableRow>, column: string, name: string)
    requires rows != [] && column in rows[0]
    ensures RowsNamed(rows, column, name) ==
            (if rows[0][column] == Str(name) then [rows[0]] else []) + RowsNamed(rows[1..], column, name)
  {
  }

  lemma NamedNone(column: string, name: string, path: seq<string>, scope: Scope)
    ensures RowsNamed([], column, name) == [] && Bound(path, [], scope) == [] && Kept([], []) == []
  {
  }

  lemma RestNamed(rows: seq<TableRow>, column: string)
    requires rows != [] && Named(rows, column)
    ensures "oid" in rows[0] && column in rows[0] && Named(rows[1..], column)
  {
    assert rows[0] in rows;
  }

  /** The scopes that are kept show the oids of the rows of that name. */
  lemma {:induction false} KeptMatches(path: seq<string>, rows: seq<TableRow>, column: string, name: string,
                                       scope: Scope, conditions: seq<seq<Val>>)
    requires Named(rows, column) && Compares(rows, column, name, conditions)
    requires |conditions| == |rows| && |Bound(path, rows, scope)| == |rows|
    ensures ShowOids(Kept(Bound(path, rows, scope), conditions), ["oid"], RowsNamed(rows, column, name))
    decreases |rows|
  {
    hide *;
    ShowNone(["oid"]);
    if rows == [] {
      NamedNone(column, name, path, scope);
      assert conditions == [];
    } else {
      RestNamed(rows, column);
      NamedStep(rows, column, name);
      BoundStep(path, rows, scope);
      BoundOid(path, rows, scope);
      KeptStep(path, rows, column, name, scope, conditions);
      KeptMatches(path, rows[1..], column, name, scope, conditions[1..]);
      var bound, named := Bound(path, rows, scope), rows[0][column] == Str(name);
      ShowOne(bound[0], ["oid"], rows[0]);
      ShowConcat(if named then [bound[0]] else [], Kept(Bound(path, rows[1..], scope), conditions[1..]), ["oid"],
                 if named then [rows[0]] else [], RowsNamed(rows[1..], column, name));
    }
  }

  lemma EvalCondition(sem: Sem, path: seq<string>, row: TableRow, column: string, operand: Node, name: string,
                      scope: Scope)
    requires column in row && forall s :: Eval(sem, operand, s) == Str(name)
    ensures EvalAll(sem, [Compare(Name(column), Eq, operand)], scope + BindRow(path, None, row)) ==
            [Equal3(row[column], Str(name))]
  {
    var s := scope + BindRow(path, None, row);
    EvalPair(sem, Name(column), operand, s);
    EvalPair(sem, Compare(Name(column), Eq, operand), operand, s);
    assert Lookup(s, [column]) == row[column];
  }

  lemma EvalOidItem(sem: Sem, scope: Scope)
    ensures Eval(sem, Node(Projection, [Node(Item(None), [Name("oid")])]), scope) ==
            Row([Cell(Some("oid"), Lookup(scope, ["oid"]))])
  {
    EvalPair(sem, Name("oid"), Name("oid"), scope);
    EvalPair(sem, Node(Item(None), [Name("oid")]), Name("oid"), scope);
  }

  lemma EvalMatches(sem: Sem, path: seq<string>, rows: seq<TableRow>, column: string, operand: Node,
                    name: string, scope: Scope)
    returns (conditions: seq<seq<Val>>)
    requires Named(rows, column) && forall s :: Eval(sem, operand, s) == Str(name)
    ensures var bound := Bound(path, rows, scope);
            conditions ==
              seq(|bound|, i requires 0 <= i < |bound| => EvalAll(sem, [Compare(Name(column), Eq, operand)], bound[i]))
    ensures Compares(rows, column, name, conditions)
  {
    var bound := Bound(path, rows, scope);
    conditions :=
      seq(|bound|, i requires 0 <= i < |bound| => EvalAll(sem, [Compare(Name(column), Eq, operand)], bound[i]));
    hide Eval, EvalAll;
    forall i | 0 <= i < |rows| ensures IsNamed(rows[i], column) { assert rows[i] in rows; }
    forall i | 0 <= i < |rows| ensures conditions[i] == [Equal3(rows[i][column], Str(name))] {
      EvalCondition(sem, path, rows[i], column, operand, name, scope);
    }
  }

  lemma EvalSelectLookup(sem: Sem, table: string, column: string, operand: Node, scope: Scope,
                         conditions: seq<seq<Val>>)
    requires var path := ["pg_catalog", table]; var bound := Bound(path, TableRows(sem, path), scope);
             conditions ==
               seq(|bound|, i requires 0 <= i < |bound| => EvalAll(sem, [Compare(Name(column), Eq, operand)], bound[i]))
    ensures var path := ["pg_catalog", table];
            Eval(sem, LookupQuery(table, column, operand).kids[0], scope) ==
            Rows(OidCells(Kept(Bound(path, TableRows(sem, path), scope), conditions), ["oid"]))
  {
    var path := ["pg_catalog", table];
    var select, bound := LookupQuery(table, column, operand).kids[0], Bound(path, TableRows(sem, path), scope);
    EvalFromTable(sem, path, scope);
    assert select.kids[2..] == [Compare(Name(column), Eq, operand)];
    var kept := Kept(bound, conditions);
    assert Eval(sem, select, scope) ==
           Rows(seq(|kept|, i requires 0 <= i < |kept| => Eval(sem, select.kids[0], kept[i])));
    hide Eval, Kept, Bound;
    forall i | 0 <= i < |kept| ensures Eval(sem, select.kids[0], kept[i]) == OidCells(kept, ["oid"])[i] {
      EvalOidItem(sem, kept[i]);
    }
    assert seq(|kept|, i requires 0 <= i < |kept| => Eval(sem, select.kids[0], kept[i])) == OidCells(kept, ["oid"]);
  }

  lemma EvalScalar(sem: Sem, table: string, column: string, operand: Node, scope: Scope)
    ensures Eval(sem, Node(Subquery, [LookupQuery(table, column, operand)]), scope)
         == Scalar(Eval(sem, LookupQuery(table, column, operand).kids[0], scope))
  {
    var query := LookupQuery(table, column, operand);
    assert query == Node(Query(false, false), [query.kids[0]]);
    hide *;
    EvalSubquery(sem, query.kids[0], scope);
  }

  /** The instantiated template finds the rows of that name: NULL if there is none, an error if there are several. */
  lemma EvalLookup(sem: Sem, table: string, column: string, operand: Node, name: string, scope: Scope)
    requires Named(TableRows(sem, ["pg_catalog", table]), column)
    requires forall s :: Eval(sem, operand, s) == Str(name)
    ensures Eval(sem, Node(Subquery, [LookupQuery(table, column, operand)]), scope)
         == OneOid(RowsNamed(TableRows(sem, ["pg_catalog", table]), column, name))
  {
    hide *;
    var path := ["pg_catalog", table];
    var rows := TableRows(sem, path);
    var conditions := EvalMatches(sem, path, rows, column, operand, name, scope);
    BoundLength(path, rows, scope);
    ComparesLength(rows, column, name, conditions);
    EvalSelectLookup(sem, table, column, operand, scope, conditions);
    KeptMatches(path, rows, column, name, scope, conditions);
    EvalScalar(sem, table, column, operand, scope);
    ScalarOid(Kept(Bound(path, rows, scope), conditions), ["oid"], RowsNamed(rows, column, name));
  }

  lemma BoundLength(path: seq<string>, rows: seq<TableRow>, scope: Scope)
    ensures |Bound(path, rows, scope)| == |rows|
  {
  }

  lemma ComparesLength(rows: seq<TableRow>, column: string, name: string, conditions: seq<seq<Val>>)
    requires Compares(rows, column, name, conditions)
    ensures |conditions| == |rows|
  {
  }

  /** The first of them is what the cast means, so the template finds it exactly when there is no second. */
  lemma {:induction false} NameExactly(rows: seq<TableRow>, column: string, name: string)
    requires Named(rows, column)
    ensures var named := RowsNamed(rows, column, name);
            FindOid(rows, column, name) == (if named == [] then Unknown else OneOid(named[..1])) &&
            (OneOid(named) == FindOid(rows, column, name) <==> |named| <= 1) &&
            forall row :: row in named ==> IsNamed(row, column)
  {
    if rows != [] {
      assert rows[0] in rows && IsNamed(rows[0], column);
      NameExactly(rows[1..], column, name);
    }
  }

  // ---------- When a relation's name is not ambiguous ----------

  /** All relations of that name in the namespace. */
  function RelationsNamed(rels: seq<TableRow>, namespace: Val, name: string): seq<TableRow> {
    if rels == [] then []
    else
      (if IsRelation(rels[0]) && rels[0]["relname"] == Str(name) && rels[0]["relnamespace"] == namespace then [rels[0]]
       else []) + RelationsNamed(rels[1..], namespace, name)
  }

  lemma {:induction false} NamedMember(rows: seq<TableRow>, column: string, name: string, row: TableRow)
    requires row in rows && column in row && row[column] == Str(name)
    ensures row in RowsNamed(rows, column, name)
  {
    if row != rows[0] { NamedMember(rows[1..], column, name, row); }
  }

  lemma {:induction false} WithBound(sem: Sem, rel: TableRow, nss: seq<TableRow>, parts: seq<string>)
    requires StandardOperators(sem) && IsRelation(rel) && Named(nss, "nspname") && 1 <= |parts| <= 2
    requires AskedSchema(sem, parts).Str?
    ensures |AskedWith(sem, rel, nss, parts)| <= |RowsNamed(nss, "nspname", AskedSchema(sem, parts).s)|
    decreases |nss|
  {
    RelationHasOid(rel);
    if nss != [] {
      RestNamed(nss, "nspname");
      NamedStep(nss, "nspname", AskedSchema(sem, parts).s);
      hide *;
      AskedWithStep(sem, rel, nss, parts);
      NamespaceHasName(nss[0]);
      PairValues(sem, rel, nss[0], parts);
      WithBound(sem, rel, nss[1..], parts);
    }
  }

  /** The only namespace of that name is the first. */
  lemma OnlyNamespace(nss: seq<TableRow>, schema: string, ns: TableRow)
    requires Named(nss, "nspname") && |RowsNamed(nss, "nspname", schema)| <= 1
    requires ns in nss && IsNamespace(ns) && "nspname" in ns && "oid" in ns && ns["nspname"] == Str(schema)
    ensures FindOid(nss, "nspname", schema) == ns["oid"]
  {
    hide *;
    NameExactly(nss, "nspname", schema);
    NamedMember(nss, "nspname", schema, ns);
    var named := RowsNamed(nss, "nspname", schema);
    OneOidIs(named[..1]);
    assert named == [named[0]] && named[..1] == named;
  }

  lemma RelationsNamedStep(rels: seq<TableRow>, namespace: Val, name: string)
    requires rels != [] && IsRelation(rels[0])
    ensures RelationsNamed(rels, namespace, name) ==
            (if rels[0]["relname"] == Str(name) && rels[0]["relnamespace"] == namespace then [rels[0]] else []) +
            RelationsNamed(rels[1..], namespace, name)
  {
  }

  /** One relation, with the one namespace of the schema's name. */
  lemma WithOnly(sem: Sem, rel: TableRow, parts: seq<string>)
    requires StandardOperators(sem) && IsRelation(rel) && Named(TableRows(sem, NAMESPACES), "nspname")
    requires 1 <= |parts| <= 2 && AskedSchema(sem, parts).Str?
    requires |RowsNamed(TableRows(sem, NAMESPACES), "nspname", AskedSchema(sem, parts).s)| <= 1
    ensures "relname" in rel && "relnamespace" in rel
    ensures |AskedWith(sem, rel, TableRows(sem, NAMESPACES), parts)| <= 1
    ensures AskedWith(sem, rel, TableRows(sem, NAMESPACES), parts) != [] ==>
              rel["relname"] == Str(parts[|parts| - 1]) && rel["relnamespace"] == AskedNamespace(sem, parts)
  {
    hide *;
    var nss := TableRows(sem, NAMESPACES);
    RelationHasOid(rel);
    WithBound(sem, rel, nss, parts);
    WithMember(sem, rel, nss, parts);
    if AskedWith(sem, rel, nss, parts) != [] {
      var ns :| ns in nss && IsNamespace(ns) && Pairs(sem, rel, ns, parts);
      NamespaceHasName(ns);
      PairValues(sem, rel, ns, parts);
      OnlyNamespace(nss, AskedSchema(sem, parts).s, ns);
      RelationOidIs(sem, parts);
    }
  }

  lemma {:induction false} AskedBound(sem: Sem, rels: seq<TableRow>, parts: seq<string>)
    requires StandardOperators(sem) && Relations(rels) && Named(TableRows(sem, NAMESPACES), "nspname")
    requires 1 <= |parts| <= 2 && AskedSchema(sem, parts).Str?
    requires |RowsNamed(TableRows(sem, NAMESPACES), "nspname", AskedSchema(sem, parts).s)| <= 1
    ensures |AskedRows(sem, rels, TableRows(sem, NAMESPACES), parts)| <=
            |RelationsNamed(rels, AskedNamespace(sem, parts), parts[|parts| - 1])|
    ensures forall row :: row in AskedRows(sem, rels, TableRows(sem, NAMESPACES), parts) ==>
              IsRelation(row) && "relnamespace" in row && row["relnamespace"] == AskedNamespace(sem, parts)
    decreases |rels|
  {
    hide *;
    var nss := TableRows(sem, NAMESPACES);
    if rels == [] {
      AskedRowsNone(sem, nss, parts);
    } else {
      AskedRowsStep(sem, rels, nss, parts);
      WithOnly(sem, rels[0], parts);
      WithMember(sem, rels[0], nss, parts);
      RelationsNamedStep(rels, AskedNamespace(sem, parts), parts[|parts| - 1]);
      AskedBound(sem, rels[1..], parts);
    }
  }

  /** A name is not ambiguous if there is at most one namespace of the schema's name and at most one relation of its
      last part in it; nothing else in the catalog matters. */
  lemma OneOfEach(sem: Sem, parts: seq<string>)
    requires StandardOperators(sem) && Relations(TableRows(sem, CLASSES))
    requires Named(TableRows(sem, NAMESPACES), "nspname")
    requires 1 <= |parts| <= 2 && AskedSchema(sem, parts).Str?
    requires |RowsNamed(TableRows(sem, NAMESPACES), "nspname", AskedSchema(sem, parts).s)| <= 1
    requires |RelationsNamed(TableRows(sem, CLASSES), AskedNamespace(sem, parts), parts[|parts| - 1])| <= 1
    ensures OneRelationAsked(sem, parts)
  {
    hide *;
    AskedBound(sem, TableRows(sem, CLASSES), parts);
    AskedRelationsIs(sem, parts);
    OneAskedIs(sem, parts);
    var rows := AskedRelations(sem, parts);
    if rows != [] { assert rows[0] in rows; }
  }

  // ---------- The pass ----------

  /** The catalog tables have their columns, and the functions in the templates are the usual ones. */
  ghost predicate CatalogReady(sem: Sem) {
    Named(TableRows(sem, NAMESPACES), "nspname") &&
    Named(TableRows(sem, ["pg_catalog", "pg_type"]), "typname") &&
    Named(TableRows(sem, ["pg_catalog", "pg_proc"]), "proname") &&
    Relations(TableRows(sem, CLASSES)) && StandardOperators(sem)
  }

  /** The rows the lookup of a name finds; None where the name itself is malformed. */
  function RowsFound(sem: Sem, typeName: string, name: string): Option<seq<TableRow>> {
    if CatalogOf(typeName).Some? then
      var (table, column) := CatalogOf(typeName).value;
      Some(RowsNamed(TableRows(sem, ["pg_catalog", table]), column, name))
    else
      match NameParts(sem, name) case Some(parts) => Some(AskedRelations(sem, parts)) case None => None
  }

  /** The lookup of a name is not ambiguous. */
  predicate Unambiguous(sem: Sem, typeName: string, name: string) {
    if CatalogOf(typeName).Some? then
      var (table, column) := CatalogOf(typeName).value;
      |RowsNamed(TableRows(sem, ["pg_catalog", table]), column, name)| <= 1
    else
      match NameParts(sem, name) case Some(parts) => OneRelationAsked(sem, parts) case None => false
  }

  lemma NameTemplate(sem: Sem, typeName: string, name: string)
    requires CatalogReady(sem) && CatalogOf(typeName).Some?
    ensures var (table, column) := CatalogOf(typeName).value; var rows := TableRows(sem, ["pg_catalog", table]);
            Named(rows, column) && Template(typeName) == Some(NameLookup(table, column)) &&
            LookedUp(sem, typeName, name) == Some(FindOid(rows, column, name)) &&
            RowsFound(sem, typeName, name) == Some(RowsNamed(rows, column, name)) &&
            (Unambiguous(sem, typeName, name) <==> |RowsNamed(rows, column, name)| <= 1)
  {
    hide Named, StandardOperators, Relations, FindOid, RowsNamed;
  }

  lemma RegclassTemplate(sem: Sem, typeName: string, name: string)
    requires CatalogReady(sem) && CatalogOf(typeName).None? && Template(typeName).Some?
    ensures StandardOperators(sem) && Relations(TableRows(sem, CLASSES)) && Named(TableRows(sem, NAMESPACES), "nspname")
    ensures Template(typeName).value == REGCLASS_QUERY
    ensures RowsFound(sem, typeName, name).Some? <==> NameParts(sem, name).Some?
    ensures LookedUp(sem, typeName, name).Some? <==> NameParts(sem, name).Some?
    ensures NameParts(sem, name).Some? ==>
            var parts := NameParts(sem, name).value;
            LookedUp(sem, typeName, name).value == RelationOid(sem, parts) &&
            RowsFound(sem, typeName, name).value == AskedRelations(sem, parts) &&
            (Unambiguous(sem, typeName, name) <==> OneRelationAsked(sem, parts))
  {
    hide Named, StandardOperators, Relations, RelationOid, NameParts, AskedRelations, OneRelationAsked;
  }

  /** An instantiated template finds the rows its operand names. */
  lemma EvalTemplate(sem: Sem, typeName: string, operand: Node, name: string, scope: Scope)
    requires CatalogReady(sem) && Template(typeName).Some? && RowsFound(sem, typeName, name).Some?
    requires forall s :: Eval(sem, operand, s) == Str(name)
    ensures Eval(sem, Node(Subquery, [Substitute(Template(typeName).value, operand)]), scope) ==
            OneOid(RowsFound(sem, typeName, name).value)
  {
    hide *;
    if CatalogOf(typeName).Some? {
      var (table, column) := CatalogOf(typeName).value;
      NameTemplate(sem, typeName, name);
      SubstituteLookup(table, column, operand);
      EvalLookup(sem, table, column, operand, name, scope);
    } else {
      RegclassTemplate(sem, typeName, name);
      SubstituteRegclass(operand);
      EvalRegclass(sem, operand, name, NameParts(sem, name).value, scope);
      AskedRelationsIs(sem, NameParts(sem, name).value);
    }
  }

  /** The lookup finds what the cast means exactly when it is not ambiguous. */
  lemma LookupExactly(sem: Sem, typeName: string, name: string)
    requires CatalogReady(sem) && Template(typeName).Some? && RowsFound(sem, typeName, name).Some?
    ensures LookedUp(sem, typeName, name).Some?
    ensures OneOid(RowsFound(sem, typeName, name).value) == LookedUp(sem, typeName, name).value <==>
            Unambiguous(sem, typeName, name)
  {
    hide *;
    if CatalogOf(typeName).Some? {
      var (table, column) := CatalogOf(typeName).value;
      NameTemplate(sem, typeName, name);
      NameExactly(TableRows(sem, ["pg_catalog", table]), column, name);
    } else {
      RegclassTemplate(sem, typeName, name);
      RelationExactly(sem, NameParts(sem, name).value);
    }
  }

  /** The string a name operand stands for. */
  function OperandName(sem: Sem, operand: Node): Option<string> {
    match operand.kind
    case Value(Text(s)) => Some(s)
    case Value(Placeholder(id)) => if sem.params(id).Str? then Some(sem.params(id).s) else None
    case _ => None
  }

  /** What a cast must satisfy to keep its value: its operand is a well-formed and unambiguous name, or a numeral; a
      placeholder bound to a numeral names one row, which has that very number as its oid. */
  predicate Resolves(sem: Sem, cast: Node)
    requires IsNameCast(cast)
  {
    var operand, typeName := cast.kids[0], NormalizeTypeName(cast.kind.dataType);
    NumericText(operand) ||
    match OperandName(sem, operand)
    case None => false
    case Some(name) =>
      RowsFound(sem, typeName, name).Some? &&
      if NumericString(name) then OneOid(RowsFound(sem, typeName, name).value) == Int(ParseNat(name))
      else Unambiguous(sem, typeName, name)
  }

  predicate CastsResolve(sem: Sem, n: Node) {
    (IsNameCast(n) ==> Resolves(sem, n)) && forall m :: m in n.kids ==> CastsResolve(sem, m)
  }

  lemma OperandEval(sem: Sem, operand: Node, s: Scope)
    requires IsNameOperand(operand)
    ensures OperandName(sem, operand).Some? ==> Eval(sem, operand, s) == Str(OperandName(sem, operand).value)
  {
  }

  lemma CastEval(sem: Sem, cast: Node, name: string, scope: Scope)
    requires IsNameCast(cast) && OperandName(sem, cast.kids[0]) == Some(name)
    ensures Eval(sem, cast, scope) == CastValue(sem, cast.kind.dataType, Str(name))
  {
    var operand := cast.kids[0];
    assert cast.kids == [operand];
    OperandEval(sem, operand, scope);
    EvalPair(sem, operand, operand, scope);
    hide CastValue;
  }

  /** A numeral as a literal is the number; anything else is looked up. */
  lemma VisitedEval(sem: Sem, cast: Node, name: string, scope: Scope)
    requires CatalogReady(sem) && IsNameCast(cast) && OperandName(sem, cast.kids[0]) == Some(name)
    requires !NumericText(cast.kids[0]) ==> RowsFound(sem, NormalizeTypeName(cast.kind.dataType), name).Some?
    ensures Eval(sem, VisitRegCast(cast), scope) ==
            if NumericText(cast.kids[0]) then Int(ParseNat(name))
            else OneOid(RowsFound(sem, NormalizeTypeName(cast.kind.dataType), name).value)
  {
    var operand, typeName := cast.kids[0], NormalizeTypeName(cast.kind.dataType);
    CastParts(cast);
    hide *;
    VisitedShape(sem, cast, name);
    if NumericText(operand) {
      EvalNumeral(sem, name, scope);
    } else {
      forall s ensures Eval(sem, operand, s) == Str(name) { OperandEval(sem, operand, s); }
      EvalTemplate(sem, typeName, operand, name, scope);
    }
  }

  lemma CastParts(cast: Node)
    requires IsNameCast(cast)
    ensures cast.kind.Cast? && |cast.kids| == 1 && IsNameOperand(cast.kids[0])
    ensures Template(NormalizeTypeName(cast.kind.dataType)).Some?
  {
  }

  lemma VisitedShape(sem: Sem, cast: Node, name: string)
    requires IsNameCast(cast) && OperandName(sem, cast.kids[0]) == Some(name)
    ensures VisitRegCast(cast) ==
            if NumericText(cast.kids[0]) then Lit(Number(name))
            else Node(Subquery, [Substitute(Template(NormalizeTypeName(cast.kind.dataType)).value, cast.kids[0])])
    ensures NumericText(cast.kids[0]) ==> AllDigits(name) && NumericString(name)
  {
    hide Template, NormalizeTypeName, Substitute;
  }

  lemma EvalNumeral(sem: Sem, name: string, scope: Scope)
    requires AllDigits(name)
    ensures Eval(sem, Lit(Number(name)), scope) == Int(ParseNat(name))
  {
  }

  lemma NumericOperand(sem: Sem, operand: Node)
    requires IsNameOperand(operand) && NumericText(operand)
    ensures OperandName(sem, operand).Some? && NumericString(OperandName(sem, operand).value)
  {
  }

  /** The value of the cast itself, when its name is well-formed. */
  lemma CastMeaning(sem: Sem, dataType: string, name: string)
    requires Template(NormalizeTypeName(dataType)).Some?
    ensures var looked := LookedUp(sem, NormalizeTypeName(dataType), name);
            CastValue(sem, dataType, Str(name)) ==
            if NumericString(name) then Int(ParseNat(name)) else if looked.Some? then looked.value
              else sem.apply(Cast(dataType), [Str(name)])
  {
    hide LookedUp, Template, NormalizeTypeName;
  }

  /** What Resolves asks, given the string. */
  lemma ResolvesIs(sem: Sem, cast: Node, name: string)
    requires IsNameCast(cast) && OperandName(sem, cast.kids[0]) == Some(name)
    ensures var found := RowsFound(sem, NormalizeTypeName(cast.kind.dataType), name);
            Resolves(sem, cast) <==>
            NumericText(cast.kids[0]) ||
            (found.Some? &&
             if NumericString(name) then OneOid(found.value) == Int(ParseNat(name))
             else Unambiguous(sem, NormalizeTypeName(cast.kind.dataType), name))
  {
    hide RowsFound, Unambiguous, NormalizeTypeName, OneOid, NumericText;
  }

  lemma ResolvesName(sem: Sem, cast: Node) returns (name: string)
    requires IsNameCast(cast) && Resolves(sem, cast)
    ensures OperandName(sem, cast.kids[0]) == Some(name)
    ensures NumericText(cast.kids[0]) || RowsFound(sem, NormalizeTypeName(cast.kind.dataType), name).Some?
  {
    if NumericText(cast.kids[0]) { NumericOperand(sem, cast.kids[0]); }
    name := OperandName(sem, cast.kids[0]).value;
    hide RowsFound, Unambiguous, NormalizeTypeName, OneOid;
  }

  lemma LookupReadAlike(sem: Sem, cast: Node)
    requires IsNameCast(cast)
    ensures Label(VisitRegCast(cast)) == Label(cast) && ArrayText(sem, VisitRegCast(cast)) == ArrayText(sem, cast)
  {
    hide Substitute, Template, NormalizeTypeName;
  }

  lemma RegCastVisit(sem: Sem, n: Node)
    requires CatalogReady(sem) && (IsNameCast(n) ==> Resolves(sem, n))
    ensures Same(sem, n, VisitRegCast(n))
  {
    hide *;
    if IsNameCast(n) {
      var name := ResolvesName(sem, n);
      LookupReadAlike(sem, n);
      forall scope ensures Eval(sem, n, scope) == Eval(sem, VisitRegCast(n), scope) {
        CastExactly(sem, n, name, scope);
      }
    } else {
      NotVisited(n);
    }
    SameBy(sem, n, VisitRegCast(n));
  }

  lemma NotVisited(n: Node)
    requires !IsNameCast(n)
    ensures VisitRegCast(n) == n
  {
  }

  lemma VisitIsRegCast(n: Node)
    ensures Visit(RegCast, n) == VisitRegCast(n)
  {
    hide VisitRegCast;
  }

  lemma ResolvesHere(sem: Sem, n: Node)
    requires CastsResolve(sem, n)
    ensures IsNameCast(n) ==> Resolves(sem, n)
  {
    hide Resolves;
  }

  lemma CleanIsNoCast(n: Node)
    requires VisitRegCast(n) == n
    ensures !IsNameCast(n)
  {
  }

  lemma {:induction false} CleanResolves(sem: Sem, n: Node)
    requires Clean(RegCast, n)
    ensures CastsResolve(sem, n)
  {
    hide Resolves, CatalogReady;
    CleanIsNoCast(n);
    forall m | m in n.kids ensures CastsResolve(sem, m) { CleanResolves(sem, m); }
  }

  lemma VisitedResolve(sem: Sem, n: Node)
    requires CastsResolve(sem, n)
    ensures forall m :: m in VisitRegCast(n).kids ==> CastsResolve(sem, m)
  {
    var r := VisitRegCast(n);
    if IsNameCast(n) && r.kind.Subquery? {
      var typeName := NormalizeTypeName(n.kind.dataType);
      TemplateCastFree(typeName);
      SubstituteClean(Template(typeName).value, n.kids[0]);
      hide CastsResolve, Resolves, Substitute, Clean;
      assert forall m :: m in r.kids ==> Clean(RegCast, m);
      forall m | m in r.kids ensures CastsResolve(sem, m) { CleanResolves(sem, m); }
    }
  }

  lemma {:induction false} RegCastSteady(sem: Sem, n: Node)
    requires CatalogReady(sem) && CastsResolve(sem, n)
    ensures Steady(RegCast, sem, n)
    decreases Redexes(RegCast, n), n
  {
    hide *;
    var m := Visit(RegCast, n);
    VisitIsRegCast(n);
    ResolvesHere(sem, n);
    RegCastVisit(sem, n);
    VisitedResolve(sem, n);
    forall i | 0 <= i < |m.kids| ensures Steady(RegCast, sem, m.kids[i]) {
      ChildSmaller(RegCast, n, i);
      assert m.kids[i] in m.kids;
      RegCastSteady(sem, m.kids[i]);
    }
    SteadyStep(RegCast, sem, n);
  }

  /** Every forward cast keeps its value: numerals as numbers, names as lookups. */
  lemma RegCastPreserves(sem: Sem, n: Node, scope: Scope)
    requires CatalogReady(sem) && CastsResolve(sem, n)
    ensures Eval(sem, Walk(RegCast, n), scope) == Eval(sem, n, scope)
  {
    RegCastSteady(sem, n);
    WalkPreserves(RegCast, sem, n);
  }

  /** A cast of a well-formed name keeps its value exactly when it resolves. */
  lemma CastExactly(sem: Sem, cast: Node, name: string, scope: Scope)
    requires CatalogReady(sem) && IsNameCast(cast) && OperandName(sem, cast.kids[0]) == Some(name)
    requires NumericText(cast.kids[0]) || RowsFound(sem, NormalizeTypeName(cast.kind.dataType), name).Some?
    ensures Eval(sem, VisitRegCast(cast), scope) == Eval(sem, cast, scope) <==> Resolves(sem, cast)
  {
    hide *;
    CastParts(cast);
    CastEval(sem, cast, name, scope);
    VisitedEval(sem, cast, name, scope);
    VisitedShape(sem, cast, name);
    CastMeaning(sem, cast.kind.dataType, name);
    ResolvesIs(sem, cast, name);
    if !NumericText(cast.kids[0]) { LookupExactly(sem, NormalizeTypeName(cast.kind.dataType), name); }
  }

  /** An overloaded name, as `'max'::regproc`, means the first row of that name, and its lookup is an error. */
  lemma OverloadedName(sem: Sem, cast: Node, name: string, scope: Scope)
    requires CatalogReady(sem) && IsNameCast(cast) && OperandName(sem, cast.kids[0]) == Some(name)
    requires !NumericString(name) && CatalogOf(NormalizeTypeName(cast.kind.dataType)).Some?
    requires var (table, column) := CatalogOf(NormalizeTypeName(cast.kind.dataType)).value;
             |RowsNamed(TableRows(sem, ["pg_catalog", table]), column, name)| > 1
    ensures Eval(sem, VisitRegCast(cast), scope) == Error && Eval(sem, cast, scope).Int?
  {
    hide *;
    CastParts(cast);
    var typeName := NormalizeTypeName(cast.kind.dataType);
    var (table, column) := CatalogOf(typeName).value;
    var rows := RowsNamed(TableRows(sem, ["pg_catalog", table]), column, name);
    CastEval(sem, cast, name, scope);
    NameTemplate(sem, typeName, name);
    VisitedEval(sem, cast, name, scope);
    VisitedShape(sem, cast, name);
    CastMeaning(sem, cast.kind.dataType, name);
    NameExactly(TableRows(sem, ["pg_catalog", table]), column, name);
    OneOidIs(rows);
    OneOidIs(rows[..1]);
    assert rows[0] in rows;
    NamedHasOid(rows[0], column);
  }

  lemma NamedHasOid(row: TableRow, column: string)
    requires IsNamed(row, column)
    ensures "oid" in row && row["oid"].Int?
  {
  }

  // ---------- With a limit ----------

  lemma ScalarFirst(kept: seq<Scope>, key: seq<string>, rows: seq<TableRow>)
    requires ShowOids(kept, key, rows)
    ensures Scalar(FirstRows(Rows(OidCells(kept, key)), Int(1))) == if rows == [] then Unknown else OneOid(rows[..1])
  {
    hide Lookup;
    if rows != [] { assert Lookup(kept[0], key) == rows[0]["oid"]; }
  }

  lemma EvalLimited(sem: Sem, select: Node, scope: Scope)
    ensures Eval(sem, Node(Subquery, [AddLimit(Node(Query(false, false), [select]))]), scope) ==
            Scalar(FirstRows(Eval(sem, select, scope), Int(1)))
  {
    var one := Lit(Number("1"));
    var query := Node(Query(true, false), [select, one]);
    assert AddLimit(Node(Query(false, false), [select])) == query;
    hide *;
    EvalNumber(sem, scope);
    EvalPair(sem, select, one, scope);
    EvalPair(sem, query, query, scope);
    EvalLimit(sem, select, one, scope);
    EvalScalarOf(sem, query, scope);
  }

  lemma EvalLimit(sem: Sem, select: Node, limit: Node, scope: Scope)
    ensures Eval(sem, Node(Query(true, false), [select, limit]), scope) ==
            FirstRows(Eval(sem, select, scope), Eval(sem, limit, scope))
  {
    EvalPair(sem, select, limit, scope);
    EvalNode(sem, Query(true, false), [select, limit], scope);
    hide Eval, EvalAll, ArrayText, Label, FirstRows;
  }

  lemma EvalScalarOf(sem: Sem, query: Node, scope: Scope)
    ensures Eval(sem, Node(Subquery, [query]), scope) == Scalar(Eval(sem, query, scope))
  {
    EvalPair(sem, query, query, scope);
    EvalNode(sem, Subquery, [query], scope);
    hide Eval, EvalAll, ArrayText, Label, Scalar;
  }

  /** Stamped with LIMIT 1 the lookup of a name in a SELECT item finds what the cast means, overloaded or not. */
  lemma LimitedLookup(sem: Sem, table: string, column: string, operand: Node, name: string, scope: Scope)
    requires Named(TableRows(sem, ["pg_catalog", table]), column)
    requires forall s :: Eval(sem, operand, s) == Str(name)
    ensures Eval(sem, Node(Subquery, [AddLimit(LookupQuery(table, column, operand))]), scope)
         == FindOid(TableRows(sem, ["pg_catalog", table]), column, name)
  {
    var query := LookupQuery(table, column, operand);
    assert query == Node(Query(false, false), [query.kids[0]]);
    hide *;
    var path := ["pg_catalog", table];
    var rows := TableRows(sem, path);
    var conditions := EvalMatches(sem, path, rows, column, operand, name, scope);
    BoundLength(path, rows, scope);
    ComparesLength(rows, column, name, conditions);
    EvalSelectLookup(sem, table, column, operand, scope, conditions);
    KeptMatches(path, rows, column, name, scope, conditions);
    EvalLimited(sem, query.kids[0], scope);
    ScalarFirst(Kept(Bound(path, rows, scope), conditions), ["oid"], RowsNamed(rows, column, name));
    NameExactly(rows, column, name);
  }

  // ---------- Names by their parts ----------

  /** The first row of that name in the namespace. */
  function FindIn(rows: seq<TableRow>, column: string, name: string, link: string, namespace: Val): Val {
    if rows == [] || namespace.Unknown? then Unknown
    else if column in rows[0] && rows[0][column] == Str(name) && link in rows[0] && rows[0][link] == namespace then
      if "oid" in rows[0] then rows[0]["oid"] else Unknown
    else FindIn(rows[1..], column, name, link, namespace)
  }

  /** How PostgreSQL reads a name of the three types: alone, or for types and functions after a schema. */
  function ByParts(sem: Sem, typeName: string, parts: seq<string>): Val
    requires CatalogOf(typeName).Some?
  {
    var (table, column) := CatalogOf(typeName).value;
    var rows := TableRows(sem, ["pg_catalog", table]);
    if |parts| == 1 then FindOid(rows, column, parts[0])
    else if |parts| == 2 && typeName != "regnamespace" then
      FindIn(rows, column, parts[1], if typeName == "regtype" then "typnamespace" else "pronamespace",
             AskedNamespace(sem, parts))
    else Unknown
  }

  /** The lookup compares the name as it is written: that is the same where the name is its own only part. */
  lemma RawName(sem: Sem, typeName: string, name: string)
    requires CatalogOf(typeName).Some? && NameParts(sem, name) == Some([name])
    ensures LookedUp(sem, typeName, name) == Some(ByParts(sem, typeName, NameParts(sem, name).value))
  {
    hide FindOid, NameParts;
  }

  /** Any other name is looked for among rows of that very spelling. */
  lemma SpelledName(sem: Sem, typeName: string, name: string)
    requires CatalogReady(sem) && CatalogOf(typeName).Some?
    ensures var (table, column) := CatalogOf(typeName).value;
            LookedUp(sem, typeName, name) == Some(Unknown) <==>
            RowsNamed(TableRows(sem, ["pg_catalog", table]), column, name) == []
  {
    hide *;
    var (table, column) := CatalogOf(typeName).value;
    var rows := TableRows(sem, ["pg_catalog", table]);
    NameTemplate(sem, typeName, name);
    NameExactly(rows, column, name);
    var named := RowsNamed(rows, column, name);
    if named != [] {
      assert named[0] in named;
      NamedHasOid(named[0], column);
      OneOidIs(named[..1]);
    }
  }

  // ---------- Followed by the projection pass ----------

  predicate NamesOnly(aliases: set<string>, n: Node) {
    (n.kind.CompoundIdentifier? && n.kind.parts != [] ==> n.kind.parts[0] in aliases) &&
    forall m :: m in n.kids ==> NamesOnly(aliases, m)
  }

  /** An instantiated template counts as correlated only through a placeholder operand. */
  lemma {:induction false} SubstituteCorrelated(aliases: set<string>, n: Node, operand: Node)
    requires NamesOnly(aliases, n) && operand.kind.Value? && operand.kids == []
    ensures Correlated(aliases, Substitute(n, operand)) <==> IsPlaceholder(operand) && HasPlaceholder(n)
  {
    if !IsPlaceholder(n) {
      var r := Substitute(n, operand);
      forall i | 0 <= i < |n.kids|
        ensures Correlated(aliases, r.kids[i]) <==> IsPlaceholder(operand) && HasPlaceholder(n.kids[i])
      {
        assert n.kids[i] in n.kids;
        SubstituteCorrelated(aliases, n.kids[i], operand);
      }
      if IsPlaceholder(operand) && HasPlaceholder(n) {
        var m :| m in n.kids && HasPlaceholder(m);
        var i :| 0 <= i < |n.kids| && n.kids[i] == m;
        assert r.kids[i] in r.kids;
      }
      if Correlated(aliases, r) {
        var k :| k in r.kids && Correlated(aliases, k);
        var i :| 0 <= i < |r.kids| && r.kids[i] == k;
        assert n.kids[i] in n.kids;
      }
    }
  }

  lemma LookupShape(table: string, column: string)
    ensures var query := NameLookup(table, column);
            HasPlaceholder(query) && NamesOnly({}, query) && TableAliases(query.kids[0]) == {} &&
              FromPlain(query.kids[0])
  {
    var select := NameLookup(table, column).kids[0];
    var placeholder := select.kids[2].kids[1];
    assert placeholder in select.kids[2].kids && select.kids[2] in select.kids;
    assert HasPlaceholder(select.kids[2]) && HasPlaceholder(select);
    assert NamesOnly({}, select.kids[0]) && NamesOnly({}, select.kids[1]) && NamesOnly({}, select.kids[2]);
    assert NamesOnly({}, select);
  }

  lemma SubstituteAliases(select: Node, operand: Node)
    requires FromPlain(select)
    ensures TableAliases(Substitute(select, operand)) == TableAliases(select)
  {
    if |select.kids| >= 2 {
      var ts, ts' := select.kids[1].kids, Substitute(select.kids[1], operand).kids;
      forall i | 0 <= i < |ts| ensures ts'[i].kind == ts[i].kind {
        assert ts[i] in ts && !ts[i].kind.Value?;
        assert ts'[i] == Substitute(ts[i], operand);
      }
      FromAliases(ts, ts');
    }
  }

  lemma RegclassAliases()
    ensures TableAliases(REGCLASS_QUERY.kids[0]) == {"c", "n"}
  {
    var ts := REGCLASS_FROM.kids;
    assert ts[0] in ts && ts[1] in ts && ts[2].kind.Derived?;
    assert forall t :: t in ts ==> t == ts[0] || t == ts[1] || t == ts[2];
    assert ts[0].kind == Table(CLASSES, Some("c")) && ts[1].kind == Table(NAMESPACES, Some("n"));
    assert REGCLASS_QUERY.kids[0].kids[1] == REGCLASS_FROM && REGCLASS_FROM.kind.From?;
  }

  lemma RegclassShape()
    ensures var query := REGCLASS_QUERY;
            HasPlaceholder(query) && NamesOnly({"c", "n"}, query) && TableAliases(query.kids[0]) == {"c", "n"}
  {
    hide TableAliases, HasPlaceholder, NamesOnly, All;
    RegclassHasPlaceholder();
    RegclassKinds();
    KindsNames(REGCLASS_QUERY);
    RegclassAliases();
  }

  lemma HasInside(n: Node, kid: Node)
    requires kid in n.kids && HasPlaceholder(kid)
    ensures HasPlaceholder(n)
  {
  }

  lemma RegclassHasPlaceholder()
    ensures HasPlaceholder(REGCLASS_QUERY)
  {
    var cast := PARTS_ITEM.kids[0].kids[0];
    var parts := PARTS_QUERY.kids[0];
    assert HasPlaceholder(Lit(Placeholder("$1")));
    assert Lit(Placeholder("$1")) in cast.kids && cast in PARTS_ITEM.kids[0].kids &&
           PARTS_ITEM.kids[0] in PARTS_ITEM.kids;
    assert PARTS_ITEM in parts.kids[0].kids && parts.kids[0] in parts.kids && parts in PARTS_QUERY.kids;
    assert PARTS_QUERY in REGCLASS_FROM.kids[2].kids && REGCLASS_FROM.kids[2] in REGCLASS_FROM.kids;
    assert REGCLASS_FROM in REGCLASS_QUERY.kids[0].kids && REGCLASS_QUERY.kids[0] in REGCLASS_QUERY.kids;
    hide HasPlaceholder;
    HasInside(cast, Lit(Placeholder("$1")));
    HasInside(PARTS_ITEM.kids[0], cast);
    HasInside(PARTS_ITEM, PARTS_ITEM.kids[0]);
    HasInside(parts.kids[0], PARTS_ITEM);
    HasInside(parts, parts.kids[0]);
    HasInside(PARTS_QUERY, parts);
    HasInside(REGCLASS_FROM.kids[2], PARTS_QUERY);
    HasInside(REGCLASS_FROM, REGCLASS_FROM.kids[2]);
    HasInside(REGCLASS_QUERY.kids[0], REGCLASS_FROM);
    HasInside(REGCLASS_QUERY, REGCLASS_QUERY.kids[0]);
  }

  /** Qualified names in the templates are headed by one of the two aliases. */
  lemma {:induction false} KindsNames(n: Node)
    requires All(TemplateKind, n)
    ensures NamesOnly({"c", "n"}, n)
  {
    forall m | m in n.kids ensures NamesOnly({"c", "n"}, m) { KindsNames(m); }
  }

  lemma LookupCorrelation(table: string, column: string, operand: Node)
    requires IsNameOperand(operand)
    ensures HasCorrelation(Substitute(NameLookup(table, column), operand)) <==> IsPlaceholder(operand)
  {
    LookupShape(table, column);
    InstanceCorrelation({}, NameLookup(table, column), operand);
    hide HasCorrelation, Substitute, HasPlaceholder, NamesOnly, TableAliases;
  }

  lemma RegclassCorrelation(operand: Node)
    requires IsNameOperand(operand)
    ensures HasCorrelation(Substitute(REGCLASS_QUERY, operand)) <==> IsPlaceholder(operand)
  {
    RegclassShape();
    InstanceCorrelation({"c", "n"}, REGCLASS_QUERY, operand);
    hide HasCorrelation, Substitute, HasPlaceholder, NamesOnly, TableAliases;
  }

  lemma TemplateCases(typeName: string)
    requires Template(typeName).Some?
    ensures if CatalogOf(typeName).Some? then
              Template(typeName).value == NameLookup(CatalogOf(typeName).value.0, CatalogOf(typeName).value.1)
            else Template(typeName).value == REGCLASS_QUERY
  {
    hide NameLookup, REGCLASS_QUERY;
  }

  /** An instantiated template is correlated exactly when its operand is a placeholder. */
  lemma TemplateCorrelation(typeName: string, operand: Node)
    requires Template(typeName).Some? && IsNameOperand(operand)
    ensures HasCorrelation(Substitute(Template(typeName).value, operand)) <==> IsPlaceholder(operand)
  {
    hide *;
    TemplateCases(typeName);
    if CatalogOf(typeName).Some? {
      LookupCorrelation(CatalogOf(typeName).value.0, CatalogOf(typeName).value.1, operand);
    } else {
      RegclassCorrelation(operand);
    }
  }

  /** No relation of the FROM is a placeholder. */
  predicate FromPlain(select: Node) {
    select.kind.Select? &&
      (|select.kids| >= 2 ==> select.kids[1].kind.From? && forall t :: t in select.kids[1].kids ==> !t.kind.Value?)
  }

  lemma InstanceCorrelation(aliases: set<string>, query: Node, operand: Node)
    requires query.kind.Query? && |query.kids| == 1 && FromPlain(query.kids[0]) && IsNameOperand(operand)
    requires HasPlaceholder(query) && NamesOnly(aliases, query) && TableAliases(query.kids[0]) == aliases
    ensures HasCorrelation(Substitute(query, operand)) <==> IsPlaceholder(operand)
  {
    SubstituteCorrelated(aliases, query, operand);
    SubstituteAliases(query.kids[0], operand);
    assert Substitute(query, operand).kids[0] == Substitute(query.kids[0], operand);
    assert Substitute(query.kids[0], operand).kind == query.kids[0].kind;
    hide Correlated, TableAliases, HasPlaceholder, NamesOnly;
  }

  lemma CastVisit(cast: Node)
    requires IsNameCast(cast) && !NumericText(cast.kids[0])
    ensures VisitRegCast(cast) ==
            Node(Subquery, [Substitute(Template(NormalizeTypeName(cast.kind.dataType)).value, cast.kids[0])])
    ensures Template(NormalizeTypeName(cast.kind.dataType)).Some? && IsNameOperand(cast.kids[0])
  {
    hide Substitute, Template, NormalizeTypeName, NumericText, IsNameOperand;
  }

  lemma ItemVisit(alias: Option<string>, n: Node)
    ensures Walk(RegCast, Node(Item(alias), [n])) == Node(Item(alias), [Walk(RegCast, n)])
  {
    var item := Node(Item(alias), [n]);
    WalkNode(RegCast, item);
    assert Visit(RegCast, item) == item;
    hide Walk, Visit;
    assert Walk(RegCast, item).kids == [Walk(RegCast, n)];
  }

  lemma StampQuery(alias: Option<string>, query: Node)
    requires query.kind == Query(false, false) && |query.kids| == 1
    ensures StampItem(Node(Item(alias), [Node(Subquery, [query])])) ==
            Node(Item(alias), [if HasCorrelation(query) then Lit(Null) else Node(Subquery, [AddLimit(query)])])
  {
    hide HasCorrelation;
  }

  lemma SubstituteQuery(query: Node, operand: Node)
    requires query.kind.Query?
    ensures Substitute(query, operand).kind == query.kind && |Substitute(query, operand).kids| == |query.kids|
  {
  }

  /** The two passes in order: a SELECT item that casts a name becomes the lookup limited to one row,
      but one that casts a placeholder becomes NULL. */
  lemma CastItem(alias: Option<string>, dataType: string, operand: Node)
    requires IsNameCast(Node(Cast(dataType), [operand])) && !NumericText(operand)
    ensures var query := Substitute(Template(NormalizeTypeName(dataType)).value, operand);
            StampItem(Walk(RegCast, Node(Item(alias), [Node(Cast(dataType), [operand])]))) ==
            Node(Item(alias), [if IsPlaceholder(operand) then Lit(Null) else Node(Subquery, [AddLimit(query)])])
  {
    hide *;
    var cast, typeName := Node(Cast(dataType), [operand]), NormalizeTypeName(dataType);
    ItemVisit(alias, cast);
    WalkCast(cast);
    CastVisit(cast);
    TemplateIsQuery(typeName);
    TemplateCorrelation(typeName, operand);
    SubstituteQuery(Template(typeName).value, operand);
    StampQuery(alias, Substitute(Template(typeName).value, operand));
  }

  lemma TemplateIsQuery(typeName: string)
    requires Template(typeName).Some?
    ensures var query := Template(typeName).value; query.kind == Query(false, false) && |query.kids| == 1
  {
  }

  lemma WalkCast(cast: Node)
    requires IsNameCast(cast) && !NumericText(cast.kids[0])
    ensures Walk(RegCast, cast) == VisitRegCast(cast)
  {
    var typeName, r := NormalizeTypeName(cast.kind.dataType), VisitRegCast(cast);
    TemplateCastFree(typeName);
    SubstituteClean(Template(typeName).value, cast.kids[0]);
    WalkNode(RegCast, cast);
    WalkFixed(RegCast, r.kids[0]);
    assert Walk(RegCast, cast).kids == r.kids;
  }

  // ---------- A regclass cast inside a scalar subquery ----------

  predicate IsRegclassCast(n: Node) {
    IsNameCast(n) && !NumericText(n.kids[0]) && NormalizeTypeName(n.kind.dataType) == "regclass"
  }

  predicate HasRegclassCast(n: Node) {
    IsRegclassCast(n) || exists m :: m in n.kids && HasRegclassCast(m)
  }

  lemma CorrelatedInside(aliases: set<string>, n: Node, kid: Node)
    requires kid in n.kids && Correlated(aliases, kid)
    ensures Correlated(aliases, n)
  {
  }

  /** The lookup itself speaks of `c.oid`. */
  lemma LookupSpeaks(aliases: set<string>, operand: Node)
    requires "c" !in aliases
    ensures Correlated(aliases, Node(Subquery, [RegclassQuery(operand)]))
  {
    var query := RegclassQuery(operand);
    var select := query.kids[0];
    var item := select.kids[0].kids[0];
    assert Correlated(aliases, Column("c", "oid"));
    assert Column("c", "oid") in item.kids && item in select.kids[0].kids && select.kids[0] in select.kids;
    assert select in query.kids && query in [query];
    hide Correlated;
    CorrelatedInside(aliases, item, Column("c", "oid"));
    CorrelatedInside(aliases, select.kids[0], item);
    CorrelatedInside(aliases, select, select.kids[0]);
    CorrelatedInside(aliases, query, select);
    CorrelatedInside(aliases, Node(Subquery, [query]), query);
  }

  lemma RegclassShapeOf(n: Node)
    requires IsRegclassCast(n)
    ensures IsNameCast(n) && !NumericText(n.kids[0]) && |n.kids| == 1
    ensures VisitRegCast(n) == Node(Subquery, [RegclassQuery(n.kids[0])])
  {
    SubstituteRegclass(n.kids[0]);
    assert Template("regclass") == Some(REGCLASS_QUERY);
    hide Substitute, NormalizeTypeName;
  }

  lemma NotCastInside(n: Node)
    requires HasRegclassCast(n) && !IsRegclassCast(n)
    ensures VisitRegCast(n) == n && exists m :: m in n.kids && HasRegclassCast(m)
  {
    CastOverLeaf(n);
    NotVisited(n);
    hide IsRegclassCast, IsNameCast;
  }

  lemma CastOverLeaf(n: Node)
    ensures IsNameCast(n) && HasRegclassCast(n) ==> IsRegclassCast(n)
  {
    hide NormalizeTypeName, Template;
    if IsNameCast(n) {
      assert n.kids == [n.kids[0]] && n.kids[0].kids == [];
      assert !HasRegclassCast(n.kids[0]);
    }
  }

  /** Whatever holds a regclass cast counts as correlated once it is looked up, unless `c` is an alias there. */
  lemma {:induction false} RegclassCorrelates(aliases: set<string>, n: Node)
    requires HasRegclassCast(n) && "c" !in aliases
    ensures Correlated(aliases, Walk(RegCast, n))
    decreases n
  {
    hide *;
    WalkNode(RegCast, n);
    if IsRegclassCast(n) {
      RegclassShapeOf(n);
      WalkCast(n);
      LookupSpeaks(aliases, n.kids[0]);
    } else {
      NotCastInside(n);
      VisitIsRegCast(n);
      var m :| m in n.kids && HasRegclassCast(m);
      var i :| 0 <= i < |n.kids| && n.kids[i] == m;
      RegclassCorrelates(aliases, m);
      assert Walk(RegCast, n).kids[i] in Walk(RegCast, n).kids;
      CorrelatedInside(aliases, Walk(RegCast, n), Walk(RegCast, m));
    }
  }

  lemma OnlyCastsVisited(n: Node)
    requires !n.kind.Cast?
    ensures VisitRegCast(n) == n
  {
  }

  lemma WalkedTable(t: Node)
    ensures Walk(RegCast, t).kind.Table? || t.kind.Table? ==> Walk(RegCast, t).kind == t.kind
  {
    WalkNode(RegCast, t);
    hide Substitute, Template;
  }

  lemma AliasesBy(select: Node, r: Node)
    requires |r.kids| == |select.kids| && (|select.kids| >= 2 ==> (r.kids[1].kind.From? <==> select.kids[1].kind.From?))
    requires |select.kids| >= 2 && select.kids[1].kind.From? ==>
             |r.kids[1].kids| == |select.kids[1].kids| &&
             forall i :: 0 <= i < |select.kids[1].kids| ==>
               (r.kids[1].kids[i].kind.Table? || select.kids[1].kids[i].kind.Table? ==>
                  r.kids[1].kids[i].kind == select.kids[1].kids[i].kind)
    ensures TableAliases(r) == TableAliases(select)
  {
    if |select.kids| >= 2 && select.kids[1].kind.From? {
      var ts, ts' := select.kids[1].kids, r.kids[1].kids;
      forall i | 0 <= i < |ts| ensures ts[i] in ts && ts'[i] in ts' {}
    }
  }

  lemma WalkedFrom(from: Node)
    ensures Walk(RegCast, from).kind.From? <==> from.kind.From?
    ensures from.kind.From? ==>
              |Walk(RegCast, from).kids| == |from.kids| &&
              forall i :: 0 <= i < |from.kids| ==> Walk(RegCast, from).kids[i] == Walk(RegCast, from.kids[i])
  {
    WalkNode(RegCast, from);
    hide Substitute, Template;
  }

  lemma CastAliases(select: Node)
    requires select.kind.Select?
    ensures Walk(RegCast, select).kind.Select? && TableAliases(Walk(RegCast, select)) == TableAliases(select)
  {
    hide *;
    WalkNode(RegCast, select);
    OnlyCastsVisited(select);
    VisitIsRegCast(select);
    var r := Walk(RegCast, select);
    if |select.kids| >= 2 {
      WalkedFrom(select.kids[1]);
      forall t ensures Walk(RegCast, t).kind.Table? || t.kind.Table? ==> Walk(RegCast, t).kind == t.kind {
        WalkedTable(t);
      }
    }
    AliasesBy(select, r);
  }

  /** So a scalar subquery in a SELECT item that casts a name to regclass anywhere in it becomes NULL. */
  lemma RegclassDropsItem(item: Node)
    requires IsSubqueryItem(item) && item.kids[0].kids[0].kids[0].kind.Select?
    requires HasRegclassCast(item.kids[0].kids[0]) && "c" !in TableAliases(item.kids[0].kids[0].kids[0])
    ensures StampItem(Walk(RegCast, item)) == Node(item.kind, [Lit(Null)])
  {
    var sub := item.kids[0];
    var query := sub.kids[0];
    var select := query.kids[0];
    OnlyCastsVisited(item);
    OnlyCastsVisited(sub);
    OnlyCastsVisited(query);
    WalkNode(RegCast, item);
    WalkNode(RegCast, sub);
    WalkNode(RegCast, query);
    CastAliases(select);
    RegclassCorrelates(TableAliases(select), query);
    hide Walk, Correlated, TableAliases, HasRegclassCast, VisitRegCast;
    var r := Walk(RegCast, item);
    assert r.kids[0].kids[0] == Walk(RegCast, query) && HasCorrelation(Walk(RegCast, query));
  }
}
