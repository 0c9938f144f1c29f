/**
 A small catalog: the hypotheses of the preservation lemmas are met by it, and it holds the names on which the casts
 and what they are rewritten to part company.
 */
module SqlExamples {
  import opened Wrappers
  import opened Digits
  import opened SqlAst
  import opened SqlStrings
  import opened SqlRules
  import opened SqlVisitor
  import opened SqlNormalForms
  import opened SqlSemantics
  import opened SqlMeaning
  import opened SqlRegclass
  import opened SqlRegCast
  import opened SqlPipeline
  import opened SqlPreservation
  import opened SqlSelected
  import QuoteIdent

  const PROCS := ["pg_catalog", "pg_proc"]
  const TYPES := ["pg_catalog", "pg_type"]

  function Proc(oid: int, name: string): TableRow {
    map["oid" := Int(oid), "proname" := Str(name), "pronamespace" := Int(11)]
  }

  const SMALL_NAMESPACES := [map["oid" := Int(11), "nspname" := Str("pg_catalog")],
                             map["oid" := Int(2200), "nspname" := Str("public")]]
  const SMALL_CLASSES := [map["oid" := Int(16386), "relname" := Str("t"), "relnamespace" := Int(2200)]]
  const SMALL_PROCS := [Proc(750, "array_in"), Proc(2115, "max"), Proc(2116, "max")]

  /** The parts that parse_ident gives. */
  function IdentParts(name: string): seq<string> {
    match QuoteIdent.ParseIdentFunction(name, false) case Ok(parts) => parts case Err(_) => []
  }

  /** PostgreSQL's functions and operators, as far as the templates use them, over two schemas, one relation and three
      functions; `bare` says whether a collated literal is still one. */
  function SmallSem(bare: bool): Sem {
    Sem(
      map[NAMESPACES := SMALL_NAMESPACES, CLASSES := SMALL_CLASSES, PROCS := SMALL_PROCS],
      _ => Str("t"),
      (symbol: string, a: Val, b: Val) =>
        if symbol == "AND" then And3(a, b) else if symbol == "OR" then Or3(a, b) else Error,
      (kind: Kind, vals: seq<Val>) => SmallApply(kind, vals),
      _ => Row([]),
      bare)
  }

  function SmallApply(kind: Kind, vals: seq<Val>): Val {
    match kind
    case Function("array_length") =>
      if |vals| == 2 && vals[0].Arr? then if vals[0].elems == [] then Unknown else Int(|vals[0].elems|) else Error
    case Function("current_schema") => Str("public")
    case Function("parse_ident") =>
      if |vals| == 1 && vals[0].Str? then Arr(Strings(IdentParts(vals[0].s))) else Error
    case OtherExpr("in") => if |vals| == 3 then Or3(Equal3(vals[0], vals[1]), Equal3(vals[0], vals[2])) else Error
    case OtherExpr("subscript") =>
      if |vals| == 2 && vals[0].Arr? && vals[1].Int? then
        if 1 <= vals[1].n <= |vals[0].elems| then vals[0].elems[vals[1].n - 1] else Unknown
      else Error
    case Cast(_) => if |vals| == 1 then vals[0] else Error
    case _ => Error
  }

  lemma SmallConnectives(bare: bool)
    ensures StandardConnectives(SmallSem(bare))
  {
    hide And3, Or3;
  }

  lemma SmallLengthOf(bare: bool, e: seq<Val>)
    ensures SmallSem(bare).apply(Function("array_length"), [Arr(e), Int(1)]) == ArrayLength(e)
  {
  }

  lemma SmallLength(bare: bool)
    ensures StandardLength(SmallSem(bare))
  {
    hide SmallSem, SmallApply;
    forall e
      ensures SmallSem(bare).apply(Function("array_length"), [Arr(e), Int(1)]) == ArrayLength(e)
    {
      SmallLengthOf(bare, e);
    }
  }

  lemma SmallIn(bare: bool)
    ensures StandardIn(SmallSem(bare))
  {
    hide Or3, Equal3;
  }

  lemma SmallSubscriptOf(bare: bool, e: seq<Val>, i: int)
    ensures SmallSem(bare).apply(OtherExpr("subscript"), [Arr(e), Int(i)]) == Element(e, i)
  {
  }

  lemma SmallSubscript(bare: bool)
    ensures StandardSubscript(SmallSem(bare))
  {
    hide SmallSem, SmallApply;
    forall e, i
      ensures SmallSem(bare).apply(OtherExpr("subscript"), [Arr(e), Int(i)]) == Element(e, i)
    {
      SmallSubscriptOf(bare, e, i);
    }
  }

  lemma SmallSchema(bare: bool)
    ensures CurrentSchema(SmallSem(bare)) == Str("public")
  {
  }

  lemma SmallStandard(bare: bool)
    ensures StandardOperators(SmallSem(bare))
  {
    hide SmallSem, SmallApply, StandardConnectives, StandardLength, StandardIn, StandardSubscript, CurrentSchema;
    SmallConnectives(bare);
    SmallLength(bare);
    SmallIn(bare);
    SmallSubscript(bare);
    SmallSchema(bare);
  }

  lemma SmallRows(bare: bool)
    ensures var sem := SmallSem(bare);
            TableRows(sem, NAMESPACES) == SMALL_NAMESPACES && TableRows(sem, CLASSES) == SMALL_CLASSES &&
            TableRows(sem, PROCS) == SMALL_PROCS && TableRows(sem, TYPES) == []
  {
    assert NAMESPACES[1] == "pg_namespace" && CLASSES[1] == "pg_class";
    assert PROCS[1] == "pg_proc" && TYPES[1] == "pg_type";
  }

  lemma SmallColumns()
    ensures Named(SMALL_NAMESPACES, "nspname") && Relations(SMALL_CLASSES) && Named(SMALL_PROCS, "proname")
    ensures Named([], "typname")
  {
  }

  lemma ReadyBy(sem: Sem)
    requires Named(TableRows(sem, NAMESPACES), "nspname") && StandardOperators(sem)
    requires Named(TableRows(sem, TYPES), "typname") && Named(TableRows(sem, PROCS), "proname")
    requires Relations(TableRows(sem, CLASSES))
    ensures CatalogReady(sem)
  {
    hide Named, StandardOperators, Relations, TableRows;
  }

  /** A catalog need not name its rows uniquely. */
  lemma SmallReady(bare: bool)
    ensures CatalogReady(SmallSem(bare))
  {
    hide *;
    SmallStandard(bare);
    SmallRows(bare);
    SmallColumns();
    ReadyBy(SmallSem(bare));
  }

  lemma SmallParts(bare: bool, name: string)
    ensures NameParts(SmallSem(bare), name) == Some(IdentParts(name))
  {
    var sem, parts := SmallSem(bare), IdentParts(name);
    assert sem.apply(Cast("TEXT"), [Str(name)]) == Str(name);
    assert sem.apply(Function("parse_ident"), [Str(name)]) == Arr(Strings(parts));
    hide SmallSem, SmallApply, IdentParts;
    assert NameParts(sem, name).Some?;
    assert NameParts(sem, name).value == parts;
  }

  lemma OwnPart(name: string)
    requires name != [] && QuoteIdent.Bare(name)
    ensures IdentParts(name) == [name]
  {
    QuoteIdent.NameItself(name);
    hide QuoteIdent.ParseIdent;
  }

  // ---------- A relation ----------

  /** `'t'::regclass`. */
  const CAST_T := Node(Cast("regclass"), [Lit(Text("t"))])

  lemma CastTIsName()
    ensures NormalizeTypeName("regclass") == "regclass" && IsNameCast(CAST_T) && !NumericText(CAST_T.kids[0])
    ensures CAST_T.kind == Cast("regclass") && Template("regclass").Some? && CatalogOf("regclass").None?
    ensures CAST_T.kids == [Lit(Text("t"))] && !NumericString("t")
  {
    assert Lower("regclass") == "regclass";
    assert !('0' <= 't' <= '9') && "t"[0] == 't';
  }

  lemma SmallAsked(bare: bool)
    ensures AskedRows(SmallSem(bare), SMALL_CLASSES, SMALL_NAMESPACES, ["t"]) == SMALL_CLASSES
    ensures AskedNamespace(SmallSem(bare), ["t"]) == Int(2200)
  {
    var sem := SmallSem(bare);
    SmallSchema(bare);
    SmallRows(bare);
    assert AskedSchema(sem, ["t"]) == Str("public");
    assert FindOid(SMALL_NAMESPACES, "nspname", "public") == Int(2200) by {
      assert FindOid(SMALL_NAMESPACES[1..], "nspname", "public") == Int(2200);
    }
    var rel, one, two := SMALL_CLASSES[0], SMALL_NAMESPACES[0], SMALL_NAMESPACES[1];
    SmallPairs(bare);
    assert SMALL_NAMESPACES[1..] == [two] && [two][1..] == [] && SMALL_CLASSES[1..] == [];
    hide SmallSem, Pairs;
    assert AskedWith(sem, rel, [], ["t"]) == [];
    assert AskedWith(sem, rel, [two], ["t"]) == [rel];
    assert AskedWith(sem, rel, SMALL_NAMESPACES, ["t"]) == [rel];
    assert AskedRows(sem, [], SMALL_NAMESPACES, ["t"]) == [];
  }

  lemma SmallPairs(bare: bool)
    ensures IsRelation(SMALL_CLASSES[0]) && IsNamespace(SMALL_NAMESPACES[0]) && IsNamespace(SMALL_NAMESPACES[1])
    ensures !Pairs(SmallSem(bare), SMALL_CLASSES[0], SMALL_NAMESPACES[0], ["t"])
    ensures Pairs(SmallSem(bare), SMALL_CLASSES[0], SMALL_NAMESPACES[1], ["t"])
  {
    SmallSchema(bare);
    hide SmallSem;
  }

  lemma SmallRelation(bare: bool)
    ensures var sem := SmallSem(bare);
            RowsFound(sem, "regclass", "t") == Some(SMALL_CLASSES) && Unambiguous(sem, "regclass", "t") &&
            LookedUp(sem, "regclass", "t") == Some(Int(16386))
  {
    hide *;
    var sem := SmallSem(bare);
    TIsBare();
    OwnPart("t");
    SmallParts(bare, "t");
    SmallRows(bare);
    SmallAsked(bare);
    SmallReady(bare);
    CastTIsName();
    AskedRelationsIs(sem, ["t"]);
    RegclassTemplate(sem, "regclass", "t");
    SmallClass();
    OneAskedIs(sem, ["t"]);
    OneOidIs(SMALL_CLASSES);
    LookupExactly(sem, "regclass", "t");
  }

  lemma TIsBare()
    ensures "t" != [] && QuoteIdent.Bare("t")
  {
  }

  lemma SmallClass()
    ensures |SMALL_CLASSES| == 1 && IsRelation(SMALL_CLASSES[0]) && "oid" in SMALL_CLASSES[0]
    ensures "relnamespace" in SMALL_CLASSES[0] && SMALL_CLASSES[0]["relnamespace"] == Int(2200)
    ensures SMALL_CLASSES[0]["oid"] == Int(16386)
  {
  }

  lemma LeafReady(sem: Sem, leaf: Node)
    requires leaf.kids == []
    ensures CastsReady(sem, leaf) && Uncollated(leaf)
  {
  }

  lemma SmallCast(bare: bool)
    ensures OperandName(SmallSem(bare), CAST_T.kids[0]) == Some("t") && Resolves(SmallSem(bare), CAST_T)
  {
    CastTIsName();
    assert OperandName(SmallSem(bare), CAST_T.kids[0]) == Some("t");
    hide *;
    CastTIsName();
    SmallRelation(bare);
    ResolvesIs(SmallSem(bare), CAST_T, "t");
  }

  lemma CastTReady(sem: Sem)
    requires Resolves(sem, CAST_T)
    ensures CastsReady(sem, CAST_T) && Uncollated(CAST_T)
  {
    LeafReady(sem, CAST_T.kids[0]);
    assert Stripped(CAST_T) == CAST_T;
    hide Resolves;
  }

  /** What the preservation lemmas ask for can be had: over that catalog `'t'::regclass` is 16386, before and after. */
  lemma SmallResolved(bare: bool, scope: Scope)
    ensures var sem := SmallSem(bare);
            CatalogReady(sem) && LiteralsKept(sem, CAST_T) && CastsReady(sem, CAST_T) &&
            Eval(sem, CAST_T, scope) == Eval(sem, Resolve(CAST_T), scope) == Int(16386)
  {
    hide *;
    var sem := SmallSem(bare);
    SmallReady(bare);
    CastTIsName();
    SmallCast(bare);
    CastTReady(sem);
    UncollatedKept(sem, CAST_T);
    ResolvePreserves(sem, CAST_T, scope);
    CastEval(sem, CAST_T, "t", scope);
    CastMeaning(sem, "regclass", "t");
    SmallRelation(bare);
  }

  const ITEM_T := Node(Item(None), [CAST_T])

  lemma CastTNames(sem: Sem)
    requires IsNameCast(CAST_T) && Resolves(sem, CAST_T)
    ensures NamesOne(sem, CAST_T) && SelectsNames(sem, [ITEM_T])
  {
    assert "t"[0] == 't';
    hide Resolves, IsNameCast;
  }

  /** And `SELECT 't'::regclass` shows the same before and after the whole pipeline. */
  lemma SmallSelected(bare: bool, scope: Scope)
    ensures var sem := SmallSem(bare); var n := SelectOf([ITEM_T]);
            SelectsNames(sem, [ITEM_T]) && Eval(sem, Rewrite(n), scope) == Eval(sem, n, scope)
  {
    hide *;
    var sem := SmallSem(bare);
    SmallReady(bare);
    CastTIsName();
    SmallCast(bare);
    CastTNames(sem);
    SelectedNames(sem, [ITEM_T], scope);
  }

  // ---------- Names of functions ----------

  lemma RegprocNames()
    ensures NormalizeTypeName("regproc") == "regproc" && CatalogOf("regproc") == Some(("pg_proc", "proname"))
    ensures Template("regproc").Some?
  {
    assert Lower("regproc") == "regproc";
  }

  /** `'max'::regproc`. */
  const CAST_MAX := Node(Cast("regproc"), [Lit(Text("max"))])

  lemma CastMaxIsName(sem: Sem)
    ensures IsNameCast(CAST_MAX) && CAST_MAX.kind == Cast("regproc")
    ensures OperandName(sem, CAST_MAX.kids[0]) == Some("max") && !NumericString("max")
  {
    RegprocNames();
    assert "max"[0] == 'm';
  }

  lemma TwoNamedMax()
    ensures RowsNamed(SMALL_PROCS, "proname", "max") == [Proc(2115, "max"), Proc(2116, "max")]
  {
    var rows := SMALL_PROCS;
    assert rows[1..] == [Proc(2115, "max"), Proc(2116, "max")] && rows[1..][1..] == [Proc(2116, "max")];
    assert rows[1..][1..][1..] == [];
    assert RowsNamed([], "proname", "max") == [];
    assert RowsNamed([Proc(2116, "max")], "proname", "max") == [Proc(2116, "max")];
    assert RowsNamed(rows[1..], "proname", "max") == [Proc(2115, "max"), Proc(2116, "max")];
    assert "array_in" != "max" by { assert "array_in"[0] == 'a'; }
  }

  lemma FirstMax()
    ensures FindOid(SMALL_PROCS, "proname", "max") == Int(2115)
  {
    TwoNamedMax();
    SmallColumns();
    NameExactly(SMALL_PROCS, "proname", "max");
    assert [Proc(2115, "max"), Proc(2116, "max")][..1] == [Proc(2115, "max")];
  }

  /** The overloaded name means the first function, and its lookup is an error. */
  lemma OverloadedMax(bare: bool, scope: Scope)
    ensures var sem := SmallSem(bare);
            Eval(sem, CAST_MAX, scope) == Int(2115) && Eval(sem, VisitRegCast(CAST_MAX), scope) == Error
  {
    assert ["pg_catalog", "pg_proc"] == PROCS;
    hide *;
    var sem := SmallSem(bare);
    SmallReady(bare);
    SmallRows(bare);
    RegprocNames();
    CastMaxIsName(sem);
    TwoNamedMax();
    OverloadedName(sem, CAST_MAX, "max", scope);
    CastEval(sem, CAST_MAX, "max", scope);
    CastMeaning(sem, "regproc", "max");
    NameTemplate(sem, "regproc", "max");
    FirstMax();
  }

  lemma QualifiedParts()
    ensures IdentParts("pg_catalog.array_in") == ["pg_catalog", "array_in"]
  {
    assert "pg_catalog" + "." + "array_in" == "pg_catalog.array_in";
    QuoteIdent.DottedNames("pg_catalog", "array_in");
    hide QuoteIdent.ParseIdent;
  }

  lemma NoneSpelledSo()
    ensures FindOid(SMALL_PROCS, "proname", "pg_catalog.array_in") == Unknown
  {
    var rows, name := SMALL_PROCS, "pg_catalog.array_in";
    assert |name| == 19;
    assert FindOid(rows[1..][1..][1..], "proname", name) == Unknown;
    assert FindOid(rows[1..][1..], "proname", name) == Unknown;
    assert FindOid(rows[1..], "proname", name) == Unknown;
  }

  /** `'pg_catalog.array_in'::regproc`: the lookup finds no function spelled so, and by its parts the name is 750. */
  lemma QualifiedName(bare: bool)
    ensures var sem := SmallSem(bare);
            LookedUp(sem, "regproc", "pg_catalog.array_in") == Some(Unknown) &&
            NameParts(sem, "pg_catalog.array_in") == Some(["pg_catalog", "array_in"]) &&
            ByParts(sem, "regproc", ["pg_catalog", "array_in"]) == Int(750)
  {
    assert ["pg_catalog", "pg_proc"] == PROCS;
    hide *;
    var sem, name, parts := SmallSem(bare), "pg_catalog.array_in", ["pg_catalog", "array_in"];
    SmallReady(bare);
    SmallParts(bare, name);
    QualifiedParts();
    SmallRows(bare);
    NoneSpelledSo();
    RegprocNames();
    NameTemplate(sem, "regproc", name);
    CatalogNamespace(bare);
    RegprocByParts(sem, parts);
    InCatalog();
  }

  lemma CatalogNamespace(bare: bool)
    ensures AskedNamespace(SmallSem(bare), ["pg_catalog", "array_in"]) == Int(11)
  {
    SmallRows(bare);
    assert AskedSchema(SmallSem(bare), ["pg_catalog", "array_in"]) == Str("pg_catalog");
    hide SmallSem;
  }

  lemma RegprocByParts(sem: Sem, parts: seq<string>)
    requires |parts| == 2 && CatalogOf("regproc") == Some(("pg_proc", "proname"))
    ensures ByParts(sem, "regproc", parts) ==
            FindIn(TableRows(sem, PROCS), "proname", parts[1], "pronamespace", AskedNamespace(sem, parts))
  {
    assert "regproc"[3] == 'p' && "regtype"[3] == 't' && "regnamespace"[3] == 'n';
    assert ["pg_catalog", "pg_proc"] == PROCS;
    hide FindIn, FindOid, AskedNamespace, TableRows;
  }

  lemma InCatalog()
    ensures FindIn(SMALL_PROCS, "proname", "array_in", "pronamespace", Int(11)) == Int(750)
  {
  }
}
