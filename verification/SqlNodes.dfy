/**
 What three of the rules do to one node and leave nowhere in a tree, told of the tree alone: by its kinds, its letters
 and its paths.
 */
module SqlNodes {
  import opened Wrappers
  import opened SqlAst
  import opened SqlStrings
  import opened SqlRules
  import opened SqlVisitor
  import opened SqlNormalForms
  import opened SqlRegclass
  import opened SqlRegCast

  // ---------- The names of the resolvable types ----------

  /** The same ASCII letter, in whichever case, or the same other character. */
  predicate SameLetter(a: char, b: char) {
    a == b || ('A' <= a <= 'Z' && a as int + 32 == b as int) || ('A' <= b <= 'Z' && b as int + 32 == a as int)
  }

  predicate SameLetters(a: string, b: string) {
    |a| == |b| && forall i :: 0 <= i < |a| ==> SameLetter(a[i], b[i])
  }

  /** The type is written as `name`, in any case and with or without its schema. */
  predicate Spells(dataType: string, name: string) {
    SameLetters(dataType, name) || SameLetters(dataType, "pg_catalog." + name)
  }

  predicate ResolvableType(dataType: string) {
    Spells(dataType, "regclass") || Spells(dataType, "regnamespace") || Spells(dataType, "regtype") ||
    Spells(dataType, "regproc")
  }

  predicate LowerCase(s: string) {
    forall i :: 0 <= i < |s| ==> !('A' <= s[i] <= 'Z')
  }

  lemma LowerExactly(s: string, lower: string)
    requires LowerCase(lower)
    ensures Lower(s) == lower <==> SameLetters(s, lower)
  {
    if SameLetters(s, lower) {
      forall i | 0 <= i < |s| ensures Lower(s)[i] == lower[i] { assert SameLetter(s[i], lower[i]); }
    }
    if Lower(s) == lower {
      forall i | 0 <= i < |s| ensures SameLetter(s[i], lower[i]) { assert Lower(s)[i] == lower[i]; }
    }
  }

  lemma NormalizedExactly(dataType: string, name: string)
    requires LowerCase(name) && name != [] && name[0] != 'p'
    ensures NormalizeTypeName(dataType) == name <==> Spells(dataType, name)
  {
    var prefix, lower := "pg_catalog.", Lower(dataType);
    LowerExactly(dataType, name);
    LowerExactly(dataType, prefix + name);
    assert (prefix + name)[|prefix|..] == name && prefix <= prefix + name && prefix[0] == 'p';
    hide SameLetters, Lower;
    if prefix <= lower {
      assert lower == prefix + lower[|prefix|..];
      assert lower[0] == 'p';
    }
  }

  lemma TypeNames(dataType: string)
    ensures NormalizeTypeName(dataType) == "regclass" <==> Spells(dataType, "regclass")
    ensures NormalizeTypeName(dataType) == "regnamespace" <==> Spells(dataType, "regnamespace")
    ensures NormalizeTypeName(dataType) == "regtype" <==> Spells(dataType, "regtype")
    ensures NormalizeTypeName(dataType) == "regproc" <==> Spells(dataType, "regproc")
  {
    hide NormalizeTypeName, Spells;
    NormalizedExactly(dataType, "regclass");
    NormalizedExactly(dataType, "regnamespace");
    NormalizedExactly(dataType, "regtype");
    NormalizedExactly(dataType, "regproc");
  }

  // ---------- Casts of names ----------

  /** A cast of a string literal or of a placeholder to one of the four types. */
  ghost predicate ResolvableCast(n: Node) {
    n.kind.Cast? && ResolvableType(n.kind.dataType) &&
    ((exists s :: n.kids == [Lit(Text(s))]) || exists id :: n.kids == [Lit(Placeholder(id))])
  }

  lemma OperandExactly(n: Node)
    ensures |n.kids| == 1 && IsNameOperand(n.kids[0]) <==>
            (exists s :: n.kids == [Lit(Text(s))]) || exists id :: n.kids == [Lit(Placeholder(id))]
  {
    if |n.kids| == 1 && IsNameOperand(n.kids[0]) {
      var literal := n.kids[0].kind.literal;
      if literal.Text? {
        assert n.kids == [Lit(Text(literal.text))];
      } else {
        assert n.kids == [Lit(Placeholder(literal.id))];
      }
    }
  }

  lemma TemplateExactly(typeName: string)
    ensures Template(typeName).Some? <==>
            typeName == "regclass" || typeName == "regnamespace" || typeName == "regtype" || typeName == "regproc"
  {
    hide NameLookup, REGCLASS_QUERY;
  }

  lemma ResolvableIs(n: Node)
    ensures ResolvableCast(n) <==> IsNameCast(n)
  {
    OperandExactly(n);
    if n.kind.Cast? {
      TypeNames(n.kind.dataType);
      TemplateExactly(NormalizeTypeName(n.kind.dataType));
    }
    hide Template, NormalizeTypeName, Spells, IsNameOperand;
  }

  /** The cast rule changes a node if and only if it is such a cast. */
  lemma CastVisitedExactly(n: Node)
    ensures Visit(RegCast, n) != n <==> ResolvableCast(n)
  {
    ResolvableIs(n);
    VisitIsRegCast(n);
    hide Template, NormalizeTypeName, ResolvableCast, Substitute;
  }

  /** What it becomes: digits are the number, any other name is looked up in the catalog table of the type. */
  lemma CastBecomes(n: Node)
    requires ResolvableCast(n)
    ensures |n.kids| == 1 && n.kids[0].kind.Value?
    ensures var operand := n.kids[0];
            Walk(RegCast, n) ==
            if operand.kind.literal.Text? && operand.kind.literal.text != "" &&
               (forall i :: 0 <= i < |operand.kind.literal.text| ==> '0' <= operand.kind.literal.text[i] <= '9') then
              Lit(Number(operand.kind.literal.text))
            else
              Node(Subquery, [
                if Spells(n.kind.dataType, "regclass") then RegclassQuery(operand)
                else if Spells(n.kind.dataType, "regnamespace") then LookupQuery("pg_namespace", "nspname", operand)
                else if Spells(n.kind.dataType, "regtype") then LookupQuery("pg_type", "typname", operand)
                else LookupQuery("pg_proc", "proname", operand)])
  {
    ResolvableIs(n);
    CastParts(n);
    var operand, typeName := n.kids[0], NormalizeTypeName(n.kind.dataType);
    DigitsExactly(operand);
    TypeNames(n.kind.dataType);
    hide *;
    if NumericText(operand) {
      NumberCast(n);
    } else {
      WalkCast(n);
      CastVisit(n);
      InstanceOf(typeName, operand);
    }
  }

  lemma DigitsExactly(operand: Node)
    requires operand.kind.Value?
    ensures NumericText(operand) <==>
            operand.kind.literal.Text? && operand.kind.literal.text != "" &&
            forall i :: 0 <= i < |operand.kind.literal.text| ==> '0' <= operand.kind.literal.text[i] <= '9'
  {
  }

  lemma NumberCast(n: Node)
    requires IsNameCast(n) && |n.kids| == 1 && NumericText(n.kids[0])
    ensures n.kids[0].kind.Value? && n.kids[0].kind.literal.Text?
    ensures Walk(RegCast, n) == Lit(Number(n.kids[0].kind.literal.text))
  {
    hide Template, NormalizeTypeName, Substitute;
    WalkNode(RegCast, n);
    VisitIsRegCast(n);
    assert Walk(RegCast, n).kids == [];
  }

  lemma InstanceOf(typeName: string, operand: Node)
    requires Template(typeName).Some?
    ensures Substitute(Template(typeName).value, operand) ==
            if typeName == "regclass" then RegclassQuery(operand)
            else if typeName == "regnamespace" then LookupQuery("pg_namespace", "nspname", operand)
            else if typeName == "regtype" then LookupQuery("pg_type", "typname", operand)
            else LookupQuery("pg_proc", "proname", operand)
    ensures typeName == "regclass" || typeName == "regnamespace" || typeName == "regtype" || typeName == "regproc"
  {
    TemplateExactly(typeName);
    SubstituteRegclass(operand);
    SubstituteLookup("pg_namespace", "nspname", operand);
    SubstituteLookup("pg_type", "typname", operand);
    SubstituteLookup("pg_proc", "proname", operand);
    hide Substitute, NameLookup, REGCLASS_QUERY, RegclassQuery, LookupQuery;
  }

  lemma {:induction false} NoneAt(n: Node, path: seq<nat>)
    requires NoNameCast(n)
    ensures At(n, path).Some? ==> !IsNameCast(At(n, path).value)
    decreases |path|
  {
    if path != [] && path[0] < |n.kids| { NoneAt(n.kids[path[0]], path[1..]); }
    hide IsNameCast;
  }

  /** After the pass there is no such cast at any place of the tree. */
  lemma CastsGone(n: Node, path: seq<nat>)
    ensures var left := At(Walk(RegCast, n), path); left.Some? ==> !ResolvableCast(left.value)
  {
    hide *;
    RegCastNormalForm(n);
    NoneAt(Walk(RegCast, n), path);
    if At(Walk(RegCast, n), path).Some? { ResolvableIs(At(Walk(RegCast, n), path).value); }
  }

  // ---------- OPERATOR(pg_catalog.~) ----------

  /** A binary operator in the schema pg_catalog, by the last part of its name. */
  predicate OperatorInCatalog(n: Node, name: string) {
    n.kind.BinaryOp? && n.kind.op.Custom? && n.kind.op.path != [] && n.kind.op.path[0] == "pg_catalog" &&
    n.kind.op.path[|n.kind.op.path| - 1] == name
  }

  predicate RegexInCatalog(n: Node) {
    OperatorInCatalog(n, "~") || OperatorInCatalog(n, "~*") || OperatorInCatalog(n, "!~") || OperatorInCatalog(n, "!~*")
  }

  /** The four regex operators become the built-in ones of that spelling, over the same operands; nothing else
      changes. */
  lemma OperatorBecomes(n: Node)
    ensures Visit(PgOperator, n) ==
            if OperatorInCatalog(n, "~") then Node(BinaryOp(RegexMatch), n.kids)
            else if OperatorInCatalog(n, "~*") then Node(BinaryOp(RegexIMatch), n.kids)
            else if OperatorInCatalog(n, "!~") then Node(BinaryOp(RegexNotMatch), n.kids)
            else if OperatorInCatalog(n, "!~*") then Node(BinaryOp(RegexNotIMatch), n.kids)
            else n
  {
  }

  lemma {:induction false} CleanAt(rule: Rule, n: Node, path: seq<nat>)
    requires Clean(rule, n)
    ensures At(n, path).Some? ==> Visit(rule, At(n, path).value) == At(n, path).value
    decreases |path|
  {
    if path != [] && path[0] < |n.kids| { CleanAt(rule, n.kids[path[0]], path[1..]); }
    hide Visit;
  }

  /** After the pass none of the four is left anywhere in that schema. */
  lemma OperatorsGone(n: Node, path: seq<nat>)
    ensures var left := At(Walk(PgOperator, n), path); left.Some? ==> !RegexInCatalog(left.value)
  {
    WalkClean(PgOperator, n);
    CleanAt(PgOperator, Walk(PgOperator, n), path);
    hide Walk, Visit, At, Clean;
    if At(Walk(PgOperator, n), path).Some? { OperatorBecomes(At(Walk(PgOperator, n), path).value); }
  }

  // ---------- Scalar subqueries as items ----------

  /** What makes a subquery count as correlated: a placeholder, or a qualified name whose first part is the alias of no
      table in its FROM. */
  ghost predicate Foreign(n: Node, select: Node) {
    (exists id :: n == Lit(Placeholder(id))) ||
    (n.kind.CompoundIdentifier? && n.kind.parts != [] &&
     !(|select.kids| > 1 && select.kids[1].kind.From? &&
       exists path :: exists t :: t in select.kids[1].kids && t.kind == Table(path, Some(n.kind.parts[0]))))
  }

  ghost predicate ForeignInside(n: Node, select: Node) {
    exists path :: At(n, path).Some? && Foreign(At(n, path).value, select)
  }

  lemma AliasExactly(select: Node, name: string)
    ensures name in TableAliases(select) <==>
            |select.kids| > 1 && select.kids[1].kind.From? &&
            exists path :: exists t :: t in select.kids[1].kids && t.kind == Table(path, Some(name))
  {
    if name in TableAliases(select) {
      var t :| t in select.kids[1].kids && t.kind.Table? && t.kind.alias == Some(name);
      assert t.kind == Table(t.kind.path, Some(name));
    }
  }

  lemma ForeignExactly(n: Node, select: Node)
    ensures Foreign(n, select) <==>
            IsPlaceholder(n) ||
            (n.kind.CompoundIdentifier? && n.kind.parts != [] && n.kind.parts[0] !in TableAliases(select))
  {
    if n.kind.CompoundIdentifier? && n.kind.parts != [] { AliasExactly(select, n.kind.parts[0]); }
    if IsPlaceholder(n) { assert n == Lit(Placeholder(n.kind.literal.id)); }
    hide TableAliases;
  }

  lemma {:induction false} InsideExactly(n: Node, select: Node)
    ensures Correlated(TableAliases(select), n) <==> ForeignInside(n, select)
  {
    forall m | m in n.kids ensures Correlated(TableAliases(select), m) <==> ForeignInside(m, select) {
      InsideExactly(m, select);
    }
    ForeignExactly(n, select);
    hide Foreign, TableAliases;
    if Foreign(n, select) { assert At(n, []) == Some(n); }
    if m :| m in n.kids && ForeignInside(m, select) {
      var path :| At(m, path).Some? && Foreign(At(m, path).value, select);
      var i: nat :| i < |n.kids| && n.kids[i] == m;
      assert ([i] + path)[1..] == path && At(n, [i] + path) == At(m, path);
    }
    if path :| At(n, path).Some? && Foreign(At(n, path).value, select) {
      if path != [] {
        var kid := n.kids[path[0]];
        assert At(n, path) == At(kid, path[1..]) && kid in n.kids;
      }
    }
  }

  /** A scalar subquery as an item becomes NULL exactly when something foreign stands anywhere in it; otherwise it gets
      LIMIT 1 unless it has a LIMIT or a FETCH. */
  lemma ItemBecomes(alias: Option<string>, query: Node)
    requires query.kind.Query? && |query.kids| > 0 && query.kids[0].kind.Select?
    ensures StampItem(Node(Item(alias), [Node(Subquery, [query])])) ==
            Node(Item(alias), [
              if ForeignInside(query, query.kids[0]) then Lit(Null)
              else if query.kind.limited || query.kind.fetched then Node(Subquery, [query])
              else Node(Subquery, [Node(Query(true, false), [query.kids[0], Lit(Number("1"))] + query.kids[1..])])])
  {
    InsideExactly(query, query.kids[0]);
    hide Correlated, TableAliases, ForeignInside;
  }
}
