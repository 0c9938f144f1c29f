/** The five passes one after the other, in the order the parser runs them: no later pass undoes an earlier one. */
module SqlPipeline {
  import opened Wrappers
  import opened SqlAst
  import opened SqlStrings
  import opened SqlRules
  import opened SqlTemplates
  import opened SqlVisitor
  import opened SqlNormalForms
  import opened SqlCollate
  import opened SqlProjection
  import opened SqlSemantics
  import opened SqlMeaning
  import opened SqlRegclass
  import opened SqlRegCast

  const PIPELINE: seq<Rule> := [ArrayAnyAll, StripCollate, PgOperator, RegCast, ProjectionSubquery]

  function RunPasses(rules: seq<Rule>, n: Node): Node {
    if rules == [] then n else RunPasses(rules[1..], Walk(rules[0], n))
  }

  function Rewrite(n: Node): Node {
    RunPasses(PIPELINE, n)
  }

  // ---------- What no pass can bring in ----------

  /** The kinds a pass may create. */
  predicate PlainKind(kind: Kind) {
    !kind.AnyOp? && !kind.AllOp? && !kind.Collate? && (kind.BinaryOp? ==> !kind.op.Custom?)
  }

  ghost predicate AdmitsPlain(p: (Kind, nat) -> bool) {
    forall kind: Kind, k: nat :: PlainKind(kind) ==> p(kind, k)
  }

  lemma AllNode(p: (Kind, nat) -> bool, kind: Kind, kids: seq<Node>)
    requires AdmitsPlain(p) && PlainKind(kind) && forall m :: m in kids ==> All(p, m)
    ensures All(p, Node(kind, kids))
  {
  }

  lemma RegCastVisitAll(p: (Kind, nat) -> bool, n: Node)
    requires AdmitsPlain(p) && All(p, n) && IsNameCast(n)
    ensures All(p, VisitRegCast(n))
  {
    var template := Template(NormalizeTypeName(n.kind.dataType)).value;
    TemplateKinds(NormalizeTypeName(n.kind.dataType));
    assert n.kids[0] in n.kids;
    Weaker(TemplateKind, p, template);
    SubstituteAll(p, template, n.kids[0]);
    AllNode(p, Subquery, [Substitute(template, n.kids[0])]);
    if NumericText(n.kids[0]) { AllNode(p, Value(Number(n.kids[0].kind.literal.text)), []); }
    hide Template, Substitute, All, AdmitsPlain;
  }

  lemma AnyAllVisitAll(p: (Kind, nat) -> bool, n: Node)
    requires AdmitsPlain(p) && All(p, n) && VisitAnyAll(n) != n
    ensures All(p, VisitAnyAll(n))
  {
    var left, right := n.kids[0], n.kids[1];
    assert All(p, left) && All(p, right);
    var operand := ArrayOperand(right);
    assert All(p, operand) by {
      if operand != right {
        forall m | m in operand.kids ensures All(p, m) { assert m.kind.Value? && m.kids == []; AllNode(p, m.kind, []); }
        AllNode(p, ArrayLiteral, operand.kids);
      }
    }
    AllNode(p, Function("array_contains"), [operand, left]);
    AllNode(p, Not, [ArrayContains(left, right)]);
  }

  lemma StampItemAll(p: (Kind, nat) -> bool, item: Node)
    requires AdmitsPlain(p) && All(p, item)
    ensures All(p, StampItem(item))
  {
    if StampItem(item) != item {
      var query := item.kids[0].kids[0];
      assert item.kids[0] in item.kids && query in item.kids[0].kids;
      assert All(p, query);
      AllNode(p, Value(Null), []);
      AllNode(p, Value(Number("1")), []);
      AllNode(p, item.kind, [Lit(Null)]);
      AllNode(p, Query(true, query.kind.fetched), AddLimit(query).kids);
      AllNode(p, Subquery, [AddLimit(query)]);
      AllNode(p, item.kind, [Node(Subquery, [AddLimit(query)])]);
    }
  }

  lemma QueryVisitAll(p: (Kind, nat) -> bool, n: Node)
    requires AdmitsPlain(p) && All(p, n) && HasProjection(n)
    ensures All(p, VisitQuery(n))
  {
    var select := n.kids[0];
    assert select in n.kids && select.kids[0] in select.kids;
    var items := select.kids[0].kids;
    forall m | m in StampItems(items) ensures All(p, m) {
      var i :| 0 <= i < |items| && StampItem(items[i]) == m;
      assert All(p, select) && All(p, select.kids[0]) && items[i] in items;
      StampItemAll(p, items[i]);
    }
    var projection := Node(Projection, StampItems(items));
    AllNode(p, Projection, projection.kids);
    AllNode(p, Select, [projection] + select.kids[1..]);
    AllNode(p, n.kind, [Node(Select, [projection] + select.kids[1..])] + n.kids[1..]);
  }

  lemma VisitAll(rule: Rule, p: (Kind, nat) -> bool, n: Node)
    requires AdmitsPlain(p) && All(p, n)
    ensures All(p, Visit(rule, n))
  {
    if Visit(rule, n) != n {
      match rule
      case ArrayAnyAll => AnyAllVisitAll(p, n);
      case StripCollate =>
      case PgOperator =>
        AllNode(p, Visit(rule, n).kind, n.kids);
      case RegCast => RegCastVisitAll(p, n);
      case ProjectionSubquery => QueryVisitAll(p, n);
    }
  }

  /** No pass creates a quantified comparison, a COLLATE or a schema-qualified operator: whatever holds of all other
      kinds of nodes and held of every node before a pass holds of every node after it. */
  lemma {:induction false} WalkAll(rule: Rule, p: (Kind, nat) -> bool, n: Node)
    requires AdmitsPlain(p) && All(p, n)
    ensures All(p, Walk(rule, n))
    decreases Redexes(rule, n), n
  {
    hide AdmitsPlain, Visit;
    var m, r := Visit(rule, n), Walk(rule, n);
    VisitAll(rule, p, n);
    WalkNode(rule, n);
    forall k | k in r.kids ensures All(p, k) {
      var i :| 0 <= i < |r.kids| && r.kids[i] == k;
      ChildSmaller(rule, n, i);
      WalkAll(rule, p, m.kids[i]);
    }
  }

  // ---------- The three normal forms of this kind ----------

  /** The nodes the rule leaves alone, for the rules that look only at a node's kind and number of children. */
  function Settles(rule: Rule): (Kind, nat) -> bool
    requires rule.ArrayAnyAll? || rule.StripCollate? || rule.PgOperator?
  {
    match rule
    case ArrayAnyAll => (kind: Kind, k: nat) => !(k == 2 && (kind == AnyOp(Eq) || kind == AllOp(NotEq)))
    case StripCollate => (kind: Kind, k: nat) => !(kind.Collate? && k == 1)
    case PgOperator => (kind: Kind, k: nat) => kind.BinaryOp? ==> BuiltinOperator(kind.op) == kind.op
  }

  lemma {:induction false} SettledIsClean(rule: Rule, n: Node)
    requires rule.ArrayAnyAll? || rule.StripCollate? || rule.PgOperator?
    ensures All(Settles(rule), n) <==> Clean(rule, n)
  {
    forall m | m in n.kids ensures All(Settles(rule), m) <==> Clean(rule, m) { SettledIsClean(rule, m); }
  }

  /** What one of these rules has nothing to do in, no other pass gives it work in. */
  lemma StaysClean(rule: Rule, later: Rule, n: Node)
    requires rule.ArrayAnyAll? || rule.StripCollate? || rule.PgOperator?
    requires Clean(rule, n)
    ensures Clean(rule, Walk(later, n))
  {
    assert AdmitsPlain(Settles(rule));
    hide *;
    SettledIsClean(rule, n);
    SettledIsClean(rule, Walk(later, n));
    WalkAll(later, Settles(rule), n);
  }

  // ---------- Casts and the last pass ----------

  lemma WalkNameCast(n: Node)
    requires !IsNameCast(n)
    ensures !IsNameCast(Walk(ProjectionSubquery, n))
  {
    WalkNode(ProjectionSubquery, n);
    if |n.kids| == 1 { WalkNode(ProjectionSubquery, n.kids[0]); }
  }

  /** Stamping the items of a query brings no cast in. */
  lemma StampedCasts(n: Node)
    requires NoNameCast(n)
    ensures forall k :: k in VisitQuery(n).kids ==> NoNameCast(k)
  {
    if HasProjection(n) {
      var select := n.kids[0];
      assert select in n.kids && select.kids[0] in select.kids;
      var items := select.kids[0].kids;
      var projection := Node(Projection, StampItems(items));
      forall m | m in projection.kids ensures NoNameCast(m) {
        var i :| 0 <= i < |items| && StampItem(items[i]) == m;
        StampedItemCasts(items[i]);
      }
      assert NoNameCast(projection);
      assert NoNameCast(Node(Select, [projection] + select.kids[1..]));
    }
  }

  lemma StampedItemCasts(item: Node)
    requires NoNameCast(item)
    ensures NoNameCast(StampItem(item))
  {
    if StampItem(item) != item {
      var query := item.kids[0].kids[0];
      assert item.kids[0] in item.kids && query in item.kids[0].kids;
      assert NoNameCast(query) && NoNameCast(Lit(Null)) && NoNameCast(Lit(Number("1")));
      assert NoNameCast(AddLimit(query));
      assert NoNameCast(Node(Subquery, [AddLimit(query)]));
    }
  }

  lemma {:induction false} ProjectionKeepsCasts(n: Node)
    requires NoNameCast(n)
    ensures NoNameCast(Walk(ProjectionSubquery, n))
    decreases Redexes(ProjectionSubquery, n), n
  {
    var m, r := VisitQuery(n), Walk(ProjectionSubquery, n);
    WalkNode(ProjectionSubquery, n);
    StampedCasts(n);
    WalkNameCast(n);
    forall k | k in r.kids ensures NoNameCast(k) {
      var i :| 0 <= i < |r.kids| && r.kids[i] == k;
      ChildSmaller(ProjectionSubquery, n, i);
      ProjectionKeepsCasts(m.kids[i]);
    }
  }

  // ---------- The pipeline ----------

  lemma RewriteSteps(n: Node)
    ensures Rewrite(n) ==
            Walk(ProjectionSubquery, Walk(RegCast, Walk(PgOperator, Walk(StripCollate, Walk(ArrayAnyAll, n)))))
  {
    hide Walk;
    var a := Walk(ArrayAnyAll, n);
    var b := Walk(StripCollate, a);
    var c := Walk(PgOperator, b);
    var d := Walk(RegCast, c);
    assert RunPasses(PIPELINE, n) == RunPasses([StripCollate, PgOperator, RegCast, ProjectionSubquery], a);
    assert RunPasses([StripCollate, PgOperator, RegCast, ProjectionSubquery], a) ==
           RunPasses([PgOperator, RegCast, ProjectionSubquery], b);
    assert RunPasses([PgOperator, RegCast, ProjectionSubquery], b) == RunPasses([RegCast, ProjectionSubquery], c);
    assert RunPasses([RegCast, ProjectionSubquery], c) == RunPasses([ProjectionSubquery], d);
    assert RunPasses([ProjectionSubquery], d) == RunPasses([], Walk(ProjectionSubquery, d));
  }

  /** All but the last. */
  function Resolve(n: Node): Node {
    RunPasses(PIPELINE[..4], n)
  }

  lemma ResolveSteps(n: Node)
    ensures Resolve(n) == Walk(RegCast, Walk(PgOperator, Walk(StripCollate, Walk(ArrayAnyAll, n))))
    ensures Rewrite(n) == Walk(ProjectionSubquery, Resolve(n))
  {
    hide Walk;
    RewriteSteps(n);
    var a := Walk(ArrayAnyAll, n);
    var b := Walk(StripCollate, a);
    var c := Walk(PgOperator, b);
    assert PIPELINE[..4] == [ArrayAnyAll, StripCollate, PgOperator, RegCast];
    assert RunPasses([ArrayAnyAll, StripCollate, PgOperator, RegCast], n) ==
           RunPasses([StripCollate, PgOperator, RegCast], a);
    assert RunPasses([StripCollate, PgOperator, RegCast], a) == RunPasses([PgOperator, RegCast], b);
    assert RunPasses([PgOperator, RegCast], b) == RunPasses([RegCast], c);
    assert RunPasses([RegCast], c) == RunPasses([], Walk(RegCast, c));
  }

  /** All normal forms hold together at the end; that of scalar subqueries everywhere, and not only where a SELECT is
      the body of a query, exactly when the branches were in order before the last pass. */
  lemma RewriteNormalForm(n: Node)
    ensures NoMembershipQuantifier(Rewrite(n)) && Clean(PgOperator, Rewrite(n)) && NoNameCast(Rewrite(n)) &&
            BodiesStamped(Rewrite(n))
    ensures AllStamped(Rewrite(n)) <==> BranchesReady(Resolve(n))
  {
    hide *;
    var a := Walk(ArrayAnyAll, n);
    var b := Walk(StripCollate, a);
    var c := Walk(PgOperator, b);
    var d := Walk(RegCast, c);
    var e := Walk(ProjectionSubquery, d);
    ResolveSteps(n);
    WalkClean(ArrayAnyAll, n);
    StaysClean(ArrayAnyAll, StripCollate, a);
    StaysClean(ArrayAnyAll, PgOperator, b);
    StaysClean(ArrayAnyAll, RegCast, c);
    StaysClean(ArrayAnyAll, ProjectionSubquery, d);
    CleanOfQuantifiers(e);
    WalkClean(PgOperator, b);
    StaysClean(PgOperator, RegCast, c);
    StaysClean(PgOperator, ProjectionSubquery, d);
    RegCastNormalForm(c);
    ProjectionKeepsCasts(d);
    ProjectionNormalForm(d);
    StampedExactly(d);
  }

  lemma {:induction false} NoNameCastClean(n: Node)
    requires NoNameCast(n)
    ensures Clean(RegCast, n)
  {
    forall m | m in n.kids ensures Clean(RegCast, m) { NoNameCastClean(m); }
  }

  /** Membership tests are not COLLATEs, so turning them into calls nests no two. */
  lemma {:induction false} AnyAllKeepsSingle(n: Node)
    requires NoDouble(n)
    ensures NoDouble(Walk(ArrayAnyAll, n))
    ensures IsCollate(Walk(ArrayAnyAll, n)) ==> IsCollate(n)
    decreases Redexes(ArrayAnyAll, n), n
  {
    var m, r := VisitAnyAll(n), Walk(ArrayAnyAll, n);
    WalkNode(ArrayAnyAll, n);
    AnyAllVisitSingle(n);
    forall k | k in r.kids ensures NoDouble(k) {
      var i :| 0 <= i < |r.kids| && r.kids[i] == k;
      ChildSmaller(ArrayAnyAll, n, i);
      AnyAllKeepsSingle(m.kids[i]);
    }
    if IsCollate(r) {
      ChildSmaller(ArrayAnyAll, n, 0);
      AnyAllKeepsSingle(m.kids[0]);
    }
  }

  lemma AnyAllVisitSingle(n: Node)
    requires NoDouble(n)
    ensures NoDouble(VisitAnyAll(n)) && (IsCollate(VisitAnyAll(n)) ==> VisitAnyAll(n) == n)
  {
    if VisitAnyAll(n) != n {
      var left, right := n.kids[0], n.kids[1];
      assert left in n.kids && right in n.kids;
      var operand := ArrayOperand(right);
      assert NoDouble(operand) by {
        if operand != right {
          forall m | m in operand.kids ensures NoDouble(m) { assert m.kind.Value? && m.kids == []; }
        }
      }
      assert NoDouble(ArrayContains(left, right));
    }
  }

  /** Where no two COLLATEs were directly nested the output needs nothing more from any of the passes. */
  lemma RewriteFixed(n: Node)
    requires NoDouble(n)
    ensures forall rule :: Clean(rule, Rewrite(n))
    ensures Rewrite(Rewrite(n)) == Rewrite(n)
    ensures AllStamped(Rewrite(n)) <==> BranchesReady(Resolve(n))
  {
    hide Walk, Clean, NoMembershipQuantifier, NoNameCast, BodiesStamped, AllStamped, BranchesReady, Rewrite,
         Resolve, NoDouble;
    var a := Walk(ArrayAnyAll, n);
    var b := Walk(StripCollate, a);
    var c := Walk(PgOperator, b);
    var d := Walk(RegCast, c);
    var e := Walk(ProjectionSubquery, d);
    RewriteSteps(n);
    WalkClean(ArrayAnyAll, n);
    StaysClean(ArrayAnyAll, StripCollate, a);
    StaysClean(ArrayAnyAll, PgOperator, b);
    StaysClean(ArrayAnyAll, RegCast, c);
    StaysClean(ArrayAnyAll, ProjectionSubquery, d);
    AnyAllKeepsSingle(n);
    CollateFreeExactly(a);
    StaysClean(StripCollate, PgOperator, b);
    StaysClean(StripCollate, RegCast, c);
    StaysClean(StripCollate, ProjectionSubquery, d);
    RewriteNormalForm(n);
    NoNameCastClean(e);
    StampedIsClean(e);
    assert e == Rewrite(n);
    assert Clean(ArrayAnyAll, e) && Clean(StripCollate, e) && Clean(PgOperator, e) && Clean(RegCast, e) &&
           Clean(ProjectionSubquery, e);
    forall rule ensures Clean(rule, e) { EveryRule(rule); }
    AllFixed(e);
  }

  lemma AllFixed(e: Node)
    requires forall rule :: Clean(rule, e)
    ensures Rewrite(e) == e
  {
    hide Walk, Rewrite, Clean;
    forall rule ensures Walk(rule, e) == e { WalkFixed(rule, e); }
    RewriteSteps(e);
  }

  lemma EveryRule(rule: Rule)
    ensures rule in PIPELINE
  {
    assert PIPELINE[0] == ArrayAnyAll && PIPELINE[1] == StripCollate && PIPELINE[2] == PgOperator;
    assert PIPELINE[3] == RegCast && PIPELINE[4] == ProjectionSubquery;
  }

  // ---------- Why the order matters ----------

  predicate IsCastItem(item: Node) {
    item.kind.Item? && |item.kids| == 1 && IsNameCast(item.kids[0]) && !NumericText(item.kids[0].kids[0])
  }

  /** Nothing but leaves stands below a cast that is looked up. */
  lemma {:induction false} WayToItem(n: Node, path: seq<nat>)
    requires At(n, path).Some? && IsCastItem(At(n, path).value)
    ensures Undisturbed(RegCast, n, path)
  {
    if path != [] {
      if IsNameCast(n) { LeafHasNoItem(n.kids[0], path[1..]); }
      WayToItem(n.kids[path[0]], path[1..]);
    }
  }

  lemma LeafHasNoItem(leaf: Node, path: seq<nat>)
    requires leaf.kids == [] && !leaf.kind.Item?
    ensures At(leaf, path).Some? ==> !IsCastItem(At(leaf, path).value)
  {
  }

  /** Were casts looked up after the projections were stamped, each lookup in a SELECT item, wherever it stands, would
      stay without a limit. */
  lemma CastsBeforeStamping(n: Node, path: seq<nat>)
    requires var stamped := At(Walk(ProjectionSubquery, n), path); stamped.Some? && IsCastItem(stamped.value)
    ensures var item := At(Walk(RegCast, Walk(ProjectionSubquery, n)), path);
            item.Some? && IsSubqueryItem(item.value) && !HasLimit(item.value.kids[0].kids[0])
  {
    var stamped := Walk(ProjectionSubquery, n);
    var item := At(stamped, path).value;
    var cast := item.kids[0];
    WayToItem(stamped, path);
    WalkAt(RegCast, stamped, path);
    WalkNode(RegCast, item);
    WalkCast(cast);
    TemplateIsQuery(NormalizeTypeName(cast.kind.dataType));
    var query := Substitute(Template(NormalizeTypeName(cast.kind.dataType)).value, cast.kids[0]);
    assert VisitRegCast(cast) == Node(Subquery, [query]) && query.kind == Query(false, false) && |query.kids| == 1;
    hide Walk, Template, NormalizeTypeName, Substitute, VisitRegCast;
  }

  /** The cast of a collated literal or placeholder that would be a name cast without the COLLATE. */
  predicate IsCollatedCast(n: Node) {
    n.kind.Cast? && |n.kids| == 1 && IsCollate(n.kids[0]) && IsNameCast(Node(n.kind, n.kids[0].kids))
  }

  predicate HasCollatedCast(n: Node) {
    IsCollatedCast(n) || exists m :: m in n.kids && HasCollatedCast(m)
  }

  /** The cast pass leaves it alone. */
  lemma {:induction false} CollatedCastStays(n: Node)
    requires HasCollatedCast(n)
    ensures HasCollatedCast(Walk(RegCast, n))
  {
    if IsCollatedCast(n) {
      CollatedCastFixed(n);
    } else {
      WalkNode(RegCast, n);
      var m :| m in n.kids && HasCollatedCast(m);
      var i :| 0 <= i < |n.kids| && n.kids[i] == m;
      NoCastHere(n);
      CollatedCastStays(m);
      assert Walk(RegCast, n).kids[i] in Walk(RegCast, n).kids;
      hide Walk, Visit, IsCollatedCast, IsNameCast;
    }
  }

  lemma CollatedCastFixed(n: Node)
    requires IsCollatedCast(n)
    ensures Walk(RegCast, n) == n
  {
    var collated := n.kids[0];
    assert Clean(RegCast, collated.kids[0]) && Clean(RegCast, collated) && Clean(RegCast, n);
    hide Clean;
    WalkFixed(RegCast, n);
  }

  lemma NoCastHere(n: Node)
    requires HasCollatedCast(n) && !IsCollatedCast(n)
    ensures Visit(RegCast, n) == n
  {
    NameCastBare(n);
    NotVisited(n);
    hide IsCollatedCast, IsNameCast;
  }

  lemma NameCastBare(n: Node)
    ensures IsNameCast(n) ==> !HasCollatedCast(n)
  {
    if IsNameCast(n) { assert !HasCollatedCast(n.kids[0]) && forall m :: m in n.kids ==> m == n.kids[0]; }
  }

  lemma {:induction false} StrippedCast(n: Node)
    requires HasCollatedCast(n)
    ensures !NoNameCast(Walk(StripCollate, n))
    decreases n
  {
    var m, r := VisitCollate(n), Walk(StripCollate, n);
    WalkNode(StripCollate, n);
    if IsCollatedCast(m) {
      var collated := m.kids[0];
      WalkNode(StripCollate, collated);
      WalkNode(StripCollate, collated.kids[0]);
      assert Walk(StripCollate, collated) == collated.kids[0];
      assert r.kind == m.kind && r.kids == collated.kids;
    } else {
      assert HasCollatedCast(m);
      var k :| k in m.kids && HasCollatedCast(k);
      var i :| 0 <= i < |m.kids| && m.kids[i] == k;
      StrippedCast(k);
      assert r.kids[i] in r.kids;
    }
  }

  /** Were COLLATE stripped after casts were looked up, a tree with the cast of a collated name anywhere would keep a
      name cast. */
  lemma CollateBeforeCasts(n: Node)
    requires HasCollatedCast(n)
    ensures !NoNameCast(Walk(StripCollate, Walk(RegCast, n)))
  {
    CollatedCastStays(n);
    StrippedCast(Walk(RegCast, n));
  }
}
