/** The visitor terminates: a visit that changes a node leaves fewer nodes for the rule to change. */
module SqlVisitor {
  import opened Wrappers
  import opened SqlAst
  import opened SqlStrings
  import opened Digits
  import opened SqlRules
  import opened SqlTemplates

  lemma {:induction false} RedexesConcat(rule: Rule, xs: seq<Node>, ys: seq<Node>)
    ensures RedexesAll(rule, xs + ys) == RedexesAll(rule, xs) + RedexesAll(rule, ys)
  {
    if xs == [] {
      assert xs + ys == ys;
    } else {
      assert (xs + ys)[1..] == xs[1..] + ys;
      RedexesConcat(rule, xs[1..], ys);
    }
  }

  lemma RedexesPair(rule: Rule, a: Node, b: Node)
    ensures RedexesAll(rule, [a]) == Redexes(rule, a)
    ensures RedexesAll(rule, [a, b]) == Redexes(rule, a) + Redexes(rule, b)
  {
    assert [a][1..] == [] && [a, b][1..] == [b] && [b][1..] == [];
  }

  lemma {:induction false} RedexesMember(rule: Rule, ns: seq<Node>, n: Node)
    requires n in ns
    ensures Redexes(rule, n) <= RedexesAll(rule, ns)
  {
    if n != ns[0] { RedexesMember(rule, ns[1..], n); }
  }

  lemma {:induction false} CleanHasNone(rule: Rule, n: Node)
    requires Clean(rule, n)
    ensures Redexes(rule, n) == 0
    decreases n, 1
  {
    CleanListHasNone(rule, n.kids);
  }

  lemma {:induction false} CleanListHasNone(rule: Rule, ns: seq<Node>)
    requires forall n :: n in ns ==> Clean(rule, n)
    ensures RedexesAll(rule, ns) == 0
    decreases ns, 0
  {
    if ns != [] {
      CleanHasNone(rule, ns[0]);
      CleanListHasNone(rule, ns[1..]);
    }
  }

  lemma AnyAllShrinks(n: Node)
    requires VisitAnyAll(n) != n
    ensures Redexes(ArrayAnyAll, VisitAnyAll(n)) < Redexes(ArrayAnyAll, n)
  {
    var left, right := n.kids[0], n.kids[1];
    var operand := ArrayOperand(right);
    assert Redexes(ArrayAnyAll, operand) <= Redexes(ArrayAnyAll, right) by {
      if operand != right { CleanHasNone(ArrayAnyAll, operand); }
    }
    assert n.kids == [left, right];
    RedexesPair(ArrayAnyAll, left, right);
    RedexesPair(ArrayAnyAll, operand, left);
    RedexesPair(ArrayAnyAll, ArrayContains(left, right), left);
  }

  lemma CollateShrinks(n: Node)
    requires VisitCollate(n) != n
    ensures Redexes(StripCollate, VisitCollate(n)) < Redexes(StripCollate, n)
  {
    RedexesPair(StripCollate, n.kids[0], n);
    assert n.kids == [n.kids[0]];
  }

  // ---------- Casts ----------

  /** No cast in the tree names a resolvable type. */
  predicate CastFree(n: Node) {
    (n.kind.Cast? ==> Template(NormalizeTypeName(n.kind.dataType)).None?) && forall m :: m in n.kids ==> CastFree(m)
  }

  lemma {:induction false} SubstituteClean(n: Node, operand: Node)
    requires CastFree(n) && operand.kind.Value? && operand.kids == []
    ensures Clean(RegCast, Substitute(n, operand))
  {
    if !IsPlaceholder(n) {
      var r := Substitute(n, operand);
      forall m | m in r.kids ensures Clean(RegCast, m) {
        var i :| 0 <= i < |n.kids| && r.kids[i] == m;
        SubstituteClean(n.kids[i], operand);
      }
    }
  }

  lemma TextIsNoName()
    ensures Template(NormalizeTypeName("TEXT")).None?
  {
    assert |NormalizeTypeName("TEXT")| == 4 by { assert Lower("TEXT")[0] == 't'; }
  }

  lemma {:induction false} KindsCastFree(n: Node)
    requires All(TemplateKind, n)
    ensures CastFree(n)
  {
    forall m | m in n.kids ensures CastFree(m) { KindsCastFree(m); }
    TextIsNoName();
    hide NormalizeTypeName, Template;
  }

  lemma TemplateCastFree(typeName: string)
    requires Template(typeName).Some?
    ensures CastFree(Template(typeName).value)
  {
    TemplateKinds(typeName);
    KindsCastFree(Template(typeName).value);
    hide CastFree, All;
  }

  lemma RegCastShrinks(n: Node)
    requires VisitRegCast(n) != n
    ensures Redexes(RegCast, VisitRegCast(n)) < Redexes(RegCast, n)
  {
    var r := VisitRegCast(n);
    if r.kind.Subquery? {
      var typeName := NormalizeTypeName(n.kind.dataType);
      TemplateCastFree(typeName);
      SubstituteClean(Template(typeName).value, n.kids[0]);
    }
    CleanHasNone(RegCast, r);
  }

  // ---------- Subqueries in the projection ----------

  /** Adding LIMIT 1 leaves the aliases and every name as they were. */
  lemma AddLimitCorrelation(query: Node)
    requires query.kind.Query? && |query.kids| > 0
    ensures HasCorrelation(AddLimit(query)) <==> HasCorrelation(query)
  {
    var limited := AddLimit(query);
    forall aliases: set<string> ensures Correlated(aliases, limited) <==> Correlated(aliases, query) {
      assert !Correlated(aliases, Lit(Number("1")));
      assert forall m :: m in limited.kids <==> m in query.kids || m == Lit(Number("1"));
    }
  }

  lemma StampTwice(item: Node)
    ensures StampItem(StampItem(item)) == StampItem(item)
  {
    if IsSubqueryItem(item) { AddLimitCorrelation(item.kids[0].kids[0]); }
  }

  lemma VisitQueryTwice(n: Node)
    ensures VisitQuery(VisitQuery(n)) == VisitQuery(n)
  {
    if HasProjection(n) {
      var items := n.kids[0].kids[0].kids;
      assert StampItems(StampItems(items)) == StampItems(items) by {
        forall i | 0 <= i < |items| ensures StampItem(StampItem(items[i])) == StampItem(items[i]) {
          StampTwice(items[i]);
        }
      }
    }
  }

  lemma AddLimitVisit(query: Node)
    requires query.kind.Query? && |query.kids| > 0
    ensures VisitQuery(AddLimit(query)) == AddLimit(query) <==> VisitQuery(query) == query
  {
    var limited := AddLimit(query);
    assert limited.kids[1..] == [Lit(Number("1"))] + query.kids[1..];
    assert limited.kids == [limited.kids[0]] + limited.kids[1..] && query.kids == [query.kids[0]] + query.kids[1..];
  }

  lemma LimitAddsNone(body: Node, rest: seq<Node>)
    ensures RedexesAll(ProjectionSubquery, [body, Lit(Number("1"))] + rest) ==
            RedexesAll(ProjectionSubquery, [body] + rest)
  {
    var one := Lit(Number("1"));
    assert Redexes(ProjectionSubquery, one) == 0;
    hide *;
    RedexesConcat(ProjectionSubquery, [body, one], rest);
    RedexesConcat(ProjectionSubquery, [body], rest);
    RedexesPair(ProjectionSubquery, body, one);
  }

  lemma AddLimitRedexes(query: Node)
    requires query.kind.Query? && |query.kids| > 0
    ensures Redexes(ProjectionSubquery, AddLimit(query)) == Redexes(ProjectionSubquery, query)
  {
    hide RedexesAll, VisitQuery;
    AddLimitVisit(query);
    LimitAddsNone(query.kids[0], query.kids[1..]);
    assert query.kids == [query.kids[0]] + query.kids[1..];
  }

  lemma StampItemRedexes(item: Node)
    ensures Redexes(ProjectionSubquery, StampItem(item)) <= Redexes(ProjectionSubquery, item)
  {
    if StampItem(item) != item {
      var query := item.kids[0].kids[0];
      assert item.kids == [item.kids[0]] && item.kids[0].kids == [query];
      RedexesPair(ProjectionSubquery, item.kids[0], Lit(Null));
      RedexesPair(ProjectionSubquery, query, Lit(Null));
      RedexesPair(ProjectionSubquery, Lit(Null), Lit(Null));
      RedexesPair(ProjectionSubquery, AddLimit(query), Lit(Null));
      RedexesPair(ProjectionSubquery, Node(Subquery, [AddLimit(query)]), Lit(Null));
      AddLimitRedexes(query);
    }
  }

  lemma {:induction false} StampItemsRedexes(items: seq<Node>)
    ensures RedexesAll(ProjectionSubquery, StampItems(items)) <= RedexesAll(ProjectionSubquery, items)
  {
    if items != [] {
      StampItemRedexes(items[0]);
      StampItemsRedexes(items[1..]);
      assert StampItems(items)[1..] == StampItems(items[1..]);
    }
  }

  lemma QueryShrinks(n: Node)
    requires VisitQuery(n) != n
    ensures Redexes(ProjectionSubquery, VisitQuery(n)) < Redexes(ProjectionSubquery, n)
  {
    var select, r := n.kids[0], VisitQuery(n);
    var items := select.kids[0].kids;
    VisitQueryTwice(n);
    StampItemsRedexes(items);
    RedexesConcat(ProjectionSubquery, [r.kids[0]], n.kids[1..]);
    RedexesConcat(ProjectionSubquery, [select], n.kids[1..]);
    RedexesPair(ProjectionSubquery, r.kids[0], select);
    RedexesPair(ProjectionSubquery, select, select);
    assert n.kids == [select] + n.kids[1..];
    RedexesConcat(ProjectionSubquery, [r.kids[0].kids[0]], select.kids[1..]);
    RedexesConcat(ProjectionSubquery, [select.kids[0]], select.kids[1..]);
    RedexesPair(ProjectionSubquery, r.kids[0].kids[0], select);
    RedexesPair(ProjectionSubquery, select.kids[0], select);
    assert select.kids == [select.kids[0]] + select.kids[1..];
  }

  // ---------- The visitor ----------

  lemma VisitShrinks(rule: Rule, n: Node)
    ensures Visit(rule, n) != n ==> Redexes(rule, Visit(rule, n)) < Redexes(rule, n)
  {
    if Visit(rule, n) != n {
      match rule
      case ArrayAnyAll => AnyAllShrinks(n);
      case StripCollate => CollateShrinks(n);
      case PgOperator => OperatorShrinks(n);
      case RegCast => RegCastShrinks(n);
      case ProjectionSubquery => QueryShrinks(n);
    }
  }

  lemma OperatorShrinks(n: Node)
    requires VisitOperator(n) != n
    ensures Redexes(PgOperator, VisitOperator(n)) < Redexes(PgOperator, n)
  {
  }

  /** Each child is smaller than the node: fewer redexes, or the same tree cut down. */
  lemma ChildSmaller(rule: Rule, n: Node, i: nat)
    requires i < |Visit(rule, n).kids|
    ensures var m := Visit(rule, n).kids[i];
            Redexes(rule, m) < Redexes(rule, n) || (Redexes(rule, m) <= Redexes(rule, n) && Visit(rule, n) == n)
  {
    VisitShrinks(rule, n);
    RedexesMember(rule, Visit(rule, n).kids, Visit(rule, n).kids[i]);
  }

  /** Visit a node, then the children of what the visit left. */
  function Walk(rule: Rule, n: Node): Node
    decreases Redexes(rule, n), n
  {
    var m := Visit(rule, n);
    Node(m.kind, seq(|m.kids|, i requires 0 <= i < |m.kids| => ChildSmaller(rule, n, i); Walk(rule, m.kids[i])))
  }
}
