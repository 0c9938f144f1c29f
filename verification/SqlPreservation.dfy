/**
 What the whole pipeline keeps: the first four passes preserve evaluation together, the fifth where it replaces
 nothing and cuts nothing off, all on conditions that are read off the tree.
 */
module SqlPreservation {
  import opened Wrappers
  import opened SqlAst
  import opened SqlStrings
  import opened SqlRules
  import opened SqlVisitor
  import opened SqlNormalForms
  import opened SqlCollate
  import opened SqlProjection
  import opened SqlSemantics
  import opened SqlMeaning
  import opened SqlRegclass
  import opened SqlRegCast
  import opened SqlPipeline

  // ---------- Collated literals ----------

  /** No comparison with ANY or ALL has a braced literal under COLLATE: then all of them keep their values. */
  predicate Uncollated(n: Node) {
    (Quantified(n.kind, n.kids) ==> !CollatedBrace(n.kids[1])) && forall m :: m in n.kids ==> Uncollated(m)
  }

  /** The comparisons that the passes misread keep their values all the same. */
  ghost predicate LiteralsKept(sem: Sem, n: Node) {
    if sem.collateTransparent then MembershipKept(sem, n) else ComparisonsKept(sem, false, n)
  }

  lemma {:induction false} UncollatedKept(sem: Sem, n: Node)
    requires Uncollated(n)
    ensures LiteralsKept(sem, n)
  {
    forall m | m in n.kids ensures LiteralsKept(sem, m) { UncollatedKept(sem, m); }
    if VisitAnyAll(n) != n { VisitedQuantifier(n); }
    hide Eval, Over, BraceUnder, TextUnder, VisitAnyAll, ArrayItems;
  }

  lemma WalkedBared(n: Node)
    ensures Bared(Walk(ArrayAnyAll, n)) ==> Walk(ArrayAnyAll, n) == n
  {
    WalkNode(ArrayAnyAll, n);
    hide Braced;
    if Bared(Walk(ArrayAnyAll, n)) {
      assert n.kind.Collate? && |n.kids| == 1;
      WalkNode(ArrayAnyAll, n.kids[0]);
      assert Walk(ArrayAnyAll, n.kids[0]).kids == n.kids[0].kids;
      assert Walk(ArrayAnyAll, n).kids == n.kids;
    }
  }

  lemma ComparedLeaf(sem: Sem, all: bool, n: Node)
    requires n.kids == []
    ensures ComparisonsKept(sem, all, n)
  {
  }

  lemma ComparedCall(sem: Sem, all: bool, name: string, kids: seq<Node>)
    requires forall m :: m in kids ==> ComparisonsKept(sem, all, m)
    ensures ComparisonsKept(sem, all, Call(name, kids))
  {
    hide Bared, Over, Eval;
  }

  lemma ComparedOperand(sem: Sem, all: bool, right: Node)
    requires ComparisonsKept(sem, all, right)
    ensures ComparisonsKept(sem, all, ArrayOperand(right))
  {
    if ArrayOperand(right) != right {
      var items := ArrayOperand(right).kids;
      forall m | m in items ensures ComparisonsKept(sem, all, m) {
        assert m.kids == [];
        ComparedLeaf(sem, all, m);
      }
    }
  }

  lemma VisitedCompared(sem: Sem, n: Node)
    requires ComparisonsKept(sem, false, n)
    ensures forall m :: m in VisitAnyAll(n).kids ==> ComparisonsKept(sem, false, m)
  {
    ComparisonsInside(sem, false, n);
    hide ComparisonsKept, ArrayOperand;
    if VisitAnyAll(n) != n {
      var left, right := n.kids[0], n.kids[1];
      VisitedQuantifier(n);
      assert left in n.kids && right in n.kids;
      ComparedOperand(sem, false, right);
      ComparedCall(sem, false, "array_contains", [ArrayOperand(right), left]);
    }
  }

  lemma OtherHere(sem: Sem, n: Node)
    requires ComparisonsKept(sem, false, n) && Quantified(n.kind, n.kids) && VisitAnyAll(n) == n
    requires Bared(n.kids[1]) && BraceUnder(n.kids[1])
    ensures forall scope ::
              Over(sem, n.kind, Eval(sem, n.kids[0], scope), Strings(ArrayItems(TextUnder(n.kids[1])))) == Unknown
  {
    hide Eval, Over, Bared, BraceUnder, VisitAnyAll;
  }

  lemma ComparedBy(sem: Sem, r: Node)
    requires forall k :: k in r.kids ==> ComparisonsKept(sem, true, k)
    requires Quantified(r.kind, r.kids) && Bared(r.kids[1]) && BraceUnder(r.kids[1]) ==>
               forall scope ::
                 Over(sem, r.kind, Eval(sem, r.kids[0], scope), Strings(ArrayItems(TextUnder(r.kids[1])))) == Unknown
    ensures ComparisonsKept(sem, true, r)
  {
    hide Eval, Over, Bared, BraceUnder, VisitAnyAll;
  }

  lemma ChangedIsNoQuantifier(n: Node)
    ensures Quantified(VisitAnyAll(n).kind, VisitAnyAll(n).kids) ==> VisitAnyAll(n) == n
  {
  }

  /** The ANY/ALL pass takes its own comparisons away and leaves the others with operands of the same value. */
  lemma {:induction false} AnyAllCompared(sem: Sem, n: Node)
    requires !sem.collateTransparent && ComparisonsKept(sem, false, n)
    ensures ComparisonsKept(sem, true, Walk(ArrayAnyAll, n))
    decreases Redexes(ArrayAnyAll, n), n
  {
    hide *;
    var m, r := Visit(ArrayAnyAll, n), Walk(ArrayAnyAll, n);
    VisitIsAnyAll(n);
    WalkNode(ArrayAnyAll, n);
    VisitedCompared(sem, n);
    forall k | k in r.kids ensures ComparisonsKept(sem, true, k) {
      var i :| 0 <= i < |r.kids| && r.kids[i] == k;
      assert m.kids[i] in m.kids;
      ChildSmaller(ArrayAnyAll, n, i);
      AnyAllCompared(sem, m.kids[i]);
    }
    if Quantified(r.kind, r.kids) { QuantifiedKind(r.kind, r.kids); }
    if Quantified(r.kind, r.kids) && Bared(r.kids[1]) && BraceUnder(r.kids[1]) {
      SameQuantified(m, r);
      ChangedIsNoQuantifier(n);
      WalkedBared(n.kids[1]);
      OtherHere(sem, n);
      forall scope
        ensures Over(sem, r.kind, Eval(sem, r.kids[0], scope), Strings(ArrayItems(TextUnder(r.kids[1])))) == Unknown
      {
        AnyAllPreserves(sem, n.kids[0], scope);
      }
    }
    ComparedBy(sem, r);
  }

  lemma SameQuantified(m: Node, r: Node)
    requires r.kind == m.kind && |r.kids| == |m.kids|
    ensures Quantified(m.kind, m.kids) <==> Quantified(r.kind, r.kids)
  {
  }

  // ---------- Casts, before any pass ----------

  /** The cast as it is once a COLLATE on its operand is stripped. */
  function Stripped(cast: Node): Node
    requires |cast.kids| == 1
  {
    Node(cast.kind, [VisitCollate(cast.kids[0])])
  }

  /** Every cast that the fourth pass will look up resolves. */
  predicate CastsReady(sem: Sem, n: Node) {
    (|n.kids| == 1 && IsNameCast(Stripped(n)) ==> Resolves(sem, Stripped(n))) &&
    forall m :: m in n.kids ==> CastsReady(sem, m)
  }

  lemma ReadyNode(sem: Sem, n: Node)
    ensures CastsReady(sem, n) <==>
            (|n.kids| == 1 && IsNameCast(Stripped(n)) ==> Resolves(sem, Stripped(n))) &&
            forall i :: 0 <= i < |n.kids| ==> CastsReady(sem, n.kids[i])
  {
    hide Resolves, IsNameCast, Stripped;
  }

  lemma ReadyOther(sem: Sem, n: Node)
    requires !n.kind.Cast?
    ensures CastsReady(sem, n) <==> forall i :: 0 <= i < |n.kids| ==> CastsReady(sem, n.kids[i])
  {
    ReadyNode(sem, n);
    if |n.kids| == 1 { assert !IsNameCast(Stripped(n)); }
    hide Resolves;
  }

  lemma ReadyOperand(sem: Sem, right: Node)
    ensures CastsReady(sem, ArrayOperand(right)) <==> CastsReady(sem, right)
  {
    if ArrayOperand(right) != right {
      var elements := ArrayOperand(right);
      ReadyOther(sem, right);
      ReadyOther(sem, elements);
      forall i | 0 <= i < |elements.kids| ensures CastsReady(sem, elements.kids[i]) {
        assert elements.kids[i].kids == [];
        ReadyOther(sem, elements.kids[i]);
      }
    }
  }

  lemma ReadyPair(sem: Sem, kind: Kind, a: Node, b: Node)
    requires !kind.Cast?
    ensures CastsReady(sem, Node(kind, [a, b])) <==> CastsReady(sem, a) && CastsReady(sem, b)
  {
    ReadyOther(sem, Node(kind, [a, b]));
    assert Node(kind, [a, b]).kids[0] == a && Node(kind, [a, b]).kids[1] == b;
    hide CastsReady;
  }

  lemma ReadyOne(sem: Sem, kind: Kind, a: Node)
    requires !kind.Cast?
    ensures CastsReady(sem, Node(kind, [a])) <==> CastsReady(sem, a)
  {
    ReadyOther(sem, Node(kind, [a]));
    assert Node(kind, [a]).kids[0] == a;
    hide CastsReady;
  }

  lemma ReadyVisited(sem: Sem, n: Node)
    ensures CastsReady(sem, VisitAnyAll(n)) <==> CastsReady(sem, n)
  {
    hide *;
    if VisitAnyAll(n) != n {
      VisitedQuantifier(n);
      var operand, left := ArrayOperand(n.kids[1]), n.kids[0];
      var call := Call("array_contains", [operand, left]);
      CallIs("array_contains", [operand, left]);
      ReadyPair(sem, n.kind, left, n.kids[1]);
      ReadyPair(sem, Function("array_contains"), operand, left);
      ReadyOne(sem, Not, call);
      ReadyOperand(sem, n.kids[1]);
    }
  }

  lemma CallIs(name: string, kids: seq<Node>)
    ensures Call(name, kids) == Node(Function(name), kids) && Negate(Call(name, kids)) == Node(Not, [Call(name, kids)])
  {
  }

  /** The ANY/ALL pass neither makes nor unmakes the operand of a cast. */
  lemma WalkedOperand(n: Node)
    ensures IsNameOperand(VisitCollate(Walk(ArrayAnyAll, n))) || IsNameOperand(VisitCollate(n)) ==>
              VisitCollate(Walk(ArrayAnyAll, n)) == VisitCollate(n)
  {
    WalkNode(ArrayAnyAll, n);
    if n.kind.Collate? && |n.kids| == 1 { WalkNode(ArrayAnyAll, n.kids[0]); }
  }

  lemma CastOperand(kind: Kind, a: Node, b: Node)
    requires IsNameOperand(a) || IsNameOperand(b) ==> a == b
    ensures IsNameCast(Node(kind, [a])) <==> IsNameCast(Node(kind, [b]))
    ensures IsNameCast(Node(kind, [a])) ==> a == b
  {
    hide Template, NormalizeTypeName;
  }

  lemma {:induction false} ReadyAfterAnyAll(sem: Sem, n: Node)
    ensures CastsReady(sem, Walk(ArrayAnyAll, n)) <==> CastsReady(sem, n)
    decreases Redexes(ArrayAnyAll, n), n
  {
    hide *;
    var m, r := Visit(ArrayAnyAll, n), Walk(ArrayAnyAll, n);
    VisitIsAnyAll(n);
    WalkNode(ArrayAnyAll, n);
    forall i | 0 <= i < |m.kids| ensures CastsReady(sem, r.kids[i]) <==> CastsReady(sem, m.kids[i]) {
      ChildSmaller(ArrayAnyAll, n, i);
      ReadyAfterAnyAll(sem, m.kids[i]);
    }
    if |m.kids| == 1 {
      WalkedOperand(m.kids[0]);
      CastOperand(m.kind, VisitCollate(r.kids[0]), VisitCollate(m.kids[0]));
      StrippedIs(m);
      StrippedIs(r);
    }
    ReadyNode(sem, m);
    ReadyNode(sem, r);
    ReadyVisited(sem, n);
  }

  lemma StrippedIs(n: Node)
    requires |n.kids| == 1
    ensures Stripped(n) == Node(n.kind, [VisitCollate(n.kids[0])])
  {
  }

  lemma ResolveNode(sem: Sem, n: Node)
    ensures CastsResolve(sem, n) <==>
            (IsNameCast(n) ==> Resolves(sem, n)) && forall i :: 0 <= i < |n.kids| ==> CastsResolve(sem, n.kids[i])
  {
    hide Resolves, IsNameCast;
  }

  lemma StrippedOperand(n: Node)
    ensures IsNameOperand(Walk(StripCollate, n)) || IsNameOperand(VisitCollate(n)) ==>
              Walk(StripCollate, n) == VisitCollate(n)
  {
    WalkNode(StripCollate, n);
  }

  lemma NameCastHasOne(n: Node)
    ensures IsNameCast(n) ==> |n.kids| == 1 && n == Node(n.kind, [n.kids[0]])
  {
    hide Template, NormalizeTypeName;
  }

  lemma ReadyUnderCollate(sem: Sem, n: Node)
    ensures CastsReady(sem, VisitCollate(n)) <==> CastsReady(sem, n)
  {
    if n.kind.Collate? && |n.kids| == 1 { ReadyOther(sem, n); }
    hide CastsReady;
  }

  lemma VisitIsCollate(n: Node)
    ensures Visit(StripCollate, n) == VisitCollate(n)
  {
    hide VisitCollate;
  }

  lemma {:induction false} ReadyAfterCollate(sem: Sem, n: Node)
    ensures CastsResolve(sem, Walk(StripCollate, n)) <==> CastsReady(sem, n)
    decreases n
  {
    var m, r := VisitCollate(n), Walk(StripCollate, n);
    forall i | 0 <= i < |m.kids| ensures m.kids[i] < n {}
    hide *;
    VisitIsCollate(n);
    WalkNode(StripCollate, n);
    forall i | 0 <= i < |m.kids| ensures CastsResolve(sem, r.kids[i]) <==> CastsReady(sem, m.kids[i]) {
      ReadyAfterCollate(sem, m.kids[i]);
    }
    NameCastHasOne(r);
    if |m.kids| == 1 {
      StrippedOperand(m.kids[0]);
      CastOperand(m.kind, r.kids[0], VisitCollate(m.kids[0]));
      StrippedIs(m);
      assert r == Node(m.kind, [r.kids[0]]);
    }
    ResolveNode(sem, r);
    ReadyNode(sem, m);
    ReadyUnderCollate(sem, n);
  }

  lemma OperatorOperand(n: Node)
    ensures IsNameOperand(Walk(PgOperator, n)) || IsNameOperand(n) ==> Walk(PgOperator, n) == n
  {
    WalkNode(PgOperator, n);
    assert n.kids == [] ==> Walk(PgOperator, n).kids == [];
  }

  lemma OperatorKind(n: Node)
    ensures Visit(PgOperator, n).kids == n.kids
    ensures n.kind.Cast? || Visit(PgOperator, n).kind.Cast? ==> Visit(PgOperator, n) == n
  {
  }

  lemma CastIsCast(n: Node)
    ensures IsNameCast(n) ==> n.kind.Cast?
  {
    hide Template, NormalizeTypeName;
  }

  lemma {:induction false} ReadyAfterOperator(sem: Sem, n: Node)
    ensures CastsResolve(sem, Walk(PgOperator, n)) <==> CastsResolve(sem, n)
    decreases n
  {
    hide *;
    var m, r := Visit(PgOperator, n), Walk(PgOperator, n);
    WalkNode(PgOperator, n);
    OperatorKind(n);
    forall i | 0 <= i < |n.kids| ensures CastsResolve(sem, r.kids[i]) <==> CastsResolve(sem, n.kids[i]) {
      ReadyAfterOperator(sem, n.kids[i]);
    }
    NameCastHasOne(r);
    NameCastHasOne(n);
    CastIsCast(r);
    CastIsCast(n);
    if |n.kids| == 1 && (n.kind.Cast? || r.kind.Cast?) {
      OperatorOperand(n.kids[0]);
      CastOperand(n.kind, r.kids[0], n.kids[0]);
      assert r == Node(r.kind, [r.kids[0]]) && n == Node(n.kind, [n.kids[0]]);
    }
    ResolveNode(sem, r);
    ResolveNode(sem, n);
  }

  /** The casts that the fourth pass meets all resolve exactly when they do before the first. */
  lemma CastsReadyExactly(sem: Sem, n: Node)
    ensures CastsResolve(sem, Walk(PgOperator, Walk(StripCollate, Walk(ArrayAnyAll, n)))) <==> CastsReady(sem, n)
  {
    hide *;
    ReadyAfterAnyAll(sem, n);
    ReadyAfterCollate(sem, Walk(ArrayAnyAll, n));
    ReadyAfterOperator(sem, Walk(StripCollate, Walk(ArrayAnyAll, n)));
  }

  /** The first four passes together preserve evaluation, in one and the same semantics, of every tree whose name casts
      resolve and whose comparisons with collated literals keep their values. */
  lemma ResolvePreserves(sem: Sem, n: Node, scope: Scope)
    requires CatalogReady(sem) && LiteralsKept(sem, n) && CastsReady(sem, n)
    ensures Eval(sem, Resolve(n), scope) == Eval(sem, n, scope)
  {
    LiteralsAre(sem, n);
    hide *;
    var a := Walk(ArrayAnyAll, n);
    var b := Walk(StripCollate, a);
    var c := Walk(PgOperator, b);
    ResolveSteps(n);
    AnyAllPreserves(sem, n, scope);
    if !sem.collateTransparent { AnyAllCompared(sem, n); }
    CollatePreserves(sem, a, scope);
    OperatorPreserves(sem, b, scope);
    CastsReadyExactly(sem, n);
    RegCastPreserves(sem, c, scope);
  }

  lemma LiteralsAre(sem: Sem, n: Node)
    requires LiteralsKept(sem, n)
    ensures if sem.collateTransparent then MembershipKept(sem, n) else ComparisonsKept(sem, false, n)
  {
    hide MembershipKept, ComparisonsKept;
  }

  // ---------- The fifth pass ----------

  predicate AtMostOneRow(v: Val) {
    v.Rows? ==> |v.rows| <= 1
  }

  /** A scalar subquery item that the pass does not replace, and from which a limit cuts nothing off. */
  ghost predicate ItemKept(sem: Sem, item: Node) {
    IsSubqueryItem(item) ==>
      !Dropped(item) &&
      (!HasLimit(item.kids[0].kids[0]) ==>
         forall scope :: AtMostOneRow(Eval(sem, item.kids[0].kids[0].kids[0], scope)))
  }

  ghost predicate ItemsKept(sem: Sem, n: Node) {
    (HasProjection(n) ==> forall item :: item in n.kids[0].kids[0].kids ==> ItemKept(sem, item)) &&
    forall m :: m in n.kids ==> ItemsKept(sem, m)
  }

  lemma FirstOfOne(v: Val)
    requires AtMostOneRow(v)
    ensures FirstRows(v, Int(1)) == v
  {
  }

  lemma CombineLimited(sem: Sem, vals: seq<Val>, scope: Scope)
    requires |vals| > 0 && AtMostOneRow(vals[0])
    ensures Combine(sem, Query(true, false), None, None, [vals[0], Int(1)] + vals[1..], scope) ==
            Combine(sem, Query(false, false), None, None, vals, scope)
  {
    FirstOfOne(vals[0]);
    assert [vals[0], Int(1)] + vals[1..] == if |vals| == 1 then [vals[0], Int(1)] else [vals[0], Int(1)] + vals[1..];
    hide FirstRows;
  }

  lemma {:induction false} EvalConcat(sem: Sem, xs: seq<Node>, ys: seq<Node>, scope: Scope)
    ensures EvalAll(sem, xs + ys, scope) == EvalAll(sem, xs, scope) + EvalAll(sem, ys, scope)
  {
    if xs == [] {
      assert xs + ys == ys && EvalAll(sem, xs, scope) == [];
    } else {
      assert (xs + ys)[1..] == xs[1..] + ys && (xs + ys)[0] == xs[0];
      EvalConcat(sem, xs[1..], ys, scope);
      hide Eval;
    }
  }

  lemma LimitedValues(sem: Sem, query: Node, scope: Scope)
    requires query.kind.Query? && |query.kids| > 0
    ensures var vals := EvalAll(sem, query.kids, scope);
            |vals| == |query.kids| && vals[0] == Eval(sem, query.kids[0], scope) &&
            EvalAll(sem, AddLimit(query).kids, scope) == [vals[0], Int(1)] + vals[1..]
  {
    var one := Lit(Number("1"));
    assert AddLimit(query).kids == [query.kids[0], one] + query.kids[1..];
    assert query.kids == [query.kids[0]] + query.kids[1..];
    hide *;
    EvalConcat(sem, [query.kids[0]], query.kids[1..], scope);
    EvalConcat(sem, [query.kids[0], one], query.kids[1..], scope);
    EvalPair(sem, query.kids[0], one, scope);
    EvalNumber(sem, scope);
  }

  lemma QueryReadsNothing(sem: Sem, kind: Kind, kids: seq<Node>, scope: Scope)
    requires kind.Query?
    ensures Eval(sem, Node(kind, kids), scope) == Combine(sem, kind, None, None, EvalAll(sem, kids, scope), scope)
  {
    EvalNode(sem, kind, kids, scope);
    hide Eval, EvalAll, ArrayText, Label, Limited;
  }

  lemma LimitKind(query: Node)
    requires query.kind.Query? && |query.kids| > 0 && !HasLimit(query)
    ensures query.kind == Query(false, false) && AddLimit(query).kind == Query(true, false)
    ensures query == Node(query.kind, query.kids) && AddLimit(query) == Node(Query(true, false), AddLimit(query).kids)
  {
  }

  /** A limit on a query with at most one row changes nothing. */
  lemma LimitSame(sem: Sem, query: Node)
    requires query.kind.Query? && |query.kids| > 0 && !HasLimit(query)
    requires forall scope :: AtMostOneRow(Eval(sem, query.kids[0], scope))
    ensures Same(sem, query, AddLimit(query))
  {
    assert Label(query) == Label(AddLimit(query)) && ArrayText(sem, query) == ArrayText(sem, AddLimit(query));
    hide *;
    LimitKind(query);
    forall scope ensures Eval(sem, query, scope) == Eval(sem, AddLimit(query), scope) {
      LimitedValues(sem, query, scope);
      QueryReadsNothing(sem, query.kind, query.kids, scope);
      QueryReadsNothing(sem, Query(true, false), AddLimit(query).kids, scope);
      CombineLimited(sem, EvalAll(sem, query.kids, scope), scope);
    }
    SameBy(sem, query, AddLimit(query));
  }

  lemma SelfSame(sem: Sem, n: Node)
    ensures Same(sem, n, n)
  {
    hide Eval, Label, ArrayText;
  }

  lemma SubqueryItemIs(item: Node)
    requires IsSubqueryItem(item)
    ensures |item.kids| == 1 && |item.kids[0].kids| == 1
    ensures var query := item.kids[0].kids[0];
            query.kind.Query? && |query.kids| > 0 && item == Node(item.kind, [Node(Subquery, [query])]) &&
            (Dropped(item) <==> HasCorrelation(query)) &&
            (!HasCorrelation(query) ==>
               StampItem(item) ==
               if HasLimit(query) then item else Node(item.kind, [Node(Subquery, [AddLimit(query)])]))
  {
    hide HasCorrelation;
    assert item.kids == [item.kids[0]] && item.kids[0].kids == [item.kids[0].kids[0]];
  }

  lemma OtherItem(item: Node)
    requires !IsSubqueryItem(item)
    ensures StampItem(item) == item
  {
  }

  lemma CongruenceOne(sem: Sem, kind: Kind, a: Node, b: Node)
    requires Same(sem, a, b)
    ensures Same(sem, Node(kind, [a]), Node(kind, [b]))
  {
    hide Same;
    Congruence(sem, kind, [a], [b]);
  }

  lemma KeptItemIs(sem: Sem, item: Node)
    requires ItemKept(sem, item) && IsSubqueryItem(item) && |item.kids| == 1 && |item.kids[0].kids| == 1
    requires |item.kids[0].kids[0].kids| > 0
    ensures !Dropped(item)
    ensures !HasLimit(item.kids[0].kids[0]) ==>
              forall scope :: AtMostOneRow(Eval(sem, item.kids[0].kids[0].kids[0], scope))
  {
    hide Dropped, HasLimit, Eval, AtMostOneRow, IsSubqueryItem;
  }

  lemma StampSame(sem: Sem, item: Node)
    requires ItemKept(sem, item)
    ensures Same(sem, item, StampItem(item))
  {
    hide *;
    SelfSame(sem, item);
    if IsSubqueryItem(item) {
      SubqueryItemIs(item);
      KeptItemIs(sem, item);
      var query := item.kids[0].kids[0];
      if !HasLimit(query) {
        LimitSame(sem, query);
        CongruenceOne(sem, Subquery, query, AddLimit(query));
        CongruenceOne(sem, item.kind, Node(Subquery, [query]), Node(Subquery, [AddLimit(query)]));
      }
    } else {
      OtherItem(item);
    }
  }

  lemma VisitedQuery(n: Node)
    ensures if HasProjection(n) then
              |n.kids| > 0 && |n.kids[0].kids| > 0 && n == Node(n.kind, [n.kids[0]] + n.kids[1..]) &&
              n.kids[0] == Node(Select, [n.kids[0].kids[0]] + n.kids[0].kids[1..]) &&
              n.kids[0].kids[0] == Node(Projection, n.kids[0].kids[0].kids) &&
              VisitQuery(n) ==
              var projection := Node(Projection, StampItems(n.kids[0].kids[0].kids));
              Node(n.kind, [Node(Select, [projection] + n.kids[0].kids[1..])] + n.kids[1..])
            else VisitQuery(n) == n
  {
    if HasProjection(n) {
      assert n.kids == [n.kids[0]] + n.kids[1..] && n.kids[0].kids == [n.kids[0].kids[0]] + n.kids[0].kids[1..];
    }
    hide StampItems;
  }

  lemma CongruenceHead(sem: Sem, kind: Kind, a: Node, b: Node, rest: seq<Node>)
    requires Same(sem, a, b)
    ensures Same(sem, Node(kind, [a] + rest), Node(kind, [b] + rest))
  {
    hide Same;
    forall i | 0 <= i < |[a] + rest| ensures Same(sem, ([a] + rest)[i], ([b] + rest)[i]) {
      SelfSame(sem, ([a] + rest)[i]);
    }
    Congruence(sem, kind, [a] + rest, [b] + rest);
  }

  lemma KeptItems(sem: Sem, n: Node, i: nat)
    requires ItemsKept(sem, n) && HasProjection(n) && |n.kids| > 0 && |n.kids[0].kids| > 0
    requires i < |n.kids[0].kids[0].kids|
    ensures ItemKept(sem, n.kids[0].kids[0].kids[i]) && ItemsKept(sem, n.kids[0].kids[0].kids[i])
  {
    hide ItemKept;
    assert n.kids[0] in n.kids && n.kids[0].kids[0] in n.kids[0].kids;
    assert n.kids[0].kids[0].kids[i] in n.kids[0].kids[0].kids;
    assert ItemsKept(sem, n.kids[0]) && ItemsKept(sem, n.kids[0].kids[0]);
  }

  lemma StampedAt(items: seq<Node>)
    ensures |StampItems(items)| == |items|
    ensures forall i :: 0 <= i < |items| ==> StampItems(items)[i] == StampItem(items[i])
  {
    hide StampItem;
  }

  lemma QuerySame(sem: Sem, n: Node)
    requires ItemsKept(sem, n)
    ensures Same(sem, n, VisitQuery(n))
  {
    hide *;
    SelfSame(sem, n);
    VisitedQuery(n);
    if HasProjection(n) {
      var select := n.kids[0];
      var items := select.kids[0].kids;
      StampedAt(items);
      forall i | 0 <= i < |items| ensures Same(sem, items[i], StampItems(items)[i]) {
        KeptItems(sem, n, i);
        StampSame(sem, items[i]);
      }
      Congruence(sem, Projection, items, StampItems(items));
      CongruenceHead(sem, Select, select.kids[0], Node(Projection, StampItems(items)), select.kids[1..]);
      CongruenceHead(sem, n.kind, select, Node(Select, [Node(Projection, StampItems(items))] + select.kids[1..]),
                     n.kids[1..]);
    }
  }

  // ---------- Its visits leave the condition standing ----------

  lemma LimitedKept(sem: Sem, query: Node)
    requires query.kind.Query? && |query.kids| > 0 && ItemsKept(sem, query)
    ensures ItemsKept(sem, AddLimit(query))
  {
    hide ItemKept;
    var limited, one := AddLimit(query), Lit(Number("1"));
    assert ItemsKept(sem, one);
    assert forall m :: m in limited.kids <==> m == one || m in query.kids;
  }

  lemma OneKept(sem: Sem, kind: Kind, m: Node)
    requires !kind.Query?
    ensures ItemsKept(sem, Node(kind, [m])) <==> ItemsKept(sem, m)
  {
    hide ItemKept;
    assert m in [m];
  }

  lemma StampedKept(sem: Sem, item: Node)
    requires ItemKept(sem, item) && ItemsKept(sem, item)
    ensures ItemsKept(sem, StampItem(item))
  {
    ItemIsNoQuery(item);
    hide *;
    if IsSubqueryItem(item) {
      SubqueryItemIs(item);
      KeptItemIs(sem, item);
      var query := item.kids[0].kids[0];
      OneKept(sem, item.kind, Node(Subquery, [query]));
      OneKept(sem, Subquery, query);
      if !HasLimit(query) {
        LimitedKept(sem, query);
        OneKept(sem, Subquery, AddLimit(query));
        OneKept(sem, item.kind, Node(Subquery, [AddLimit(query)]));
      }
    } else {
      OtherItem(item);
    }
  }

  lemma ItemIsNoQuery(item: Node)
    ensures IsSubqueryItem(item) ==> !item.kind.Query?
  {
  }

  lemma KidsKept(sem: Sem, kind: Kind, kids: seq<Node>)
    requires !kind.Query? && forall m :: m in kids ==> ItemsKept(sem, m)
    ensures ItemsKept(sem, Node(kind, kids))
  {
    hide ItemKept;
  }

  lemma InsideKept(sem: Sem, n: Node)
    requires ItemsKept(sem, n)
    ensures forall m :: m in n.kids ==> ItemsKept(sem, m)
  {
    hide ItemKept, HasProjection;
  }

  lemma VisitedItemsKept(sem: Sem, n: Node)
    requires ItemsKept(sem, n)
    ensures forall m :: m in VisitQuery(n).kids ==> ItemsKept(sem, m)
  {
    hide *;
    VisitedQuery(n);
    InsideKept(sem, n);
    if HasProjection(n) {
      var select := n.kids[0];
      var items := select.kids[0].kids;
      assert select in n.kids;
      InsideKept(sem, select);
      StampedAt(items);
      forall m | m in StampItems(items) ensures ItemsKept(sem, m) {
        var i :| 0 <= i < |StampItems(items)| && StampItems(items)[i] == m;
        KeptItems(sem, n, i);
        StampedKept(sem, items[i]);
      }
      KidsKept(sem, Projection, StampItems(items));
      KidsKept(sem, Select, [Node(Projection, StampItems(items))] + select.kids[1..]);
    }
  }

  lemma VisitIsQuery(n: Node)
    ensures Visit(ProjectionSubquery, n) == VisitQuery(n)
  {
    hide VisitQuery;
  }

  lemma {:induction false} StampingSteady(sem: Sem, n: Node)
    requires ItemsKept(sem, n)
    ensures Steady(ProjectionSubquery, sem, n)
    decreases Redexes(ProjectionSubquery, n), n
  {
    hide *;
    var m := Visit(ProjectionSubquery, n);
    VisitIsQuery(n);
    QuerySame(sem, n);
    VisitedItemsKept(sem, n);
    forall i | 0 <= i < |m.kids| ensures Steady(ProjectionSubquery, sem, m.kids[i]) {
      ChildSmaller(ProjectionSubquery, n, i);
      assert m.kids[i] in m.kids;
      StampingSteady(sem, m.kids[i]);
    }
    SteadyStep(ProjectionSubquery, sem, n);
  }

  /** The fifth pass preserves evaluation of trees in which it replaces no subquery by NULL and stamps only those with
      at most one row. */
  lemma StampingPreserves(sem: Sem, n: Node, scope: Scope)
    requires ItemsKept(sem, n)
    ensures Eval(sem, Walk(ProjectionSubquery, n), scope) == Eval(sem, n, scope)
  {
    StampingSteady(sem, n);
    WalkPreserves(ProjectionSubquery, sem, n);
  }

  /** All five together. */
  lemma RewritePreserves(sem: Sem, n: Node, scope: Scope)
    requires CatalogReady(sem) && LiteralsKept(sem, n) && CastsReady(sem, n) && ItemsKept(sem, Resolve(n))
    ensures Eval(sem, Rewrite(n), scope) == Eval(sem, n, scope)
  {
    hide *;
    ResolveSteps(n);
    ResolvePreserves(sem, n, scope);
    StampingPreserves(sem, Resolve(n), scope);
  }
}
