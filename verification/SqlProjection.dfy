/** Scalar subqueries in SELECT items: after the pass each is limited and uncorrelated. */
module SqlProjection {
  import opened Wrappers
  import opened SqlAst
  import opened SqlStrings
  import opened Digits
  import opened SqlRules
  import opened SqlVisitor
  import opened SqlNormalForms

  /** Stamping a query never adds a placeholder or a qualified name. */
  lemma StampedCorrelation(aliases: set<string>, n: Node)
    ensures Correlated(aliases, VisitQuery(n)) ==> Correlated(aliases, n)
  {
    var r := VisitQuery(n);
    if r != n && Correlated(aliases, r) {
      var select := n.kids[0];
      var k :| k in r.kids && Correlated(aliases, k);
      if k == r.kids[0] {
        SelectCorrelation(aliases, select, k);
        assert select in n.kids;
      } else {
        assert k in n.kids;
      }
    }
  }

  lemma SelectCorrelation(aliases: set<string>, select: Node, stamped: Node)
    requires select.kind.Select? && |select.kids| > 0 && select.kids[0].kind.Projection?
    requires stamped == Node(Select, [Node(Projection, StampItems(select.kids[0].kids))] + select.kids[1..])
    requires Correlated(aliases, stamped)
    ensures Correlated(aliases, select)
  {
    var k :| k in stamped.kids && Correlated(aliases, k);
    if k == stamped.kids[0] {
      var items := select.kids[0].kids;
      var item :| item in k.kids && Correlated(aliases, item);
      var i :| 0 <= i < |items| && StampItems(items)[i] == item;
      StampedItem(aliases, items[i]);
      assert items[i] in items && select.kids[0] in select.kids;
      assert Correlated(aliases, select.kids[0]);
    } else {
      assert k in select.kids;
    }
  }

  lemma StampedItem(aliases: set<string>, item: Node)
    requires Correlated(aliases, StampItem(item))
    ensures Correlated(aliases, item)
  {
    if StampItem(item) != item {
      var query := item.kids[0].kids[0];
      var r := StampItem(item);
      var k :| k in r.kids && Correlated(aliases, k);
      if k.kind.Subquery? {
        assert Correlated(aliases, AddLimit(query));
        LimitedCorrelation(aliases, query);
        assert query in item.kids[0].kids && item.kids[0] in item.kids;
      }
    }
  }

  lemma LimitedCorrelation(aliases: set<string>, query: Node)
    requires query.kind.Query? && |query.kids| > 0
    ensures Correlated(aliases, AddLimit(query)) <==> Correlated(aliases, query)
  {
    assert forall m :: m in AddLimit(query).kids <==> m in query.kids || m == Lit(Number("1"));
  }

  /** Replacing subqueries by NULL and adding LIMIT 1, at every depth, never makes a query correlated. */
  lemma {:induction false} WalkCorrelation(aliases: set<string>, n: Node)
    ensures Correlated(aliases, Walk(ProjectionSubquery, n)) ==> Correlated(aliases, n)
    decreases Redexes(ProjectionSubquery, n), n
  {
    var m, r := VisitQuery(n), Walk(ProjectionSubquery, n);
    WalkNode(ProjectionSubquery, n);
    StampedCorrelation(aliases, n);
    if Correlated(aliases, r) && !IsPlaceholder(r) &&
      !(r.kind.CompoundIdentifier? && r.kind.parts != [] && r.kind.parts[0] !in aliases) {
      var k :| k in r.kids && Correlated(aliases, k);
      var i :| 0 <= i < |r.kids| && r.kids[i] == k;
      ChildSmaller(ProjectionSubquery, n, i);
      WalkCorrelation(aliases, m.kids[i]);
      assert m.kids[i] in m.kids;
    }
  }

  /** A subquery standing directly as a SELECT item is limited and passes the check. */
  predicate ItemStamped(item: Node) {
    IsSubqueryItem(item) ==> HasLimit(item.kids[0].kids[0]) && !HasCorrelation(item.kids[0].kids[0])
  }

  predicate Selects(n: Node) {
    n.kind.Select? && |n.kids| > 0 && n.kids[0].kind.Projection?
  }

  /** So is every one of every SELECT, at every depth. */
  predicate AllStamped(n: Node) {
    (Selects(n) ==> forall item :: item in n.kids[0].kids ==> ItemStamped(item)) &&
    forall m :: m in n.kids ==> AllStamped(m)
  }

  /** So is every one of every SELECT that is itself the body of a query, and not a branch of a set operation. */
  predicate BodiesStamped(n: Node) {
    (HasProjection(n) ==> forall item :: item in n.kids[0].kids[0].kids ==> ItemStamped(item)) &&
    forall m :: m in n.kids ==> BodiesStamped(m)
  }

  lemma VisitFixed(n: Node)
    requires HasProjection(n)
    ensures VisitQuery(n) == n <==> StampItems(n.kids[0].kids[0].kids) == n.kids[0].kids[0].kids
  {
    var select := n.kids[0];
    assert [select.kids[0]] + select.kids[1..] == select.kids && [select] + n.kids[1..] == n.kids;
  }

  lemma ItemsFixed(items: seq<Node>)
    ensures StampItems(items) == items <==> forall item :: item in items ==> StampItem(item) == item
  {
    if StampItems(items) == items {
      forall item | item in items ensures StampItem(item) == item {
        var i :| 0 <= i < |items| && items[i] == item;
        assert StampItems(items)[i] == item;
      }
    }
  }

  lemma {:induction false} StampedIsClean(n: Node)
    ensures BodiesStamped(n) <==> Clean(ProjectionSubquery, n)
  {
    forall m | m in n.kids ensures BodiesStamped(m) <==> Clean(ProjectionSubquery, m) { StampedIsClean(m); }
    if HasProjection(n) {
      VisitFixed(n);
      ItemsFixed(n.kids[0].kids[0].kids);
    }
  }

  // ---------- The pass reaches that form ----------

  /** Under this rule a node keeps its kind and its number of children. */
  lemma WalkKind(n: Node)
    ensures Walk(ProjectionSubquery, n).kind == n.kind && |Walk(ProjectionSubquery, n).kids| == |n.kids|
  {
    WalkNode(ProjectionSubquery, n);
  }

  lemma WalkAliases(select: Node)
    requires select.kind.Select?
    ensures TableAliases(Walk(ProjectionSubquery, select)) == TableAliases(select)
  {
    WalkNode(ProjectionSubquery, select);
    if |select.kids| >= 2 {
      var from := select.kids[1];
      WalkKind(from);
      if from.kind.From? {
        WalkNode(ProjectionSubquery, from);
        var ts, ts' := from.kids, Walk(ProjectionSubquery, from).kids;
        forall i | 0 <= i < |ts| ensures ts'[i].kind == ts[i].kind { WalkKind(ts[i]); }
        FromAliases(ts, ts');
      }
    }
  }

  lemma FromAliases(ts: seq<Node>, ts': seq<Node>)
    requires |ts| == |ts'| && forall i :: 0 <= i < |ts| ==> ts'[i].kind == ts[i].kind
    ensures (set t | t in ts && t.kind.Table? && t.kind.alias.Some? :: t.kind.alias.value) ==
            (set t | t in ts' && t.kind.Table? && t.kind.alias.Some? :: t.kind.alias.value)
  {
    forall i | 0 <= i < |ts| ensures ts[i] in ts && ts'[i] in ts' {}
  }

  lemma VisitAliases(query: Node)
    requires query.kind.Query? && |query.kids| > 0
    ensures var m := VisitQuery(query);
            |m.kids| == |query.kids| && m.kids[0].kind == query.kids[0].kind &&
            (m.kids[0].kind.Select? ==> TableAliases(m.kids[0]) == TableAliases(query.kids[0]))
  {
  }

  lemma WalkHasCorrelation(query: Node)
    requires query.kind.Query? && |query.kids| > 0 && HasCorrelation(Walk(ProjectionSubquery, query))
    ensures HasCorrelation(query)
  {
    var m, r := VisitQuery(query), Walk(ProjectionSubquery, query);
    WalkNode(ProjectionSubquery, query);
    WalkKind(m.kids[0]);
    VisitAliases(query);
    hide VisitQuery, TableAliases, Walk, Correlated;
    WalkAliases(m.kids[0]);
    WalkCorrelation(TableAliases(query.kids[0]), query);
  }

  lemma StampWalked(item: Node)
    requires StampItem(item) == item
    ensures StampItem(Walk(ProjectionSubquery, item)) == Walk(ProjectionSubquery, item)
  {
    var r := Walk(ProjectionSubquery, item);
    if IsSubqueryItem(r) {
      WalkNode(ProjectionSubquery, item);
      WalkNode(ProjectionSubquery, item.kids[0]);
      WalkKind(item.kids[0]);
      var query := item.kids[0].kids[0];
      WalkKind(query);
      assert IsSubqueryItem(item) && r.kids[0].kids[0] == Walk(ProjectionSubquery, query);
      assert HasLimit(query) && !HasCorrelation(query);
      if HasCorrelation(Walk(ProjectionSubquery, query)) { WalkHasCorrelation(query); }
    }
  }

  lemma WalkVisited(n: Node)
    ensures VisitQuery(Walk(ProjectionSubquery, n)) == Walk(ProjectionSubquery, n)
  {
    var m, r := VisitQuery(n), Walk(ProjectionSubquery, n);
    WalkNode(ProjectionSubquery, n);
    if HasProjection(r) {
      WalkKind(m.kids[0]);
      WalkNode(ProjectionSubquery, m.kids[0]);
      WalkKind(m.kids[0].kids[0]);
      WalkNode(ProjectionSubquery, m.kids[0].kids[0]);
      var items, items' := m.kids[0].kids[0].kids, r.kids[0].kids[0].kids;
      assert HasProjection(n);
      forall i | 0 <= i < |items| ensures StampItem(items'[i]) == items'[i] {
        StampTwice(n.kids[0].kids[0].kids[i]);
        StampWalked(items[i]);
      }
      assert StampItems(items') == items';
      var select := r.kids[0];
      assert [select.kids[0]] + select.kids[1..] == select.kids && [select] + r.kids[1..] == r.kids;
    }
  }

  lemma {:induction false} ProjectionClean(n: Node)
    ensures Clean(ProjectionSubquery, Walk(ProjectionSubquery, n))
    decreases Redexes(ProjectionSubquery, n), n
  {
    var m, r := VisitQuery(n), Walk(ProjectionSubquery, n);
    WalkNode(ProjectionSubquery, n);
    WalkVisited(n);
    forall k | k in r.kids ensures Clean(ProjectionSubquery, k) {
      var i :| 0 <= i < |r.kids| && r.kids[i] == k;
      ChildSmaller(ProjectionSubquery, n, i);
      ProjectionClean(m.kids[i]);
    }
  }

  /** After one pass every scalar subquery item of a query's own SELECT is limited and uncorrelated; a second pass
      changes nothing. */
  lemma ProjectionNormalForm(n: Node)
    ensures BodiesStamped(Walk(ProjectionSubquery, n))
    ensures Walk(ProjectionSubquery, Walk(ProjectionSubquery, n)) == Walk(ProjectionSubquery, n)
  {
    ProjectionClean(n);
    StampedIsClean(Walk(ProjectionSubquery, n));
    WalkFixed(ProjectionSubquery, Walk(ProjectionSubquery, n));
  }

  // ---------- The branches of set operations ----------

  /** The pass replaces the item by NULL when it comes to the query that selects it. */
  predicate Dropped(item: Node) {
    IsSubqueryItem(item) && HasCorrelation(item.kids[0].kids[0])
  }

  /** Something that counts as correlated stands in the tree outside the items the pass will drop. */
  predicate LeftOver(aliases: set<string>, n: Node) {
    IsPlaceholder(n) ||
    (n.kind.CompoundIdentifier? && n.kind.parts != [] && n.kind.parts[0] !in aliases) ||
    if HasProjection(n) then
      (exists item :: item in n.kids[0].kids[0].kids && !Dropped(item) && LeftOver(aliases, item)) ||
      (exists m :: m in n.kids[0].kids[1..] && LeftOver(aliases, m)) ||
      (exists m :: m in n.kids[1..] && LeftOver(aliases, m))
    else
      exists m :: m in n.kids && LeftOver(aliases, m)
  }

  /** What a branch must bring along: its scalar subqueries have limits, and no correlation that the pass leaves in. */
  predicate BranchItem(item: Node) {
    IsSubqueryItem(item) ==>
      var query := item.kids[0].kids[0];
      HasLimit(query) && (query.kids[0].kind.Select? ==> !LeftOver(TableAliases(query.kids[0]), query))
  }

  /** Every SELECT that is not itself the body of a query has its scalar subqueries in order before the pass, those
      inside dropped items aside. */
  predicate BranchesReady(n: Node) {
    if HasProjection(n) then
      (forall item :: item in n.kids[0].kids[0].kids ==> Dropped(item) || BranchesReady(item)) &&
      (forall m :: m in n.kids[0].kids[1..] ==> BranchesReady(m)) &&
      (forall m :: m in n.kids[1..] ==> BranchesReady(m))
    else
      (Selects(n) ==> forall item :: item in n.kids[0].kids ==> BranchItem(item)) &&
      forall m :: m in n.kids ==> BranchesReady(m)
  }

  /** The walk of a query over its own SELECT, part by part. */
  lemma WalkBody(n: Node)
    requires HasProjection(n)
    ensures var r := Walk(ProjectionSubquery, n); var select, items := n.kids[0], n.kids[0].kids[0].kids;
            r.kind == n.kind && |r.kids| == |n.kids| && HasProjection(r) && |r.kids[0].kids| == |select.kids| &&
            |r.kids[0].kids[0].kids| == |items| &&
            (forall i :: 0 <= i < |items| ==>
                r.kids[0].kids[0].kids[i] == Walk(ProjectionSubquery, StampItem(items[i]))) &&
            (forall i :: 1 <= i < |select.kids| ==> r.kids[0].kids[i] == Walk(ProjectionSubquery, select.kids[i])) &&
            (forall i :: 1 <= i < |n.kids| ==> r.kids[i] == Walk(ProjectionSubquery, n.kids[i]))
  {
    var m := VisitQuery(n);
    WalkNode(ProjectionSubquery, n);
    WalkNode(ProjectionSubquery, m.kids[0]);
    WalkNode(ProjectionSubquery, m.kids[0].kids[0]);
    hide Walk;
  }

  /** Each part is smaller: fewer redexes, or the same tree cut down. */
  ghost predicate Smaller(m: Node, n: Node) {
    Redexes(ProjectionSubquery, m) < Redexes(ProjectionSubquery, n) ||
    (Redexes(ProjectionSubquery, m) <= Redexes(ProjectionSubquery, n) && m < n)
  }

  lemma PartsSmaller(n: Node)
    requires HasProjection(n)
    ensures forall item :: item in n.kids[0].kids[0].kids ==> Smaller(StampItem(item), n)
    ensures forall m :: m in n.kids[0].kids[1..] ==> Smaller(m, n)
    ensures forall m :: m in n.kids[1..] ==> Smaller(m, n)
  {
    var items := n.kids[0].kids[0].kids;
    forall item | item in items ensures Smaller(StampItem(item), n) { ItemSmaller(n, item); }
    forall m | m in n.kids[0].kids[1..] ensures Smaller(m, n) {
      assert m in n.kids[0].kids && n.kids[0] in n.kids;
      RedexesMember(ProjectionSubquery, n.kids[0].kids, m);
      RedexesMember(ProjectionSubquery, n.kids, n.kids[0]);
    }
    forall m | m in n.kids[1..] ensures Smaller(m, n) {
      assert m in n.kids;
      RedexesMember(ProjectionSubquery, n.kids, m);
    }
  }

  lemma ItemSmaller(n: Node, item: Node)
    requires HasProjection(n) && item in n.kids[0].kids[0].kids
    ensures Smaller(StampItem(item), n)
  {
    var items, m := n.kids[0].kids[0].kids, VisitQuery(n);
    VisitShrinks(ProjectionSubquery, n);
    var i :| 0 <= i < |items| && items[i] == item;
    assert m.kids[0].kids[0].kids[i] == StampItem(item);
    RedexesMember(ProjectionSubquery, m.kids[0].kids[0].kids, StampItem(item));
    RedexesMember(ProjectionSubquery, m.kids[0].kids, m.kids[0].kids[0]);
    RedexesMember(ProjectionSubquery, m.kids, m.kids[0]);
    if m == n {
      assert n.kids[0].kids[0] in n.kids[0].kids && n.kids[0] in n.kids;
    }
  }

  lemma LimitLeftOver(aliases: set<string>, query: Node)
    requires query.kind.Query? && |query.kids| > 0
    ensures LeftOver(aliases, AddLimit(query)) <==> LeftOver(aliases, query)
  {
    var limited, one := AddLimit(query), Lit(Number("1"));
    assert !LeftOver(aliases, one);
    assert limited.kids[1..] == [one] + query.kids[1..];
    assert forall m :: m in limited.kids[1..] <==> m == one || m in query.kids[1..];
    assert forall m :: m in limited.kids <==> m == one || m in query.kids;
  }

  lemma OnlyKid(aliases: set<string>, kind: Kind, m: Node)
    requires kind.Item? || kind.Subquery?
    ensures LeftOver(aliases, Node(kind, [m])) <==> LeftOver(aliases, m)
    ensures BranchesReady(Node(kind, [m])) <==> BranchesReady(m)
  {
    assert m in [m];
  }

  lemma StampLeftOver(aliases: set<string>, item: Node)
    ensures LeftOver(aliases, StampItem(item)) <==> !Dropped(item) && LeftOver(aliases, item)
  {
    if StampItem(item) != item {
      var query := item.kids[0].kids[0];
      assert item.kids == [item.kids[0]] && item.kids[0].kids == [query];
      assert !LeftOver(aliases, Lit(Null));
      OnlyKid(aliases, item.kind, Lit(Null));
      OnlyKid(aliases, item.kind, item.kids[0]);
      OnlyKid(aliases, Subquery, query);
      OnlyKid(aliases, Subquery, AddLimit(query));
      OnlyKid(aliases, item.kind, Node(Subquery, [AddLimit(query)]));
      LimitLeftOver(aliases, query);
    }
  }

  /** What counts as correlated after the pass is what was left over before it. */
  lemma {:induction false} LeftOverExactly(aliases: set<string>, n: Node)
    ensures Correlated(aliases, Walk(ProjectionSubquery, n)) <==> LeftOver(aliases, n)
    decreases Redexes(ProjectionSubquery, n), n
  {
    var r := Walk(ProjectionSubquery, n);
    if HasProjection(n) {
      var select := n.kids[0];
      var items := select.kids[0].kids;
      WalkBody(n);
      PartsSmaller(n);
      forall i | 0 <= i < |items|
        ensures Correlated(aliases, r.kids[0].kids[0].kids[i]) <==> !Dropped(items[i]) && LeftOver(aliases, items[i])
      {
        assert Smaller(StampItem(items[i]), n);
        LeftOverExactly(aliases, StampItem(items[i]));
        StampLeftOver(aliases, items[i]);
      }
      forall i | 1 <= i < |select.kids|
        ensures Correlated(aliases, r.kids[0].kids[i]) <==> LeftOver(aliases, select.kids[i])
      {
        assert select.kids[i] in select.kids[1..];
        LeftOverExactly(aliases, select.kids[i]);
      }
      forall i | 1 <= i < |n.kids| ensures Correlated(aliases, r.kids[i]) <==> LeftOver(aliases, n.kids[i]) {
        assert n.kids[i] in n.kids[1..];
        LeftOverExactly(aliases, n.kids[i]);
      }
      LeftOverBody(aliases, n, r);
    } else {
      WalkNode(ProjectionSubquery, n);
      forall i | 0 <= i < |n.kids| ensures Correlated(aliases, r.kids[i]) <==> LeftOver(aliases, n.kids[i]) {
        ChildSmaller(ProjectionSubquery, n, i);
        LeftOverExactly(aliases, n.kids[i]);
      }
      LeftOverKids(aliases, n, r);
    }
  }

  lemma LeftOverKids(aliases: set<string>, n: Node, r: Node)
    requires !HasProjection(n) && r.kind == n.kind && |r.kids| == |n.kids|
    requires forall i :: 0 <= i < |n.kids| ==> (Correlated(aliases, r.kids[i]) <==> LeftOver(aliases, n.kids[i]))
    ensures Correlated(aliases, r) <==> LeftOver(aliases, n)
  {
    if k :| k in r.kids && Correlated(aliases, k) {
      var i :| 0 <= i < |r.kids| && r.kids[i] == k;
      assert n.kids[i] in n.kids;
    }
    if k :| k in n.kids && LeftOver(aliases, k) {
      var i :| 0 <= i < |n.kids| && n.kids[i] == k;
      assert r.kids[i] in r.kids;
    }
  }

  lemma LeftOverBody(aliases: set<string>, n: Node, r: Node)
    requires HasProjection(n) && HasProjection(r) && |r.kids| == |n.kids| && |r.kids[0].kids| == |n.kids[0].kids|
    requires var items, items' := n.kids[0].kids[0].kids, r.kids[0].kids[0].kids;
             |items'| == |items| && forall i :: 0 <= i < |items| ==>
               (Correlated(aliases, items'[i]) <==> !Dropped(items[i]) && LeftOver(aliases, items[i]))
    requires forall i :: 1 <= i < |n.kids[0].kids| ==>
               (Correlated(aliases, r.kids[0].kids[i]) <==> LeftOver(aliases, n.kids[0].kids[i]))
    requires forall i :: 1 <= i < |n.kids| ==> (Correlated(aliases, r.kids[i]) <==> LeftOver(aliases, n.kids[i]))
    ensures Correlated(aliases, r) <==> LeftOver(aliases, n)
  {
    LeftOverParts(aliases, n);
    CorrelatedParts(aliases, r);
    hide *;
  }

  lemma LeftOverParts(aliases: set<string>, n: Node)
    requires HasProjection(n)
    ensures var select, items := n.kids[0], n.kids[0].kids[0].kids;
            LeftOver(aliases, n) <==>
            (exists i :: 0 <= i < |items| && !Dropped(items[i]) && LeftOver(aliases, items[i])) ||
            (exists i :: 1 <= i < |select.kids| && LeftOver(aliases, select.kids[i])) ||
            (exists i :: 1 <= i < |n.kids| && LeftOver(aliases, n.kids[i]))
  {
    hide Dropped;
    LeftOverMember(aliases, n.kids);
    LeftOverMember(aliases, n.kids[0].kids);
  }

  lemma LeftOverMember(aliases: set<string>, ns: seq<Node>)
    requires ns != []
    ensures (exists m :: m in ns[1..] && LeftOver(aliases, m)) <==>
            exists i :: 1 <= i < |ns| && LeftOver(aliases, ns[i])
  {
    if m :| m in ns[1..] && LeftOver(aliases, m) {
      var i :| 0 <= i < |ns[1..]| && ns[1..][i] == m;
      assert ns[i + 1] == m;
    }
    if i :| 1 <= i < |ns| && LeftOver(aliases, ns[i]) { assert ns[i] in ns[1..]; }
  }

  lemma CorrelatedParts(aliases: set<string>, r: Node)
    requires HasProjection(r)
    ensures var select, items := r.kids[0], r.kids[0].kids[0].kids;
            Correlated(aliases, r) <==>
            (exists i :: 0 <= i < |items| && Correlated(aliases, items[i])) ||
            (exists i :: 1 <= i < |select.kids| && Correlated(aliases, select.kids[i])) ||
            (exists i :: 1 <= i < |r.kids| && Correlated(aliases, r.kids[i]))
  {
    SomeMember(aliases, r);
    SomeMember(aliases, r.kids[0]);
    SomeMember(aliases, r.kids[0].kids[0]);
    hide Correlated;
  }

  lemma SomeMember(aliases: set<string>, n: Node)
    requires !n.kind.Value? && !n.kind.CompoundIdentifier?
    ensures Correlated(aliases, n) <==> exists i :: 0 <= i < |n.kids| && Correlated(aliases, n.kids[i])
  {
  }

  lemma LimitReady(query: Node)
    requires query.kind.Query? && |query.kids| > 0
    ensures BranchesReady(AddLimit(query)) <==> BranchesReady(query)
  {
    var limited, one := AddLimit(query), Lit(Number("1"));
    assert BranchesReady(one);
    assert limited.kids[1..] == [one] + query.kids[1..];
    assert forall m :: m in limited.kids[1..] <==> m == one || m in query.kids[1..];
    assert forall m :: m in limited.kids <==> m == one || m in query.kids;
  }

  lemma StampReady(item: Node)
    ensures BranchesReady(StampItem(item)) <==> Dropped(item) || BranchesReady(item)
  {
    if StampItem(item) != item {
      var query := item.kids[0].kids[0];
      assert item.kids == [item.kids[0]] && item.kids[0].kids == [query];
      assert BranchesReady(Lit(Null));
      OnlyKid({}, item.kind, Lit(Null));
      OnlyKid({}, item.kind, item.kids[0]);
      OnlyKid({}, Subquery, query);
      OnlyKid({}, Subquery, AddLimit(query));
      OnlyKid({}, item.kind, Node(Subquery, [AddLimit(query)]));
      LimitReady(query);
    }
  }

  /** Nothing is left over of a query, against the aliases of its own FROM, exactly when it passes the check after
      the walk. */
  lemma WalkedCheck(query: Node)
    requires query.kind.Query? && |query.kids| > 0
    ensures HasCorrelation(Walk(ProjectionSubquery, query)) <==>
            query.kids[0].kind.Select? && LeftOver(TableAliases(query.kids[0]), query)
  {
    var m, r := VisitQuery(query), Walk(ProjectionSubquery, query);
    WalkNode(ProjectionSubquery, query);
    WalkKind(m.kids[0]);
    VisitAliases(query);
    hide VisitQuery, TableAliases, Walk, Correlated, LeftOver;
    if query.kids[0].kind.Select? {
      WalkAliases(m.kids[0]);
      LeftOverExactly(TableAliases(query.kids[0]), query);
    }
  }

  lemma BranchItemExactly(item: Node)
    ensures ItemStamped(Walk(ProjectionSubquery, item)) <==> BranchItem(item)
  {
    WalkKind(item);
    WalkNode(ProjectionSubquery, item);
    if item.kind.Item? && |item.kids| == 1 {
      WalkKind(item.kids[0]);
      WalkNode(ProjectionSubquery, item.kids[0]);
      if item.kids[0].kind.Subquery? && |item.kids[0].kids| == 1 {
        var query := item.kids[0].kids[0];
        WalkKind(query);
        if query.kind.Query? && |query.kids| > 0 { WalkedCheck(query); }
      }
    }
    hide Walk, HasCorrelation, LeftOver, TableAliases;
  }

  /** After the pass every scalar subquery item, those in the branches of set operations included, is limited and
      uncorrelated if and only if the branches were in order before it. */
  lemma {:induction false} StampedExactly(n: Node)
    ensures AllStamped(Walk(ProjectionSubquery, n)) <==> BranchesReady(n)
    decreases Redexes(ProjectionSubquery, n), n
  {
    var r := Walk(ProjectionSubquery, n);
    if HasProjection(n) {
      var select := n.kids[0];
      var items := select.kids[0].kids;
      WalkBody(n);
      PartsSmaller(n);
      forall i | 0 <= i < |items|
        ensures AllStamped(r.kids[0].kids[0].kids[i]) <==> Dropped(items[i]) || BranchesReady(items[i])
      {
        assert Smaller(StampItem(items[i]), n);
        StampedExactly(StampItem(items[i]));
        StampReady(items[i]);
      }
      forall i | 1 <= i < |select.kids| ensures AllStamped(r.kids[0].kids[i]) <==> BranchesReady(select.kids[i]) {
        assert select.kids[i] in select.kids[1..];
        StampedExactly(select.kids[i]);
      }
      forall i | 1 <= i < |n.kids| ensures AllStamped(r.kids[i]) <==> BranchesReady(n.kids[i]) {
        assert n.kids[i] in n.kids[1..];
        StampedExactly(n.kids[i]);
      }
      BodyItemsStamped(n);
      StampedParts(r);
      ReadyParts(n);
      hide *;
    } else {
      WalkNode(ProjectionSubquery, n);
      forall i | 0 <= i < |n.kids| ensures AllStamped(r.kids[i]) <==> BranchesReady(n.kids[i]) {
        ChildSmaller(ProjectionSubquery, n, i);
        StampedExactly(n.kids[i]);
      }
      BranchStamped(n);
      KidsStamped(r);
      KidsReady(n);
      hide *;
    }
  }

  lemma BodyItemsStamped(n: Node)
    requires HasProjection(n)
    ensures var r := Walk(ProjectionSubquery, n);
            HasProjection(r) && forall i :: 0 <= i < |r.kids[0].kids[0].kids| ==> ItemStamped(r.kids[0].kids[0].kids[i])
  {
    var r := Walk(ProjectionSubquery, n);
    WalkBody(n);
    WalkVisited(n);
    VisitFixed(r);
    ItemsFixed(r.kids[0].kids[0].kids);
    hide Walk, HasCorrelation;
  }

  lemma BranchStamped(n: Node)
    requires !HasProjection(n)
    ensures var r := Walk(ProjectionSubquery, n);
            (Selects(r) ==> forall item :: item in r.kids[0].kids ==> ItemStamped(item)) <==>
            (Selects(n) ==> forall item :: item in n.kids[0].kids ==> BranchItem(item))
  {
    var r := Walk(ProjectionSubquery, n);
    WalkNode(ProjectionSubquery, n);
    if |n.kids| > 0 { WalkKind(n.kids[0]); }
    if Selects(n) {
      WalkNode(ProjectionSubquery, n.kids[0]);
      var items, items' := n.kids[0].kids, r.kids[0].kids;
      forall i | 0 <= i < |items| ensures ItemStamped(items'[i]) <==> BranchItem(items[i]) {
        BranchItemExactly(items[i]);
      }
      hide Walk, ItemStamped, BranchItem;
      forall i | 0 <= i < |items| ensures items[i] in items && items'[i] in items' {}
    }
  }

  lemma StampedParts(r: Node)
    requires HasProjection(r)
    ensures var select, items := r.kids[0], r.kids[0].kids[0].kids;
            AllStamped(r) <==>
            (forall i :: 0 <= i < |items| ==> ItemStamped(items[i]) && AllStamped(items[i])) &&
            (forall i :: 1 <= i < |select.kids| ==> AllStamped(select.kids[i])) &&
            (forall i :: 1 <= i < |r.kids| ==> AllStamped(r.kids[i]))
  {
    hide ItemStamped;
    KidsStamped(r);
    KidsStamped(r.kids[0]);
    KidsStamped(r.kids[0].kids[0]);
    var items := r.kids[0].kids[0].kids;
    assert (forall item :: item in items ==> ItemStamped(item)) <==>
           forall i :: 0 <= i < |items| ==> ItemStamped(items[i]);
    hide AllStamped;
  }

  lemma KidsStamped(n: Node)
    ensures AllStamped(n) <==>
            (Selects(n) ==> forall item :: item in n.kids[0].kids ==> ItemStamped(item)) &&
            forall i :: 0 <= i < |n.kids| ==> AllStamped(n.kids[i])
  {
    hide ItemStamped;
  }

  lemma ReadyParts(n: Node)
    requires HasProjection(n)
    ensures var select, items := n.kids[0], n.kids[0].kids[0].kids;
            BranchesReady(n) <==>
            (forall i :: 0 <= i < |items| ==> Dropped(items[i]) || BranchesReady(items[i])) &&
            (forall i :: 1 <= i < |select.kids| ==> BranchesReady(select.kids[i])) &&
            (forall i :: 1 <= i < |n.kids| ==> BranchesReady(n.kids[i]))
  {
    hide Dropped;
    ReadyMembers(n.kids);
    ReadyMembers(n.kids[0].kids);
  }

  lemma ReadyMembers(ns: seq<Node>)
    requires ns != []
    ensures (forall m :: m in ns[1..] ==> BranchesReady(m)) <==> forall i :: 1 <= i < |ns| ==> BranchesReady(ns[i])
  {
    if forall m :: m in ns[1..] ==> BranchesReady(m) {
      forall i | 1 <= i < |ns| ensures BranchesReady(ns[i]) { assert ns[i] in ns[1..]; }
    }
    if forall i :: 1 <= i < |ns| ==> BranchesReady(ns[i]) {
      forall m | m in ns[1..] ensures BranchesReady(m) {
        var i :| 0 <= i < |ns[1..]| && ns[1..][i] == m;
        assert ns[i + 1] == m;
      }
    }
  }

  lemma KidsReady(n: Node)
    requires !HasProjection(n)
    ensures BranchesReady(n) <==>
            (Selects(n) ==> forall item :: item in n.kids[0].kids ==> BranchItem(item)) &&
            forall i :: 0 <= i < |n.kids| ==> BranchesReady(n.kids[i])
  {
    hide BranchItem;
  }

  /** `SELECT a FROM t`. */
  const SCALAR := Node(Query(false, false), [Node(Select, [
    Node(Projection, [Node(Item(None), [Name("a")])]), Node(From, [Node(Table(["t"], None), [])])])])

  /** `SELECT (<query>) UNION SELECT (<query>)`. */
  function UnionOf(query: Node): Node {
    var branch := Node(Select, [Node(Projection, [Node(Item(None), [Node(Subquery, [query])])])]);
    Node(Query(false, false), [Node(SetOperation("UNION"), [branch, branch])])
  }

  /** The branches of a UNION are passed over, whatever they select. */
  lemma UnionUntouched(query: Node)
    requires query.kind.Query? && |query.kids| > 0 && Clean(ProjectionSubquery, query) && !HasLimit(query)
    ensures Walk(ProjectionSubquery, UnionOf(query)) == UnionOf(query) && !AllStamped(UnionOf(query))
  {
    var n := UnionOf(query);
    var branch := n.kids[0].kids[0];
    var item := branch.kids[0].kids[0];
    StampedIsClean(query);
    assert BodiesStamped(item.kids[0]) && BodiesStamped(item);
    assert BodiesStamped(branch.kids[0]) && BodiesStamped(branch);
    assert BodiesStamped(n.kids[0]) && BodiesStamped(n);
    StampedIsClean(n);
    WalkFixed(ProjectionSubquery, n);
    hide Walk, Clean, BodiesStamped, HasCorrelation;
    assert item in branch.kids[0].kids && !ItemStamped(item);
    assert !AllStamped(branch) && branch in n.kids[0].kids && n.kids[0] in n.kids;
  }

  /** `SELECT (SELECT a FROM t) UNION SELECT (SELECT a FROM t)`: uncorrelated, and left without a limit. */
  lemma UnionLeftUnlimited()
    ensures Walk(ProjectionSubquery, UnionOf(SCALAR)) == UnionOf(SCALAR)
    ensures BodiesStamped(UnionOf(SCALAR)) && !AllStamped(UnionOf(SCALAR)) && !BranchesReady(UnionOf(SCALAR))
    ensures !HasLimit(SCALAR) && !HasCorrelation(SCALAR)
  {
    ScalarPlain();
    assert SCALAR.kind == Query(false, false) && |SCALAR.kids| == 1;
    hide *;
    UnionUntouched(SCALAR);
    ProjectionNormalForm(UnionOf(SCALAR));
    StampedExactly(UnionOf(SCALAR));
  }

  lemma ScalarPlain()
    ensures Clean(ProjectionSubquery, SCALAR) && !HasLimit(SCALAR) && !HasCorrelation(SCALAR)
  {
    var select := SCALAR.kids[0];
    var item := select.kids[0].kids[0];
    assert BodiesStamped(item.kids[0]) && BodiesStamped(item) && BodiesStamped(select.kids[0]);
    assert BodiesStamped(select.kids[1].kids[0]) && BodiesStamped(select.kids[1]) && BodiesStamped(select);
    assert !IsSubqueryItem(item) && BodiesStamped(SCALAR);
    StampedIsClean(SCALAR);
    forall aliases: set<string> ensures !Correlated(aliases, SCALAR) {
      ScalarUncorrelated(aliases);
    }
  }

  lemma ScalarUncorrelated(aliases: set<string>)
    ensures !Correlated(aliases, SCALAR)
  {
    var select := SCALAR.kids[0];
    var item, table := select.kids[0].kids[0], select.kids[1].kids[0];
    assert !Correlated(aliases, Name("a")) && !Correlated(aliases, item) && !Correlated(aliases, table);
    SomeMember(aliases, select.kids[0]);
    SomeMember(aliases, select.kids[1]);
    SomeMember(aliases, select);
    SomeMember(aliases, SCALAR);
  }
}
