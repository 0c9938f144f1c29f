/**
 The COLLATE pass on its own terms.  A stripped node's replacement is not visited again, only its
 children are, so of `n` directly nested COLLATEs half survive.
 */
module SqlCollate {
  import opened SqlAst
  import opened SqlRules
  import opened SqlVisitor
  import opened SqlNormalForms

  predicate IsCollate(n: Node) {
    n.kind.Collate? && |n.kids| == 1
  }

  /** How many COLLATEs stand directly on top of each other at `n`. */
  function Depth(n: Node): nat {
    if IsCollate(n) then 1 + Depth(n.kids[0]) else 0
  }

  /** The first expression under them. */
  function Core(n: Node): Node {
    if IsCollate(n) then Core(n.kids[0]) else n
  }

  /** One pass halves each chain, rounding down, and rewrites the core as it would on its own. */
  lemma {:induction false} ChainHalved(n: Node)
    ensures Depth(Walk(StripCollate, n)) == Depth(n) / 2
    ensures Core(Walk(StripCollate, n)) == Walk(StripCollate, Core(n))
    decreases n
  {
    WalkNode(StripCollate, n);
    if IsCollate(n) {
      var inner := n.kids[0];
      if IsCollate(inner) {
        var r := Walk(StripCollate, n);
        assert r.kids == [Walk(StripCollate, inner.kids[0])];
        ChainHalved(inner.kids[0]);
      } else {
        WalkNode(StripCollate, inner);
        assert Walk(StripCollate, n).kids == Walk(StripCollate, inner).kids;
      }
    }
  }

  /** No COLLATE stands directly on another, anywhere. */
  predicate NoDouble(n: Node) {
    !(IsCollate(n) && IsCollate(n.kids[0])) && forall m :: m in n.kids ==> NoDouble(m)
  }

  /** One pass leaves no COLLATE exactly when no two were directly nested. */
  lemma {:induction false} CollateFreeExactly(n: Node)
    ensures Clean(StripCollate, Walk(StripCollate, n)) <==> NoDouble(n)
    decreases n
  {
    var r := Walk(StripCollate, n);
    WalkNode(StripCollate, n);
    if IsCollate(n) {
      var inner := n.kids[0];
      if IsCollate(inner) {
        assert IsCollate(r);
      } else {
        CollateFreeExactly(inner);
        WalkNode(StripCollate, inner);
        assert r.kids == Walk(StripCollate, inner).kids;
      }
    } else {
      forall i | 0 <= i < |n.kids| ensures Clean(StripCollate, r.kids[i]) <==> NoDouble(n.kids[i]) {
        CollateFreeExactly(n.kids[i]);
      }
      if NoDouble(n) {
        forall k | k in r.kids ensures Clean(StripCollate, k) {
          var i :| 0 <= i < |n.kids| && r.kids[i] == k;
          assert n.kids[i] in n.kids;
        }
      } else {
        var m :| m in n.kids && !NoDouble(m);
        var i :| 0 <= i < |n.kids| && n.kids[i] == m;
        assert r.kids[i] in r.kids;
      }
    }
  }

  /** Stripping COLLATE and mapping operators can be done in either order. */
  lemma {:induction false} CollateCommutes(n: Node)
    ensures Walk(PgOperator, Walk(StripCollate, n)) == Walk(StripCollate, Walk(PgOperator, n))
    decreases n
  {
    var m := VisitCollate(n);
    WalkNode(PgOperator, n);
    WalkNode(PgOperator, m);
    assert VisitCollate(Walk(PgOperator, n)) == Walk(PgOperator, m);
    forall i | 0 <= i < |m.kids|
      ensures Walk(PgOperator, Walk(StripCollate, m.kids[i])) == Walk(StripCollate, Walk(PgOperator, m.kids[i]))
    {
      CollateCommutes(m.kids[i]);
    }
    var a, b := Walk(PgOperator, Walk(StripCollate, n)), Walk(StripCollate, Walk(PgOperator, n));
    WalkNode(StripCollate, n);
    WalkNode(PgOperator, Walk(StripCollate, n));
    WalkNode(StripCollate, Walk(PgOperator, n));
    assert a.kind == b.kind && a.kids == b.kids;
  }
}
