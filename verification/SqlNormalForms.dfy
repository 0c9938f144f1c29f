/** What each pass leaves behind: normal forms, idempotence, and what it must not touch. */
module SqlNormalForms {
  import opened Wrappers
  import opened SqlAst
  import opened SqlStrings
  import opened SqlRules
  import opened SqlVisitor

  lemma WalkNode(rule: Rule, n: Node)
    ensures var m := Visit(rule, n); var r := Walk(rule, n);
            r.kind == m.kind && |r.kids| == |m.kids| && forall i :: 0 <= i < |m.kids| ==>
                r.kids[i] == Walk(rule, m.kids[i])
  {
  }

  // ---------- Normal forms ----------

  /** Visiting with RegCast never makes a name operand out of anything else. */
  lemma WalkOperand(n: Node)
    ensures IsNameOperand(Walk(RegCast, n)) ==> Walk(RegCast, n) == n
  {
    WalkNode(RegCast, n);
  }

  lemma {:induction false} WalkClean(rule: Rule, n: Node)
    requires rule.ArrayAnyAll? || rule.PgOperator? || rule.RegCast?
    ensures Clean(rule, Walk(rule, n))
    decreases Redexes(rule, n), n
  {
    var m, r := Visit(rule, n), Walk(rule, n);
    WalkNode(rule, n);
    forall k | k in r.kids ensures Clean(rule, k) {
      var i :| 0 <= i < |r.kids| && r.kids[i] == k;
      ChildSmaller(rule, n, i);
      WalkClean(rule, m.kids[i]);
    }
    if rule.RegCast? && |m.kids| == 1 { WalkOperand(m.kids[0]); }
  }

  lemma {:induction false} WalkFixed(rule: Rule, n: Node)
    requires Clean(rule, n)
    ensures Walk(rule, n) == n
    decreases n
  {
    WalkNode(rule, n);
    forall i | 0 <= i < |n.kids| ensures Walk(rule, n.kids[i]) == n.kids[i] { WalkFixed(rule, n.kids[i]); }
    assert Walk(rule, n).kids == n.kids;
  }

  /** The three passes that reach a normal form do nothing the second time. */
  lemma WalkIdempotent(rule: Rule, n: Node)
    requires rule.ArrayAnyAll? || rule.PgOperator? || rule.RegCast?
    ensures Walk(rule, Walk(rule, n)) == Walk(rule, n)
  {
    WalkClean(rule, n);
    WalkFixed(rule, Walk(rule, n));
  }

  /** No `= ANY` and no `<> ALL` is left anywhere. */
  predicate NoMembershipQuantifier(n: Node) {
    !(|n.kids| == 2 && (n.kind == AnyOp(Eq) || n.kind == AllOp(NotEq))) &&
    forall m :: m in n.kids ==> NoMembershipQuantifier(m)
  }

  lemma {:induction false} CleanOfQuantifiers(n: Node)
    requires Clean(ArrayAnyAll, n)
    ensures NoMembershipQuantifier(n)
  {
    forall m | m in n.kids ensures NoMembershipQuantifier(m) { CleanOfQuantifiers(m); }
  }

  lemma AnyAllNormalForm(n: Node)
    ensures NoMembershipQuantifier(Walk(ArrayAnyAll, n))
  {
    WalkClean(ArrayAnyAll, n);
    CleanOfQuantifiers(Walk(ArrayAnyAll, n));
  }

  /** No literal or placeholder cast to a resolvable type is left anywhere. */
  predicate NoNameCast(n: Node) {
    !IsNameCast(n) && forall m :: m in n.kids ==> NoNameCast(m)
  }

  lemma {:induction false} CleanOfNameCasts(n: Node)
    requires Clean(RegCast, n)
    ensures NoNameCast(n)
  {
    forall m | m in n.kids ensures NoNameCast(m) { CleanOfNameCasts(m); }
  }

  lemma RegCastNormalForm(n: Node)
    ensures NoNameCast(Walk(RegCast, n))
  {
    WalkClean(RegCast, n);
    CleanOfNameCasts(Walk(RegCast, n));
  }

  // ---------- What the passes keep ----------

  /** The nodes a rule recognises but must leave alone, by kind. */
  function Own(rule: Rule, n: Node): multiset<Kind> {
    match rule
    case ArrayAnyAll => if (n.kind.AnyOp? || n.kind.AllOp?) && Visit(rule, n) == n then multiset{n.kind} else multiset{}
    case RegCast =>
      if n.kind.Cast? && Template(NormalizeTypeName(n.kind.dataType)).Some? && !IsNameCast(n) then multiset{n.kind}
      else multiset{}
    case _ => multiset{}
  }

  function Tally(rule: Rule, n: Node): multiset<Kind> {
    Own(rule, n) + TallyAll(rule, n.kids)
  }

  function TallyAll(rule: Rule, ns: seq<Node>): multiset<Kind> {
    if ns == [] then multiset{} else Tally(rule, ns[0]) + TallyAll(rule, ns[1..])
  }

  lemma TallyPair(rule: Rule, a: Node, b: Node)
    ensures TallyAll(rule, [a]) == Tally(rule, a)
    ensures TallyAll(rule, [a, b]) == Tally(rule, a) + Tally(rule, b)
  {
    hide Tally, Own;
    assert [a][1..] == [] && [a, b][1..] == [b] && [b][1..] == [];
  }

  lemma {:induction false} TallyNone(rule: Rule, ns: seq<Node>)
    requires forall n :: n in ns ==> Tally(rule, n) == multiset{}
    ensures TallyAll(rule, ns) == multiset{}
  {
    if ns != [] { TallyNone(rule, ns[1..]); }
  }

  lemma {:induction false} CastFreeTally(n: Node, operand: Node)
    requires CastFree(n) && operand.kind.Value? && operand.kids == []
    ensures Tally(RegCast, Substitute(n, operand)) == multiset{}
  {
    if !IsPlaceholder(n) {
      var r := Substitute(n, operand);
      forall m | m in r.kids ensures Tally(RegCast, m) == multiset{} {
        var i :| 0 <= i < |n.kids| && r.kids[i] == m;
        CastFreeTally(n.kids[i], operand);
      }
      TallyNone(RegCast, r.kids);
    }
  }

  lemma RegCastTally(n: Node)
    requires IsNameCast(n)
    ensures Tally(RegCast, VisitRegCast(n)) == Tally(RegCast, n) == multiset{}
  {
    var operand, typeName := n.kids[0], NormalizeTypeName(n.kind.dataType);
    assert n.kids == [operand];
    TallyPair(RegCast, operand, n);
    if !NumericText(operand) {
      var query := Substitute(Template(typeName).value, operand);
      TemplateCastFree(typeName);
      CastFreeTally(Template(typeName).value, operand);
      TallyPair(RegCast, query, n);
      hide Substitute;
      assert TallyAll(RegCast, [query]) == multiset{};
    }
  }

  lemma TextItemsTally(items: seq<string>)
    ensures Tally(ArrayAnyAll, Node(ArrayLiteral, TextItems(items))) == multiset{}
  {
    var ns := TextItems(items);
    forall n | n in ns ensures Tally(ArrayAnyAll, n) == multiset{} {
      assert n.kids == [] && n.kind.Value?;
    }
    TallyNone(ArrayAnyAll, ns);
  }

  lemma OperandTally(right: Node)
    ensures Tally(ArrayAnyAll, ArrayOperand(right)) == Tally(ArrayAnyAll, right)
  {
    if right.kind.Value? && right.kids == [] {
      if right.kind.literal.Text? { TextItemsTally(ArrayItems(right.kind.literal.text)); }
    }
  }

  lemma ArrayContainsTally(left: Node, right: Node)
    ensures Tally(ArrayAnyAll, ArrayContains(left, right)) == Tally(ArrayAnyAll, left) + Tally(ArrayAnyAll, right)
  {
    OperandTally(right);
    TallyPair(ArrayAnyAll, ArrayOperand(right), left);
    hide ArrayOperand;
  }

  lemma AnyAllTally(n: Node)
    requires VisitAnyAll(n) != n
    ensures Tally(ArrayAnyAll, VisitAnyAll(n)) == Tally(ArrayAnyAll, n)
  {
    var left, right := n.kids[0], n.kids[1];
    assert n.kids == [left, right];
    TallyPair(ArrayAnyAll, left, right);
    TallyPair(ArrayAnyAll, ArrayContains(left, right), left);
    ArrayContainsTally(left, right);
  }

  lemma VisitTally(rule: Rule, n: Node)
    requires rule.ArrayAnyAll? || rule.RegCast?
    ensures Tally(rule, Visit(rule, n)) == Tally(rule, n)
  {
    if Visit(rule, n) != n {
      if rule.RegCast? { RegCastTally(n); } else { AnyAllTally(n); }
    }
  }

  lemma {:induction false} TallyWalked(rule: Rule, ns: seq<Node>, walked: seq<Node>)
    requires |ns| == |walked| && forall i :: 0 <= i < |ns| ==> Tally(rule, walked[i]) == Tally(rule, ns[i])
    ensures TallyAll(rule, walked) == TallyAll(rule, ns)
  {
    if ns != [] { TallyWalked(rule, ns[1..], walked[1..]); }
  }

  lemma WalkOwn(rule: Rule, n: Node)
    requires rule.ArrayAnyAll? || rule.RegCast?
    ensures Own(rule, Walk(rule, n)) == Own(rule, Visit(rule, n))
  {
    var m := Visit(rule, n);
    WalkNode(rule, n);
    if rule.RegCast? && |m.kids| == 1 {
      WalkOperand(m.kids[0]);
      WalkFixedOperand(m.kids[0]);
    }
  }

  /** Every other quantified comparison keeps its operator, and every cast to a resolvable type with
      any other operand stays: none is lost, none appears. */
  lemma {:induction false} WalkKeeps(rule: Rule, n: Node)
    requires rule.ArrayAnyAll? || rule.RegCast?
    ensures Tally(rule, Walk(rule, n)) == Tally(rule, n)
    decreases Redexes(rule, n), n
  {
    hide Walk, Visit, Own;
    var m, r := Visit(rule, n), Walk(rule, n);
    WalkNode(rule, n);
    VisitTally(rule, n);
    WalkOwn(rule, n);
    forall i | 0 <= i < |m.kids| ensures Tally(rule, r.kids[i]) == Tally(rule, m.kids[i]) {
      ChildSmaller(rule, n, i);
      WalkKeeps(rule, m.kids[i]);
    }
    TallyWalked(rule, m.kids, r.kids);
  }

  lemma WalkFixedOperand(n: Node)
    ensures IsNameOperand(n) ==> Walk(RegCast, n) == n
  {
    WalkNode(RegCast, n);
  }

  // ---------- The template substitution ----------

  /** The node reached from `n` by taking child `path[0]`, then `path[1]`, and so on. */
  function At(n: Node, path: seq<nat>): Option<Node> {
    if path == [] then Some(n) else if path[0] < |n.kids| then At(n.kids[path[0]], path[1..]) else None
  }

  /** The operand stands at every placeholder of the template; every other node keeps its kind and arity. */
  lemma {:induction false} SubstituteAt(n: Node, operand: Node, path: seq<nat>)
    requires At(n, path).Some?
    ensures At(Substitute(n, operand), path).Some?
    ensures var m, m' := At(n, path).value, At(Substitute(n, operand), path).value;
            if IsPlaceholder(m) then m' == operand else m'.kind == m.kind && |m'.kids| == |m.kids|
  {
    if path != [] { SubstituteAt(n.kids[path[0]], operand, path[1..]); }
  }

  // ---------- Everything else stays where it is ----------

  /** No node on the way down the path, the one at its end aside, is one the rule changes. */
  predicate Undisturbed(rule: Rule, n: Node, path: seq<nat>) {
    path == [] || (Visit(rule, n) == n && path[0] < |n.kids| && Undisturbed(rule, n.kids[path[0]], path[1..]))
  }

  /** Where the way is undisturbed the node is at the same place after the walk, itself walked: one that the rule does
      not change keeps its kind, its number of children and, in turn, its operands. */
  lemma {:induction false} WalkAt(rule: Rule, n: Node, path: seq<nat>)
    requires Undisturbed(rule, n, path)
    ensures At(n, path).Some? && At(Walk(rule, n), path) == Some(Walk(rule, At(n, path).value))
    ensures var m := At(n, path).value; var r := Walk(rule, m);
            Visit(rule, m) == m ==> r.kind == m.kind && |r.kids| == |m.kids|
  {
    if path == [] {
      WalkNode(rule, n);
    } else {
      WalkNode(rule, n);
      WalkAt(rule, n.kids[path[0]], path[1..]);
    }
  }
}
