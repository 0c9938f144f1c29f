/** The passes preserve meaning: of every expression, at every depth, in every scope. */
module SqlMeaning {
  import opened Wrappers
  import opened SqlAst
  import opened SqlStrings
  import opened Digits
  import opened SqlRules
  import opened SqlVisitor
  import opened SqlNormalForms
  import opened SqlSemantics

  /** The same value in every scope, and the same column name. */
  ghost predicate SameValue(sem: Sem, a: Node, b: Node) {
    Label(a) == Label(b) && forall scope :: Eval(sem, a, scope) == Eval(sem, b, scope)
  }

  /** Interchangeable: also read alike as an array literal. */
  ghost predicate Same(sem: Sem, a: Node, b: Node) {
    SameValue(sem, a, b) && ArrayText(sem, a) == ArrayText(sem, b)
  }

  lemma SameBy(sem: Sem, a: Node, b: Node)
    requires Label(a) == Label(b) && ArrayText(sem, a) == ArrayText(sem, b)
    requires forall scope :: Eval(sem, a, scope) == Eval(sem, b, scope)
    ensures Same(sem, a, b)
  {
    hide Label, ArrayText, Eval;
  }

  ghost predicate SameList(sem: Sem, xs: seq<Node>, ys: seq<Node>) {
    |xs| == |ys| && forall i :: 0 <= i < |xs| ==> SameValue(sem, xs[i], ys[i])
  }

  lemma {:induction false} EvalAllSame(sem: Sem, xs: seq<Node>, ys: seq<Node>, scope: Scope)
    requires SameList(sem, xs, ys)
    ensures EvalAll(sem, xs, scope) == EvalAll(sem, ys, scope)
    decreases |xs|
  {
    if xs != [] {
      assert SameValue(sem, xs[0], ys[0]);
      EvalAllSame(sem, xs[1..], ys[1..], scope);
    }
  }

  lemma SelectSame(sem: Sem, xs: seq<Node>, ys: seq<Node>, scope: Scope)
    requires SameList(sem, xs, ys)
    ensures Eval(sem, Node(Select, xs), scope) == Eval(sem, Node(Select, ys), scope)
  {
    if |xs| >= 2 {
      assert SameValue(sem, xs[0], ys[0]) && SameValue(sem, xs[1], ys[1]);
      var from := Eval(sem, xs[1], scope);
      if from.Scopes? {
        forall i | 0 <= i < |from.scopes|
          ensures EvalAll(sem, xs[2..], from.scopes[i]) == EvalAll(sem, ys[2..], from.scopes[i])
        {
          EvalAllSame(sem, xs[2..], ys[2..], from.scopes[i]);
        }
        var cx := seq(|from.scopes|, i requires 0 <= i < |from.scopes| => EvalAll(sem, xs[2..], from.scopes[i]));
        var cy := seq(|from.scopes|, i requires 0 <= i < |from.scopes| => EvalAll(sem, ys[2..], from.scopes[i]));
        assert cx == cy;
        var kept := Kept(from.scopes, cx);
        assert seq(|kept|, i requires 0 <= i < |kept| => Eval(sem, xs[0], kept[i]))
            == seq(|kept|, i requires 0 <= i < |kept| => Eval(sem, ys[0], kept[i]));
      }
    }
  }

  /** A comparison with ANY or ALL of its right operand. */
  predicate Quantified(kind: Kind, kids: seq<Node>) {
    (kind.AnyOp? || kind.AllOp?) && |kids| == 2
  }

  /** Replacing children by others of the same value keeps the value, if an operand of ANY or ALL is still read
      alike. */
  lemma ValueCongruence(sem: Sem, kind: Kind, xs: seq<Node>, ys: seq<Node>)
    requires SameList(sem, xs, ys)
    requires Quantified(kind, xs) ==> ArrayText(sem, xs[1]) == ArrayText(sem, ys[1])
    ensures SameValue(sem, Node(kind, xs), Node(kind, ys))
  {
    if |xs| == 1 { assert SameValue(sem, xs[0], ys[0]); }
    forall scope ensures Eval(sem, Node(kind, xs), scope) == Eval(sem, Node(kind, ys), scope) {
      if kind.Select? {
        SelectSame(sem, xs, ys, scope);
      } else {
        EvalAllSame(sem, xs, ys, scope);
        EvalNode(sem, kind, xs, scope);
        EvalNode(sem, kind, ys, scope);
        hide Eval, ArrayText;
      }
    }
  }

  /** Only ANY and ALL read an operand as a literal, only an item takes its column's name. */
  lemma EvalNode(sem: Sem, kind: Kind, kids: seq<Node>, scope: Scope)
    requires !kind.Select?
    ensures Eval(sem, Node(kind, kids), scope) ==
            Combine(sem, kind, if Quantified(kind, kids) then ArrayText(sem, kids[1]) else None,
                    if |kids| == 1 then Label(kids[0]) else None, EvalAll(sem, kids, scope), scope)
  {
  }

  lemma Congruence(sem: Sem, kind: Kind, xs: seq<Node>, ys: seq<Node>)
    requires |xs| == |ys| && forall i :: 0 <= i < |xs| ==> Same(sem, xs[i], ys[i])
    ensures Same(sem, Node(kind, xs), Node(kind, ys))
  {
    forall i | 0 <= i < |xs| ensures SameValue(sem, xs[i], ys[i]) { assert Same(sem, xs[i], ys[i]); }
    if |xs| == 2 { assert Same(sem, xs[1], ys[1]); }
    ValueCongruence(sem, kind, xs, ys);
    if |xs| == 1 {
      assert Same(sem, xs[0], ys[0]);
      KidText(sem, kind, xs[0], ys[0]);
    }
    hide SameValue;
  }

  lemma KidText(sem: Sem, kind: Kind, x: Node, y: Node)
    requires ArrayText(sem, x) == ArrayText(sem, y)
    ensures ArrayText(sem, Node(kind, [x])) == ArrayText(sem, Node(kind, [y]))
  {
  }

  // ---------- Passes that preserve meaning where they change the tree ----------

  /** Each visit of the walk exchanges a node for an interchangeable one. */
  ghost predicate Steady(rule: Rule, sem: Sem, n: Node)
    decreases Redexes(rule, n), n
  {
    var m := Visit(rule, n);
    Same(sem, n, m) && forall i :: 0 <= i < |m.kids| ==> (ChildSmaller(rule, n, i); Steady(rule, sem, m.kids[i]))
  }

  lemma SteadyStep(rule: Rule, sem: Sem, n: Node)
    requires Same(sem, n, Visit(rule, n))
    requires forall i :: 0 <= i < |Visit(rule, n).kids| ==> Steady(rule, sem, Visit(rule, n).kids[i])
    ensures Steady(rule, sem, n)
  {
    hide Same, Visit;
  }

  /** Then the whole walk does. */
  lemma {:induction false} WalkPreserves(rule: Rule, sem: Sem, n: Node)
    requires Steady(rule, sem, n)
    ensures Same(sem, n, Walk(rule, n))
    decreases Redexes(rule, n), n
  {
    hide Visit, Eval, ArrayText, Label;
    var m, r := Visit(rule, n), Walk(rule, n);
    WalkNode(rule, n);
    forall i | 0 <= i < |m.kids| ensures Same(sem, m.kids[i], r.kids[i]) {
      ChildSmaller(rule, n, i);
      WalkPreserves(rule, sem, m.kids[i]);
    }
    Congruence(sem, m.kind, m.kids, r.kids);
    assert Same(sem, n, m) && m == Node(m.kind, m.kids) && r == Node(m.kind, r.kids);
  }

  // ---------- ANY and ALL ----------

  lemma {:induction false} AnyIsContains(sem: Sem, x: Val, elems: seq<Val>)
    ensures AnyOf(sem, Eq, x, elems) == Contains(elems, x)
  {
    if elems != [] { AnyIsContains(sem, x, elems[1..]); }
  }

  lemma {:induction false} AllIsNotContains(sem: Sem, x: Val, elems: seq<Val>)
    ensures AllOf(sem, NotEq, x, elems) == Not3(Contains(elems, x))
  {
    if elems != [] { AllIsNotContains(sem, x, elems[1..]); }
  }

  lemma {:induction false} EvalTextItems(sem: Sem, items: seq<string>, scope: Scope)
    ensures EvalAll(sem, TextItems(items), scope) == Strings(items)
  {
    if items != [] {
      assert TextItems(items)[0] == Lit(Text(items[0])) && TextItems(items)[1..] == TextItems(items[1..]);
      EvalTextItems(sem, items[1..], scope);
      assert [Str(items[0])] + Strings(items[1..]) == Strings(items);
    }
  }

  lemma EvalPair(sem: Sem, a: Node, b: Node, scope: Scope)
    ensures EvalAll(sem, [a], scope) == [Eval(sem, a, scope)]
    ensures EvalAll(sem, [a, b], scope) == [Eval(sem, a, scope), Eval(sem, b, scope)]
  {
    assert [a][1..] == [] && [a, b][1..] == [b] && [b][1..] == [];
  }

  /** A comparison with any or all of the elements. */
  function Over(sem: Sem, kind: Kind, x: Val, elems: seq<Val>): Val {
    match kind
    case AnyOp(op) => AnyOf(sem, op, x, elems)
    case AllOp(op) => AllOf(sem, op, x, elems)
    case _ => Unknown
  }

  lemma EvalQuantified(sem: Sem, kind: Kind, left: Node, right: Node, scope: Scope)
    requires kind.AnyOp? || kind.AllOp?
    ensures Eval(sem, Node(kind, [left, right]), scope) ==
            match ArrayOf(ArrayText(sem, right), Eval(sem, right, scope))
            case Some(elems) => Over(sem, kind, Eval(sem, left, scope), elems)
            case None => Unknown
  {
    EvalPair(sem, left, right, scope);
    EvalNode(sem, kind, [left, right], scope);
    hide Eval, EvalAll, ArrayText, Label, ArrayOf, AnyOf, AllOf;
  }

  lemma EvalContains(sem: Sem, items: Node, x: Node, scope: Scope)
    ensures Eval(sem, Call("array_contains", [items, x]), scope) ==
            if Eval(sem, items, scope).Arr? then Contains(Eval(sem, items, scope).elems, Eval(sem, x, scope))
            else Unknown
  {
    EvalPair(sem, items, x, scope);
    EvalNode(sem, Function("array_contains"), [items, x], scope);
    hide Eval, EvalAll, ArrayText, Label, Contains;
  }

  lemma EvalNegate(sem: Sem, x: Node, scope: Scope)
    ensures Eval(sem, Negate(x), scope) == Not3(Eval(sem, x, scope))
  {
    EvalPair(sem, x, x, scope);
    EvalNode(sem, Not, [x], scope);
    hide Eval, EvalAll, ArrayText, Label, Not3;
  }

  // ---------- Braced literals ----------

  /** A braced string literal, or one under COLLATE. */
  predicate BraceUnder(n: Node) {
    (n.kind.Value? && n.kind.literal.Text? && n.kids == [] && Braced(n.kind.literal.text)) ||
    (n.kind.Collate? && |n.kids| == 1 && BraceUnder(n.kids[0]))
  }

  function TextUnder(n: Node): string
    requires BraceUnder(n)
  {
    if n.kind.Collate? then TextUnder(n.kids[0]) else n.kind.literal.text
  }

  predicate CollatedBrace(n: Node) {
    n.kind.Collate? && BraceUnder(n)
  }

  lemma {:induction false} TransparentText(sem: Sem, n: Node)
    ensures sem.collateTransparent ==> (ArrayText(sem, n).Some? <==> BraceUnder(n))
    ensures !sem.collateTransparent ==> (ArrayText(sem, n).Some? <==> BraceUnder(n) && n.kind.Value?)
    ensures BraceUnder(n) && ArrayText(sem, n).Some? ==> ArrayText(sem, n).value == TextUnder(n)
  {
    hide Braced;
    if n.kind.Collate? && |n.kids| == 1 { TransparentText(sem, n.kids[0]); }
  }

  lemma {:induction false} BraceValue(sem: Sem, n: Node, scope: Scope)
    requires BraceUnder(n)
    ensures Eval(sem, n, scope) == Str(TextUnder(n))
  {
    hide Braced;
    if n.kind.Collate? {
      assert n.kids == [n.kids[0]];
      BraceValue(sem, n.kids[0], scope);
      EvalPair(sem, n.kids[0], n, scope);
    }
  }

  // ---------- The ANY/ALL pass ----------

  /** The rewritten operand is an array of the same elements, or no array at all. */
  lemma OperandValue(sem: Sem, right: Node, scope: Scope)
    requires sem.collateTransparent ==> !CollatedBrace(right)
    ensures var v := Eval(sem, ArrayOperand(right), scope);
            var elems := ArrayOf(ArrayText(sem, right), Eval(sem, right, scope));
            v.Arr? == elems.Some? && (v.Arr? ==> v.elems == elems.value)
  {
    TransparentText(sem, right);
    if ArrayOperand(right) != right { EvalTextItems(sem, ArrayItems(right.kind.literal.text), scope); }
  }

  /** What a visit makes of a comparison it changes. */
  lemma VisitedQuantifier(n: Node)
    requires VisitAnyAll(n) != n
    ensures |n.kids| == 2 && n == Node(n.kind, [n.kids[0], n.kids[1]])
    ensures n.kind == AnyOp(Eq) || n.kind == AllOp(NotEq)
    ensures var call := Call("array_contains", [ArrayOperand(n.kids[1]), n.kids[0]]);
            VisitAnyAll(n) == if n.kind.AnyOp? then call else Negate(call)
  {
    hide ArrayOperand;
  }

  lemma OverIsContains(sem: Sem, kind: Kind, x: Val, elems: seq<Val>)
    requires kind == AnyOp(Eq) || kind == AllOp(NotEq)
    ensures Over(sem, kind, x, elems) == if kind.AnyOp? then Contains(elems, x) else Not3(Contains(elems, x))
  {
    AnyIsContains(sem, x, elems);
    AllIsNotContains(sem, x, elems);
    hide AnyOf, AllOf, Contains;
  }

  /** The value of the rewritten comparison. */
  lemma VisitedValue(sem: Sem, n: Node, scope: Scope)
    requires VisitAnyAll(n) != n
    ensures var v := Eval(sem, ArrayOperand(n.kids[1]), scope);
            Eval(sem, VisitAnyAll(n), scope) ==
            if v.Arr? then Over(sem, n.kind, Eval(sem, n.kids[0], scope), v.elems) else Unknown
  {
    hide *;
    VisitedQuantifier(n);
    var v, x := Eval(sem, ArrayOperand(n.kids[1]), scope), Eval(sem, n.kids[0], scope);
    var call := Call("array_contains", [ArrayOperand(n.kids[1]), n.kids[0]]);
    EvalContains(sem, ArrayOperand(n.kids[1]), n.kids[0], scope);
    EvalNegate(sem, call, scope);
    NotUnknown();
    if v.Arr? { OverIsContains(sem, n.kind, x, v.elems); }
  }

  lemma NotUnknown()
    ensures Not3(Unknown) == Unknown
  {
  }

  lemma ReadAlikeValue(sem: Sem, n: Node, scope: Scope)
    requires VisitAnyAll(n) != n && (sem.collateTransparent ==> !CollatedBrace(n.kids[1]))
    ensures Eval(sem, VisitAnyAll(n), scope) == Eval(sem, n, scope)
  {
    hide *;
    VisitedQuantifier(n);
    VisitedValue(sem, n, scope);
    OperandValue(sem, n.kids[1], scope);
    EvalQuantified(sem, n.kind, n.kids[0], n.kids[1], scope);
  }

  /** Over strings the comparison is undecided only for NULL, and only if there is a string to compare it with. */
  lemma UnknownOver(sem: Sem, kind: Kind, x: Val, items: seq<string>)
    requires kind == AnyOp(Eq) || kind == AllOp(NotEq)
    ensures Over(sem, kind, x, Strings(items)) == Unknown <==> x.Unknown? && items != []
  {
    OverIsContains(sem, kind, x, Strings(items));
    assert |Strings(items)| == |items|;
    hide Over;
  }

  /** Where COLLATE leaves a literal a literal, a comparison with a collated braced one keeps its value exactly if it
      compares NULL with some item. */
  lemma AnyAllNodeExactly(sem: Sem, n: Node, scope: Scope)
    requires sem.collateTransparent && VisitAnyAll(n) != n && CollatedBrace(n.kids[1])
    ensures Eval(sem, VisitAnyAll(n), scope) == Eval(sem, n, scope) <==>
            Eval(sem, n.kids[0], scope).Unknown? && ArrayItems(TextUnder(n.kids[1])) != []
  {
    var right := n.kids[1];
    CollatedOperand(right);
    assert BraceUnder(right);
    hide *;
    VisitedQuantifier(n);
    VisitedValue(sem, n, scope);
    BraceValue(sem, right, scope);
    TransparentText(sem, right);
    EvalQuantified(sem, n.kind, n.kids[0], right, scope);
    TextArray(TextUnder(right), Eval(sem, right, scope));
    UnknownOver(sem, n.kind, Eval(sem, n.kids[0], scope), ArrayItems(TextUnder(right)));
  }

  lemma CollatedOperand(right: Node)
    requires right.kind.Collate?
    ensures ArrayOperand(right) == right
  {
  }

  lemma TextArray(text: string, v: Val)
    ensures ArrayOf(Some(text), v) == Some(Strings(ArrayItems(text)))
  {
  }

  /** Every comparison that the pass changes keeps its value. */
  ghost predicate MembershipKept(sem: Sem, n: Node) {
    (VisitAnyAll(n) != n && CollatedBrace(n.kids[1]) ==>
       ArrayItems(TextUnder(n.kids[1])) != [] && forall scope :: Eval(sem, n.kids[0], scope).Unknown?) &&
    forall m :: m in n.kids ==> MembershipKept(sem, m)
  }

  lemma KeptHere(sem: Sem, n: Node)
    requires MembershipKept(sem, n)
    ensures VisitAnyAll(n) != n && CollatedBrace(n.kids[1]) ==>
              ArrayItems(TextUnder(n.kids[1])) != [] && forall scope :: Eval(sem, n.kids[0], scope).Unknown?
  {
    hide VisitAnyAll, CollatedBrace, Eval, ArrayItems;
  }

  lemma AnyAllVisit(sem: Sem, n: Node)
    requires sem.collateTransparent ==> MembershipKept(sem, n)
    ensures Same(sem, n, VisitAnyAll(n))
  {
    hide *;
    if VisitAnyAll(n) != n {
      VisitedQuantifier(n);
      VisitedReadAlike(sem, n);
      forall scope ensures Eval(sem, n, scope) == Eval(sem, VisitAnyAll(n), scope) {
        if sem.collateTransparent && CollatedBrace(n.kids[1]) {
          KeptHere(sem, n);
          BraceOf(n.kids[1]);
          AnyAllNodeExactly(sem, n, scope);
        } else {
          ReadAlikeValue(sem, n, scope);
        }
      }
    }
    SameBy(sem, n, VisitAnyAll(n));
  }

  lemma BraceOf(n: Node)
    ensures CollatedBrace(n) ==> BraceUnder(n)
  {
    hide BraceUnder;
  }

  lemma VisitedReadAlike(sem: Sem, n: Node)
    ensures Label(VisitAnyAll(n)) == Label(n) && ArrayText(sem, VisitAnyAll(n)) == ArrayText(sem, n)
  {
    hide ArrayOperand;
  }

  lemma KeptLeaf(sem: Sem, n: Node)
    requires n.kids == []
    ensures MembershipKept(sem, n)
  {
  }

  lemma KeptCall(sem: Sem, name: string, kids: seq<Node>)
    requires forall m :: m in kids ==> MembershipKept(sem, m)
    ensures MembershipKept(sem, Call(name, kids))
  {
    assert VisitAnyAll(Call(name, kids)) == Call(name, kids);
    hide VisitAnyAll, CollatedBrace;
  }

  lemma KeptOperand(sem: Sem, right: Node)
    requires MembershipKept(sem, right)
    ensures MembershipKept(sem, ArrayOperand(right))
  {
    if ArrayOperand(right) != right {
      var items := ArrayOperand(right).kids;
      forall m | m in items ensures MembershipKept(sem, m) {
        assert m.kids == [];
        KeptLeaf(sem, m);
      }
    }
  }

  lemma VisitedKept(sem: Sem, n: Node)
    requires MembershipKept(sem, n)
    ensures forall m :: m in VisitAnyAll(n).kids ==> MembershipKept(sem, m)
  {
    if VisitAnyAll(n) != n {
      var left, right := n.kids[0], n.kids[1];
      VisitedQuantifier(n);
      assert left in n.kids && right in n.kids;
      assert MembershipKept(sem, left) && MembershipKept(sem, right);
      hide MembershipKept, VisitAnyAll, ArrayOperand;
      KeptOperand(sem, right);
      KeptCall(sem, "array_contains", [ArrayOperand(right), left]);
    }
  }

  lemma VisitIsAnyAll(n: Node)
    ensures Visit(ArrayAnyAll, n) == VisitAnyAll(n)
  {
    hide VisitAnyAll;
  }

  lemma {:induction false} AnyAllSteady(sem: Sem, n: Node)
    requires sem.collateTransparent ==> MembershipKept(sem, n)
    ensures Steady(ArrayAnyAll, sem, n)
    decreases Redexes(ArrayAnyAll, n), n
  {
    hide *;
    var m := Visit(ArrayAnyAll, n);
    VisitIsAnyAll(n);
    AnyAllVisit(sem, n);
    if sem.collateTransparent { VisitedKept(sem, n); }
    forall i | 0 <= i < |m.kids| ensures Steady(ArrayAnyAll, sem, m.kids[i]) {
      ChildSmaller(ArrayAnyAll, n, i);
      assert m.kids[i] in m.kids;
      AnyAllSteady(sem, m.kids[i]);
    }
    SteadyStep(ArrayAnyAll, sem, n);
  }

  /** `= ANY` and `<> ALL` become membership without changing any value anywhere in the tree; where COLLATE leaves a
      literal a literal, those with a braced one under it must keep theirs. */
  lemma AnyAllPreserves(sem: Sem, n: Node, scope: Scope)
    requires sem.collateTransparent ==> MembershipKept(sem, n)
    ensures Eval(sem, Walk(ArrayAnyAll, n), scope) == Eval(sem, n, scope)
  {
    AnyAllSteady(sem, n);
    WalkPreserves(ArrayAnyAll, sem, n);
  }

  /** `'a' = ANY ('{a}')`, with and without a COLLATE on the literal. */
  const LEFT_A := Lit(Text("a"))
  const BRACE_A := Lit(Text("{a}"))
  const COLLATED_A := Node(Collate("C"), [BRACE_A])
  const ANY_A := Node(AnyOp(Eq), [LEFT_A, BRACE_A])
  const ANY_COLLATED_A := Node(AnyOp(Eq), [LEFT_A, COLLATED_A])

  lemma SmallBrace()
    ensures Braced("{a}") && ArrayItems("{a}") == ["a"]
  {
    assert LiteralOf(["a"]) == "{a}";
    ArrayLiteralRoundTrip(["a"]);
  }

  lemma SmallOver(sem: Sem)
    ensures Over(sem, AnyOp(Eq), Str("a"), Strings(["a"])) == Bool(true)
  {
    AnyIsContains(sem, Str("a"), Strings(["a"]));
    assert Strings(["a"])[0] == Str("a");
    hide AnyOf;
  }

  lemma BraceAUnder()
    ensures BraceUnder(BRACE_A) && BraceUnder(COLLATED_A) && BRACE_A.kind.Value? && !COLLATED_A.kind.Value?
    ensures TextUnder(BRACE_A) == TextUnder(COLLATED_A) == "{a}"
  {
    SmallBrace();
    hide Braced, ArrayItems;
    assert BraceUnder(BRACE_A);
  }

  lemma AnyValue(sem: Sem, right: Node, scope: Scope)
    requires right == BRACE_A || right == COLLATED_A
    ensures Eval(sem, Node(AnyOp(Eq), [LEFT_A, right]), scope) ==
            if right == BRACE_A || sem.collateTransparent then Bool(true) else Unknown
  {
    assert Eval(sem, LEFT_A, scope) == Str("a");
    hide *;
    BraceAUnder();
    SmallBrace();
    EvalQuantified(sem, AnyOp(Eq), LEFT_A, right, scope);
    BraceValue(sem, right, scope);
    TransparentText(sem, right);
    TextArray("{a}", Str("{a}"));
    NoArray("{a}");
    SmallOver(sem);
  }

  lemma NoArray(text: string)
    ensures ArrayOf(None, Str(text)) == None
  {
  }

  lemma WalkAnyCollated()
    ensures Walk(ArrayAnyAll, ANY_COLLATED_A) == ArrayContains(LEFT_A, COLLATED_A)
    ensures Walk(StripCollate, ANY_COLLATED_A) == ANY_A
  {
    assert Clean(ArrayAnyAll, BRACE_A) && Clean(ArrayAnyAll, COLLATED_A) && Clean(ArrayAnyAll, LEFT_A);
    WalkFixed(ArrayAnyAll, LEFT_A);
    WalkFixed(ArrayAnyAll, COLLATED_A);
    WalkNode(ArrayAnyAll, ANY_COLLATED_A);
    assert Walk(ArrayAnyAll, ANY_COLLATED_A).kids == [COLLATED_A, LEFT_A];
    WalkNode(StripCollate, ANY_COLLATED_A);
    WalkNode(StripCollate, LEFT_A);
    WalkNode(StripCollate, COLLATED_A);
    assert Walk(StripCollate, LEFT_A) == LEFT_A && Walk(StripCollate, COLLATED_A) == BRACE_A;
    assert Walk(StripCollate, ANY_COLLATED_A).kids == [LEFT_A, BRACE_A];
  }

  lemma ContainsOfText(sem: Sem, scope: Scope)
    ensures Eval(sem, ArrayContains(LEFT_A, COLLATED_A), scope) == Unknown
  {
    BraceAUnder();
    BraceValue(sem, COLLATED_A, scope);
    CollatedOperand(COLLATED_A);
    EvalContains(sem, COLLATED_A, LEFT_A, scope);
    hide Eval, BraceUnder, TextUnder, ArrayOperand;
  }

  /** Where a collated literal is still read as an array, the ANY pass makes it a string; where it is not, stripping
      the COLLATE makes it an array. */
  lemma CollatedLiteralMisread(sem: Sem, scope: Scope)
    ensures var before := Eval(sem, ANY_COLLATED_A, scope);
            if sem.collateTransparent then
              before == Bool(true) && Eval(sem, Walk(ArrayAnyAll, ANY_COLLATED_A), scope) == Unknown
            else before == Unknown && Eval(sem, Walk(StripCollate, ANY_COLLATED_A), scope) == Bool(true)
  {
    AnyValue(sem, BRACE_A, scope);
    AnyValue(sem, COLLATED_A, scope);
    WalkAnyCollated();
    ContainsOfText(sem, scope);
    hide *;
  }

  // ---------- COLLATE ----------

  lemma CollateVisit(sem: Sem, n: Node)
    ensures SameValue(sem, n, VisitCollate(n)) && (sem.collateTransparent ==> Same(sem, n, VisitCollate(n)))
  {
    if n.kind.Collate? && |n.kids| == 1 {
      assert n.kids == [n.kids[0]];
      forall scope ensures Eval(sem, n, scope) == Eval(sem, n.kids[0], scope) { EvalPair(sem, n.kids[0], n, scope); }
    }
  }

  /** A braced literal directly under one COLLATE, which the pass lays bare. */
  predicate Bared(n: Node) {
    n.kind.Collate? && |n.kids| == 1 && n.kids[0].kind.Value? && BraceUnder(n.kids[0])
  }

  /** Anything else is read alike before and after the pass. */
  lemma CollateText(sem: Sem, n: Node)
    requires !sem.collateTransparent && !Bared(n)
    ensures ArrayText(sem, Walk(StripCollate, n)) == ArrayText(sem, n)
  {
    WalkNode(StripCollate, n);
    hide Braced;
  }

  lemma BaredText(sem: Sem, n: Node)
    requires !sem.collateTransparent && Bared(n)
    ensures BraceUnder(n) && ArrayText(sem, n) == None && Walk(StripCollate, n) == n.kids[0]
    ensures ArrayText(sem, n.kids[0]) == Some(TextUnder(n))
  {
    hide Braced;
    assert n.kids[0].kids == [];
    WalkNode(StripCollate, n);
    assert Walk(StripCollate, n).kids == [];
  }

  /** Where COLLATE makes a literal something else, laying a braced one bare keeps the value of a comparison exactly if
      that with its items is undecided. */
  lemma CollateNodeExactly(sem: Sem, kind: Kind, left: Node, right: Node, scope: Scope)
    requires !sem.collateTransparent && (kind.AnyOp? || kind.AllOp?) && Bared(right)
    ensures BraceUnder(right)
    ensures Eval(sem, Node(kind, [left, right.kids[0]]), scope) == Eval(sem, Node(kind, [left, right]), scope) <==>
            Over(sem, kind, Eval(sem, left, scope), Strings(ArrayItems(TextUnder(right)))) == Unknown
  {
    BaredText(sem, right);
    assert right.kids == [right.kids[0]];
    hide *;
    BraceValue(sem, right, scope);
    EvalQuantified(sem, kind, left, right, scope);
    EvalQuantified(sem, kind, left, right.kids[0], scope);
    TextArray(TextUnder(right), Eval(sem, right.kids[0], scope));
    NoArray(TextUnder(right));
  }

  /** Every comparison in which the pass lays a literal bare keeps its value; `all` also counts those that the ANY/ALL
      pass takes away before. */
  ghost predicate ComparisonsKept(sem: Sem, all: bool, n: Node) {
    (Quantified(n.kind, n.kids) && (all || VisitAnyAll(n) == n) && Bared(n.kids[1]) && BraceUnder(n.kids[1]) ==>
       forall scope ::
         Over(sem, n.kind, Eval(sem, n.kids[0], scope), Strings(ArrayItems(TextUnder(n.kids[1])))) == Unknown) &&
    forall m :: m in n.kids ==> ComparisonsKept(sem, all, m)
  }

  lemma ComparisonHere(sem: Sem, n: Node, scope: Scope)
    requires ComparisonsKept(sem, true, n) && Quantified(n.kind, n.kids) && Bared(n.kids[1]) && BraceUnder(n.kids[1])
    ensures Over(sem, n.kind, Eval(sem, n.kids[0], scope), Strings(ArrayItems(TextUnder(n.kids[1])))) == Unknown
  {
    hide Eval, Over, Bared, BraceUnder, VisitAnyAll;
  }

  /** One comparison, its left side walked and its right side laid bare. */
  lemma BaredSame(sem: Sem, m: Node, left: Node)
    requires !sem.collateTransparent && ComparisonsKept(sem, true, m)
    requires Quantified(m.kind, m.kids) && Bared(m.kids[1]) && SameValue(sem, m.kids[0], left)
    ensures SameValue(sem, m, Node(m.kind, [left, m.kids[1].kids[0]]))
  {
    var r := Node(m.kind, [left, m.kids[1].kids[0]]);
    assert m == Node(m.kind, [m.kids[0], m.kids[1]]);
    BaredText(sem, m.kids[1]);
    assert Label(m) == Label(r);
    forall scope ensures Eval(sem, m, scope) == Eval(sem, r, scope) {
      SameAt(sem, m.kids[0], left, scope);
      ComparisonHere(sem, m, scope);
      hide *;
      QuantifiedKind(m.kind, m.kids);
      CollateNodeExactly(sem, m.kind, m.kids[0], m.kids[1], scope);
      EvalQuantified(sem, m.kind, left, m.kids[1].kids[0], scope);
      EvalQuantified(sem, m.kind, m.kids[0], m.kids[1].kids[0], scope);
    }
    hide Eval, Label;
  }

  lemma SameAt(sem: Sem, a: Node, b: Node, scope: Scope)
    requires SameValue(sem, a, b)
    ensures Eval(sem, a, scope) == Eval(sem, b, scope)
  {
    hide Eval, Label;
  }

  lemma QuantifiedKind(kind: Kind, kids: seq<Node>)
    requires Quantified(kind, kids)
    ensures (kind.AnyOp? || kind.AllOp?) && |kids| == 2
  {
  }

  lemma ComparisonsInside(sem: Sem, all: bool, n: Node)
    requires ComparisonsKept(sem, all, n)
    ensures forall m :: m in n.kids ==> ComparisonsKept(sem, all, m)
    ensures ComparisonsKept(sem, all, VisitCollate(n))
  {
    hide Over, Eval, Bared, VisitAnyAll;
  }

  lemma {:induction false} CollateSame(sem: Sem, n: Node)
    requires !sem.collateTransparent ==> ComparisonsKept(sem, true, n)
    ensures SameValue(sem, n, Walk(StripCollate, n))
    ensures sem.collateTransparent ==> Same(sem, n, Walk(StripCollate, n))
    decreases n
  {
    var m, r := VisitCollate(n), Walk(StripCollate, n);
    WalkNode(StripCollate, n);
    CollateVisit(sem, n);
    if !sem.collateTransparent {
      ComparisonsInside(sem, true, n);
      ComparisonsInside(sem, true, m);
    }
    hide ComparisonsKept, Eval, Label, ArrayText, Bared, Walk;
    forall i | 0 <= i < |m.kids|
      ensures SameValue(sem, m.kids[i], r.kids[i]) && (sem.collateTransparent ==> Same(sem, m.kids[i], r.kids[i]))
    {
      assert m.kids[i] in m.kids;
      CollateSame(sem, m.kids[i]);
    }
    assert m == Node(m.kind, m.kids) && r == Node(m.kind, r.kids);
    if sem.collateTransparent {
      Congruence(sem, m.kind, m.kids, r.kids);
    } else if Quantified(m.kind, m.kids) && Bared(m.kids[1]) {
      BaredText(sem, m.kids[1]);
      BaredSame(sem, m, r.kids[0]);
      assert r.kids == [r.kids[0], m.kids[1].kids[0]];
    } else {
      if Quantified(m.kind, m.kids) { CollateText(sem, m.kids[1]); }
      ValueCongruence(sem, m.kind, m.kids, r.kids);
    }
  }

  /** Stripping COLLATE changes no value; where COLLATE makes a literal something else, the comparisons in which one is
      laid bare must keep theirs. */
  lemma CollatePreserves(sem: Sem, n: Node, scope: Scope)
    requires !sem.collateTransparent ==> ComparisonsKept(sem, true, n)
    ensures Eval(sem, Walk(StripCollate, n), scope) == Eval(sem, n, scope)
  {
    CollateSame(sem, n);
  }

  // ---------- OPERATOR() ----------

  lemma OperatorVisit(sem: Sem, n: Node)
    ensures Same(sem, n, VisitOperator(n))
  {
  }

  lemma {:induction false} OperatorSteady(sem: Sem, n: Node)
    ensures Steady(PgOperator, sem, n)
    decreases n
  {
    OperatorVisit(sem, n);
    forall i | 0 <= i < |n.kids| ensures Steady(PgOperator, sem, n.kids[i]) { OperatorSteady(sem, n.kids[i]); }
    hide Same;
  }

  lemma OperatorPreserves(sem: Sem, n: Node, scope: Scope)
    ensures Eval(sem, Walk(PgOperator, n), scope) == Eval(sem, n, scope)
  {
    OperatorSteady(sem, n);
    WalkPreserves(PgOperator, sem, n);
  }
}
