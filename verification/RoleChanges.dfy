/** How grants, revocations and inheritance edges move decisions, told through the recursive search. */
module RoleChanges {
  import opened Wrappers
  import opened Roles

  /** The depth that is enough on a graph without cycles. */
  function Enough(roles: Graph): nat {
    |roles| + 1
  }

  /** On an acyclic graph the decision procedure answers, and its answer is what is authorized. */
  lemma DecideExactly(users: map<string, User>, roles: Graph, username: string, request: Request)
    requires Acyclic(roles)
    ensures Decide(users, roles, username, request, Enough(roles)) == Some(Authorized(users, roles, username, request))
  {
    if username in users {
      SearchAnyReturns(roles, users[username].roles, request);
      SearchAnySound(roles, users[username].roles, request, Enough(roles));
    }
  }

  lemma {:induction false} SearchAnyReturns(roles: Graph, names: seq<string>, request: Request)
    requires Acyclic(roles)
    ensures SearchAny(roles, names, request, Enough(roles)).Some?
  {
    if names != [] {
      assert !LoopFrom(roles, names[0]);
      SearchReturns(roles, names[0], request);
      SearchAnyReturns(roles, names[1..], request);
    }
  }

  // ---------- The four mutations ----------

  function WithGrant(roles: Graph, name: string, g: Grant): Graph
    requires name in roles
  {
    roles[name := roles[name].(grants := roles[name].grants + [g])]
  }

  /** `retain`: the grants with another permission or resource, in order. */
  function Unrevoked(grants: seq<Grant>, permission: Permission, resource: Resource): (r: seq<Grant>)
    ensures forall g :: g in r <==> g in grants && !(g.permission == permission && g.resource == resource)
    ensures |r| <= |grants|
  {
    if grants == [] then []
    else
      (if grants[0].permission == permission && grants[0].resource == resource then [] else [grants[0]]) +
      Unrevoked(grants[1..], permission, resource)
  }

  function WithoutGrant(roles: Graph, name: string, permission: Permission, resource: Resource): Graph
    requires name in roles
  {
    roles[name := roles[name].(grants := Unrevoked(roles[name].grants, permission, resource))]
  }

  function WithParent(roles: Graph, child: string, parent: string): Graph
    requires child in roles
  {
    if parent in roles[child].inherited then roles
    else roles[child := roles[child].(inherited := roles[child].inherited + [parent])]
  }

  function Without(names: seq<string>, name: string): (r: seq<string>)
    ensures forall n :: n in r <==> n in names && n != name
    ensures |r| <= |names|
  {
    if names == [] then [] else (if names[0] == name then [] else [names[0]]) + Without(names[1..], name)
  }

  function WithoutParent(roles: Graph, child: string, parent: string): Graph
    requires child in roles
  {
    roles[child := roles[child].(inherited := Without(roles[child].inherited, parent))]
  }

  // ---------- Monotonicity ----------

  /** Every role matches at least as much, and inherits from at least as many. */
  ghost predicate Grows(roles: Graph, roles': Graph) {
    (forall a, b :: Edge(roles, a, b) ==> Edge(roles', a, b)) &&
    (forall a, request :: Holds(roles, a, request) ==> Holds(roles', a, request))
  }

  lemma GrowsReaches(roles: Graph, roles': Graph, a: string, request: Request)
    requires Grows(roles, roles')
    ensures Reaches(roles, a, request) ==> Reaches(roles', a, request)
  {
    if Reaches(roles, a, request) {
      var b :| Connected(roles, a, b) && Holds(roles, b, request);
      ConnectedStays(roles, roles', a, b);
    }
  }

  lemma GrowsPasses(roles: Graph, roles': Graph, names: seq<string>, request: Request)
    requires Grows(roles, roles') && Passes(roles', names, |names|, request)
    ensures Passes(roles, names, |names|, request)
  {
    forall j | 0 <= j < |names| ensures !Reaches(roles, names[j], request) && !LoopFrom(roles, names[j]) {
      GrowsReaches(roles, roles', names[j], request);
      if LoopFrom(roles, names[j]) {
        var x, y :| Connected(roles, names[j], x) && Edge(roles, x, y) && Connected(roles, y, x);
        ConnectedStays(roles, roles', names[j], x);
        ConnectedStays(roles, roles', y, x);
      }
    }
  }

  /** On any graph, at any two depths, a change that only adds never turns a yes of the search into a no; and a no
      after it was a no before it already, and was given. */
  lemma GrowsDecides(users: map<string, User>, roles: Graph, roles': Graph, username: string, request: Request,
                     fuel': nat)
    requires Grows(roles, roles') && Decide(users, roles', username, request, fuel') == Some(false)
    ensures exists fuel: nat :: Decide(users, roles, username, request, fuel) == Some(false)
    ensures forall fuel: nat :: Decide(users, roles, username, request, fuel) != Some(true)
  {
    if username !in users {
      assert Decide(users, roles, username, request, 0) == Some(false);
    } else {
      assert !users[username].isSuperuser;
      hide *;
      DecisionExactly(users, roles', username, request);
      DecisionExactly(users, roles, username, request);
      GrowsPasses(roles, roles', users[username].roles, request);
      var fuel: nat :| Decide(users, roles, username, request, fuel) == Some(false);
      forall more: nat ensures Decide(users, roles, username, request, more) != Some(true) {
        if Decide(users, roles, username, request, more).Some? {
          DecidesAlike(users, roles, username, request, fuel, more);
        }
      }
    }
  }

  /** Two depths that give answers give the same one. */
  lemma DecidesAlike(users: map<string, User>, roles: Graph, username: string, request: Request, f: nat, g: nat)
    requires Decide(users, roles, username, request, f).Some? && Decide(users, roles, username, request, g).Some?
    ensures Decide(users, roles, username, request, f) == Decide(users, roles, username, request, g)
  {
    if username in users && !users[username].isSuperuser {
      if f <= g {
        MoreFuelAny(roles, users[username].roles, request, f, g);
      } else {
        MoreFuelAny(roles, users[username].roles, request, g, f);
      }
    }
  }

  /** The four mutations are such changes, in one direction or the other. */
  lemma MutationsAreMonotone(roles: Graph, name: string, g: Grant, permission: Permission, resource: Resource,
                             parent: string)
    requires name in roles
    ensures Grows(roles, WithGrant(roles, name, g))
    ensures Grows(WithoutGrant(roles, name, permission, resource), roles)
    ensures Grows(roles, WithParent(roles, name, parent))
    ensures Grows(WithoutParent(roles, name, parent), roles)
  {
    var granted := WithGrant(roles, name, g);
    forall a, request | Holds(roles, a, request) ensures Holds(granted, a, request) {
      assert forall h :: h in roles[name].grants ==> h in granted[name].grants;
    }
    var revoked := WithoutGrant(roles, name, permission, resource);
    forall a, request | Holds(revoked, a, request) ensures Holds(roles, a, request) {
      assert forall h :: h in revoked[name].grants ==> h in roles[name].grants;
    }
  }

  // ---------- Exact effects ----------

  lemma SameEdges(roles: Graph, roles': Graph, a: string, b: string)
    requires forall x, y :: Edge(roles, x, y) <==> Edge(roles', x, y)
    ensures Connected(roles, a, b) <==> Connected(roles', a, b)
  {
    if p :| IsPath(roles, p) && p[0] == a && p[|p| - 1] == b { assert IsPath(roles', p); }
    if p :| IsPath(roles', p) && p[0] == a && p[|p| - 1] == b { assert IsPath(roles, p); }
  }

  /** A new grant opens exactly the requests it matches, to exactly the roles that reach its holder. */
  lemma GrantExactly(roles: Graph, name: string, g: Grant, a: string, request: Request)
    requires name in roles
    ensures Reaches(WithGrant(roles, name, g), a, request) <==>
            Reaches(roles, a, request) || (Covers(g, request) && Connected(roles, a, name))
  {
    CoversExactly(g, request);
    hide Covers;
    var roles' := WithGrant(roles, name, g);
    assert forall x, y :: Edge(roles, x, y) <==> Edge(roles', x, y);
    assert forall h :: h in roles'[name].grants <==> h in roles[name].grants || h == g;
    assert forall b :: Holds(roles', b, request) <==>
           Holds(roles, b, request) || (b == name && GrantMatches(g, request));
    forall b ensures Connected(roles, a, b) <==> Connected(roles', a, b) { SameEdges(roles, roles', a, b); }
    if GrantMatches(g, request) && Connected(roles, a, name) { assert Holds(roles', name, request); }
  }

  /** `roles'` is `roles` with the edge from child to parent. */
  ghost predicate Joined(roles: Graph, roles': Graph, child: string, parent: string) {
    forall x, y :: Edge(roles', x, y) <==> Edge(roles, x, y) || (x == child && y == parent)
  }

  lemma {:induction false} PathThroughEdge(roles: Graph, roles': Graph, child: string, parent: string, p: seq<string>)
    requires Joined(roles, roles', child, parent) && IsPath(roles', p)
    ensures var a, b := p[0], p[|p| - 1];
            Connected(roles, a, b) || (Connected(roles, a, child) && Connected(roles, parent, b))
    decreases |p|
  {
    if |p| == 1 {
      ConnectedSelf(roles, p[0]);
    } else {
      var tail := p[1..];
      assert Edge(roles', p[0], p[1]) && IsPath(roles', tail);
      PathThroughEdge(roles, roles', child, parent, tail);
      var b := p[|p| - 1];
      if Edge(roles, p[0], p[1]) {
        if Connected(roles, p[1], b) {
          ConnectedStep(roles, p[0], p[1], b); } else { ConnectedStep(roles, p[0], p[1], child);
        }
      } else {
        ConnectedSelf(roles, child);
      }
    }
  }

  /** With the new edge, `a` reaches `b` as before, or by way of the edge. */
  lemma ConnectedExactly(roles: Graph, roles': Graph, child: string, parent: string, a: string, b: string)
    requires Joined(roles, roles', child, parent)
    ensures Connected(roles', a, b) <==>
            Connected(roles, a, b) || (Connected(roles, a, child) && Connected(roles, parent, b))
  {
    if p :| IsPath(roles', p) && p[0] == a && p[|p| - 1] == b { PathThroughEdge(roles, roles', child, parent, p); }
    ConnectedStays(roles, roles', a, b);
    if Connected(roles, a, child) && Connected(roles, parent, b) {
      ConnectedStays(roles, roles', a, child);
      ConnectedStays(roles, roles', parent, b);
      assert Edge(roles', child, parent);
      ConnectedStep(roles', child, parent, b);
      ConnectedTrans(roles', a, child, b);
    }
  }

  lemma ConnectedStays(roles: Graph, roles': Graph, a: string, b: string)
    requires forall x, y :: Edge(roles, x, y) ==> Edge(roles', x, y)
    ensures Connected(roles, a, b) ==> Connected(roles', a, b)
  {
    if p :| IsPath(roles, p) && p[0] == a && p[|p| - 1] == b { assert IsPath(roles', p); }
  }

  /** A new inheritance edge opens exactly what the parent reaches, to exactly the roles that reach the child. */
  lemma InheritanceExactly(roles: Graph, child: string, parent: string, a: string, request: Request)
    requires child in roles
    ensures Reaches(WithParent(roles, child, parent), a, request) <==>
            Reaches(roles, a, request) || (Connected(roles, a, child) && Reaches(roles, parent, request))
  {
    var roles' := WithParent(roles, child, parent);
    assert Joined(roles, roles', child, parent);
    assert forall b :: Holds(roles', b, request) <==> Holds(roles, b, request);
    forall b
      ensures Connected(roles', a, b) <==>
              Connected(roles, a, b) || (Connected(roles, a, child) && Connected(roles, parent, b))
    {
      ConnectedExactly(roles, roles', child, parent, a, b);
    }
  }

  /** The mutator does not check it, but the edge keeps an acyclic graph acyclic exactly when the parent
      does not already reach the child. */
  lemma AcyclicExactly(roles: Graph, child: string, parent: string)
    requires child in roles && Acyclic(roles) && parent !in roles[child].inherited
    ensures Acyclic(WithParent(roles, child, parent)) <==> !Connected(roles, parent, child)
  {
    var roles' := WithParent(roles, child, parent);
    assert Joined(roles, roles', child, parent);
    if Connected(roles, parent, child) {
      ConnectedStays(roles, roles', parent, child);
      assert Edge(roles', child, parent);
    } else {
      forall x, y | Edge(roles', x, y) ensures !Connected(roles', y, x) {
        ConnectedExactly(roles, roles', child, parent, y, x);
        if Edge(roles, x, y) && Connected(roles, y, child) && Connected(roles, parent, x) {
          ConnectedStep(roles, x, y, child);
          ConnectedTrans(roles, parent, x, child);
        }
      }
    }
  }

  /** Removing an edge, or changing grants, never makes a cycle. */
  lemma AcyclicStays(roles: Graph, roles': Graph)
    requires Acyclic(roles) && forall x, y :: Edge(roles', x, y) ==> Edge(roles, x, y)
    ensures Acyclic(roles')
  {
    forall x, y | Edge(roles', x, y) ensures !Connected(roles', y, x) { ConnectedStays(roles', roles, y, x); }
  }
}
