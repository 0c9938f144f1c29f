/**
 Users, roles and grants.  A permission is decided by a recursive search over the inheritance graph;
 this module states the graph, what is reachable in it, and the search as a function of a bound on
 its depth.
 */
module Roles {
  import opened Wrappers

  datatype Permission =
    | SelectRows | Insert | Update | Delete | Create | Drop | Alter | Index | References | Trigger
    | Execute | Usage | Connect | Temporary | All

  datatype Resource =
    | Table(name: string) | Schema(name: string) | Database(name: string) | Function(name: string)
    | Sequence(name: string) | Everything

  datatype Grant = Grant(permission: Permission, resource: Resource, grantedBy: string, withGrantOption: bool)
  datatype Role = Role(isSuperuser: bool, grants: seq<Grant>, inherited: seq<string>)
  datatype User = User(isSuperuser: bool, roles: seq<string>)
  datatype Request = Request(permission: Permission, resource: Resource)

  type Graph = map<string, Role>

  // ---------- Matching ----------

  predicate PermissionMatches(granted: Permission, requested: Permission) {
    granted == requested || granted == All
  }

  /** A schema grant covers the tables whose name starts with the schema's name and a dot. */
  predicate ResourceMatches(granted: Resource, requested: Resource) {
    granted == requested || granted == Everything ||
    (granted.Schema? && requested.Table? && granted.name + "." <= requested.name)
  }

  predicate GrantMatches(g: Grant, request: Request) {
    PermissionMatches(g.permission, request.permission) && ResourceMatches(g.resource, request.resource)
  }

  /** What a grant says it covers: All every permission, any other only itself; Everything all resources, a schema
      besides itself the tables named after it and a dot, any other resource only itself. */
  ghost predicate Covers(g: Grant, request: Request) {
    (g.permission == All || g.permission == request.permission) &&
    (g.resource == Everything || g.resource == request.resource ||
     (g.resource.Schema? && request.resource.Table? &&
      exists table :: request.resource.name == g.resource.name + "." + table))
  }

  lemma CoversExactly(g: Grant, request: Request)
    ensures GrantMatches(g, request) <==> Covers(g, request)
  {
    var granted, requested := g.resource, request.resource;
    if granted.Schema? && requested.Table? && granted.name + "." <= requested.name {
      assert requested.name == granted.name + "." + requested.name[|granted.name| + 1..];
    }
  }

  predicate RoleMatches(role: Role, request: Request) {
    role.isSuperuser || exists g :: g in role.grants && GrantMatches(g, request)
  }

  // ---------- Reachability ----------

  predicate Edge(roles: Graph, a: string, b: string) {
    a in roles && b in roles[a].inherited
  }

  predicate IsPath(roles: Graph, p: seq<string>) {
    p != [] && forall i :: 0 <= i < |p| - 1 ==> Edge(roles, p[i], p[i + 1])
  }

  ghost predicate Connected(roles: Graph, a: string, b: string) {
    exists p :: IsPath(roles, p) && p[0] == a && p[|p| - 1] == b
  }

  predicate Holds(roles: Graph, a: string, request: Request) {
    a in roles && RoleMatches(roles[a], request)
  }

  /** Some role reachable from `a` is a superuser or holds a matching grant. */
  ghost predicate Reaches(roles: Graph, a: string, request: Request) {
    exists b :: Connected(roles, a, b) && Holds(roles, b, request)
  }

  ghost predicate Acyclic(roles: Graph) {
    forall x, y :: Edge(roles, x, y) ==> !Connected(roles, y, x)
  }

  /** A cycle can be reached from `a`. */
  ghost predicate LoopFrom(roles: Graph, a: string) {
    exists x, y :: Connected(roles, a, x) && Edge(roles, x, y) && Connected(roles, y, x)
  }

  lemma ConnectedSelf(roles: Graph, a: string)
    ensures Connected(roles, a, a)
  {
    assert IsPath(roles, [a]);
  }

  lemma ConnectedStep(roles: Graph, a: string, b: string, c: string)
    requires Edge(roles, a, b) && Connected(roles, b, c)
    ensures Connected(roles, a, c)
  {
    var p :| IsPath(roles, p) && p[0] == b && p[|p| - 1] == c;
    assert IsPath(roles, [a] + p);
  }

  lemma ConnectedTrans(roles: Graph, a: string, b: string, c: string)
    requires Connected(roles, a, b) && Connected(roles, b, c)
    ensures Connected(roles, a, c)
  {
    var p :| IsPath(roles, p) && p[0] == a && p[|p| - 1] == b;
    var q :| IsPath(roles, q) && q[0] == b && q[|q| - 1] == c;
    var r := p + q[1..];
    assert IsPath(roles, r);
    assert r[|r| - 1] == c;
  }

  lemma Slice(roles: Graph, p: seq<string>, i: nat, j: nat)
    requires IsPath(roles, p) && i <= j < |p|
    ensures IsPath(roles, p[i..j + 1]) && Connected(roles, p[i], p[j])
  {
    var q := p[i..j + 1];
    assert q[0] == p[i] && q[|q| - 1] == p[j];
  }

  // ---------- The search ----------

  /** check_role_permission, to a depth of `fuel` roles; None when that is not enough. */
  function Search(roles: Graph, name: string, request: Request, fuel: nat): Option<bool>
    decreases fuel, 0
  {
    if fuel == 0 then None
    else if name !in roles then Some(false)
    else if RoleMatches(roles[name], request) then Some(true)
    else SearchAny(roles, roles[name].inherited, request, fuel - 1)
  }

  function SearchAny(roles: Graph, names: seq<string>, request: Request, fuel: nat): Option<bool>
    decreases fuel, |names| + 1
  {
    if names == [] then Some(false)
    else
      var first := Search(roles, names[0], request, fuel);
      if first == Some(false) then SearchAny(roles, names[1..], request, fuel) else first
  }

  /** check_permission: superusers may do everything, others what one of their roles reaches. */
  function Decide(users: map<string, User>, roles: Graph, username: string, request: Request, fuel: nat): Option<bool> {
    if username !in users then Some(false)
    else if users[username].isSuperuser then Some(true)
    else SearchAny(roles, users[username].roles, request, fuel)
  }

  ghost predicate Authorized(users: map<string, User>, roles: Graph, username: string, request: Request) {
    username in users &&
    (users[username].isSuperuser || exists r :: r in users[username].roles && Reaches(roles, r, request))
  }

  // ---------- An answer is right, on any graph ----------

  lemma ReachesStep(roles: Graph, a: string, b: string, request: Request)
    requires Edge(roles, a, b) && Reaches(roles, b, request)
    ensures Reaches(roles, a, request)
  {
    var c :| Connected(roles, b, c) && Holds(roles, c, request);
    ConnectedStep(roles, a, b, c);
  }

  /** A role reaches a match itself or through a role it inherits. */
  lemma ReachesUnfold(roles: Graph, a: string, request: Request)
    ensures Reaches(roles, a, request) <==>
            Holds(roles, a, request) || exists b :: Edge(roles, a, b) && Reaches(roles, b, request)
  {
    if Holds(roles, a, request) { ConnectedSelf(roles, a); }
    if b :| Edge(roles, a, b) && Reaches(roles, b, request) { ReachesStep(roles, a, b, request); }
    if Reaches(roles, a, request) && !Holds(roles, a, request) {
      var c :| Connected(roles, a, c) && Holds(roles, c, request);
      var p :| IsPath(roles, p) && p[0] == a && p[|p| - 1] == c;
      Slice(roles, p, 1, |p| - 1);
      assert Edge(roles, a, p[1]) && Reaches(roles, p[1], request);
    }
  }

  lemma {:induction false} SearchSound(roles: Graph, name: string, request: Request, fuel: nat)
    ensures Search(roles, name, request, fuel).Some? ==>
            (Search(roles, name, request, fuel).value <==> Reaches(roles, name, request))
    decreases fuel, 0
  {
    if fuel > 0 {
      ReachesUnfold(roles, name, request);
      if name in roles {
        SearchAnySound(roles, roles[name].inherited, request, fuel - 1);
      }
    }
  }

  lemma {:induction false} SearchAnySound(roles: Graph, names: seq<string>, request: Request, fuel: nat)
    ensures SearchAny(roles, names, request, fuel).Some? ==>
            (SearchAny(roles, names, request, fuel).value <==> exists n :: n in names && Reaches(roles, n, request))
    decreases fuel, |names| + 1
  {
    if names != [] {
      SearchSound(roles, names[0], request, fuel);
      SearchAnySound(roles, names[1..], request, fuel);
      assert forall n :: n in names <==> n == names[0] || n in names[1..];
    }
  }

  lemma {:induction false} MoreFuel(roles: Graph, name: string, request: Request, fuel: nat, more: nat)
    requires Search(roles, name, request, fuel).Some? && fuel <= more
    ensures Search(roles, name, request, more) == Search(roles, name, request, fuel)
    decreases fuel, 0
  {
    if name in roles && !RoleMatches(roles[name], request) {
      MoreFuelAny(roles, roles[name].inherited, request, fuel - 1, more - 1);
    }
  }

  lemma {:induction false} MoreFuelAny(roles: Graph, names: seq<string>, request: Request, fuel: nat, more: nat)
    requires SearchAny(roles, names, request, fuel).Some? && fuel <= more
    ensures SearchAny(roles, names, request, more) == SearchAny(roles, names, request, fuel)
    decreases fuel, |names| + 1
  {
    if names != [] {
      MoreFuel(roles, names[0], request, fuel, more);
      if Search(roles, names[0], request, fuel) == Some(false) { MoreFuelAny(roles, names[1..], request, fuel, more); }
    }
  }

  // ---------- When there is an answer ----------

  /** A search that runs out of fuel has walked a path as long as the fuel. */
  lemma {:induction false} OutOfFuel(roles: Graph, name: string, request: Request, fuel: nat) returns (p: seq<string>)
    requires Search(roles, name, request, fuel).None?
    ensures IsPath(roles, p) && p[0] == name && |p| == fuel + 1
    decreases fuel, 0
  {
    if fuel == 0 {
      p := [name];
    } else {
      var next, q := OutOfFuelAny(roles, roles[name].inherited, request, fuel - 1);
      p := [name] + q;
    }
  }

  lemma {:induction false} OutOfFuelAny(roles: Graph, names: seq<string>, request: Request, fuel: nat)
    returns (n: string, p: seq<string>)
    requires SearchAny(roles, names, request, fuel).None?
    ensures n in names && IsPath(roles, p) && p[0] == n && |p| == fuel + 1
    decreases fuel, |names| + 1
  {
    if Search(roles, names[0], request, fuel).None? {
      n := names[0];
      p := OutOfFuel(roles, n, request, fuel);
    } else {
      n, p := OutOfFuelAny(roles, names[1..], request, fuel);
    }
  }

  lemma {:induction false} Pigeonhole(p: seq<string>, s: set<string>)
    requires (forall x :: x in p ==> x in s) && forall i, j :: 0 <= i < j < |p| ==> p[i] != p[j]
    ensures |p| <= |s|
    decreases |p|
  {
    if p != [] {
      var last, rest := p[|p| - 1], p[..|p| - 1];
      assert forall x :: x in rest ==> x in s - {last};
      Pigeonhole(rest, s - {last});
    }
  }

  /** A path longer than the graph goes round a cycle. */
  lemma LongPathLoops(roles: Graph, p: seq<string>)
    requires IsPath(roles, p) && |p| > |roles| + 1
    ensures LoopFrom(roles, p[0])
  {
    var inner := p[..|p| - 1];
    forall x | x in inner ensures x in roles.Keys {
      var i :| 0 <= i < |inner| && inner[i] == x;
      assert Edge(roles, p[i], p[i + 1]);
    }
    if forall i, j :: 0 <= i < j < |inner| ==> inner[i] != inner[j] {
      Pigeonhole(inner, roles.Keys);
    }
    var i, j :| 0 <= i < j < |inner| && inner[i] == inner[j];
    Slice(roles, p, 0, i);
    Slice(roles, p, i + 1, j);
    assert Edge(roles, p[i], p[i + 1]);
  }

  /** From where no cycle can be reached, a depth of one more than the number of roles is enough. */
  lemma SearchReturns(roles: Graph, name: string, request: Request)
    requires !LoopFrom(roles, name)
    ensures Search(roles, name, request, |roles| + 1) == Some(Reaches(roles, name, request))
  {
    if Search(roles, name, request, |roles| + 1).None? {
      var p := OutOfFuel(roles, name, request, |roles| + 1);
      LongPathLoops(roles, p);
    }
    SearchSound(roles, name, request, |roles| + 1);
  }

  // ---------- When there is none ----------

  /** A search that answers no has bounded every path. */
  lemma {:induction false} NoBoundsPaths(roles: Graph, name: string, request: Request, fuel: nat, p: seq<string>)
    requires Search(roles, name, request, fuel) == Some(false) && IsPath(roles, p) && p[0] == name
    ensures |p| <= fuel
    decreases fuel
  {
    if |p| > 1 {
      assert Edge(roles, p[0], p[1]);
      NoMember(roles, roles[name].inherited, request, fuel - 1, p[1]);
      Slice(roles, p, 1, |p| - 1);
      NoBoundsPaths(roles, p[1], request, fuel - 1, p[1..]);
    }
  }

  lemma {:induction false} NoMember(roles: Graph, names: seq<string>, request: Request, fuel: nat, n: string)
    requires SearchAny(roles, names, request, fuel) == Some(false) && n in names
    ensures Search(roles, n, request, fuel) == Some(false)
    decreases |names|
  {
    if n != names[0] { NoMember(roles, names[1..], request, fuel, n); }
  }

  /** Going round a cycle gives paths of any length. */
  lemma {:induction false} Pump(roles: Graph, x: string, y: string, length: nat) returns (p: seq<string>)
    requires Edge(roles, x, y) && Connected(roles, y, x)
    ensures IsPath(roles, p) && p[0] == x && |p| >= length
    decreases length
  {
    if length == 0 {
      p := [x];
    } else {
      var q := Pump(roles, x, y, length - 1);
      var r :| IsPath(roles, r) && r[0] == y && r[|r| - 1] == x;
      p := [x] + r + q[1..];
      forall i | 0 <= i < |p| - 1 ensures Edge(roles, p[i], p[i + 1]) {
        if 1 <= i < |r| { assert Edge(roles, r[i - 1], r[i]); }
        if i == |r| && |q| > 1 { assert Edge(roles, q[0], q[1]); }
        if i > |r| { assert Edge(roles, q[i - |r|], q[i + 1 - |r|]); }
      }
    }
  }

  /** A search that answers no has no cycle ahead of it: otherwise no depth is enough. */
  lemma NoFuelEnough(roles: Graph, name: string, request: Request, fuel: nat)
    requires LoopFrom(roles, name) && !Reaches(roles, name, request)
    ensures Search(roles, name, request, fuel).None?
  {
    SearchSound(roles, name, request, fuel);
    if Search(roles, name, request, fuel) == Some(false) {
      var x, y :| Connected(roles, name, x) && Edge(roles, x, y) && Connected(roles, y, x);
      var p :| IsPath(roles, p) && p[0] == name && p[|p| - 1] == x;
      var q := Pump(roles, x, y, fuel + 1);
      var r := p[..|p| - 1] + q;
      forall i | 0 <= i < |r| - 1 ensures Edge(roles, r[i], r[i + 1]) {
        if i < |p| - 1 {
          assert Edge(roles, p[i], p[i + 1]);
          assert r[i + 1] == p[i + 1];
        } else {
          assert Edge(roles, q[i - (|p| - 1)], q[i + 1 - (|p| - 1)]);
        }
      }
      assert r[0] == name;
      NoBoundsPaths(roles, name, request, fuel, r);
    }
  }

  /** The search answers no, at some depth, exactly when nothing matches and no cycle can be reached. */
  lemma AnswersNoExactly(roles: Graph, name: string, request: Request)
    ensures (exists fuel: nat :: Search(roles, name, request, fuel) == Some(false)) <==>
            !Reaches(roles, name, request) && !LoopFrom(roles, name)
  {
    if fuel: nat :| Search(roles, name, request, fuel) == Some(false) {
      SearchSound(roles, name, request, fuel);
      if LoopFrom(roles, name) { NoFuelEnough(roles, name, request, fuel); }
    }
    if !Reaches(roles, name, request) && !LoopFrom(roles, name) { SearchReturns(roles, name, request); }
  }

  // ---------- When the answer is yes, and when there is none ----------

  /** The search gets past the first `k` names, each with the answer no. */
  ghost predicate Passes(roles: Graph, names: seq<string>, k: nat, request: Request)
    requires k <= |names|
  {
    forall j :: 0 <= j < k ==> !Reaches(roles, names[j], request) && !LoopFrom(roles, names[j])
  }

  /** From `a` the search comes to `b` before anything that matches or goes round in a circle. */
  ghost predicate ComesTo(roles: Graph, a: string, b: string, request: Request) {
    a in roles &&
    var names := roles[a].inherited;
    exists k :: 0 <= k < |names| && names[k] == b && Passes(roles, names, k, request)
  }

  /** A chain of such steps to a first matching role. */
  ghost predicate FirstMatch(roles: Graph, p: seq<string>, request: Request) {
    p != [] && Holds(roles, p[|p| - 1], request) &&
    forall i :: 0 <= i < |p| - 1 ==> !Holds(roles, p[i], request) && ComesTo(roles, p[i], p[i + 1], request)
  }

  ghost predicate FindsMatch(roles: Graph, name: string, request: Request) {
    exists p :: FirstMatch(roles, p, request) && p[0] == name
  }

  lemma FindsUnfold(roles: Graph, name: string, request: Request)
    ensures FindsMatch(roles, name, request) <==>
            Holds(roles, name, request) || exists b :: ComesTo(roles, name, b, request) && FindsMatch(roles, b, request)
  {
    if Holds(roles, name, request) {
      assert FirstMatch(roles, [name], request);
    } else {
      if b :| ComesTo(roles, name, b, request) && FindsMatch(roles, b, request) {
        var q :| FirstMatch(roles, q, request) && q[0] == b;
        var p := [name] + q;
        forall i | 0 <= i < |p| - 1 ensures !Holds(roles, p[i], request) && ComesTo(roles, p[i], p[i + 1], request) {
          if i > 0 { assert p[i] == q[i - 1] && p[i + 1] == q[i]; }
        }
        assert FirstMatch(roles, p, request);
      }
      if p :| FirstMatch(roles, p, request) && p[0] == name {
        var q := p[1..];
        forall i | 0 <= i < |q| - 1 ensures !Holds(roles, q[i], request) && ComesTo(roles, q[i], q[i + 1], request) {
          assert q[i] == p[i + 1] && q[i + 1] == p[i + 2];
        }
        assert FirstMatch(roles, q, request) && ComesTo(roles, p[0], p[1], request);
      }
    }
  }

  lemma {:induction false} AnyYes(roles: Graph, names: seq<string>, request: Request, fuel: nat) returns (k: nat)
    requires SearchAny(roles, names, request, fuel) == Some(true)
    ensures k < |names| && Search(roles, names[k], request, fuel) == Some(true) && Passes(roles, names, k, request)
    decreases |names|
  {
    if Search(roles, names[0], request, fuel) == Some(true) {
      k := 0;
    } else {
      assert Search(roles, names[0], request, fuel) == Some(false) by {
        YesOrNo(Search(roles, names[0], request, fuel));
      }
      AnswersNoExactly(roles, names[0], request);
      var j := AnyYes(roles, names[1..], request, fuel);
      k := j + 1;
      forall i | 0 <= i < k ensures !Reaches(roles, names[i], request) && !LoopFrom(roles, names[i]) {
        if i > 0 { assert names[i] == names[1..][i - 1]; }
      }
    }
  }

  lemma YesOrNo(answer: Option<bool>)
    ensures answer.None? || answer == Some(true) || answer == Some(false)
  {
    if answer.Some? {
      if answer.value { assert answer == Some(true); } else { assert answer == Some(false); }
    }
  }

  lemma {:induction false} AnyReturnsYes(roles: Graph, names: seq<string>, request: Request, fuel: nat, k: nat)
    requires k < |names| && Search(roles, names[k], request, fuel) == Some(true) && Passes(roles, names, k, request)
    requires fuel >= |roles| + 1
    ensures SearchAny(roles, names, request, fuel) == Some(true)
    decreases |names|
  {
    if k > 0 {
      SearchReturns(roles, names[0], request);
      MoreFuel(roles, names[0], request, |roles| + 1, fuel);
      forall j | 0 <= j < k - 1 ensures !Reaches(roles, names[1..][j], request) && !LoopFrom(roles, names[1..][j]) {
        assert names[1..][j] == names[j + 1];
      }
      AnyReturnsYes(roles, names[1..], request, fuel, k - 1);
    }
  }

  lemma {:induction false} YesFinds(roles: Graph, name: string, request: Request, fuel: nat)
    requires Search(roles, name, request, fuel) == Some(true)
    ensures FindsMatch(roles, name, request)
    decreases fuel
  {
    FindsUnfold(roles, name, request);
    if !Holds(roles, name, request) {
      var names := roles[name].inherited;
      var k := AnyYes(roles, names, request, fuel - 1);
      YesFinds(roles, names[k], request, fuel - 1);
      assert ComesTo(roles, name, names[k], request);
    }
  }

  lemma {:induction false} FindsYes(roles: Graph, p: seq<string>, request: Request) returns (fuel: nat)
    requires FirstMatch(roles, p, request)
    ensures Search(roles, p[0], request, fuel) == Some(true)
    decreases |p|
  {
    if |p| == 1 {
      fuel := 1;
    } else {
      var q := p[1..];
      forall i | 0 <= i < |q| - 1 ensures !Holds(roles, q[i], request) && ComesTo(roles, q[i], q[i + 1], request) {
        assert q[i] == p[i + 1] && q[i + 1] == p[i + 2];
      }
      var f := FindsYes(roles, q, request);
      assert ComesTo(roles, p[0], p[1], request);
      var names := roles[p[0]].inherited;
      var k :| 0 <= k < |names| && names[k] == p[1] && Passes(roles, names, k, request);
      var most := if f > |roles| + 1 then f else |roles| + 1;
      MoreFuel(roles, p[1], request, f, most);
      AnyReturnsYes(roles, names, request, most, k);
      fuel := most + 1;
    }
  }

  /** The search answers yes, at some depth, exactly when it comes to a match, every name listed before a step of the
      way reaching neither a match nor a cycle. */
  lemma AnswersYesExactly(roles: Graph, name: string, request: Request)
    ensures (exists fuel: nat :: Search(roles, name, request, fuel) == Some(true)) <==> FindsMatch(roles, name, request)
  {
    if fuel: nat :| Search(roles, name, request, fuel) == Some(true) { YesFinds(roles, name, request, fuel); }
    if FindsMatch(roles, name, request) {
      var p :| FirstMatch(roles, p, request) && p[0] == name;
      var fuel := FindsYes(roles, p, request);
    }
  }

  /** It goes on for ever exactly when a cycle can be reached and no match is found before it. */
  lemma DivergesExactly(roles: Graph, name: string, request: Request)
    ensures (forall fuel: nat :: Search(roles, name, request, fuel).None?) <==>
            LoopFrom(roles, name) && !FindsMatch(roles, name, request)
  {
    AnswersYesExactly(roles, name, request);
    AnswersNoExactly(roles, name, request);
    if !LoopFrom(roles, name) { SearchReturns(roles, name, request); }
    if fuel: nat :| Search(roles, name, request, fuel).Some? {
      YesOrNo(Search(roles, name, request, fuel));
      if Search(roles, name, request, fuel) == Some(true) {
        YesFinds(roles, name, request, fuel);
      } else {
        SearchSound(roles, name, request, fuel);
        if LoopFrom(roles, name) { NoFuelEnough(roles, name, request, fuel); }
      }
    }
  }

  // ---------- The decision ----------

  /** Some role of the user finds a match, those listed before it reaching neither a match nor a cycle. */
  ghost predicate RolesFind(roles: Graph, names: seq<string>, request: Request) {
    exists k :: 0 <= k < |names| && Passes(roles, names, k, request) && FindsMatch(roles, names[k], request)
  }

  lemma AnyYesExactly(roles: Graph, names: seq<string>, request: Request)
    ensures (exists fuel: nat :: SearchAny(roles, names, request, fuel) == Some(true)) <==>
            RolesFind(roles, names, request)
  {
    if fuel: nat :| SearchAny(roles, names, request, fuel) == Some(true) {
      var k := AnyYes(roles, names, request, fuel);
      YesFinds(roles, names[k], request, fuel);
    }
    if k :| 0 <= k < |names| && Passes(roles, names, k, request) && FindsMatch(roles, names[k], request) {
      AnswersYesExactly(roles, names[k], request);
      var f: nat :| Search(roles, names[k], request, f) == Some(true);
      var most := if f > |roles| + 1 then f else |roles| + 1;
      MoreFuel(roles, names[k], request, f, most);
      AnyReturnsYes(roles, names, request, most, k);
    }
  }

  lemma {:induction false} AnyReturnsNo(roles: Graph, names: seq<string>, request: Request)
    requires Passes(roles, names, |names|, request)
    ensures SearchAny(roles, names, request, |roles| + 1) == Some(false)
    decreases |names|
  {
    if names != [] {
      SearchReturns(roles, names[0], request);
      forall j | 0 <= j < |names| - 1
        ensures !Reaches(roles, names[1..][j], request) && !LoopFrom(roles, names[1..][j])
      {
        assert names[1..][j] == names[j + 1];
      }
      AnyReturnsNo(roles, names[1..], request);
    }
  }

  lemma AnyNoExactly(roles: Graph, names: seq<string>, request: Request)
    ensures (exists fuel: nat :: SearchAny(roles, names, request, fuel) == Some(false)) <==>
            Passes(roles, names, |names|, request)
  {
    if fuel: nat :| SearchAny(roles, names, request, fuel) == Some(false) {
      forall j | 0 <= j < |names| ensures !Reaches(roles, names[j], request) && !LoopFrom(roles, names[j]) {
        NoMember(roles, names, request, fuel, names[j]);
        AnswersNoExactly(roles, names[j], request);
      }
    }
    if Passes(roles, names, |names|, request) { AnyReturnsNo(roles, names, request); }
  }

  lemma DecideIsSearch(users: map<string, User>, roles: Graph, username: string, request: Request, fuel: nat)
    requires username in users && !users[username].isSuperuser
    ensures Decide(users, roles, username, request, fuel) == SearchAny(roles, users[username].roles, request, fuel)
    ensures Decide(users, roles, username, request, fuel).None? ||
            Decide(users, roles, username, request, fuel) == Some(true) ||
            Decide(users, roles, username, request, fuel) == Some(false)
  {
    YesOrNo(Decide(users, roles, username, request, fuel));
  }

  lemma DecidedExactly(users: map<string, User>, roles: Graph, username: string, request: Request, answer: bool)
    requires username in users && !users[username].isSuperuser
    ensures (exists fuel: nat :: Decide(users, roles, username, request, fuel) == Some(answer)) <==>
            exists fuel: nat :: SearchAny(roles, users[username].roles, request, fuel) == Some(answer)
  {
    hide *;
    if fuel: nat :| Decide(users, roles, username, request, fuel) == Some(answer) {
      DecideIsSearch(users, roles, username, request, fuel);
      assert SearchAny(roles, users[username].roles, request, fuel) == Some(answer);
    }
    if fuel: nat :| SearchAny(roles, users[username].roles, request, fuel) == Some(answer) {
      DecideIsSearch(users, roles, username, request, fuel);
      assert Decide(users, roles, username, request, fuel) == Some(answer);
    }
  }

  /** On every graph: when the decision is yes, when it is no, and when it is never made. */
  lemma DecisionExactly(users: map<string, User>, roles: Graph, username: string, request: Request)
    requires username in users && !users[username].isSuperuser
    ensures (exists fuel: nat :: Decide(users, roles, username, request, fuel) == Some(true)) <==>
            RolesFind(roles, users[username].roles, request)
    ensures (exists fuel: nat :: Decide(users, roles, username, request, fuel) == Some(false)) <==>
            Passes(roles, users[username].roles, |users[username].roles|, request)
    ensures (forall fuel: nat :: Decide(users, roles, username, request, fuel).None?) <==>
            !RolesFind(roles, users[username].roles, request) &&
            !Passes(roles, users[username].roles, |users[username].roles|, request)
  {
    hide *;
    AnyYesExactly(roles, users[username].roles, request);
    AnyNoExactly(roles, users[username].roles, request);
    DecidedExactly(users, roles, username, request, true);
    DecidedExactly(users, roles, username, request, false);
    if fuel: nat :| Decide(users, roles, username, request, fuel).Some? {
      DecideIsSearch(users, roles, username, request, fuel);
    }
  }

  /** A role that inherits itself before a superuser. */
  const SELF_FIRST: Graph := map["a" := Role(false, [], ["a", "c"]), "c" := Role(true, [], [])]

  lemma {:induction false} SelfFirstNever(request: Request, fuel: nat)
    ensures Search(SELF_FIRST, "a", request, fuel).None?
  {
    if fuel > 0 { SelfFirstNever(request, fuel - 1); }
  }

  /** Its users may do everything and are never told so. */
  lemma AuthorizedWithoutAnswer(request: Request)
    ensures var users := map["u" := User(false, ["a"])];
            Authorized(users, SELF_FIRST, "u", request) &&
              forall fuel: nat :: Decide(users, SELF_FIRST, "u", request, fuel).None?
  {
    assert Edge(SELF_FIRST, "a", "c") && Holds(SELF_FIRST, "c", request);
    ConnectedSelf(SELF_FIRST, "c");
    ConnectedStep(SELF_FIRST, "a", "c", "c");
    assert Reaches(SELF_FIRST, "a", request) && "a" in ["a"];
    forall fuel: nat ensures SearchAny(SELF_FIRST, ["a"], request, fuel).None? { SelfFirstNever(request, fuel); }
  }

  // ---------- What one grant covers ----------

  /** The decision for a user whose one role has one grant. */
  lemma OneGrantExactly(users: map<string, User>, roles: Graph, username: string, name: string, g: Grant,
                        request: Request, fuel: nat)
    requires username in users && users[username] == User(false, [name])
    requires name in roles && roles[name] == Role(false, [g], []) && fuel >= 1
    ensures Decide(users, roles, username, request, fuel) == Some(
              (g.permission == All || g.permission == request.permission) &&
              (g.resource == Everything || g.resource == request.resource ||
               (g.resource.Schema? && request.resource.Table? &&
                exists table :: request.resource.name == g.resource.name + "." + table)))
  {
    var grants := roles[name].grants;
    assert grants[0] == g && forall h :: h in grants ==> h == g;
    CoversExactly(g, request);
    hide GrantMatches;
    OneRole(roles, name, request, fuel);
  }

  lemma OneRole(roles: Graph, name: string, request: Request, fuel: nat)
    requires name in roles && roles[name].inherited == [] && fuel >= 1
    ensures SearchAny(roles, [name], request, fuel) == Some(RoleMatches(roles[name], request))
  {
    assert [name][1..] == [];
    hide RoleMatches;
    assert Search(roles, name, request, fuel) == Some(RoleMatches(roles[name], request));
  }
}
