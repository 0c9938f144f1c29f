/** The authorization manager: its two maps, the mutators, and the recursive permission check. */
module Auth {
  import opened Wrappers
  import opened Roles
  import opened RoleChanges

  /** SQLSTATE 42704, undefined_object. */
  datatype AuthError = UndefinedRole(name: string)

  class AuthManager {
    var users: map<string, User>
    var roles: Graph

    constructor ()
      ensures users == map["postgres" := User(true, ["postgres"])]
      ensures roles == map["postgres" := Role(true, [Grant(All, Everything, "system", true)], [])]
    {
      users := map["postgres" := User(true, ["postgres"])];
      roles := map["postgres" := Role(true, [Grant(All, Everything, "system", true)], [])];
    }

    method AddUser(name: string, user: User)
      modifies this`users
      ensures users == old(users)[name := user]
    {
      users := users[name := user];
    }

    method AddRole(name: string, role: Role)
      modifies this`roles
      ensures roles == old(roles)[name := role]
    {
      roles := roles[name := role];
    }

    method GrantPermission(name: string, permission: Permission, resource: Resource, grantedBy: string,
                           withGrantOption: bool)
      returns (r: Result<(), AuthError>)
      modifies this`roles
      ensures r.Ok? <==> name in old(roles)
      ensures roles ==
              if r.Ok? then WithGrant(old(roles), name, Grant(permission, resource, grantedBy, withGrantOption))
                else old(roles)
    {
      if name !in roles { return Err(UndefinedRole(name)); }
      var role := roles[name];
      roles := roles[name := role.(grants := role.grants + [Grant(permission, resource, grantedBy, withGrantOption)])];
      r := Ok(());
    }

    method RevokePermission(name: string, permission: Permission, resource: Resource) returns (r: Result<(), AuthError>)
      modifies this`roles
      ensures r.Ok? <==> name in old(roles)
      ensures roles == if r.Ok? then WithoutGrant(old(roles), name, permission, resource) else old(roles)
    {
      if name !in roles { return Err(UndefinedRole(name)); }
      var role := roles[name];
      roles := roles[name := role.(grants := Unrevoked(role.grants, permission, resource))];
      r := Ok(());
    }

    method AddRoleInheritance(child: string, parent: string) returns (r: Result<(), AuthError>)
      modifies this`roles
      ensures r.Ok? <==> child in old(roles)
      ensures roles == if r.Ok? then WithParent(old(roles), child, parent) else old(roles)
    {
      if child !in roles { return Err(UndefinedRole(child)); }
      var role := roles[child];
      if parent !in role.inherited {
        roles := roles[child := role.(inherited := role.inherited + [parent])];
      }
      r := Ok(());
    }

    method RemoveRoleInheritance(child: string, parent: string) returns (r: Result<(), AuthError>)
      modifies this`roles
      ensures r.Ok? <==> child in old(roles)
      ensures roles == if r.Ok? then WithoutParent(old(roles), child, parent) else old(roles)
    {
      if child !in roles { return Err(UndefinedRole(child)); }
      var role := roles[child];
      roles := roles[child := role.(inherited := Without(role.inherited, parent))];
      r := Ok(());
    }

    method RoleGrants(role: Role, request: Request) returns (matched: bool)
      ensures matched <==> RoleMatches(role, request)
      ensures matched <==> role.isSuperuser || exists g :: g in role.grants && Covers(g, request)
    {
      forall g ensures GrantMatches(g, request) <==> Covers(g, request) { CoversExactly(g, request); }
      hide Covers;
      if role.isSuperuser { return true; }
      for i := 0 to |role.grants|
        invariant forall g :: g in role.grants[..i] ==> !GrantMatches(g, request)
      {
        assert role.grants[..i + 1] == role.grants[..i] + [role.grants[i]];
        if PermissionMatches(role.grants[i].permission, request.permission) &&
          ResourceMatches(role.grants[i].resource, request.resource) {
          assert role.grants[i] in role.grants;
          return true;
        }
      }
      assert role.grants[..|role.grants|] == role.grants;
      matched := false;
    }

    /** Runs to an answer from exactly the roles where the recursion returns, `fuel` calls deep at most;
        on an acyclic graph it always does. */
    method CheckRolePermission(name: string, request: Request, ghost fuel: nat) returns (allowed: bool)
      requires Search(roles, name, request, fuel).Some?
      ensures Search(roles, name, request, fuel) == Some(allowed)
      ensures allowed <==> Reaches(roles, name, request)
      decreases fuel, 0
    {
      SearchSound(roles, name, request, fuel);
      hide Reaches;
      if name !in roles { return false; }
      var role := roles[name];
      allowed := RoleGrants(role, request);
      if allowed { return; }
      allowed := CheckInherited(role.inherited, request, fuel - 1);
    }

    /** The loop over the roles a role inherits. */
    method CheckInherited(names: seq<string>, request: Request, ghost fuel: nat) returns (allowed: bool)
      requires SearchAny(roles, names, request, fuel).Some?
      ensures SearchAny(roles, names, request, fuel) == Some(allowed)
      decreases fuel, 1
    {
      assert names[0..] == names;
      for i := 0 to |names|
        invariant SearchAny(roles, names[i..], request, fuel) == SearchAny(roles, names, request, fuel)
      {
        assert names[i..][1..] == names[i + 1..];
        allowed := CheckRolePermission(names[i], request, fuel);
        if allowed { return; }
      }
      allowed := false;
    }

    /** Inlines the first level of the recursion over the user's own roles. */
    method CheckPermission(username: string, request: Request, ghost fuel: nat) returns (allowed: bool)
      requires Decide(users, roles, username, request, fuel).Some?
      ensures Decide(users, roles, username, request, fuel) == Some(allowed)
      ensures allowed <==> Authorized(users, roles, username, request)
    {
      if username !in users { return false; }
      var user := users[username];
      if user.isSuperuser { return true; }
      SearchAnySound(roles, user.roles, request, fuel);
      hide Reaches;
      assert user.roles[0..] == user.roles;
      for i := 0 to |user.roles|
        invariant SearchAny(roles, user.roles[i..], request, fuel) == SearchAny(roles, user.roles, request, fuel)
      {
        var name := user.roles[i];
        assert user.roles[i..][1..] == user.roles[i + 1..];
        if name in roles {
          var role := roles[name];
          allowed := RoleGrants(role, request);
          if allowed { return; }
          allowed := CheckInherited(role.inherited, request, fuel - 1);
          if allowed { return; }
        }
      }
      allowed := false;
    }
  }
}
