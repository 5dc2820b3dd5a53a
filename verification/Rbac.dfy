/** Roles and permissions of users: two join tables, and the profile computed from them. */
module Rbac {
  import opened GoStrings
  import opened JoinTables
  import opened OrderedStrings

  /** Users by id; roles and permissions by id, with their names; who has which role, and which
      role grants which permission. */
  datatype Tables = Tables(
    users: set<string>, roles: map<string, string>, permissions: map<string, string>,
    userRoles: Pairs, rolePermissions: Pairs)

  /** The column `name` is unique. */
  predicate UniqueNames(names: map<string, string>) {
    forall a, b :: a in names && b in names && a != b ==> names[a] != names[b]
  }

  /** The constraints of the schema. */
  ghost predicate Consistent(t: Tables) {
    && UniqueNames(t.roles) && UniqueNames(t.permissions)
    && (forall ur :: ur in t.userRoles ==> ur.0 in t.users && ur.1 in t.roles)
    && (forall rp :: rp in t.rolePermissions ==> rp.0 in t.roles && rp.1 in t.permissions)
  }

  function NamesOf(names: map<string, string>, ids: set<string>): set<string> {
    set id | id in ids && id in names :: names[id]
  }

  lemma NameIsAValue(names: map<string, string>, ids: set<string>, name: string)
    requires name in NamesOf(names, ids)
    ensures name in names.Values
  {
    var id :| id in ids && id in names && names[id] == name;
  }

  /** The only id with this name. */
  function IdOf(names: map<string, string>, name: string): (id: string)
    requires UniqueNames(names) && name in names.Values
    ensures id in names && names[id] == name
  {
    var id :| id in names && names[id] == name;
    id
  }

  /** The names of the permissions that a role grants. */
  function PermissionsOfRole(t: Tables, role: string): set<string> {
    NamesOf(t.permissions, Column(t.rolePermissions, role))
  }

  /** The composition of the two relations: some role of the user grants a permission of this name. */
  ghost predicate Grants(t: Tables, user: string, name: string) {
    exists role, p :: (user, role) in t.userRoles && (role, p) in t.rolePermissions
      && p in t.permissions && t.permissions[p] == name
  }

  datatype RoleSummary = RoleSummary(id: string, name: string, permissions: seq<string>)

  datatype UserDetail = UserDetail(id: string, roles: seq<RoleSummary>, permissions: seq<string>)

  predicate NoDuplicates(xs: seq<string>) {
    forall i, j :: 0 <= i < j < |xs| ==> xs[i] != xs[j]
  }

  /** The role summaries of a user: each role once, in the order of the names, with its permissions. */
  ghost predicate Summarizes(t: Tables, user: string, summaries: seq<RoleSummary>) {
    && (forall role :: (user, role) in t.userRoles <==> exists i :: 0 <= i < |summaries| && summaries[i].id == role)
    && (forall i :: 0 <= i < |summaries| ==>
         && summaries[i].id in t.roles && summaries[i].name == t.roles[summaries[i].id]
         && summaries[i].permissions == Ordered(PermissionsOfRole(t, summaries[i].id)))
    && (forall i, j :: 0 <= i < j < |summaries| ==> Less(summaries[i].name, summaries[j].name))
  }

  class Repository {
    var tables: Tables

    constructor (t: Tables)
      requires Consistent(t)
      ensures tables == t
    {
      tables := t;
    }

    method GetPermissionsForRole(role: string) returns (names: seq<string>)
      ensures names == Ordered(PermissionsOfRole(tables, role))
    {
      names := Ordered(PermissionsOfRole(tables, role));
    }

    /** The join of roles and user_roles, ordered by name; then one query per role, whose result is
        written into the summary. */
    method GetRolesForUser(user: string) returns (summaries: seq<RoleSummary>)
      requires Consistent(tables)
      ensures Summarizes(tables, user, summaries)
    {
      var t := tables;
      var rows := Ordered(NamesOf(t.roles, Column(t.userRoles, user)));
      OrderedLists(NamesOf(t.roles, Column(t.userRoles, user)));
      forall j | 0 <= j < |rows| ensures rows[j] in t.roles.Values {
        NameIsAValue(t.roles, Column(t.userRoles, user), rows[j]);
      }
      summaries := [];
      for i := 0 to |rows|
        invariant |summaries| == i
        invariant forall j :: 0 <= j < i ==>
          summaries[j].id == IdOf(t.roles, rows[j]) && summaries[j].name == rows[j]
      {
        summaries := summaries + [RoleSummary(IdOf(t.roles, rows[i]), rows[i], [])];
      }
      for i := 0 to |summaries|
        invariant |summaries| == |rows|
        invariant forall j :: 0 <= j < |rows| ==>
          summaries[j].id == IdOf(t.roles, rows[j]) && summaries[j].name == rows[j]
        invariant forall j :: 0 <= j < i ==>
          summaries[j].permissions == Ordered(PermissionsOfRole(t, summaries[j].id))
      {
        var perms := GetPermissionsForRole(summaries[i].id);
        summaries := summaries[i := summaries[i].(permissions := perms)];
      }
      RowsAreTheRoles(t, user, rows, summaries);
    }

    /** The nested loops of `GetFullUserDetail`: the names go into a map, so that each comes once. */
    method CollectPermissions(roles: seq<RoleSummary>) returns (permMap: set<string>)
      ensures forall name :: name in permMap <==> exists j :: 0 <= j < |roles| && name in roles[j].permissions
    {
      permMap := {};
      for i := 0 to |roles|
        invariant forall name :: name in permMap <==>
          exists j :: 0 <= j < i && name in roles[j].permissions
      {
        ghost var before := permMap;
        var perms := roles[i].permissions;
        for k := 0 to |perms|
          invariant forall name :: name in permMap <==> name in before || name in perms[..k]
        {
          permMap := permMap + {perms[k]};
          assert perms[..k + 1] == perms[..k] + [perms[k]];
        }
        assert perms[..|perms|] == perms;
      }
    }

    /** The last loop of `GetFullUserDetail`: the map's keys, in any order. */
    method ListKeys(permMap: set<string>) returns (permissions: seq<string>)
      ensures NoDuplicates(permissions)
      ensures forall name :: name in permissions <==> name in permMap
    {
      permissions := [];
      var rest := permMap;
      while rest != {}
        invariant rest <= permMap && NoDuplicates(permissions)
        invariant forall name :: name in permMap <==> name in rest || name in permissions
        invariant forall name :: name in rest ==> name !in permissions
        decreases rest
      {
        var name :| name in rest;
        rest := rest - {name};
        permissions := permissions + [name];
      }
    }

    method GetFullUserDetail(user: string) returns (detail: Option<UserDetail>)
      requires Consistent(tables)
      ensures detail.None? <==> user !in tables.users
      ensures detail.Some? ==>
        && detail.value.id == user && Summarizes(tables, user, detail.value.roles)
        && NoDuplicates(detail.value.permissions)
        && forall name :: name in detail.value.permissions <==> Grants(tables, user, name)
    {
      if user !in tables.users { return None; }
      var roles := GetRolesForUser(user);
      var permMap := CollectPermissions(roles);
      var permissions := ListKeys(permMap);
      forall name ensures name in permissions <==> Grants(tables, user, name) {
        SummariesGrant(tables, user, roles, name);
      }
      return Some(UserDetail(user, roles, permissions));
    }

    method AssignRole(user: string, role: string) returns (ok: bool)
      requires Consistent(tables)
      modifies this
      ensures Consistent(tables) && ok == (user in old(tables).users && role in old(tables).roles)
      ensures tables == if ok then old(tables).(userRoles := old(tables).userRoles + {(user, role)}) else old(tables)
    {
      if user !in tables.users || role !in tables.roles { return false; }
      tables := tables.(userRoles := tables.userRoles + {(user, role)});
      return true;
    }

    method RemoveRole(user: string, role: string) returns (ok: bool)
      requires Consistent(tables)
      modifies this
      ensures Consistent(tables) && ok == ((user, role) in old(tables).userRoles)
      ensures tables == old(tables).(userRoles := old(tables).userRoles - {(user, role)})
    {
      ok := (user, role) in tables.userRoles;
      tables := WithoutRole(tables, user, role);
    }

    method AssignPermission(role: string, permission: string) returns (ok: bool)
      requires Consistent(tables)
      modifies this
      ensures Consistent(tables) && ok == (role in old(tables).roles && permission in old(tables).permissions)
      ensures tables == if ok then old(tables).(rolePermissions := old(tables).rolePermissions + {(role, permission)})
                        else old(tables)
    {
      if role !in tables.roles || permission !in tables.permissions { return false; }
      tables := tables.(rolePermissions := tables.rolePermissions + {(role, permission)});
      return true;
    }

    method RemovePermission(role: string, permission: string) returns (ok: bool)
      requires Consistent(tables)
      modifies this
      ensures Consistent(tables) && ok == ((role, permission) in old(tables).rolePermissions)
      ensures tables == old(tables).(rolePermissions := old(tables).rolePermissions - {(role, permission)})
    {
      ok := (role, permission) in tables.rolePermissions;
      tables := WithoutPermission(tables, role, permission);
    }
  }

  function WithoutRole(t: Tables, user: string, role: string): Tables {
    t.(userRoles := t.userRoles - {(user, role)})
  }

  function WithoutPermission(t: Tables, role: string, permission: string): Tables {
    t.(rolePermissions := t.rolePermissions - {(role, permission)})
  }

  lemma RowsAreTheRoles(t: Tables, user: string, rows: seq<string>, summaries: seq<RoleSummary>)
    requires Consistent(t) && StrictlySorted(rows) && |summaries| == |rows|
    requires forall name :: name in rows <==> name in NamesOf(t.roles, Column(t.userRoles, user))
    requires forall i :: 0 <= i < |rows| ==> rows[i] in t.roles.Values
    requires forall i :: 0 <= i < |rows| ==> summaries[i].id == IdOf(t.roles, rows[i])
    requires forall i :: 0 <= i < |rows| ==> summaries[i].name == rows[i]
    requires forall i :: 0 <= i < |rows| ==>
      summaries[i].permissions == Ordered(PermissionsOfRole(t, summaries[i].id))
    ensures Summarizes(t, user, summaries)
  {
    forall role ensures (user, role) in t.userRoles <==> exists i :: 0 <= i < |summaries| && summaries[i].id == role {
      if (user, role) in t.userRoles {
        assert role in Column(t.userRoles, user);
        assert t.roles[role] in rows;
        var i :| 0 <= i < |rows| && rows[i] == t.roles[role];
        assert summaries[i].id == role;
      }
      if i :| 0 <= i < |summaries| && summaries[i].id == role {
        assert rows[i] in NamesOf(t.roles, Column(t.userRoles, user));
      }
    }
  }

  lemma SummariesGrant(t: Tables, user: string, summaries: seq<RoleSummary>, name: string)
    requires Consistent(t) && Summarizes(t, user, summaries)
    ensures (exists i :: 0 <= i < |summaries| && name in summaries[i].permissions) <==> Grants(t, user, name)
  {
    if i :| 0 <= i < |summaries| && name in summaries[i].permissions {
      var role := summaries[i].id;
      OrderedLists(PermissionsOfRole(t, role));
      var p :| p in Column(t.rolePermissions, role) && p in t.permissions && t.permissions[p] == name;
      assert (user, role) in t.userRoles && (role, p) in t.rolePermissions;
    }
    if Grants(t, user, name) {
      var role, p :| (user, role) in t.userRoles && (role, p) in t.rolePermissions
        && p in t.permissions && t.permissions[p] == name;
      var i :| 0 <= i < |summaries| && summaries[i].id == role;
      assert p in Column(t.rolePermissions, role);
      OrderedLists(PermissionsOfRole(t, role));
    }
  }

  /** Another role of the user, besides `role`, grants the permission. */
  ghost predicate GrantedElsewhere(t: Tables, user: string, role: string, permission: string) {
    exists other :: other != role && (user, other) in t.userRoles && (other, permission) in t.rolePermissions
  }

  /** Taking a permission from a role takes it from a user exactly if the user has that role and
      no other role of the user grants it; every other permission stays. */
  lemma {:induction false} RemovePermissionDrops(t: Tables, user: string, role: string, permission: string,
                                                 name: string)
    requires Consistent(t) && permission in t.permissions
    ensures var t' := WithoutPermission(t, role, permission);
      Grants(t, user, name) && !Grants(t', user, name) <==>
        && name == t.permissions[permission]
        && (user, role) in t.userRoles && (role, permission) in t.rolePermissions
        && !GrantedElsewhere(t, user, role, permission)
    ensures Grants(WithoutPermission(t, role, permission), user, name) ==> Grants(t, user, name)
  {
    var t' := WithoutPermission(t, role, permission);
    if Grants(t, user, name) {
      var r, p :| (user, r) in t.userRoles && (r, p) in t.rolePermissions
        && p in t.permissions && t.permissions[p] == name;
      if (r, p) != (role, permission) { assert (r, p) in t'.rolePermissions; }
      if name == t.permissions[permission] && GrantedElsewhere(t, user, role, permission) {
        var other :| other != role && (user, other) in t.userRoles && (other, permission) in t.rolePermissions;
        assert (other, permission) in t'.rolePermissions;
      }
    }
    if Grants(t', user, name) {
      var r, p :| (user, r) in t'.userRoles && (r, p) in t'.rolePermissions
        && p in t'.permissions && t'.permissions[p] == name;
      assert (r, p) in t.rolePermissions;
    }
  }

  /** Taking a role from a user leaves every other user's permissions alone. */
  lemma {:induction false} RemoveRoleSparesOthers(t: Tables, user: string, role: string, other: string, name: string)
    requires other != user
    ensures Grants(WithoutRole(t, user, role), other, name) <==> Grants(t, other, name)
  {
    var t' := WithoutRole(t, user, role);
    assert forall r :: (other, r) in t'.userRoles <==> (other, r) in t.userRoles;
  }

  /** Taking a role from a user takes exactly the permissions that only this role granted. */
  lemma {:induction false} RemoveRoleDrops(t: Tables, user: string, role: string, permission: string)
    requires Consistent(t) && permission in t.permissions
    ensures var t', name := WithoutRole(t, user, role), t.permissions[permission];
      Grants(t, user, name) && !Grants(t', user, name) <==>
        && (user, role) in t.userRoles && (role, permission) in t.rolePermissions
        && !GrantedElsewhere(t, user, role, permission)
  {
    var t', name := WithoutRole(t, user, role), t.permissions[permission];
    if Grants(t, user, name) {
      var r, p :| (user, r) in t.userRoles && (r, p) in t.rolePermissions
        && p in t.permissions && t.permissions[p] == name;
      assert p == permission;
      if r != role { assert (user, r) in t'.userRoles; }
      if GrantedElsewhere(t, user, role, permission) {
        var other :| other != role && (user, other) in t.userRoles && (other, permission) in t.rolePermissions;
        assert (user, other) in t'.userRoles;
      }
    }
    if Grants(t', user, name) {
      var r, p :| (user, r) in t'.userRoles && (r, p) in t'.rolePermissions
        && p in t'.permissions && t'.permissions[p] == name;
      assert p == permission && (user, r) in t.userRoles && r != role;
    }
  }
}
