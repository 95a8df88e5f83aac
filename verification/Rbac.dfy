/** Role-based access: the joined role tables of `rbac.repository.ts`, their flattening to strings in
    `rbac.service.ts`, and the decision `authorization.guard.ts` takes from the strings. The
    reference is a relation on the tables: which roles a user holds and what they grant. */
module Rbac {
  import opened Text
  import opened TokenTable

  datatype Permission = Permission(resource: string, action: string)

  /** Roles by id, with their names; permissions by id; and the two join tables, role-permission and
      user-role. */
  datatype Tables = Tables(
    roles: map<Id, string>,
    permissions: map<Id, Permission>,
    rolePermissions: set<(Id, Id)>,
    userRoles: set<(Id, Id)>)

  function HeldRoles(t: Tables, userId: Id): set<Id> {
    set r | r in t.roles && (userId, r) in t.userRoles
  }

  function RoleGrants(t: Tables, role: Id): set<Id> {
    set p | p in t.permissions && (role, p) in t.rolePermissions
  }

  /** The user holds a role of this name. */
  ghost predicate Holds(t: Tables, userId: Id, name: string) {
    exists r :: r in HeldRoles(t, userId) && t.roles[r] == name
  }

  /** Some role the user holds grants the permission. */
  ghost predicate Granted(t: Tables, userId: Id, perm: Permission) {
    exists r, p :: r in HeldRoles(t, userId) && p in RoleGrants(t, r) && t.permissions[p] == perm
  }

  function Render(p: Permission): string {
    p.resource + ":" + p.action
  }

  // ----- flattening ----------------------------------------------------------

  /** A role with its permissions joined in. */
  datatype RoleRow = RoleRow(id: Id, name: string, permissions: seq<Permission>)

  datatype Authorization = Authorization(roles: seq<string>, permissions: seq<string>)

  ghost predicate JoinedRow(t: Tables, row: RoleRow) {
    && row.id in t.roles && row.name == t.roles[row.id]
    && (forall perm :: perm in row.permissions <==> exists p :: p in RoleGrants(t, row.id) && t.permissions[p] == perm)
  }

  /** The rows are the roles the user holds, in any order, each with what it grants. */
  ghost predicate Joined(t: Tables, userId: Id, rows: seq<RoleRow>) {
    && (forall row :: row in rows ==> row.id in HeldRoles(t, userId) && JoinedRow(t, row))
    && (forall r :: r in HeldRoles(t, userId) ==> exists row :: row in rows && row.id == r)
  }

  /** Adding to a JavaScript set, which keeps insertion order. */
  function Added(s: seq<string>, x: string): seq<string> {
    if x in s then s else s + [x]
  }

  predicate Duplicated(s: seq<string>) {
    exists i, j :: 0 <= i < j < |s| && s[i] == s[j]
  }

  ghost predicate GrantedAs(t: Tables, userId: Id, s: string) {
    exists perm :: Granted(t, userId, perm) && Render(perm) == s
  }

  /** The strings a principal carries say exactly which roles its user holds and which permissions
      they grant, none of them twice. */
  ghost predicate Faithful(t: Tables, userId: Id, a: Authorization) {
    && (forall name :: name in a.roles <==> Holds(t, userId, name))
    && (forall s :: s in a.permissions <==> GrantedAs(t, userId, s))
    && !Duplicated(a.permissions)
  }

  predicate RowCarries(permissions: seq<Permission>, s: string) {
    exists perm :: perm in permissions && Render(perm) == s
  }

  /** `s` is the rendering of a permission of one of the rows. */
  predicate Carried(rows: seq<RoleRow>, s: string) {
    exists row :: row in rows && RowCarries(row.permissions, s)
  }

  lemma {:induction false} AddedEffect(s: seq<string>, x: string)
    requires !Duplicated(s)
    ensures !Duplicated(Added(s, x))
    ensures forall y :: y in Added(s, x) <==> y in s || y == x
  {
  }

  lemma {:induction false} RowCarriesNext(permissions: seq<Permission>, j: nat, s: string)
    requires j < |permissions|
    ensures RowCarries(permissions[..j + 1], s) <==> RowCarries(permissions[..j], s) || s == Render(permissions[j])
  {
    assert permissions[..j + 1] == permissions[..j] + [permissions[j]];
    assert permissions[j] in permissions[..j + 1];
    assert forall p :: p in permissions[..j] ==> p in permissions[..j + 1];
  }

  lemma {:induction false} CarriedNext(rows: seq<RoleRow>, i: nat, s: string)
    requires i < |rows|
    ensures Carried(rows[..i + 1], s) <==> Carried(rows[..i], s) || RowCarries(rows[i].permissions, s)
  {
    hide RowCarries;
    assert rows[..i + 1] == rows[..i] + [rows[i]];
    assert rows[i] in rows[..i + 1];
    assert forall row :: row in rows[..i] ==> row in rows[..i + 1];
  }

  lemma {:induction false} NoneDuplicated()
    ensures !Duplicated([])
  {
  }

  lemma {:induction false} NoneCarried(rows: seq<RoleRow>, s: string)
    ensures !Carried(rows[..0], s)
  {
  }

  lemma {:induction false} NoneRendered(permissions: seq<Permission>, s: string)
    ensures !RowCarries(permissions[..0], s)
  {
  }

  /** The nested loops over roles and their permissions, filling a set of strings. */
  method Flatten(rows: seq<RoleRow>) returns (a: Authorization)
    ensures |a.roles| == |rows| && forall i :: 0 <= i < |rows| ==> a.roles[i] == rows[i].name
    ensures forall s :: s in a.permissions <==> Carried(rows, s)
    ensures !Duplicated(a.permissions)
  {
    hide Duplicated, Carried, RowCarries, Render, Added;
    var permissions := [];
    assert !Duplicated(permissions) by { NoneDuplicated(); }
    forall s ensures !Carried(rows[..0], s) { NoneCarried(rows, s); }
    for i := 0 to |rows|
      invariant forall s :: s in permissions <==> Carried(rows[..i], s)
      invariant !Duplicated(permissions)
    {
      var granted := rows[i].permissions;
      forall s ensures !RowCarries(granted[..0], s) { NoneRendered(granted, s); }
      for j := 0 to |granted|
        invariant forall s :: s in permissions <==> Carried(rows[..i], s) || RowCarries(granted[..j], s)
        invariant !Duplicated(permissions)
      {
        AddedEffect(permissions, Render(granted[j]));
        permissions := Added(permissions, Render(granted[j]));
        forall s
          ensures RowCarries(granted[..j + 1], s) <==> RowCarries(granted[..j], s) || s == Render(granted[j])
        {
          RowCarriesNext(granted, j, s);
        }
      }
      assert granted[..|granted|] == granted;
      forall s
        ensures Carried(rows[..i + 1], s) <==> Carried(rows[..i], s) || RowCarries(granted, s)
      {
        CarriedNext(rows, i, s);
      }
    }
    assert rows[..|rows|] == rows;
    a := Authorization(seq(|rows|, i requires 0 <= i < |rows| => rows[i].name), permissions);
  }

  lemma {:induction false} NamesFaithful(t: Tables, userId: Id, rows: seq<RoleRow>, names: seq<string>, name: string)
    requires Joined(t, userId, rows)
    requires |names| == |rows| && forall i :: 0 <= i < |rows| ==> names[i] == rows[i].name
    ensures name in names <==> Holds(t, userId, name)
  {
    hide HeldRoles, RoleGrants;
    if name in names {
      var i :| 0 <= i < |names| && names[i] == name;
      assert rows[i] in rows;
    }
    if Holds(t, userId, name) {
      var r :| r in HeldRoles(t, userId) && r in t.roles && t.roles[r] == name;
      var row :| row in rows && row.id == r;
      var i :| 0 <= i < |rows| && rows[i] == row;
      assert names[i] == name;
    }
  }

  lemma {:induction false} CarriedFaithful(t: Tables, userId: Id, rows: seq<RoleRow>, s: string)
    requires Joined(t, userId, rows)
    ensures Carried(rows, s) <==> GrantedAs(t, userId, s)
  {
    hide HeldRoles, Render;
    if Carried(rows, s) {
      var row :| row in rows && RowCarries(row.permissions, s);
      var perm :| perm in row.permissions && Render(perm) == s;
      assert JoinedRow(t, row);
      assert Granted(t, userId, perm);
    }
    if GrantedAs(t, userId, s) {
      var perm :| Granted(t, userId, perm) && Render(perm) == s;
      var r, p :| r in HeldRoles(t, userId) && p in RoleGrants(t, r) && t.permissions[p] == perm;
      var row :| row in rows && row.id == r;
      assert JoinedRow(t, row) && perm in row.permissions;
    }
  }

  /** Whatever order the database returns the rows in, the flattened strings are faithful. */
  lemma {:induction false} FlattenFaithful(t: Tables, userId: Id, rows: seq<RoleRow>, a: Authorization)
    requires Joined(t, userId, rows)
    requires |a.roles| == |rows| && forall i :: 0 <= i < |rows| ==> a.roles[i] == rows[i].name
    requires forall s :: s in a.permissions <==> Carried(rows, s)
    requires !Duplicated(a.permissions)
    ensures Faithful(t, userId, a)
  {
    hide Duplicated, Render, HeldRoles, RoleGrants;
    forall name
      ensures name in a.roles <==> Holds(t, userId, name)
    {
      NamesFaithful(t, userId, rows, a.roles, name);
    }
    forall s
      ensures Carried(rows, s) <==> GrantedAs(t, userId, s)
    {
      CarriedFaithful(t, userId, rows, s);
    }
  }

  // ----- the decision --------------------------------------------------------

  /** `request.user` */
  datatype Principal = Principal(id: Id, email: string, isActive: bool, auth: Authorization)

  /** The metadata of a route; a decorator may be absent. */
  datatype Route = Route(isPublic: bool, roles: Option<seq<string>>, permissions: Option<seq<string>>)

  datatype Decision = Allow | NotAuthenticated | MissingRole | MissingPermission

  function Demanded(required: Option<seq<string>>): seq<string> {
    if required.Some? then required.value else []
  }

  function CanActivate(route: Route, user: Option<Principal>): Decision {
    if route.isPublic then Allow
    else
      var needsRoles := route.roles.Some? && |route.roles.value| > 0;
      var needsPermissions := route.permissions.Some? && |route.permissions.value| > 0;
      if !needsRoles && !needsPermissions then Allow
      else if user.None? then NotAuthenticated
      else if needsRoles && !exists role :: role in route.roles.value && role in user.value.auth.roles then MissingRole
      else if needsPermissions
              && !forall perm :: perm in route.permissions.value ==> perm in user.value.auth.permissions then
        MissingPermission
      else Allow
  }

  /** Some listed role is held, or none is listed. */
  ghost predicate RolesMet(t: Tables, userId: Id, required: seq<string>) {
    required == [] || exists role :: role in required && Holds(t, userId, role)
  }

  lemma {:induction false} NoRolesMet(t: Tables, userId: Id)
    ensures RolesMet(t, userId, [])
  {
  }

  /** Each required string is the rendering of a permission that some held role grants. */
  ghost predicate PermissionsMet(t: Tables, userId: Id, required: seq<string>) {
    forall s :: s in required ==> GrantedAs(t, userId, s)
  }

  /** What the guard should decide, from the tables: public routes and routes without demands admit
      everybody, demands need a principal, roles are looked at before permissions. */
  ghost function Decided(t: Tables, route: Route, user: Option<Id>): Decision {
    if route.isPublic || (Demanded(route.roles) == [] && Demanded(route.permissions) == []) then Allow
    else if user.None? then NotAuthenticated
    else if !RolesMet(t, user.value, Demanded(route.roles)) then MissingRole
    else if !PermissionsMet(t, user.value, Demanded(route.permissions)) then MissingPermission
    else Allow
  }

  /** The guard on faithful strings is the relation on the tables, for every route, public or not, and
      for every principal or none, with the same error. */
  lemma {:induction false} GuardRefines(t: Tables, route: Route, user: Option<Principal>)
    requires user.Some? ==> Faithful(t, user.value.id, user.value.auth)
    ensures CanActivate(route, user) == Decided(t, route, if user.Some? then Some(user.value.id) else None)
  {
    hide Holds, GrantedAs, Duplicated;
    var roles, permissions := Demanded(route.roles), Demanded(route.permissions);
    assert roles != [] ==> roles[0] in roles;
    assert permissions == [] ==> forall s :: s !in permissions;
  }

  predicate ColonFree(p: Permission) {
    ':' !in p.resource
  }

  /** Renderings tell permissions apart as long as their resources hold no colon. */
  lemma {:induction false} RenderInjective(p: Permission, q: Permission)
    requires ColonFree(p) && ColonFree(q) && Render(p) == Render(q)
    ensures p == q
  {
    SplitPrefix(p.resource, ':', p.action);
    SplitPrefix(q.resource, ':', q.action);
    var s, n := Render(p), |p.resource|;
    assert Split(s, ':')[0] == p.resource == q.resource;
    assert s[n + 1..] == p.action == q.action;
  }

  /** No other permission of the catalogue renders as `p` does. */
  predicate Unambiguous(catalogue: map<Id, Permission>, p: Permission) {
    forall id :: id in catalogue && Render(catalogue[id]) == Render(p) ==> catalogue[id] == p
  }

  lemma {:induction false} ColonFreeUnambiguous(catalogue: map<Id, Permission>, p: Permission)
    requires ColonFree(p) && forall id :: id in catalogue ==> ColonFree(catalogue[id])
    ensures Unambiguous(catalogue, p)
  {
    forall id | id in catalogue && Render(catalogue[id]) == Render(p)
      ensures catalogue[id] == p
    {
      RenderInjective(catalogue[id], p);
    }
  }

  lemma {:induction false} GrantedExactly(t: Tables, userId: Id, p: Permission)
    requires Unambiguous(t.permissions, p)
    ensures GrantedAs(t, userId, Render(p)) <==> Granted(t, userId, p)
  {
    if GrantedAs(t, userId, Render(p)) {
      var q :| Granted(t, userId, q) && Render(q) == Render(p);
      var r, id :| r in HeldRoles(t, userId) && id in RoleGrants(t, r) && t.permissions[id] == q;
    }
  }

  /** The string test for a permission is right for every assignment of roles and grants if and only if
      the catalogue is unambiguous about it. */
  lemma {:induction false} ExactWhenUnambiguous(catalogue: map<Id, Permission>, p: Permission)
    ensures Unambiguous(catalogue, p) <==>
              forall t: Tables, u: Id | t.permissions == catalogue ::
                GrantedAs(t, u, Render(p)) <==> Granted(t, u, p)
  {
    hide Render;
    if Unambiguous(catalogue, p) {
      forall t: Tables, u: Id | t.permissions == catalogue
        ensures GrantedAs(t, u, Render(p)) <==> Granted(t, u, p)
      {
        GrantedExactly(t, u, p);
      }
    } else {
      var id :| id in catalogue && Render(catalogue[id]) == Render(p) && catalogue[id] != p;
      var t := Tables(map["r" := "role"], catalogue, {("r", id)}, {("u", "r")});
      assert "r" in HeldRoles(t, "u") && id in RoleGrants(t, "r");
      assert Granted(t, "u", catalogue[id]);
      assert GrantedAs(t, "u", Render(p)) && !Granted(t, "u", p);
    }
  }

  /** A colon in a resource makes the guard wrong: a user whose only role grants action "c" on "a:b"
      passes for a route that requires action "b:c" on "a". */
  lemma {:induction false} ColonConfusion(email: string)
    ensures var granted, required := Permission("a:b", "c"), Permission("a", "b:c");
            var t := Tables(map["r" := "role"], map["p" := granted], {("r", "p")}, {("u", "r")});
            var user := Principal("u", email, true, Authorization(["role"], ["a:b:c"]));
            && Faithful(t, "u", user.auth)
            && CanActivate(Route(false, None, Some([Render(required)])), Some(user)) == Allow
            && !Granted(t, "u", required)
  {
    var granted, required := Permission("a:b", "c"), Permission("a", "b:c");
    var t := Tables(map["r" := "role"], map["p" := granted], {("r", "p")}, {("u", "r")});
    assert Render(granted) == "a:b:c" && Render(required) == "a:b:c";
    assert HeldRoles(t, "u") == {"r"} && RoleGrants(t, "r") == {"p"};
    assert Holds(t, "u", "role");
    assert Granted(t, "u", granted);
    assert GrantedAs(t, "u", "a:b:c");
  }

  function Rendered(ps: seq<Permission>): seq<string> {
    seq(|ps|, i requires 0 <= i < |ps| => Render(ps[i]))
  }

  /** On a catalogue unambiguous about what a route requires, as every catalogue of colon-free resources
      is: access is given exactly to users who hold some listed role and to whom held roles grant every
      required permission. */
  lemma {:induction false} GuardExact(t: Tables, route: Route, required: seq<Permission>, user: Principal)
    requires Faithful(t, user.id, user.auth) && !route.isPublic
    requires Demanded(route.permissions) == Rendered(required)
    requires forall p :: p in required ==> Unambiguous(t.permissions, p)
    ensures CanActivate(route, Some(user)) == Allow <==>
              && RolesMet(t, user.id, Demanded(route.roles))
              && forall p :: p in required ==> Granted(t, user.id, p)
  {
    hide RolesMet, Faithful, Unambiguous, GrantedAs, Granted;
    GuardRefines(t, route, Some(user));
    assert Demanded(route.roles) == [] ==> RolesMet(t, user.id, []) by { NoRolesMet(t, user.id); }
    forall p | p in required
      ensures Render(p) in Rendered(required) && (GrantedAs(t, user.id, Render(p)) <==> Granted(t, user.id, p))
    {
      var i :| 0 <= i < |required| && required[i] == p;
      assert Rendered(required)[i] == Render(p);
      GrantedExactly(t, user.id, p);
    }
    hide CanActivate, Render;
    assert forall s :: s in Rendered(required) ==> exists p :: p in required && Render(p) == s by {
      forall s | s in Rendered(required)
        ensures exists p :: p in required && Render(p) == s
      {
        var i :| 0 <= i < |required| && Rendered(required)[i] == s;
        assert required[i] in required;
      }
    }
  }

  // ----- assigning and removing roles ----------------------------------------

  function AssignRole(t: Tables, userId: Id, roleId: Id): Tables {
    t.(userRoles := t.userRoles + {(userId, roleId)})
  }

  function RemoveRole(t: Tables, userId: Id, roleId: Id): Tables {
    t.(userRoles := t.userRoles - {(userId, roleId)})
  }

  /** Assigning and then removing a role the user did not hold restores the tables, hence every
      decision; if the user held it, the removal is what remains. */
  lemma {:induction false} AssignThenRemove(t: Tables, userId: Id, roleId: Id)
    ensures RemoveRole(AssignRole(t, userId, roleId), userId, roleId) == RemoveRole(t, userId, roleId)
    ensures RemoveRole(AssignRole(t, userId, roleId), userId, roleId) == t <==> (userId, roleId) !in t.userRoles
  {
    assert (t.userRoles + {(userId, roleId)}) - {(userId, roleId)} == t.userRoles - {(userId, roleId)};
  }

  /** Faithful strings of the same tables decide alike, whatever order they came in. */
  lemma {:induction false} SameDecision(t: Tables, route: Route, user: Principal, user': Principal)
    requires user.id == user'.id && Faithful(t, user.id, user.auth) && Faithful(t, user.id, user'.auth)
    ensures CanActivate(route, Some(user)) == CanActivate(route, Some(user'))
  {
    if !route.isPublic {
      hide Holds, GrantedAs, Duplicated;
    }
  }

  /** Assigning a role takes nothing away from anyone and gives only its own name and grants, and only
      to that user. */
  lemma {:induction false} AssignEffect(t: Tables, userId: Id, roleId: Id, u: Id, perm: Permission, name: string)
    requires roleId in t.roles
    ensures var t' := AssignRole(t, userId, roleId);
            && (Granted(t', u, perm) <==>
                  Granted(t, u, perm)
                  || (u == userId && exists p :: p in RoleGrants(t, roleId) && t.permissions[p] == perm))
            && (Holds(t', u, name) <==> Holds(t, u, name) || (u == userId && t.roles[roleId] == name))
  {
    var t' := AssignRole(t, userId, roleId);
    assert HeldRoles(t', u) == HeldRoles(t, u) + (if u == userId then {roleId} else {});
    assert forall r :: RoleGrants(t', r) == RoleGrants(t, r);
  }
}
