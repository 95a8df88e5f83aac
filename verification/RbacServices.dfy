/** RbacRepository, RbacService and JwtStrategy: the joins, assignments in place, and how a verified
    token becomes the principal the guard decides on. */
module RbacServices {
  import opened Text
  import opened TokenTable
  import opened Accounts
  import opened Auth
  import opened UserAccounts
  import opened Rbac

  class RbacRepository {
    var roles: map<Id, string>
    var permissions: map<Id, Permission>
    var rolePermissions: set<(Id, Id)>
    var userRoles: set<(Id, Id)>

    ghost function Contents(): Tables
      reads this
    {
      Tables(roles, permissions, rolePermissions, userRoles)
    }

    /** Role names are unique. */
    ghost predicate Valid()
      reads this
    {
      forall a, b :: a in roles && b in roles && roles[a] == roles[b] ==> a == b
    }

    constructor (roles: map<Id, string>, permissions: map<Id, Permission>, rolePermissions: set<(Id, Id)>)
      requires forall a, b :: a in roles && b in roles && roles[a] == roles[b] ==> a == b
      ensures Valid() && Contents() == Tables(roles, permissions, rolePermissions, {})
    {
      this.roles, this.permissions := roles, permissions;
      this.rolePermissions, this.userRoles := rolePermissions, {};
    }

    /** The join, its rows in whatever order the database chooses. */
    method FindRolesWithPermissionsByUser(userId: Id) returns (rows: seq<RoleRow>)
      ensures Joined(Contents(), userId, rows)
    {
      rows := [];
      var left := HeldRoles(Tables(roles, permissions, rolePermissions, userRoles), userId);
      while left != {}
        invariant left <= HeldRoles(Contents(), userId)
        invariant forall row :: row in rows ==> row.id in HeldRoles(Contents(), userId) && JoinedRow(Contents(), row)
        invariant forall r :: r in HeldRoles(Contents(), userId) ==>
                    r in left || exists row :: row in rows && row.id == r
        decreases |left|
      {
        var r :| r in left;
        var granted := JoinPermissions(r);
        var row := RoleRow(r, roles[r], granted);
        assert JoinedRow(Contents(), row);
        ghost var before := rows;
        rows := rows + [row];
        assert row in rows && forall r0 :: r0 in before ==> r0 in rows;
        left := left - {r};
      }
    }

    method JoinPermissions(role: Id) returns (granted: seq<Permission>)
      ensures forall perm :: perm in granted <==>
                exists p :: p in RoleGrants(Contents(), role) && permissions[p] == perm
    {
      granted := [];
      var all := RoleGrants(Tables(roles, permissions, rolePermissions, userRoles), role);
      var left := all;
      while left != {}
        invariant left <= all
        invariant forall perm :: perm in granted <==> exists p :: p in all - left && permissions[p] == perm
        decreases |left|
      {
        var p :| p in left;
        granted := granted + [permissions[p]];
        assert all - (left - {p}) == (all - left) + {p};
        left := left - {p};
      }
      assert all - left == all;
    }

    method FindRoleByName(name: string) returns (role: Option<Id>)
      requires Valid()
      ensures role.Some? ==> role.value in roles && roles[role.value] == name
      ensures role.None? ==> forall r :: r in roles ==> roles[r] != name
    {
      if r :| r in roles && roles[r] == name {
        role := Some(r);
      } else {
        role := None;
      }
    }

    /** Upsert: nothing changes when the pair is there. */
    method AssignRole(userId: Id, roleId: Id)
      modifies `userRoles
      ensures Contents() == Rbac.AssignRole(old(Contents()), userId, roleId)
    {
      userRoles := userRoles + {(userId, roleId)};
    }

    method RemoveRole(userId: Id, roleId: Id)
      modifies `userRoles
      ensures Contents() == Rbac.RemoveRole(old(Contents()), userId, roleId)
    {
      userRoles := userRoles - {(userId, roleId)};
    }
  }

  /** `resolve`: the user exists and the role name is a role's. */
  ghost predicate Resolves(t: Tables, users: Users, userId: Id, name: string, role: Id) {
    Accounts.FindById(users, userId).Some? && role in t.roles && t.roles[role] == name
  }

  class RbacService {
    const repository: RbacRepository
    const users: UsersService

    constructor (repository: RbacRepository, users: UsersService)
      ensures this.repository == repository && this.users == users
    {
      this.repository, this.users := repository, users;
    }

    method GetUserAuthorization(userId: Id) returns (a: Authorization)
      ensures Faithful(repository.Contents(), userId, a)
    {
      hide Faithful, Joined, Carried, Duplicated;
      var rows := repository.FindRolesWithPermissionsByUser(userId);
      a := Flatten(rows);
      FlattenFaithful(repository.Contents(), userId, rows, a);
    }

    /** False when the user or the role is not found. */
    method AssignRoleToUser(userId: Id, roleName: string) returns (ok: bool)
      requires repository.Valid()
      modifies repository`userRoles
      ensures repository.Valid()
      ensures ok <==> exists r :: Resolves(old(repository.Contents()), users.repository.rows, userId, roleName, r)
      ensures forall r :: Resolves(old(repository.Contents()), users.repository.rows, userId, roleName, r) ==>
                repository.Contents() == Rbac.AssignRole(old(repository.Contents()), userId, r)
      ensures !ok ==> repository.Contents() == old(repository.Contents())
    {
      var role := Resolve(userId, roleName);
      assert repository.Contents() == old(repository.Contents());
      ok := role.Some?;
      if ok {
        repository.AssignRole(userId, role.value);
      }
    }

    method RemoveRoleFromUser(userId: Id, roleName: string) returns (ok: bool)
      requires repository.Valid()
      modifies repository`userRoles
      ensures repository.Valid()
      ensures ok <==> exists r :: Resolves(old(repository.Contents()), users.repository.rows, userId, roleName, r)
      ensures forall r :: Resolves(old(repository.Contents()), users.repository.rows, userId, roleName, r) ==>
                repository.Contents() == Rbac.RemoveRole(old(repository.Contents()), userId, r)
      ensures !ok ==> repository.Contents() == old(repository.Contents())
    {
      var role := Resolve(userId, roleName);
      assert repository.Contents() == old(repository.Contents());
      ok := role.Some?;
      if ok {
        repository.RemoveRole(userId, role.value);
      }
    }

    method Resolve(userId: Id, roleName: string) returns (role: Option<Id>)
      requires repository.Valid()
      ensures role.Some? ==> Resolves(repository.Contents(), users.repository.rows, userId, roleName, role.value)
      ensures forall r :: Resolves(repository.Contents(), users.repository.rows, userId, roleName, r) ==>
                role == Some(r)
    {
      var user := users.FindEntityById(userId);
      if user.None? {
        return None;
      }
      role := repository.FindRoleByName(roleName);
    }
  }

  class JwtStrategy {
    const users: UsersService
    const rbac: RbacService

    constructor (users: UsersService, rbac: RbacService)
      ensures this.users == users && this.rbac == rbac
    {
      this.users, this.rbac := users, rbac;
    }

    /** Runs on a payload whose signature and expiry are verified; nothing means 401. */
    method Validate(payload: Jwt) returns (principal: Option<Principal>)
      ensures principal.None? <==> Authenticate(users.repository.rows, payload).None?
      ensures principal.Some? ==>
                && principal.value.id == payload.sub && principal.value.isActive
                && principal.value.email == users.repository.rows[payload.sub].email
                && Faithful(rbac.repository.Contents(), payload.sub, principal.value.auth)
    {
      hide Faithful;
      if payload.typ == TwoFactorType {
        return None;
      }
      var user := users.FindEntityById(payload.sub);
      if user.None? || !user.value.isActive {
        return None;
      }
      var auth := rbac.GetUserAuthorization(payload.sub);
      return Some(Principal(payload.sub, user.value.email, user.value.isActive, auth));
    }
  }

  /** A request to a protected route, after its token verified: the strategy loads the principal and
      the guard decides. `required` are the permissions behind the strings of the route. */
  method Admit(strategy: JwtStrategy, payload: Jwt, route: Route, ghost required: seq<Permission>)
    returns (allowed: bool)
    requires !route.isPublic && Demanded(route.permissions) == Rendered(required)
    requires forall p :: p in required ==> Unambiguous(strategy.rbac.repository.permissions, p)
    ensures var t := strategy.rbac.repository.Contents();
            allowed <==>
              && payload.typ != TwoFactorType
              && LiveUser(strategy.users.repository.rows, payload.sub)
              && RolesMet(t, payload.sub, Demanded(route.roles))
              && forall p :: p in required ==> Granted(t, payload.sub, p)
  {
    hide Faithful, Unambiguous, Granted, RolesMet, CanActivate, Demanded, Rendered;
    var principal := strategy.Validate(payload);
    if principal.None? {
      return false;
    }
    GuardExact(strategy.rbac.repository.Contents(), route, required, principal.value);
    return CanActivate(route, principal) == Allow;
  }
}
