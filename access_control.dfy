/**
 * The Access Control service: roles carrying lists of permissions, direct
 * grants of one permission on one resource, role assignments on a resource,
 * the two permission queries and the handlers that change roles, grants and
 * assignments.
 *
 * Stored rows that the handlers only add or remove (permissions, grants,
 * assignments) are values in the context's tables; a role, whose name and
 * permission list the handlers change in place, is an object.
 */
module AccessControl {
  import opened Common
  import opened Linq
  import opened Validation

  /** A stored permission. Tracked entities are compared by identity, which the id stands for. */
  datatype Permission = Permission(id: Guid, name: string)

  /** A grant of one permission to one user on one resource. */
  datatype Grant = Grant(userId: Guid, resourceId: Guid, permission: Permission)

  /** A role assigned to one user on one resource (the role by its key). */
  datatype Assignment = Assignment(userId: Guid, resourceId: Guid, roleId: Guid)

  /** The predicate `p => p.Name == n`. */
  function Named(n: string): Permission -> bool {
    (p: Permission) => p.name == n
  }

  /** The predicate `p => names.Contains(p.Name)`; a null entry of `names` matches no stored name. */
  function Requested(names: seq<Option<string>>): Permission -> bool {
    (p: Permission) => Some(p.name) in names
  }

  /** `Permissions.Where(p => names.Contains(p.Name))`: the stored permissions the request names, in store order. */
  function Matching(ps: seq<Permission>, names: seq<Option<string>>): (r: seq<Permission>)
    ensures |r| <= |ps|
    ensures forall p :: p in r <==> p in ps && Some(p.name) in names
  {
    Where(ps, Requested(names))
  }

  class Role {
    const id: Guid
    var name: string
    var permissions: seq<Permission>
    var users: seq<Guid>

    /** Both constructors: the name-only one draws `id` from `Guid.NewGuid`. `Users` starts empty. */
    constructor(id: Guid, name: string, permissions: seq<Permission>)
      ensures this.id == id && this.name == name && this.permissions == permissions
      ensures users == []
    {
      this.id := id;
      this.name := name;
      this.permissions := permissions;
      users := [];
    }

    /** `HasPermission`: some permission of the role has the name. */
    function HasPermission(n: string): (r: bool)
      reads this
      ensures r <==> exists p :: p in permissions && p.name == n
    {
      Any(permissions, Named(n))
    }

    /** `AddPermission`: appends, after which the role has a permission of that name. */
    method AddPermission(p: Permission)
      modifies this
      ensures permissions == old(permissions) + [p]
      ensures name == old(name) && users == old(users)
      ensures HasPermission(p.name)
    {
      permissions := permissions + [p];
      assert permissions[|permissions| - 1] == p;
    }

    /**
     * `RemovePermission`: `RemoveAt(FindIndex(p => p.Name == n))`. Without a
     * permission of that name `FindIndex` gives -1 and `RemoveAt` throws
     * (`threw`); otherwise only the first permission of that name goes.
     */
    method RemovePermission(n: string) returns (threw: bool)
      modifies this
      ensures threw <==> !old(HasPermission(n))
      ensures threw ==> permissions == old(permissions)
      ensures !threw ==>
        exists i :: (0 <= i < |old(permissions)| && old(permissions)[i].name == n &&
                     (forall k :: 0 <= k < i ==> old(permissions)[k].name != n) &&
                     permissions == old(permissions)[..i] + old(permissions)[i + 1..])
      ensures name == old(name) && users == old(users)
    {
      var i := FirstWhere(permissions, Named(n));
      if i == -1 {
        return true;
      }
      permissions := permissions[..i] + permissions[i + 1..];
      threw := false;
    }

    /** The `foreach` of `RemovePermissionsFromRole`: `Permissions.Remove` with each of `ps` in turn. */
    method RemovePermissions(ps: seq<Permission>)
      modifies this
      ensures permissions == RemoveEach(old(permissions), ps)
      ensures name == old(name) && users == old(users)
    {
      var rest := ps;
      while rest != []
        invariant RemoveEach(permissions, rest) == RemoveEach(old(permissions), ps)
        invariant name == old(name) && users == old(users)
        decreases |rest|
      {
        permissions := RemoveValue(permissions, rest[0]);
        rest := rest[1..];
      }
    }
  }

  /** The roles whose users include `userId`, in store order. */
  function RolesWithUser(roles: seq<Role>, userId: Guid): (r: seq<Role>)
    reads roles
    ensures |r| <= |roles|
    ensures forall x :: x in r ==> x in roles && userId in x.users
    ensures forall x :: x in roles && userId in x.users ==> x in r
    decreases |roles|
  {
    if roles == [] then []
    else
      var n := |roles| - 1;
      assert forall x :: x in roles[..n] ==> x in roles;
      RolesWithUser(roles[..n], userId) + (if userId in roles[n].users then [roles[n]] else [])
  }

  /**
   * `CheckUserPermissionQueryHandler.Handle`: the user holds the permission
   * when a role of theirs has it. Grants, assignments and the document id
   * play no part, and no error is ever returned.
   */
  function CheckUserPermission(roles: seq<Role>, userId: Guid, permission: string): (r: bool)
    reads roles
    ensures r <==> exists x :: x in roles && userId in x.users && x.HasPermission(permission)
  {
    exists x :: x in RolesWithUser(roles, userId) && x.HasPermission(permission)
  }

  /** What `GetUserPermissions` collects: grants, assignments and roles in one list of objects. */
  datatype Entitlement = GrantEntry(grant: Grant) | AssignmentEntry(assignment: Assignment) | RoleEntry(role: Role)

  function GrantOfUser(user: Guid): Grant -> bool {
    (g: Grant) => g.userId == user
  }

  function AssignmentOfUser(user: Guid): Assignment -> bool {
    (a: Assignment) => a.userId == user
  }

  function AsGrantEntry(x: Grant): Entitlement {
    GrantEntry(x)
  }

  function AsAssignmentEntry(x: Assignment): Entitlement {
    AssignmentEntry(x)
  }

  function AsRoleEntry(x: Role): Entitlement {
    RoleEntry(x)
  }

  /** Three lists as entries of one: the grants, then the assignments, then the roles. */
  function EntitlementList(gs: seq<Grant>, as_: seq<Assignment>, rs: seq<Role>): (r: seq<Entitlement>)
    ensures |r| == |gs| + |as_| + |rs|
    ensures forall i :: 0 <= i < |gs| ==> r[i] == GrantEntry(gs[i])
    ensures forall i :: |gs| <= i < |gs| + |as_| ==> r[i] == AssignmentEntry(as_[i - |gs|])
    ensures forall i :: |gs| + |as_| <= i < |r| ==> r[i] == RoleEntry(rs[i - |gs| - |as_|])
  {
    Select(gs, AsGrantEntry) + Select(as_, AsAssignmentEntry) + Select(rs, AsRoleEntry)
  }

  /** Each kind of entry sits in its own block of the list and comes from its own list. */
  lemma EntitlementListMembers(gs: seq<Grant>, as_: seq<Assignment>, rs: seq<Role>)
    ensures var r := EntitlementList(gs, as_, rs);
      (forall i :: 0 <= i < |r| ==> (r[i].GrantEntry? <==> i < |gs|) && (r[i].RoleEntry? <==> |gs| + |as_| <= i)) &&
      (forall x :: GrantEntry(x) in r <==> x in gs) &&
      (forall x :: AssignmentEntry(x) in r <==> x in as_) &&
      (forall x :: RoleEntry(x) in r <==> x in rs)
  {
    GrantEntries(gs, as_, rs);
    AssignmentEntries(gs, as_, rs);
    RoleEntries(gs, as_, rs);
  }

  lemma GrantEntries(gs: seq<Grant>, as_: seq<Assignment>, rs: seq<Role>)
    ensures forall x :: GrantEntry(x) in EntitlementList(gs, as_, rs) <==> x in gs
  {
    var r := EntitlementList(gs, as_, rs);
    forall x | GrantEntry(x) in r ensures x in gs {
      var i :| 0 <= i < |r| && r[i] == GrantEntry(x);
      assert r[i] == GrantEntry(gs[i]);
    }
    forall x | x in gs ensures GrantEntry(x) in r {
      var i :| 0 <= i < |gs| && gs[i] == x;
      assert r[i] == GrantEntry(x);
    }
  }

  lemma AssignmentEntries(gs: seq<Grant>, as_: seq<Assignment>, rs: seq<Role>)
    ensures forall x :: AssignmentEntry(x) in EntitlementList(gs, as_, rs) <==> x in as_
  {
    var r := EntitlementList(gs, as_, rs);
    var g := |gs|;
    forall x | AssignmentEntry(x) in r ensures x in as_ {
      var i :| 0 <= i < |r| && r[i] == AssignmentEntry(x);
      assert as_[i - g] == x;
    }
    forall x | x in as_ ensures AssignmentEntry(x) in r {
      var i :| 0 <= i < |as_| && as_[i] == x;
      assert r[g + i] == AssignmentEntry(as_[g + i - g]);
    }
  }

  lemma RoleEntries(gs: seq<Grant>, as_: seq<Assignment>, rs: seq<Role>)
    ensures forall x :: RoleEntry(x) in EntitlementList(gs, as_, rs) <==> x in rs
  {
    var r := EntitlementList(gs, as_, rs);
    var ga := |gs| + |as_|;
    forall x | RoleEntry(x) in r ensures x in rs {
      var i :| 0 <= i < |r| && r[i] == RoleEntry(x);
      assert ga <= i;
      assert r[i] == RoleEntry(rs[i - ga]);
    }
    forall x | x in rs ensures RoleEntry(x) in r {
      var i :| 0 <= i < |rs| && rs[i] == x;
      assert ga <= ga + i < |r|;
      assert r[ga + i] == RoleEntry(rs[ga + i - ga]);
    }
  }

  /**
   * The user's grants, then the user's assignments, then the roles that
   * include the user, each in store order.
   */
  function UserEntitlements(grants: seq<Grant>, assignments: seq<Assignment>, roles: seq<Role>, user: Guid): (r: seq<Entitlement>)
    reads roles
    ensures var gs := Where(grants, GrantOfUser(user));
      var as_ := Where(assignments, AssignmentOfUser(user));
      var rs := RolesWithUser(roles, user);
      |r| == |gs| + |as_| + |rs| &&
      (forall i :: 0 <= i < |gs| ==> r[i] == GrantEntry(gs[i])) &&
      (forall i :: |gs| <= i < |gs| + |as_| ==> r[i] == AssignmentEntry(as_[i - |gs|])) &&
      (forall i :: |gs| + |as_| <= i < |r| ==> r[i] == RoleEntry(rs[i - |gs| - |as_|]))
  {
    EntitlementList(Where(grants, GrantOfUser(user)), Where(assignments, AssignmentOfUser(user)), RolesWithUser(roles, user))
  }

  /**
   * The list holds exactly the user's grants, the user's assignments and the
   * roles that include the user, grants first and roles last; its length is
   * the sum of the three counts.
   */
  lemma UserEntitlementsMembers(grants: seq<Grant>, assignments: seq<Assignment>, roles: seq<Role>, user: Guid)
    ensures var r := UserEntitlements(grants, assignments, roles, user);
      var g := |Where(grants, GrantOfUser(user))|;
      var a := |Where(assignments, AssignmentOfUser(user))|;
      |r| == g + a + |RolesWithUser(roles, user)| &&
      (forall i :: 0 <= i < |r| ==> (r[i].GrantEntry? <==> i < g) && (r[i].RoleEntry? <==> g + a <= i)) &&
      (forall x :: GrantEntry(x) in r <==> x in grants && x.userId == user) &&
      (forall x :: AssignmentEntry(x) in r <==> x in assignments && x.userId == user) &&
      (forall x :: RoleEntry(x) in r <==> x in roles && user in x.users)
  {
    var gs := Where(grants, GrantOfUser(user));
    var as_ := Where(assignments, AssignmentOfUser(user));
    EntitlementListMembers(gs, as_, RolesWithUser(roles, user));
    assert forall x :: x in gs <==> x in grants && x.userId == user;
    assert forall x :: x in as_ <==> x in assignments && x.userId == user;
  }

  /**
   * The filter both list queries apply: rows of `userId`, and of
   * `resourceId` when one is given.
   */
  function UserResourceFilter<T(==,!new)>(s: seq<T>, userOf: T -> Guid, resourceOf: T -> Guid,
                                           userId: Guid, resourceId: Option<Guid>): (r: seq<T>)
    ensures |r| <= |s|
    ensures forall x :: x in r <==> x in s && userOf(x) == userId && (resourceId.None? || resourceOf(x) == resourceId.value)
  {
    var q := Where(s, (x: T) => userOf(x) == userId);
    if resourceId.Some? then Where(q, (x: T) => resourceOf(x) == resourceId.value) else q
  }

  /** The two filters keep the stored order: the result is one order-preserving filter of the rows. */
  lemma UserResourceFilterInOrder<T(!new)>(s: seq<T>, userOf: T -> Guid, resourceOf: T -> Guid,
                                           userId: Guid, resourceId: Option<Guid>)
    ensures UserResourceFilter(s, userOf, resourceOf, userId, resourceId) ==
      Where(s, (x: T) => userOf(x) == userId && (resourceId.None? || resourceOf(x) == resourceId.value))
  {
    var p := (x: T) => userOf(x) == userId;
    var both := (x: T) => userOf(x) == userId && (resourceId.None? || resourceOf(x) == resourceId.value);
    if resourceId.Some? {
      WhereWhere(s, p, (x: T) => resourceOf(x) == resourceId.value, both);
    } else {
      WhereSame(s, p, both);
    }
  }

  /** `GetGrantsHandler.Handle`: the user's grants, on the resource when one is given. */
  function GetGrants(grants: seq<Grant>, userId: Guid, resourceId: Option<Guid>): (r: seq<Grant>)
    ensures forall g :: g in r <==> g in grants && g.userId == userId && (resourceId.None? || g.resourceId == resourceId.value)
  {
    UserResourceFilter(grants, (g: Grant) => g.userId, (g: Grant) => g.resourceId, userId, resourceId)
  }

  /** `GetAssignmentsQueryHandler.Handle`: the user's assignments, on the resource when one is given. */
  function GetAssignments(assignments: seq<Assignment>, userId: Guid, resourceId: Option<Guid>): (r: seq<Assignment>)
    ensures forall a :: a in r <==> a in assignments && a.userId == userId && (resourceId.None? || a.resourceId == resourceId.value)
  {
    UserResourceFilter(assignments, (a: Assignment) => a.userId, (a: Assignment) => a.resourceId, userId, resourceId)
  }

  // Validators. With FluentValidation's default cascade every rule of a chain runs and reports.

  /** FluentValidation's default `NotEmpty` message, for the property's display name. */
  function NotEmptyMessage(displayName: string): string {
    "'" + displayName + "' must not be empty."
  }

  /** `GetGrantsValidator`. */
  function GetGrantsFailures(userId: Guid): (r: seq<ValidationFailure>)
    ensures r == [] <==> userId != EmptyGuid
    ensures r != [] ==> r == [ValidationFailure("UserId", NotEmptyMessage("User Id"))]
  {
    Rule(userId != EmptyGuid, "UserId", NotEmptyMessage("User Id"))
  }

  /** `DeleteGrantValidator`: the three fields are required, each reported on its own. */
  function DeleteGrantFailures(userId: Guid, resourceId: Guid, permission: Option<string>): (r: seq<ValidationFailure>)
    ensures r == [] <==> userId != EmptyGuid && resourceId != EmptyGuid && NotEmpty(permission)
    ensures |r| == (if userId == EmptyGuid then 1 else 0) + (if resourceId == EmptyGuid then 1 else 0) +
      (if NotEmpty(permission) then 0 else 1)
  {
    Rule(userId != EmptyGuid, "UserId", NotEmptyMessage("User Id")) +
    Rule(resourceId != EmptyGuid, "ResourceId", NotEmptyMessage("Resource Id")) +
    Rule(NotEmpty(permission), "Permission", NotEmptyMessage("Permission"))
  }

  const UserIdRequired: string := "UserId is required."

  /** `GetAssignmentsQueryValidator`. */
  function GetAssignmentsFailures(userId: Guid): (r: seq<ValidationFailure>)
    ensures r == [] <==> userId != EmptyGuid
    ensures r != [] ==> r == [ValidationFailure("UserId", UserIdRequired)]
  {
    Rule(userId != EmptyGuid, "UserId", UserIdRequired)
  }

  const AssignmentUserIdRequired: string := "User ID is required."
  const AssignmentResourceIdRequired: string := "Resource ID is required."
  const AssignmentRoleIdRequired: string := "Role ID is required."

  /** `RemoveAssignmentCommandValidator`: the three ids are required. */
  function RemoveAssignmentFailures(userId: Guid, resourceId: Guid, roleId: Guid): (r: seq<ValidationFailure>)
    ensures r == [] <==> userId != EmptyGuid && resourceId != EmptyGuid && roleId != EmptyGuid
    ensures ValidationFailure("RoleId", AssignmentRoleIdRequired) in r <==> roleId == EmptyGuid
  {
    Rule(userId != EmptyGuid, "UserId", AssignmentUserIdRequired) +
    Rule(resourceId != EmptyGuid, "ResourceId", AssignmentResourceIdRequired) +
    Rule(roleId != EmptyGuid, "RoleId", AssignmentRoleIdRequired)
  }

  /** Some stored role other than `except` already has the name; no stored role has a null name. */
  predicate RoleNameTaken(roles: seq<Role>, name: Option<string>, except: Option<Guid>)
    reads roles
  {
    exists x :: x in roles && Some(x.name) == name && (except.None? || x.id != except.value)
  }

  const RoleNameRequired: string := "A role name is required."
  const RoleNameTooLong: string := "Role name can't be longer than 100 characters."
  const RoleNameNotUnique: string := "Role name must be unique."
  const PermissionsRequired: string := "At least one permission must be assigned."
  const RoleNameMaximumLength: nat := 100

  /** `CreateRoleQueryValidator`: a non-blank, short, unused name and a non-empty permission list. */
  function CreateRoleFailures(roles: seq<Role>, name: Option<string>, names: seq<Option<string>>): (r: seq<ValidationFailure>)
    reads roles
    ensures r == [] <==> (NotEmpty(name) && HasLength(name, 0, RoleNameMaximumLength) &&
                          !RoleNameTaken(roles, name, None) && names != [])
    ensures ValidationFailure("Name", RoleNameNotUnique) in r <==> RoleNameTaken(roles, name, None)
    ensures ValidationFailure("PermissionNames", PermissionsRequired) in r <==> names == []
  {
    Rule(NotEmpty(name), "Name", RoleNameRequired) +
    Rule(HasLength(name, 0, RoleNameMaximumLength), "Name", RoleNameTooLong) +
    Rule(!RoleNameTaken(roles, name, None), "Name", RoleNameNotUnique) +
    Rule(names != [], "PermissionNames", PermissionsRequired)
  }

  const UpdatedRoleNameRequired: string := "Role name is required."
  const UpdatedRoleNameTooLong: string := "Role name must be less than 100 characters."
  const InvalidPermissionIds: string := "Some permission IDs are invalid."

  /**
   * `UpdateRoleCommandValidator`. The name may be kept by the role itself;
   * the permission rule asks only that ONE requested name exists.
   */
  function UpdateRoleFailures(roles: seq<Role>, ps: seq<Permission>, id: Guid, name: Option<string>,
                              names: seq<Option<string>>): (r: seq<ValidationFailure>)
    reads roles
    ensures r == [] <==> (NotEmpty(name) && HasLength(name, 0, RoleNameMaximumLength) &&
                          !RoleNameTaken(roles, name, Some(id)) && names != [] && Matching(ps, names) != [])
    ensures ValidationFailure("PermissionNames", InvalidPermissionIds) in r <==>
      forall p :: p in ps ==> Some(p.name) !in names
  {
    AnyIffWhereNonEmpty(ps, Requested(names));
    Rule(NotEmpty(name), "Name", UpdatedRoleNameRequired) +
    Rule(HasLength(name, 0, RoleNameMaximumLength), "Name", UpdatedRoleNameTooLong) +
    Rule(!RoleNameTaken(roles, name, Some(id)), "Name", RoleNameNotUnique) +
    Rule(names != [], "PermissionNames", PermissionsRequired) +
    Rule(Any(ps, Requested(names)), "PermissionNames", InvalidPermissionIds)
  }

  const PermissionListEmpty: string := "Permissions list cannot be empty."
  const InvalidPermissionNames: string := "All permission IDs must be valid."

  /**
   * The validator of `AssignPermissionsToRole` and of
   * `RemovePermissionsFromRole` as written: a non-empty list whose every
   * name is null or empty.
   */
  function PermissionListFailuresAsWritten(names: seq<Option<string>>): (r: seq<ValidationFailure>)
    ensures r == [] <==> names != [] && forall i :: 0 <= i < |names| ==> IsNullOrEmpty(names[i])
  {
    Rule(names != [], "PermissionNames", PermissionListEmpty) +
    Rule(forall i :: 0 <= i < |names| ==> IsNullOrEmpty(names[i]), "PermissionNames", InvalidPermissionNames)
  }

  /** The same validator as its messages describe it: a non-empty list of non-empty names. */
  function PermissionListFailures(names: seq<Option<string>>): (r: seq<ValidationFailure>)
    ensures r == [] <==> names != [] && forall i :: 0 <= i < |names| ==> !IsNullOrEmpty(names[i])
  {
    Rule(names != [], "PermissionNames", PermissionListEmpty) +
    Rule(forall i :: 0 <= i < |names| ==> !IsNullOrEmpty(names[i]), "PermissionNames", InvalidPermissionNames)
  }

  /** As written, any request that names a real permission fails with "All permission IDs must be valid.". */
  lemma NamedPermissionRefusedAsWritten(names: seq<Option<string>>, i: nat)
    requires i < |names| && !IsNullOrEmpty(names[i])
    ensures ValidationFailure("PermissionNames", InvalidPermissionNames) in PermissionListFailuresAsWritten(names)
    ensures names != [] && (forall k :: 0 <= k < |names| ==> !IsNullOrEmpty(names[k])) ==>
      PermissionListFailures(names) == []
  {
    assert !(forall k :: 0 <= k < |names| ==> IsNullOrEmpty(names[k]));
  }

  /**
   * The requests the as-written validator lets through name no stored
   * permission (stored names are never empty), so assigning them is always
   * refused and removing them never removes anything.
   */
  lemma AcceptedAsWrittenMatchesNothing(ps: seq<Permission>, names: seq<Option<string>>)
    requires PermissionListFailuresAsWritten(names) == []
    requires forall p :: p in ps ==> p.name != []
    ensures Matching(ps, names) == []
    ensures CountChecked(ps, names).None?
  {
    forall x | x in ps ensures !Requested(names)(x) {
      assert forall i :: 0 <= i < |names| ==> names[i] != Some(x.name);
    }
    WhereNone(ps, Requested(names));
  }

  // The permission-count check of `CreateRole` and `AssignPermissionsToRole`.

  /** The matched permissions when there are as many as requested names, `None` otherwise. */
  function CountChecked(ps: seq<Permission>, names: seq<Option<string>>): (r: Option<seq<Permission>>)
    ensures r.Some? <==> |Matching(ps, names)| == |names|
    ensures r.Some? ==> r.value == Matching(ps, names)
  {
    var m := Matching(ps, names);
    if |m| == |names| then Some(m) else None
  }

  predicate Distinct<T(==)>(s: seq<T>) {
    forall i, j :: 0 <= i < j < |s| ==> s[i] != s[j]
  }

  /** The store's names are unique. */
  predicate UniqueNames(ps: seq<Permission>) {
    forall i, j :: 0 <= i < j < |ps| ==> ps[i].name != ps[j].name
  }

  function Elements<T>(s: seq<T>): set<T> {
    set x | x in s
  }

  function NameSet(ps: seq<Permission>): set<Option<string>> {
    set p | p in ps :: Some(p.name)
  }

  /** A sequence has at most as many distinct elements as its length, exactly as many when no two are equal. */
  lemma {:induction false} ElementsCard<T>(s: seq<T>)
    ensures |Elements(s)| <= |s|
    ensures |Elements(s)| == |s| <==> Distinct(s)
    decreases |s|
  {
    if s != [] {
      var n := |s| - 1;
      var init := s[..n];
      ElementsCard(init);
      assert s == init + [s[n]];
      assert Elements(s) == Elements(init) + {s[n]};
      if s[n] in Elements(init) {
        var k :| 0 <= k < n && init[k] == s[n];
        assert s[k] == s[n];
      } else {
        assert Distinct(init) ==> Distinct(s) by {
          if Distinct(init) {
            forall i, j | 0 <= i < j < |s| ensures s[i] != s[j] {
              if j < n {
                assert s[i] == init[i] && s[j] == init[j];
              } else {
                assert s[i] == init[i] && init[i] in Elements(init);
              }
            }
          }
        }
        assert Distinct(s) ==> Distinct(init) by {
          if Distinct(s) {
            forall i, j | 0 <= i < j < |init| ensures init[i] != init[j] {
              assert init[i] == s[i] && init[j] == s[j];
            }
          }
        }
      }
    }
  }

  /** With unique stored names, the count of matched permissions is the number of requested names the store knows. */
  lemma {:induction false} MatchingCount(ps: seq<Permission>, names: seq<Option<string>>)
    requires UniqueNames(ps)
    ensures |Matching(ps, names)| == |NameSet(ps) * Elements(names)|
    decreases |ps|
  {
    if ps != [] {
      var n := |ps| - 1;
      var init := ps[..n];
      var last := Some(ps[n].name);
      UniqueNamesSnoc(ps);
      MatchingCount(init, names);
      assert Matching(ps, names) == Matching(init, names) + (if last in names then [ps[n]] else []);
      assert last in names <==> last in Elements(names);
      IntersectionSnoc(NameSet(init), last, Elements(names));
    }
  }

  lemma IntersectionSnoc<T>(a: set<T>, x: T, e: set<T>)
    requires x !in a
    ensures |(a + {x}) * e| == |a * e| + (if x in e then 1 else 0)
  {
    if x in e {
      assert (a + {x}) * e == a * e + {x};
    } else {
      assert (a + {x}) * e == a * e;
    }
  }

  /** The last permission's name is new, and the names of the rest are still unique. */
  lemma UniqueNamesSnoc(ps: seq<Permission>)
    requires UniqueNames(ps) && ps != []
    ensures var n := |ps| - 1;
      UniqueNames(ps[..n]) && NameSet(ps) == NameSet(ps[..n]) + {Some(ps[n].name)} &&
      Some(ps[n].name) !in NameSet(ps[..n])
  {
    var n := |ps| - 1;
    var init := ps[..n];
    assert ps == init + [ps[n]];
    assert forall i :: 0 <= i < n ==> init[i] == ps[i];
  }

  lemma SubsetCard<T>(a: set<T>, b: set<T>)
    requires a <= b
    ensures |a| <= |b|
    ensures |a| == |b| ==> a == b
  {
    assert b == a + (b - a);
    assert a * (b - a) == {};
  }

  /**
   * The count check passes exactly when the requested names are pairwise
   * different and each is a stored permission's name: a repeated or an
   * unknown name (or a null) is refused.
   */
  lemma CountCheckPasses(ps: seq<Permission>, names: seq<Option<string>>)
    requires UniqueNames(ps)
    ensures CountChecked(ps, names).Some? <==>
      Distinct(names) && forall i :: 0 <= i < |names| ==> names[i].Some? && exists p :: p in ps && p.name == names[i].value
  {
    MatchingCount(ps, names);
    ElementsCard(names);
    var known := NameSet(ps) * Elements(names);
    SubsetCard(known, Elements(names));
    if |Matching(ps, names)| == |names| {
      assert known == Elements(names);
      forall i | 0 <= i < |names|
        ensures names[i].Some? && exists p :: p in ps && p.name == names[i].value
      {
        assert names[i] in Elements(names);
        assert names[i] in NameSet(ps);
      }
    }
    if Distinct(names) && forall i :: 0 <= i < |names| ==> names[i].Some? && exists p :: p in ps && p.name == names[i].value {
      assert Elements(names) <= NameSet(ps) by {
        forall x | x in Elements(names) ensures x in NameSet(ps) {
          var i :| 0 <= i < |names| && names[i] == x;
          var p :| p in ps && p.name == names[i].value;
        }
      }
      assert known == Elements(names);
    }
  }

  /** The same stored name asked for twice is refused, even though the store holds it. */
  lemma RepeatedNameRefused(p: Permission)
    ensures CountChecked([p], [Some(p.name), Some(p.name)]).None?
  {
    assert |Matching([p], [Some(p.name), Some(p.name)])| <= 1;
  }

  /** With the corrected validator, distinct names of stored permissions pass it and the count check. */
  lemma KnownNamesPass(ps: seq<Permission>, names: seq<Option<string>>)
    requires UniqueNames(ps) && Distinct(names) && names != []
    requires forall i :: 0 <= i < |names| ==> names[i].Some? && exists p :: p in ps && p.name == names[i].value
    requires forall p :: p in ps ==> p.name != []
    ensures PermissionListFailures(names) == []
    ensures CountChecked(ps, names) == Some(Matching(ps, names))
  {
    CountCheckPasses(ps, names);
    forall i | 0 <= i < |names| ensures !IsNullOrEmpty(names[i]) {
      var p :| p in ps && p.name == names[i].value;
    }
  }

  /** What a tracked-row removal comes to: the handler's answer and the table afterwards. */
  datatype TableChange<R, T> = TableChange(response: R, rows: seq<T>)

  const GrantNotFoundCode: string := "Grant.NotFound"
  const GrantNotFoundMessage: string := "The specified permission grant does not exist."

  /** The grant `DeleteGrant` looks for: user, resource and the permission's name. */
  function GrantMatches(userId: Guid, resourceId: Guid, permission: Option<string>): Grant -> bool {
    (g: Grant) => g.userId == userId && g.resourceId == resourceId && Some(g.permission.name) == permission
  }

  /**
   * `DeleteGrantHandler.Handle`: `SingleOrDefault` throws when several grants
   * match; none is `NotFound`; the one match is removed and nothing else.
   */
  function DeleteGrant(grants: seq<Grant>, userId: Guid, resourceId: Guid, permission: Option<string>): (r: TableChange<Outcome<()>, Grant>)
    ensures var m := GrantMatches(userId, resourceId, permission);
      (r.response.Threw? <==> exists i, j :: 0 <= i < j < |grants| && m(grants[i]) && m(grants[j])) &&
      (r.response == Returned(Err(Error(NotFound, GrantNotFoundCode, Some(GrantNotFoundMessage)))) <==>
        forall i :: 0 <= i < |grants| ==> !m(grants[i])) &&
      (r.response == Returned(Ok(())) ==>
        exists i :: (0 <= i < |grants| && m(grants[i]) &&
                     (forall j :: 0 <= j < |grants| && m(grants[j]) ==> j == i) &&
                     r.rows == grants[..i] + grants[i + 1..]))
    ensures r.response != Returned(Ok(())) ==> r.rows == grants
    ensures r.response.Threw? || r.response.result.Err? || r.response.result.Ok?
  {
    match SingleWhere(grants, GrantMatches(userId, resourceId, permission))
    case Ambiguous => TableChange(Threw, grants)
    case NoMatch => TableChange(Returned(Err(Error(NotFound, GrantNotFoundCode, Some(GrantNotFoundMessage)))), grants)
    case Match(i) => TableChange(Returned(Ok(())), grants[..i] + grants[i + 1..])
  }

  /** A deleted grant is gone: the same request a second time finds nothing. */
  lemma DeleteGrantTwice(grants: seq<Grant>, userId: Guid, resourceId: Guid, permission: Option<string>)
    requires DeleteGrant(grants, userId, resourceId, permission).response == Returned(Ok(()))
    ensures var after := DeleteGrant(grants, userId, resourceId, permission).rows;
      DeleteGrant(after, userId, resourceId, permission).response ==
        Returned(Err(Error(NotFound, GrantNotFoundCode, Some(GrantNotFoundMessage))))
    ensures |DeleteGrant(grants, userId, resourceId, permission).rows| == |grants| - 1
  {
    var m := GrantMatches(userId, resourceId, permission);
    var i :| 0 <= i < |grants| && m(grants[i]) && (forall j :: 0 <= j < |grants| && m(grants[j]) ==> j == i) &&
      DeleteGrant(grants, userId, resourceId, permission).rows == grants[..i] + grants[i + 1..];
    var after := grants[..i] + grants[i + 1..];
    forall k | 0 <= k < |after| ensures !m(after[k]) {
      if k < i {
        assert after[k] == grants[k];
      } else {
        assert after[k] == grants[k + 1];
      }
    }
  }

  const AssignmentNotFound: string := "Role assignment not found."

  /**
   * `RemoveRoleAssignmentCommandHandler.Handle`: the first assignment with
   * the three ids is removed; without one the answer is `NotFound`.
   */
  function RemoveAssignment(assignments: seq<Assignment>, userId: Guid, resourceId: Guid, roleId: Guid): (r: TableChange<Result<()>, Assignment>)
    ensures var a := Assignment(userId, resourceId, roleId);
      (r.response.Ok? <==> a in assignments) &&
      (r.response.Err? ==> r.response.error == NotFoundError(AssignmentNotFound) && r.rows == assignments) &&
      (r.response.Ok? ==>
        exists i :: (0 <= i < |assignments| && assignments[i] == a && a !in assignments[..i] &&
                     r.rows == assignments[..i] + assignments[i + 1..]))
  {
    var a := Assignment(userId, resourceId, roleId);
    var i := FirstWhere(assignments, (x: Assignment) => x.userId == userId && x.resourceId == resourceId && x.roleId == roleId);
    if i == -1 then TableChange(Err(NotFoundError(AssignmentNotFound)), assignments)
    else
      TableChange(Ok(()), assignments[..i] + assignments[i + 1..])
  }

  /** The removal is `List.Remove` of the assignment: one copy goes, any duplicate stays. */
  lemma RemoveAssignmentRemovesOneCopy(assignments: seq<Assignment>, userId: Guid, resourceId: Guid, roleId: Guid)
    ensures var a := Assignment(userId, resourceId, roleId);
      var rows := RemoveAssignment(assignments, userId, resourceId, roleId).rows;
      multiset(rows) == multiset(assignments) - multiset{a} &&
      multiset(rows)[a] == (if multiset(assignments)[a] == 0 then 0 else multiset(assignments)[a] - 1)
  {
    var a := Assignment(userId, resourceId, roleId);
    var r := RemoveAssignment(assignments, userId, resourceId, roleId);
    if r.response.Ok? {
      var i :| 0 <= i < |assignments| && assignments[i] == a && a !in assignments[..i] &&
        r.rows == assignments[..i] + assignments[i + 1..];
      RemoveAtMultiset(assignments, i);
    } else {
      assert multiset(assignments)[a] == 0;
    }
  }

  /** Dropping the element at `i` takes one copy of it out of the multiset. */
  lemma RemoveAtMultiset<T>(s: seq<T>, i: nat)
    requires i < |s|
    ensures multiset(s[..i] + s[i + 1..]) == multiset(s) - multiset{s[i]}
  {
    assert s == s[..i] + [s[i]] + s[i + 1..];
    assert multiset(s) == multiset(s[..i]) + multiset{s[i]} + multiset(s[i + 1..]);
  }

  /** A controller's answer: `BadRequest` before sending, or what the sent command answered. */
  datatype Reply<T> = BadRequest(message: string) | Sent(response: T)

  const MismatchedRoleIdOnUpdate: string := "Mismatched role ID"
  const MismatchedRoleId: string := "Mismatched role ID."
  const RoleNotFoundCode: string := "Role.NotFound"
  const RoleNotFoundMessage: string := "Role not found."
  const RoleNotFound: string := "Role not found"
  const PermissionsNotFound: string := "One or more permissions not found"

  /** `FirstOrDefault(r => r.Id == id)`: the position of the first role with the id, or -1. */
  function RoleIndex(roles: seq<Role>, id: Guid): (r: int)
    ensures -1 <= r < |roles|
    ensures r == -1 <==> forall i :: 0 <= i < |roles| ==> roles[i].id != id
    ensures r >= 0 ==> roles[r].id == id && forall i :: 0 <= i < r ==> roles[i].id != id
  {
    FirstWhere(roles, (x: Role) => x.id == id)
  }

  /** The Access Control database context: the tables the handlers query and change. */
  class AccessControlContext {
    var roles: seq<Role>
    var permissions: seq<Permission>
    var grants: seq<Grant>
    var assignments: seq<Assignment>

    /**
     * `GetUserPermissionQueryHandler.Handle`. A null current user throws, so
     * does a user id `Guid.Parse` refuses (`parse` gives `None`); otherwise
     * the list is filled by three `AddRange` calls.
     */
    method GetUserPermissions(currentUser: Option<string>, parse: string -> Option<Guid>) returns (r: Outcome<seq<Entitlement>>)
      ensures r.Threw? <==> currentUser.None? || parse(currentUser.value).None?
      ensures r.Returned? ==> r.result == Ok(UserEntitlements(grants, assignments, roles, parse(currentUser.value).value))
    {
      var entitlements: seq<Entitlement> := [];
      if currentUser.None? {
        return Threw;
      }
      var user := parse(currentUser.value);
      if user.None? {
        return Threw;
      }
      var gs := Where(grants, GrantOfUser(user.value));
      var as_ := Where(assignments, AssignmentOfUser(user.value));
      var rs := RolesWithUser(roles, user.value);
      entitlements := entitlements + Select(gs, AsGrantEntry);
      entitlements := entitlements + Select(as_, AsAssignmentEntry);
      entitlements := entitlements + Select(rs, AsRoleEntry);
      assert entitlements == EntitlementList(gs, as_, rs);
      r := Returned(Ok(entitlements));
    }

    /** `DeleteGrantHandler.Handle` on the grants table; the save is taken to succeed. */
    method DeleteGrantHandler(userId: Guid, resourceId: Guid, permission: Option<string>) returns (r: Outcome<()>)
      modifies this
      ensures TableChange(r, grants) == DeleteGrant(old(grants), userId, resourceId, permission)
      ensures roles == old(roles) && permissions == old(permissions) && assignments == old(assignments)
    {
      var m := SingleWhere(grants, GrantMatches(userId, resourceId, permission));
      if m.Ambiguous? {
        return Threw;
      }
      if m.NoMatch? {
        return Returned(Err(Error(NotFound, GrantNotFoundCode, Some(GrantNotFoundMessage))));
      }
      grants := grants[..m.index] + grants[m.index + 1..];
      r := Returned(Ok(()));
    }

    /** `RemoveRoleAssignmentCommandHandler.Handle` on the assignments table; the save is taken to succeed. */
    method RemoveAssignmentHandler(userId: Guid, resourceId: Guid, roleId: Guid) returns (r: Result<()>)
      modifies this
      ensures TableChange(r, assignments) == RemoveAssignment(old(assignments), userId, resourceId, roleId)
      ensures roles == old(roles) && permissions == old(permissions) && grants == old(grants)
    {
      var i := FirstWhere(assignments, (x: Assignment) => x.userId == userId && x.resourceId == resourceId && x.roleId == roleId);
      if i == -1 {
        return Err(NotFoundError(AssignmentNotFound));
      }
      assignments := assignments[..i] + assignments[i + 1..];
      r := Ok(());
    }

    /**
     * `CreateRoleQueryHandler.Handle`. The new role's id is `newId`; a save
     * that throws with `saveError` is answered `Unexpected` with its message
     * and stores nothing.
     */
    method CreateRoleHandler(name: string, names: seq<Option<string>>, newId: Guid, saveError: Option<string>) returns (r: Result<string>)
      modifies this
      ensures permissions == old(permissions) && grants == old(grants) && assignments == old(assignments)
      ensures CountChecked(permissions, names).None? ==>
        r == Err(Error(Validation, InvalidPermissionIds, None)) && roles == old(roles)
      ensures CountChecked(permissions, names).Some? && saveError.Some? ==>
        r == Err(UnexpectedError(saveError.value)) && roles == old(roles)
      ensures CountChecked(permissions, names).Some? && saveError.None? ==>
        r == Ok(name) && |roles| == |old(roles)| + 1 && roles[..|old(roles)|] == old(roles) &&
        fresh(roles[|old(roles)|]) && roles[|old(roles)|].id == newId && roles[|old(roles)|].name == name &&
        roles[|old(roles)|].permissions == Matching(permissions, names) && roles[|old(roles)|].users == []
    {
      var matched := Matching(permissions, names);
      if |matched| != |names| {
        return Err(Error(Validation, InvalidPermissionIds, None));
      }
      if saveError.Some? {
        return Err(UnexpectedError(saveError.value));
      }
      var role := new Role(newId, name, matched);
      roles := roles + [role];
      r := Ok(name);
    }

    /**
     * `UpdateRoleController.UpdateRole` and `UpdateRoleCommandHandler.Handle`:
     * a route id other than the command's is refused before sending;
     * otherwise the role is renamed and the matched permissions are APPENDED
     * to its list (none removed, duplicates possible).
     */
    method UpdateRole(routeId: Guid, id: Guid, name: string, names: seq<Option<string>>) returns (r: Reply<Result<()>>)
      modifies roles
      ensures routeId != id ==> r == BadRequest(MismatchedRoleIdOnUpdate)
      ensures routeId == id && RoleIndex(roles, id) == -1 ==>
        r == Sent(Err(Error(NotFound, RoleNotFoundCode, Some(RoleNotFoundMessage))))
      ensures routeId == id && RoleIndex(roles, id) >= 0 ==>
        (r == Sent(Ok(())) &&
         var role := roles[RoleIndex(roles, id)];
         role.name == name && role.permissions == old(role.permissions) + Matching(permissions, names) &&
         role.users == old(role.users))
      ensures forall x :: x in roles && (r != Sent(Ok(())) || x != roles[RoleIndex(roles, id)]) ==> unchanged(x)
    {
      if routeId != id {
        return BadRequest(MismatchedRoleIdOnUpdate);
      }
      var k := RoleIndex(roles, id);
      if k == -1 {
        return Sent(Err(Error(NotFound, RoleNotFoundCode, Some(RoleNotFoundMessage))));
      }
      var role := roles[k];
      var matched := Matching(permissions, names);
      role.name := name;
      role.permissions := role.permissions + matched;
      r := Sent(Ok(()));
    }

    /**
     * `AssignPermissionsToRoleController` and its handler: the route check,
     * then `NotFound` for a missing role or a failed count check (the role
     * unchanged), otherwise the matched permissions are appended.
     */
    method AssignPermissionsToRole(routeId: Guid, id: Guid, names: seq<Option<string>>) returns (r: Reply<Result<()>>)
      modifies roles
      ensures routeId != id ==> r == BadRequest(MismatchedRoleId)
      ensures routeId == id && RoleIndex(roles, id) == -1 ==> r == Sent(Err(NotFoundError(RoleNotFound)))
      ensures routeId == id && RoleIndex(roles, id) >= 0 && CountChecked(permissions, names).None? ==>
        r == Sent(Err(NotFoundError(PermissionsNotFound)))
      ensures routeId == id && RoleIndex(roles, id) >= 0 && CountChecked(permissions, names).Some? ==>
        (r == Sent(Ok(())) &&
         var role := roles[RoleIndex(roles, id)];
         role.permissions == old(role.permissions) + Matching(permissions, names) &&
         role.name == old(role.name) && role.users == old(role.users))
      ensures forall x :: x in roles && (r != Sent(Ok(())) || x != roles[RoleIndex(roles, id)]) ==> unchanged(x)
    {
      if routeId != id {
        return BadRequest(MismatchedRoleId);
      }
      var k := RoleIndex(roles, id);
      if k == -1 {
        return Sent(Err(NotFoundError(RoleNotFound)));
      }
      var role := roles[k];
      var matched := Matching(permissions, names);
      if |matched| != |names| {
        return Sent(Err(NotFoundError(PermissionsNotFound)));
      }
      role.permissions := role.permissions + matched;
      r := Sent(Ok(()));
    }

    /**
     * `RemovePermissionsFromRoleController` and its handler: the route check,
     * `NotFound` for a missing role, otherwise `List.Remove` of each matched
     * permission in turn; unknown names are ignored.
     */
    method RemovePermissionsFromRole(routeId: Guid, id: Guid, names: seq<Option<string>>) returns (r: Reply<Result<()>>)
      modifies roles
      ensures routeId != id ==> r == BadRequest(MismatchedRoleId)
      ensures routeId == id && RoleIndex(roles, id) == -1 ==> r == Sent(Err(NotFoundError(RoleNotFound)))
      ensures routeId == id && RoleIndex(roles, id) >= 0 ==>
        (r == Sent(Ok(())) &&
         var role := roles[RoleIndex(roles, id)];
         role.permissions == RemoveEach(old(role.permissions), Matching(permissions, names)) &&
         role.name == old(role.name) && role.users == old(role.users))
      ensures forall x :: x in roles && (r != Sent(Ok(())) || x != roles[RoleIndex(roles, id)]) ==> unchanged(x)
    {
      if routeId != id {
        return BadRequest(MismatchedRoleId);
      }
      var k := RoleIndex(roles, id);
      if k == -1 {
        return Sent(Err(NotFoundError(RoleNotFound)));
      }
      var role := roles[k];
      role.RemovePermissions(Matching(permissions, names));
      r := Sent(Ok(()));
    }
  }

  /**
   * Removing the matched permissions takes one copy of each away and keeps
   * every permission the request does not name, as many times as it was there.
   */
  lemma RemovedPermissions(rolePermissions: seq<Permission>, ps: seq<Permission>, names: seq<Option<string>>)
    ensures var after := RemoveEach(rolePermissions, Matching(ps, names));
      multiset(after) == multiset(rolePermissions) - multiset(Matching(ps, names)) &&
      forall p: Permission :: Some(p.name) !in names ==> multiset(after)[p] == multiset(rolePermissions)[p]
  {
    var m := Matching(ps, names);
    RemoveEachMultiset(rolePermissions, m);
    forall p: Permission | Some(p.name) !in names
      ensures multiset(m)[p] == 0
    {
      assert p !in m;
    }
  }

  /** A role's only copy of a stored permission it is asked to drop is gone afterwards. */
  lemma RemovedPermissionGone(rolePermissions: seq<Permission>, ps: seq<Permission>, names: seq<Option<string>>, p: Permission)
    requires p in ps && Some(p.name) in names
    requires multiset(rolePermissions)[p] <= 1
    ensures p !in RemoveEach(rolePermissions, Matching(ps, names))
  {
    var m := Matching(ps, names);
    RemoveEachMultiset(rolePermissions, m);
    assert p in m;
    RemovedCopyGone(rolePermissions, m, RemoveEach(rolePermissions, m), p);
  }
}
