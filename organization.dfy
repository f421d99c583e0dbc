/**
 * The Organization service: its users and their roles, invitations to join
 * an organization, and the lookup of the caller's own organization.
 */
module Organizations {
  import opened Common
  import opened Linq

  /**
   * A role of the organization service, by its name and the names of its
   * permissions. Its class is not part of this model: `HasPermission` is
   * taken to be a test on those names.
   */
  datatype OrganizationRole = OrganizationRole(name: string, permissions: seq<string>)

  /** The role's `HasPermission`. */
  function Grants(permission: string): OrganizationRole -> bool {
    (r: OrganizationRole) => permission in r.permissions
  }

  /** The predicate `x => x.Name == role`. */
  function RoleNamed(name: string): OrganizationRole -> bool {
    (r: OrganizationRole) => r.name == name
  }

  class User {
    const id: Guid
    var name: string
    var email: string
    var password: string
    var roles: seq<OrganizationRole>

    /** The constructors without roles (the first draws `id` from `Guid.NewGuid`): `Roles` starts empty. */
    constructor(id: Guid, name: string, email: string, password: string)
      ensures this.id == id && this.name == name && this.email == email && this.password == password
      ensures roles == []
    {
      this.id := id;
      this.name := name;
      this.email := email;
      this.password := password;
      roles := [];
    }

    /** The constructor that takes the user's roles. */
    constructor WithRoles(id: Guid, name: string, email: string, password: string, roles: seq<OrganizationRole>)
      ensures this.id == id && this.name == name && this.email == email && this.password == password
      ensures this.roles == roles
    {
      this.id := id;
      this.name := name;
      this.email := email;
      this.password := password;
      this.roles := roles;
    }

    /** `HasPermission`: some role of the user grants the permission. */
    function HasPermission(permission: string): (r: bool)
      reads this
      ensures r <==> exists role :: role in roles && permission in role.permissions
    {
      Any(roles, Grants(permission))
    }

    /** `AddRole`: appends, after which the user holds every permission of the role. */
    method AddRole(role: OrganizationRole)
      modifies this
      ensures roles == old(roles) + [role]
      ensures name == old(name) && email == old(email) && password == old(password)
      ensures forall p :: p in role.permissions ==> HasPermission(p)
      ensures forall p :: old(HasPermission(p)) ==> HasPermission(p)
    {
      roles := roles + [role];
      assert roles[|roles| - 1] == role;
      assert forall k :: 0 <= k < |old(roles)| ==> roles[k] == old(roles)[k];
    }

    /**
     * `RemoveRole`: `RemoveAt(FindIndex(x => x.Name == name))`. Without a role
     * of that name `RemoveAt(-1)` throws (`threw`); otherwise only the first
     * role of that name goes.
     */
    method RemoveRole(roleName: string) returns (threw: bool)
      modifies this
      ensures threw <==> forall k :: 0 <= k < |old(roles)| ==> old(roles)[k].name != roleName
      ensures threw ==> roles == old(roles)
      ensures !threw ==>
        exists i :: (0 <= i < |old(roles)| && old(roles)[i].name == roleName &&
                     (forall k :: 0 <= k < i ==> old(roles)[k].name != roleName) &&
                     roles == old(roles)[..i] + old(roles)[i + 1..])
      ensures name == old(name) && email == old(email) && password == old(password)
    {
      var i := FirstWhere(roles, RoleNamed(roleName));
      if i == -1 {
        return true;
      }
      roles := roles[..i] + roles[i + 1..];
      threw := false;
    }
  }

  /** After removing a role, the user keeps every permission that another of its roles grants. */
  lemma RemoveRoleKeepsOtherGrants(roles: seq<OrganizationRole>, i: nat, permission: string)
    requires i < |roles|
    requires exists k :: 0 <= k < |roles| && k != i && permission in roles[k].permissions
    ensures Any(roles[..i] + roles[i + 1..], Grants(permission))
  {
    var k :| 0 <= k < |roles| && k != i && permission in roles[k].permissions;
    var rest := roles[..i] + roles[i + 1..];
    if k < i {
      assert rest[k] == roles[k];
    } else {
      assert rest[k - 1] == roles[k];
    }
  }

  /** The statuses an invitation goes through here. */
  datatype InviteStatus = Pending | Accepted | Expired

  /** A stored invitation; its constructors set `ExpiresAt` to thirty minutes after creation. */
  datatype Invite = Invite(id: Guid, organizationId: Guid, email: string, roleId: Guid, invitedById: Guid,
                           status: InviteStatus, expiresAt: Time)

  /** A membership of a user in an organization. */
  datatype Member = Member(organizationId: Guid, userId: Guid)

  datatype Organization = Organization(id: Guid, name: string, slug: string, ownerId: Guid)

  const InviteLifetime: int := 30 * TicksPerMinute

  /** The invitation the constructors build at time `now`. */
  function NewInvite(id: Guid, organizationId: Guid, email: string, roleId: Guid, invitedById: Guid,
                     status: InviteStatus, now: Time): (r: Invite)
    ensures r.expiresAt - now == 30 * TicksPerMinute
    ensures r.id == id && r.organizationId == organizationId && r.status == status
  {
    Invite(id, organizationId, email, roleId, invitedById, status, now + InviteLifetime)
  }

  /** The three tables an acceptance can touch, and its answer. */
  datatype Acceptance = Acceptance(outcome: Outcome<()>, invites: seq<Invite>, members: seq<Member>)

  const AlreadyAccepted: string := "The invite has already been accepted"

  /** `$"Item with id of {id} was not found."`, with `show` as the id's text. */
  function InviteNotFound(show: Guid -> string, id: Guid): string {
    "Item with id of " + show(id) + " was not found."
  }

  /** `$"The item with id of {id} has expired."`, with `show` as the id's text. */
  function InviteExpired(show: Guid -> string, id: Guid): string {
    "The item with id of " + show(id) + " has expired."
  }

  /**
   * `AcceptOrganizationInviteHandler.Handle` on the stored tables, at time
   * `now`, for the current user's id text `currentUser` and `Guid.Parse` as
   * `parse`. `saveExpiry` says whether the expired status reaches the store.
   */
  function AcceptWith(invites: seq<Invite>, members: seq<Member>, id: Guid, now: Time, currentUser: Option<string>,
                      parse: string -> Option<Guid>, show: Guid -> string, saveExpiry: bool): (r: Acceptance)
    ensures SingleWhere(invites, (x: Invite) => x.id == id).NoMatch? ==>
      r == Acceptance(Returned(Err(NotFoundError(InviteNotFound(show, id)))), invites, members)
    ensures r.members != members ==>
      r.outcome == Returned(Ok(())) && currentUser.Some? && parse(currentUser.value).Some? &&
      exists i :: (0 <= i < |invites| && invites[i].id == id && invites[i].expiresAt >= now &&
                   invites[i].status != Accepted &&
                   r.members == members + [Member(invites[i].organizationId, parse(currentUser.value).value)] &&
                   r.invites == invites[i := invites[i].(status := Accepted)])
  {
    match SingleWhere(invites, (x: Invite) => x.id == id)
    case Ambiguous => Acceptance(Threw, invites, members)
    case NoMatch => Acceptance(Returned(Err(NotFoundError(InviteNotFound(show, id)))), invites, members)
    case Match(i) =>
      var invite := invites[i];
      if invite.expiresAt < now then
        Acceptance(Returned(Err(ConflictError(InviteExpired(show, id)))),
                   if saveExpiry then invites[i := invite.(status := Expired)] else invites, members)
      else if invite.status == Accepted then
        Acceptance(Returned(Err(ConflictError(AlreadyAccepted))), invites, members)
      else if currentUser.None? || parse(currentUser.value).None? then
        Acceptance(Threw, invites, members)
      else
        Acceptance(Returned(Ok(())), invites[i := invite.(status := Accepted)],
                   members + [Member(invite.organizationId, parse(currentUser.value).value)])
  }

  /** The handler as written: the expired status is set on the tracked invite and never saved. */
  function AcceptInviteAsWritten(invites: seq<Invite>, members: seq<Member>, id: Guid, now: Time, currentUser: Option<string>,
                                 parse: string -> Option<Guid>, show: Guid -> string): Acceptance {
    AcceptWith(invites, members, id, now, currentUser, parse, show, false)
  }

  /** The handler as its expiry branch means it: the expired status is stored. */
  function AcceptInvite(invites: seq<Invite>, members: seq<Member>, id: Guid, now: Time, currentUser: Option<string>,
                        parse: string -> Option<Guid>, show: Guid -> string): Acceptance {
    AcceptWith(invites, members, id, now, currentUser, parse, show, true)
  }

  /**
   * As written, an expired invitation is refused with the expiry conflict
   * whatever its status, and no member is added, but the stored invitation
   * keeps its status: the expired mark is never saved.
   */
  lemma ExpiredInviteNotStoredAsWritten(invites: seq<Invite>, members: seq<Member>, i: nat, now: Time,
                                        currentUser: Option<string>, parse: string -> Option<Guid>, show: Guid -> string)
    requires i < |invites| && invites[i].expiresAt < now
    requires forall k :: 0 <= k < |invites| && k != i ==> invites[k].id != invites[i].id
    ensures var w := AcceptInviteAsWritten(invites, members, invites[i].id, now, currentUser, parse, show);
      w.outcome == Returned(Err(ConflictError(InviteExpired(show, invites[i].id)))) &&
      w.invites == invites && w.members == members
  {
    var id := invites[i].id;
    assert SingleWhere(invites, (x: Invite) => x.id == id) == Match(i);
  }

  /**
   * The expiry check comes first: an expired invitation is refused with the
   * expiry conflict whatever its status, no member is added, and the stored
   * invitation is marked expired while the others stay as they were.
   */
  lemma ExpiredInviteRefused(invites: seq<Invite>, members: seq<Member>, i: nat, now: Time, currentUser: Option<string>,
                             parse: string -> Option<Guid>, show: Guid -> string)
    requires i < |invites| && invites[i].expiresAt < now
    requires forall k :: 0 <= k < |invites| && k != i ==> invites[k].id != invites[i].id
    ensures var c := AcceptInvite(invites, members, invites[i].id, now, currentUser, parse, show);
      c.outcome == Returned(Err(ConflictError(InviteExpired(show, invites[i].id)))) &&
      c.members == members && c.invites[i].status == Expired &&
      (forall k :: 0 <= k < |invites| && k != i ==> c.invites[k] == invites[k])
  {
    var id := invites[i].id;
    assert SingleWhere(invites, (x: Invite) => x.id == id) == Match(i);
  }

  /**
   * An invitation admits one member: once accepted, accepting it again (at
   * any time before it expires) is a conflict and adds no one.
   */
  lemma AcceptedOnce(invites: seq<Invite>, members: seq<Member>, id: Guid, now: Time, later: Time,
                     currentUser: Option<string>, parse: string -> Option<Guid>, show: Guid -> string)
    requires AcceptInvite(invites, members, id, now, currentUser, parse, show).outcome == Returned(Ok(()))
    requires now <= later
    ensures var first := AcceptInvite(invites, members, id, now, currentUser, parse, show);
      var second := AcceptInvite(first.invites, first.members, id, later, currentUser, parse, show);
      |first.members| == |members| + 1 &&
      second.members == first.members &&
      (second.outcome == Returned(Err(ConflictError(AlreadyAccepted))) ||
       second.outcome == Returned(Err(ConflictError(InviteExpired(show, id)))))
  {
    var p := (x: Invite) => x.id == id;
    var i := SingleWhere(invites, p).index;
    var first := AcceptInvite(invites, members, id, now, currentUser, parse, show);
    var after := invites[i := invites[i].(status := Accepted)];
    assert first.invites == after;
    forall k | 0 <= k < |after| ensures p(after[k]) == p(invites[k]) {
    }
    SingleWhereSame(invites, after, p);
    assert SingleWhere(after, p) == Match(i);
  }

  /** Two sequences whose elements pass the same filter at the same places have the same single match. */
  lemma {:induction false} SingleWhereSame<T>(s: seq<T>, t: seq<T>, p: T -> bool)
    requires |s| == |t|
    requires forall k :: 0 <= k < |s| ==> p(s[k]) == p(t[k])
    ensures SingleWhere(s, p) == SingleWhere(t, p)
    decreases |s|
  {
    if s != [] {
      var n := |s| - 1;
      SingleWhereSame(s[..n], t[..n], p);
    }
  }

  /** What `GetMyOrganization` answers with. */
  datatype OrganizationDto = OrganizationDto(id: Guid, name: string, ownerId: Guid)

  function ToDto(o: Organization): (r: OrganizationDto)
    ensures r.id == o.id && r.name == o.name && r.ownerId == o.ownerId
  {
    OrganizationDto(o.id, o.name, o.ownerId)
  }

  /**
   * `GetMyOrganizationQueryHandler.Handle`. `Guid.Parse` (`parse`) throws on
   * a null or malformed id; `Guid.Empty` is `Unauthorized`; the first
   * organization the caller owns wins; otherwise the organization of the
   * caller's first membership; otherwise `NotFound`.
   */
  function GetMyOrganization(organizations: seq<Organization>, members: seq<Member>, currentUser: Option<string>,
                             parse: string -> Option<Guid>): (r: Outcome<OrganizationDto>)
    ensures r.Threw? <==> currentUser.None? || parse(currentUser.value).None?
    ensures r.Returned? && parse(currentUser.value).value == EmptyGuid ==> r.result == Err(UnauthorizedError("Unauthorized"))
    ensures r.Returned? && r.result.Ok? ==>
      var u := parse(currentUser.value).value;
      exists o :: o in organizations && r.result.value == ToDto(o) && (o.ownerId == u || Member(o.id, u) in members)
  {
    if currentUser.None? || parse(currentUser.value).None? then Threw
    else
      var u := parse(currentUser.value).value;
      if u == EmptyGuid then Returned(Err(UnauthorizedError("Unauthorized")))
      else
        var owned := FirstWhere(organizations, (o: Organization) => o.ownerId == u);
        if owned >= 0 then Returned(Ok(ToDto(organizations[owned])))
        else
          var m := FirstWhere(members, (x: Member) => x.userId == u);
          if m == -1 then Returned(Err(NotFoundError("Organization not found")))
          else
            var k := FirstWhere(organizations, (o: Organization) => o.id == members[m].organizationId);
            if k == -1 then Returned(Err(NotFoundError("Organization not found")))
            else
              assert members[m] == Member(organizations[k].id, u);
              Returned(Ok(ToDto(organizations[k])))
  }

  /** An organization the caller owns is returned before any membership is looked at: the first one owned. */
  lemma OwnerPreferred(organizations: seq<Organization>, members: seq<Member>, user: string,
                       parse: string -> Option<Guid>, i: nat)
    requires parse(user).Some? && parse(user).value != EmptyGuid
    requires i < |organizations| && organizations[i].ownerId == parse(user).value
    requires forall k :: 0 <= k < i ==> organizations[k].ownerId != parse(user).value
    ensures GetMyOrganization(organizations, members, Some(user), parse) == Returned(Ok(ToDto(organizations[i])))
    ensures forall ms: seq<Member> ::
      (GetMyOrganization(organizations, ms, Some(user), parse) ==
       GetMyOrganization(organizations, members, Some(user), parse))
  {
  }

  /**
   * A caller who owns nothing gets the organization of their first
   * membership, and `NotFound` exactly when they have no membership or its
   * organization is gone.
   */
  lemma MemberFallback(organizations: seq<Organization>, members: seq<Member>, user: string, parse: string -> Option<Guid>)
    requires parse(user).Some? && parse(user).value != EmptyGuid
    requires forall o :: o in organizations ==> o.ownerId != parse(user).value
    ensures var u := parse(user).value;
      var r := GetMyOrganization(organizations, members, Some(user), parse);
      (r == Returned(Err(NotFoundError("Organization not found"))) <==>
        (forall m :: m in members ==> m.userId != u) ||
        exists j :: 0 <= j < |members| && members[j].userId == u && (forall k :: 0 <= k < j ==> members[k].userId != u) &&
          forall o :: o in organizations ==> o.id != members[j].organizationId)
  {
    var u := parse(user).value;
    var owned := FirstWhere(organizations, (o: Organization) => o.ownerId == u);
    assert owned == -1;
    var m := FirstWhere(members, (x: Member) => x.userId == u);
    if m >= 0 {
      var k := FirstWhere(organizations, (o: Organization) => o.id == members[m].organizationId);
      if k == -1 {
        assert forall o :: o in organizations ==> o.id != members[m].organizationId;
      } else {
        assert organizations[k] in organizations;
        forall j | 0 <= j < |members| && members[j].userId == u && (forall k :: 0 <= k < j ==> members[k].userId != u)
          ensures j == m
        {
        }
      }
    } else {
      assert forall x :: x in members ==> x.userId != u;
    }
  }

  /** The Organization service's database context. */
  class OrganizationContext {
    var organizations: seq<Organization>
    var members: seq<Member>
    var invites: seq<Invite>

    /**
     * `AcceptOrganizationInviteHandler.Handle` as written. The invite is the
     * tracked entity: its status changes in memory, and only `SaveChanges`
     * (taken to succeed) writes it and the new member to the tables.
     */
    method AcceptInviteHandler(id: Guid, now: Time, currentUser: Option<string>, parse: string -> Option<Guid>,
                               show: Guid -> string) returns (r: Outcome<()>)
      modifies this
      ensures organizations == old(organizations)
      ensures Acceptance(r, invites, members) ==
        AcceptInviteAsWritten(old(invites), old(members), id, now, currentUser, parse, show)
    {
      var m := SingleWhere(invites, (x: Invite) => x.id == id);
      if m.Ambiguous? {
        return Threw;
      }
      if m.NoMatch? {
        return Returned(Err(NotFoundError(InviteNotFound(show, id))));
      }
      var invite := invites[m.index];
      if invite.expiresAt < now {
        // Only the tracked copy changes; nothing saves it.
        invite := invite.(status := Expired);
        return Returned(Err(ConflictError(InviteExpired(show, id))));
      }
      if invite.status == Accepted {
        return Returned(Err(ConflictError(AlreadyAccepted)));
      }
      invite := invite.(status := Accepted);
      if currentUser.None? || parse(currentUser.value).None? {
        return Threw;
      }
      var member := Member(invite.organizationId, parse(currentUser.value).value);
      invites := invites[m.index := invite];
      members := members + [member];
      r := Returned(Ok(()));
    }
  }
}
